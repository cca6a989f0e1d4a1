/** One face of a card (`generate_type_card`, `generate_recto_card`,
    `generate_verso_card`). The base 400 x 400 canvas with the contour stamped at the
    origin is computed pixel by pixel. Everything drawn on top of it goes through font
    rendering, masked blending or resampling, so it is kept as an ordered list of
    drawing operations with their integer offsets and sizes.

    The repository holds two versions of the renderers; `Variant` selects one:
    `Current` is app/routers/storybuilders/utils.py and `Legacy` is the older
    routers/storybuilders/utils.py. */
module CardFace {
  import opened Outcomes
  import opened Raster
  import opened Difficulty
  import CardName

  /** Side of the square card canvas, in pixels. */
  const CardSize := 400

  datatype CardType = CardType(id: int, name: string, color: Option<string>)

  datatype Card = Card(
    id: int, name: string, description: string, difficulty: int, cardType: int, extension: int)

  datatype Size = Size(w: nat, h: nat)

  /** The template files the renderers open. Only the sizes of the separator and the
      logo matter, since they are pasted through masks. */
  datatype Assets = Assets(contour: Grid, separator: Size, logo: Size, glyph: Grid)

  predicate WellFormed(a: Assets) {
    IsRect(a.contour) && IsRect(a.glyph)
  }

  datatype Variant = Current | Legacy

  datatype Layer = SeparatorLayer | LogoLayer | DifficultyLayer(strip: GlyphStrip)

  /** Where a text goes: `CentredAt(y)` is centred horizontally at height `y`;
      `CentredOnCard` is centred both ways with the verso's upward bias. Both positions
      depend on font metrics and are not computed. */
  datatype TextAnchor = CentredAt(y: int) | CentredOnCard | At(x: int, y: int)

  datatype DrawOp =
    | PasteOp(layer: Layer, x: int, y: int, w: int, h: int, masked: bool)
    | TextOp(text: string, anchor: TextAnchor, fontSize: nat)

  datatype Face = Face(base: Grid, ops: seq<DrawOp>)

  /** Python truthiness of the card type's colour: neither null nor empty. */
  predicate Truthy(colour: Option<string>) {
    colour.Some? && colour.value != ""
  }

  /** `generate_type_card`: a white 400 x 400 canvas with the contour pasted at (0, 0),
      its grey marker pixels recoloured only when the type has a colour. */
  function TypeCard(contour: Grid, colour: Option<string>, parse: ColorParser): (r: Result<Grid, RenderError>)
    requires IsRect(contour)
    ensures r.Ok? <==> !Truthy(colour) || parse(colour.value).Some?
    ensures r.Err? ==> r.error == InvalidColor
    ensures r.Ok? ==> HasSize(r.value, CardSize, CardSize) && IsRect(r.value)
    ensures r.Ok? ==> forall y, x :: 0 <= y < CardSize && 0 <= x < CardSize ==>
      if y < |contour| && x < Width(contour) then
        if Truthy(colour) && MatchesMarker(contour[y][x], GreyMarker) then
          var c := parse(colour.value).value;
          r.value[y][x] == Pixel(c.r, c.g, c.b, contour[y][x].a)
        else r.value[y][x] == contour[y][x]
      else r.value[y][x] == White
  {
    var painted :- if Truthy(colour) then
        match GetRgb(colour, parse)
        case Err(e) => Err(e)
        case Ok(c) => Ok(ChangeColor(contour, c, GreyMarker))
      else Ok(contour);
    Ok(Paste(Canvas(CardSize, CardSize, White), painted, 0, 0))
  }

  /** What `generate_recto_card` draws over the type card, given the name as drawn and
      the difficulty strip. */
  function RectoOps(variant: Variant, assets: Assets, name: string, ctype: CardType, strip: GlyphStrip): seq<DrawOp> {
    var sepW, sepH := assets.separator.w + 45, assets.separator.h;
    var sepTop := if variant == Current then 25 else 20;
    var title := TextOp(ctype.name, CentredAt(20), if variant == Current then 34 else 24);
    var separator := PasteOp(SeparatorLayer, CardSize / 2 - sepW / 2, sepTop + sepH + 30, sepW, sepH, true);
    var nameOp := TextOp(name,
                       if variant == Current then At(50, 85) else At(50, 80),
                       if variant == Current then 29 else 24);
    var g := strip.geometry;
    var difficulty := PasteOp(DifficultyLayer(strip), CardSize / 5 + 20, CardSize - g.finalH - 20, g.finalW, g.finalH, false);
    [title, separator, nameOp, difficulty]
  }

  /** `generate_recto_card`: title, separator, card name and difficulty strip, in that
      order, over the type card. */
  function Recto(variant: Variant, assets: Assets, card: Card, ctype: CardType, parse: ColorParser)
    : (r: Result<Face, RenderError>)
    requires WellFormed(assets)
    ensures r.Ok? <==> TypeCard(assets.contour, ctype.color, parse).Ok?
                       && DifficultyStrip(assets.glyph, card.difficulty, ctype.color, parse).Ok?
    ensures r.Ok? ==> r.value.base == TypeCard(assets.contour, ctype.color, parse).value
    ensures r.Ok? ==>
      r.value.ops == RectoOps(variant, assets, CardName.Normalise(card.name), ctype,
                              DifficultyStrip(assets.glyph, card.difficulty, ctype.color, parse).value)
  {
    var base :- TypeCard(assets.contour, ctype.color, parse);
    var strip :- DifficultyStrip(assets.glyph, card.difficulty, ctype.color, parse);
    Ok(Face(base, RectoOps(variant, assets, CardName.Normalise(card.name), ctype, strip)))
  }

  /** What `generate_verso_card` draws over the type card: the logo, the title and, when
      a strip is given, the difficulty strip. */
  function VersoOps(variant: Variant, assets: Assets, ctype: CardType, strip: Option<GlyphStrip>): seq<DrawOp> {
    var logo := PasteOp(LogoLayer, 15, (CardSize - assets.logo.h) / 2, assets.logo.w, assets.logo.h, true);
    var title := TextOp(ctype.name, CentredOnCard, if variant == Current then 45 else 40);
    if strip.None? then [logo, title]
    else
      var g := strip.value.geometry;
      [logo, title, PasteOp(DifficultyLayer(strip.value), CardSize / 5 + 20, CardSize - g.finalH - CardSize / 4,
                            g.finalW, g.finalH, false)]
  }

  /** `generate_verso_card`: logo and title over the type card, then (current version
      only) the difficulty strip. */
  function Verso(variant: Variant, assets: Assets, card: Card, ctype: CardType, parse: ColorParser)
    : (r: Result<Face, RenderError>)
    requires WellFormed(assets)
    ensures r.Ok? <==> TypeCard(assets.contour, ctype.color, parse).Ok?
                       && (variant == Current ==> DifficultyStrip(assets.glyph, card.difficulty, ctype.color, parse).Ok?)
    ensures r.Ok? ==> r.value.base == TypeCard(assets.contour, ctype.color, parse).value
    ensures r.Ok? && variant == Legacy ==> r.value.ops == VersoOps(Legacy, assets, ctype, None)
    ensures r.Ok? && variant == Current ==>
      r.value.ops == VersoOps(Current, assets, ctype, Some(DifficultyStrip(assets.glyph, card.difficulty, ctype.color, parse).value))
  {
    var base :- TypeCard(assets.contour, ctype.color, parse);
    match variant
    case Legacy => Ok(Face(base, VersoOps(Legacy, assets, ctype, None)))
    case Current =>
      var strip :- DifficultyStrip(assets.glyph, card.difficulty, ctype.color, parse);
      Ok(Face(base, VersoOps(Current, assets, ctype, Some(strip))))
  }

  predicate IsDifficultyOp(op: DrawOp) {
    op.PasteOp? && op.layer.DifficultyLayer?
  }

  // ---------------------------------------------------------------------------
  // Layout facts

  /** Current recto: the separator is widened by 45 px, centred on the card to within a
      pixel and placed 55 px plus its height from the top; the name is drawn at (50, 85)
      without any escape left in it; the strip sits at x = 100 with its bottom 20 px
      above the card's bottom edge. */
  lemma RectoLayout(assets: Assets, card: Card, ctype: CardType, parse: ColorParser)
    requires WellFormed(assets)
    requires Recto(Current, assets, card, ctype, parse).Ok?
    ensures var f := Recto(Current, assets, card, ctype, parse).value;
      var sw, sh := assets.separator.w + 45, assets.separator.h;
      && |f.ops| == 4
      && f.ops[0] == TextOp(ctype.name, CentredAt(20), 34)
      && f.ops[1] == PasteOp(SeparatorLayer, 200 - sw / 2, 55 + sh, sw, sh, true)
      && -1 <= (CardSize - (f.ops[1].x + sw)) - f.ops[1].x <= 0
      && f.ops[2] == TextOp(CardName.Normalise(card.name), At(50, 85), 29)
      && CardName.NoEscapePair(f.ops[2].text)
      && IsDifficultyOp(f.ops[3]) && f.ops[3].x == 100
      && CardSize - (f.ops[3].y + f.ops[3].h) == 20
      && f.ops[3].layer.strip.count == card.difficulty
  {
    var strip := DifficultyStrip(assets.glyph, card.difficulty, ctype.color, parse).value;
    assert strip.count == card.difficulty;
    RectoOpsLayout(assets, CardName.Normalise(card.name), ctype, strip);
  }

  /** `RectoLayout` for any strip, stated on the drawing operations alone. */
  lemma RectoOpsLayout(assets: Assets, name: string, ctype: CardType, strip: GlyphStrip)
    ensures var ops := RectoOps(Current, assets, name, ctype, strip);
      var sw, sh := assets.separator.w + 45, assets.separator.h;
      && |ops| == 4
      && ops[0] == TextOp(ctype.name, CentredAt(20), 34)
      && ops[1] == PasteOp(SeparatorLayer, 200 - sw / 2, 55 + sh, sw, sh, true)
      && -1 <= (CardSize - (ops[1].x + sw)) - ops[1].x <= 0
      && ops[2] == TextOp(name, At(50, 85), 29)
      && ops[3].PasteOp? && ops[3].layer == DifficultyLayer(strip) && ops[3].x == 100
      && CardSize - (ops[3].y + ops[3].h) == 20
  {
  }

  /** Current verso: the logo sits 15 px from the left edge, centred vertically to within
      a pixel; the strip sits at x = 100 with its bottom 100 px above the card's bottom
      edge. */
  lemma VersoLayout(assets: Assets, card: Card, ctype: CardType, parse: ColorParser)
    requires WellFormed(assets)
    requires Verso(Current, assets, card, ctype, parse).Ok?
    ensures var f := Verso(Current, assets, card, ctype, parse).value;
      var lh := assets.logo.h;
      && |f.ops| == 3
      && f.ops[0] == PasteOp(LogoLayer, 15, (400 - lh) / 2, assets.logo.w, lh, true)
      && 0 <= (CardSize - (f.ops[0].y + lh)) - f.ops[0].y <= 1
      && f.ops[1] == TextOp(ctype.name, CentredOnCard, 45)
      && IsDifficultyOp(f.ops[2]) && f.ops[2].x == 100
      && f.ops[2].y == 300 - f.ops[2].h
      && CardSize - (f.ops[2].y + f.ops[2].h) == 100
  {
    VersoOpsLayout(assets, ctype, DifficultyStrip(assets.glyph, card.difficulty, ctype.color, parse).value);
  }

  /** `VersoLayout` for any strip, stated on the drawing operations alone. */
  lemma VersoOpsLayout(assets: Assets, ctype: CardType, strip: GlyphStrip)
    ensures var ops := VersoOps(Current, assets, ctype, Some(strip));
      var lh := assets.logo.h;
      && |ops| == 3
      && ops[0] == PasteOp(LogoLayer, 15, (400 - lh) / 2, assets.logo.w, lh, true)
      && 0 <= (CardSize - (ops[0].y + lh)) - ops[0].y <= 1
      && ops[1] == TextOp(ctype.name, CentredOnCard, 45)
      && ops[2].PasteOp? && ops[2].layer == DifficultyLayer(strip) && ops[2].x == 100
      && ops[2].y == 300 - ops[2].h
      && CardSize - (ops[2].y + ops[2].h) == 100
  {
  }

  /** The two faces of one card carry the same strip at the same x; on the verso it is
      exactly 80 px higher. */
  lemma VersoStripIs80Higher(assets: Assets, card: Card, ctype: CardType, parse: ColorParser)
    requires WellFormed(assets)
    requires Recto(Current, assets, card, ctype, parse).Ok?
    ensures Verso(Current, assets, card, ctype, parse).Ok?
    ensures var recto := Recto(Current, assets, card, ctype, parse).value.ops[3];
      var verso := Verso(Current, assets, card, ctype, parse).value.ops[2];
      verso.layer == recto.layer && verso.x == recto.x && verso.y == recto.y - 80
  {
    var strip := DifficultyStrip(assets.glyph, card.difficulty, ctype.color, parse).value;
    RectoOpsLayout(assets, CardName.Normalise(card.name), ctype, strip);
    VersoOpsLayout(assets, ctype, strip);
  }

  /** Legacy recto: the separator sits 5 px higher (50 px plus its height) and the name
      is drawn at (50, 80); the strip is placed as in the current version. */
  lemma LegacyRectoLayout(assets: Assets, card: Card, ctype: CardType, parse: ColorParser)
    requires WellFormed(assets)
    requires Recto(Legacy, assets, card, ctype, parse).Ok?
    ensures Recto(Current, assets, card, ctype, parse).Ok?
    ensures var old_ := Recto(Legacy, assets, card, ctype, parse).value;
      var cur := Recto(Current, assets, card, ctype, parse).value;
      var sh := assets.separator.h;
      && old_.ops[1].y == 50 + sh && old_.ops[1].y == cur.ops[1].y - 5
      && old_.ops[1].x == cur.ops[1].x
      && old_.ops[2] == TextOp(CardName.Normalise(card.name), At(50, 80), 24)
      && old_.ops[3] == cur.ops[3]
  {
    LegacyRectoOps(assets, CardName.Normalise(card.name), ctype, DifficultyStrip(assets.glyph, card.difficulty, ctype.color, parse).value);
  }

  /** `LegacyRectoLayout` for any strip, stated on the drawing operations alone. */
  lemma LegacyRectoOps(assets: Assets, name: string, ctype: CardType, strip: GlyphStrip)
    ensures var old_ := RectoOps(Legacy, assets, name, ctype, strip);
      var cur := RectoOps(Current, assets, name, ctype, strip);
      var sh := assets.separator.h;
      && old_[1].y == 50 + sh && old_[1].y == cur[1].y - 5
      && old_[1].x == cur[1].x
      && old_[2] == TextOp(name, At(50, 80), 24)
      && old_[3] == cur[3]
  {
  }

  /** Legacy verso: only the logo and the title over the type card; no difficulty strip
      is ever pasted, so the face renders whenever the type card does. */
  lemma LegacyVersoHasNoStrip(assets: Assets, card: Card, ctype: CardType, parse: ColorParser)
    requires WellFormed(assets)
    ensures Verso(Legacy, assets, card, ctype, parse).Ok? <==> TypeCard(assets.contour, ctype.color, parse).Ok?
    ensures Verso(Legacy, assets, card, ctype, parse).Ok? ==>
      var f := Verso(Legacy, assets, card, ctype, parse).value;
      && f.ops == [PasteOp(LogoLayer, 15, (400 - assets.logo.h) / 2, assets.logo.w, assets.logo.h, true),
                   TextOp(ctype.name, CentredOnCard, 40)]
      && forall k :: 0 <= k < |f.ops| ==> !IsDifficultyOp(f.ops[k])
  {
  }

  /** A type without a colour gets the plain contour on its type card, but the current
      renderers still read the colour for the difficulty strip, so both of its faces fail. */
  lemma ColourlessTypeFaces(assets: Assets, card: Card, ctype: CardType, parse: ColorParser)
    requires WellFormed(assets)
    requires !Truthy(ctype.color)
    ensures TypeCard(assets.contour, ctype.color, parse)
         == Ok(Paste(Canvas(CardSize, CardSize, White), assets.contour, 0, 0))
    ensures Recto(Current, assets, card, ctype, parse) == Err(InvalidColor)
    ensures Verso(Current, assets, card, ctype, parse) == Err(InvalidColor)
    ensures Verso(Legacy, assets, card, ctype, parse).Ok?
  {
  }
}
