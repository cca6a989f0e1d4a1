/** The difficulty strip (`generate_difficulty`): one glyph recoloured from white to
    the card type's colour, tiled `d` times side by side with no gap on a white canvas
    of `glyph_w * d` by `glyph_h`, then resized to a quarter of
    `((glyph_w + 10) * d, glyph_h)`. The resize resamples pixels and is not modelled;
    its target size is. */
module Difficulty {
  import opened Outcomes
  import opened Raster

  /** Why rendering a face can fail. `InvalidColor`: the imaging library could not
      read the card type's colour. `BadSize`: it refused a canvas or resize target
      (a negative width, or a target with no pixel). */
  datatype RenderError = InvalidColor | BadSize

  /** The colour reader of the imaging library (`ImageColor.getrgb`), which this
      model does not implement; `None` where it raises. */
  type ColorParser = string -> Option<Rgb>

  /** `ImageColor.getrgb(card_type.color)`: a null or empty colour is an error. */
  function GetRgb(colour: Option<string>, parse: ColorParser): (r: Result<Rgb, RenderError>)
    ensures r.Ok? <==> colour.Some? && colour.value != "" && parse(colour.value).Some?
    ensures r.Ok? ==> Some(r.value) == parse(colour.value)
    ensures r.Err? ==> r.error == InvalidColor
  {
    if colour.None? || colour.value == "" then Err(InvalidColor)
    else match parse(colour.value)
      case None => Err(InvalidColor)
      case Some(c) => Ok(c)
  }

  /** Sizes and tile offsets of a strip of `d` glyphs. */
  datatype StripGeometry = StripGeometry(
    canvasW: int, canvasH: nat, offsets: seq<int>, finalW: int, finalH: int)

  function StripPlan(glyphW: nat, glyphH: nat, d: int): (r: Result<StripGeometry, RenderError>)
    ensures r.Ok? <==> d >= 1 && (glyphW + 10) * d / 4 >= 1 && glyphH / 4 >= 1
    ensures r.Err? ==> r.error == BadSize
    ensures r.Ok? ==> r.value.canvasW == glyphW * d && r.value.canvasH == glyphH
    ensures r.Ok? ==> |r.value.offsets| == d && forall i :: 0 <= i < d ==> r.value.offsets[i] == glyphW * i
    ensures r.Ok? ==> 4 * r.value.finalW <= (glyphW + 10) * d < 4 * r.value.finalW + 4
    ensures r.Ok? ==> 4 * r.value.finalH <= glyphH < 4 * r.value.finalH + 4
  {
    if d < 0 then Err(BadSize)
    else
      var g := StripGeometry(glyphW * d, glyphH, seq(d, i => glyphW * i),
                             (glyphW + 10) * d / 4, glyphH / 4);
      if g.finalW < 1 || g.finalH < 1 then Err(BadSize) else Ok(g)
  }

  lemma {:induction false} MulMonotone(w: nat, a: int, b: int)
    requires a <= b
    ensures w * a <= w * b
    decreases w
  {
    if w > 0 {
      MulMonotone(w - 1, a, b);
      assert w * a == (w - 1) * a + a;
      assert w * b == (w - 1) * b + b;
    }
  }

  lemma DivOfTile(x: int, w: int, i: int)
    requires w > 0 && 0 <= i && w * i <= x < w * i + w
    ensures x / w == i && x % w == x - w * i
  {
    var q, r := x / w, x % w;
    assert x == w * q + r && 0 <= r < w;
    if q > i {
      MulMonotone(w, i + 1, q);
    } else if q < i {
      MulMonotone(w, q + 1, i);
    }
  }

  /** Column `x` of a strip of `d` tiles of width `w` lies in tile `x / w` and in no other. */
  lemma TileOfColumn(w: int, d: int, x: int)
    requires w > 0 && 0 <= x < w * d
    ensures 0 <= x / w < d && w * (x / w) <= x < w * (x / w) + w
    ensures forall i :: 0 <= i < d && w * i <= x < w * i + w ==> i == x / w
  {
    var q := x / w;
    assert x == w * q + x % w;
    if q >= d {
      MulMonotone(w, d, q);
    }
    forall i | 0 <= i < d && w * i <= x < w * i + w
      ensures i == q
    {
      DivOfTile(x, w, i);
    }
  }

  /** The `d` tiles of a strip are disjoint and exactly cover its width: every column
      lies in the tile `x / glyph_w`, and in no other. */
  lemma TilesPartitionStrip(glyphW: nat, glyphH: nat, d: int, x: int)
    requires StripPlan(glyphW, glyphH, d).Ok? && glyphW > 0
    requires 0 <= x < StripPlan(glyphW, glyphH, d).value.canvasW
    ensures var g := StripPlan(glyphW, glyphH, d).value;
      && 0 <= x / glyphW < d
      && g.offsets[x / glyphW] <= x < g.offsets[x / glyphW] + glyphW
      && forall i :: 0 <= i < d && g.offsets[i] <= x < g.offsets[i] + glyphW ==> i == x / glyphW
  {
    TileOfColumn(glyphW, d, x);
  }

  /** The final height does not depend on the difficulty; the final width grows with it. */
  lemma FinalSizeByDifficulty(glyphW: nat, glyphH: nat, d1: int, d2: int)
    requires StripPlan(glyphW, glyphH, d1).Ok? && StripPlan(glyphW, glyphH, d2).Ok?
    requires d1 <= d2
    ensures StripPlan(glyphW, glyphH, d1).value.finalH == StripPlan(glyphW, glyphH, d2).value.finalH
    ensures StripPlan(glyphW, glyphH, d1).value.finalW <= StripPlan(glyphW, glyphH, d2).value.finalW
  {
    MulMonotone(glyphW + 10, d1, d2);
  }

  /** The tiles pasted so far: the first `i` tile columns hold the blended glyph and
      the rest of the strip is still white. */
  ghost predicate TiledUpTo(strip: Grid, glyph: Grid, d: nat, i: nat, blend: (Pixel, Pixel) -> Pixel) {
    && IsRect(glyph) && i <= d
    && HasSize(strip, Width(glyph) * d, |glyph|) && IsRect(strip)
    && (Width(glyph) > 0 ==> forall y, x :: 0 <= y < |glyph| && 0 <= x < Width(glyph) * i ==>
          strip[y][x] == blend(White, glyph[y][x % Width(glyph)]))
    && (forall y, x :: 0 <= y < |glyph| && Width(glyph) * i <= x < Width(glyph) * d ==> strip[y][x] == White)
  }

  /** Pasting tile `i` extends the tiled prefix by one tile. */
  lemma TileStep(strip: Grid, glyph: Grid, d: nat, i: nat, blend: (Pixel, Pixel) -> Pixel)
    requires IsRect(glyph) && i < d && TiledUpTo(strip, glyph, d, i, blend)
    ensures TiledUpTo(PasteMasked(strip, glyph, Width(glyph) * i, 0, blend), glyph, d, i + 1, blend)
  {
    var w := Width(glyph);
    var lo := w * i;
    var after := PasteMasked(strip, glyph, lo, 0, blend);
    assert w * (i + 1) == lo + w;
    MulMonotone(w, i + 1, d);
    forall y, x | 0 <= y < |glyph| && lo <= x < lo + w && w > 0
      ensures after[y][x] == blend(White, glyph[y][x % w])
    {
      DivOfTile(x, w, i);
      assert Covers(glyph, lo, 0, x, y);
    }
  }

  /** The pre-resize strip: the recoloured glyph pasted through its own mask at
      x = glyph_w * i for i in 0 .. d-1 on a white canvas. Every pixel of the result
      is the blend of white with the glyph pixel of its column modulo the glyph width. */
  method TileGlyphs(glyph: Grid, d: nat, blend: (Pixel, Pixel) -> Pixel) returns (strip: Grid)
    requires IsRect(glyph)
    ensures HasSize(strip, Width(glyph) * d, |glyph|) && IsRect(strip)
    ensures Width(glyph) > 0 ==> forall y, x :: 0 <= y < |glyph| && 0 <= x < Width(glyph) * d ==>
      strip[y][x] == blend(White, glyph[y][x % Width(glyph)])
  {
    var w, h := Width(glyph), |glyph|;
    strip := Canvas(w * d, h, White);
    var i := 0;
    while i < d
      invariant 0 <= i <= d
      invariant TiledUpTo(strip, glyph, d, i, blend)
    {
      TileStep(strip, glyph, d, i, blend);
      strip := PasteMasked(strip, glyph, w * i, 0, blend);
      i := i + 1;
    }
  }

  /** What the face renderers paste: the glyph recoloured from white to the card type's
      colour, the number of tiles and the strip's geometry. The image itself is
      `TileGlyphs(glyph, count, blend)` (see `PreResizeStrip`) resized to the geometry's
      final size; the resampling is not modelled. */
  datatype GlyphStrip = GlyphStrip(glyph: Grid, count: int, geometry: StripGeometry)

  /** `generate_difficulty(d, card_type)`: the colour is read first, then the canvas
      and resize sizes are checked. */
  function DifficultyStrip(glyph: Grid, d: int, colour: Option<string>, parse: ColorParser): (r: Result<GlyphStrip, RenderError>)
    ensures GetRgb(colour, parse).Err? ==> r == Err(InvalidColor)
    ensures GetRgb(colour, parse).Ok? ==> (r.Ok? <==> StripPlan(Width(glyph), |glyph|, d).Ok?)
    ensures r.Ok? ==> r.value.glyph == ChangeColor(glyph, GetRgb(colour, parse).value, WhiteMarker)
    ensures r.Ok? ==> r.value.count == d && r.value.geometry == StripPlan(Width(glyph), |glyph|, d).value
  {
    var c :- GetRgb(colour, parse);
    var g :- StripPlan(Width(glyph), |glyph|, d);
    Ok(GlyphStrip(ChangeColor(glyph, c, WhiteMarker), d, g))
  }

  /** `generate_difficulty` up to the resize: the colour and sizes are checked, then the
      recoloured glyph is tiled `d` times. The result has the planned canvas size, and
      each pixel is white blended with the recoloured glyph's pixel of its column modulo
      the glyph width. */
  method PreResizeStrip(glyph: Grid, d: int, colour: Option<string>, parse: ColorParser, blend: (Pixel, Pixel) -> Pixel)
    returns (r: Result<Grid, RenderError>)
    requires IsRect(glyph)
    ensures r.Ok? <==> DifficultyStrip(glyph, d, colour, parse).Ok?
    ensures r.Err? ==> r.error == DifficultyStrip(glyph, d, colour, parse).error
    ensures r.Ok? ==> HasSize(r.value, DifficultyStrip(glyph, d, colour, parse).value.geometry.canvasW,
                              DifficultyStrip(glyph, d, colour, parse).value.geometry.canvasH)
    ensures r.Ok? && Width(glyph) > 0 ==>
      forall y, x :: 0 <= y < |glyph| && 0 <= x < DifficultyStrip(glyph, d, colour, parse).value.geometry.canvasW ==>
        r.value[y][x] == blend(White, DifficultyStrip(glyph, d, colour, parse).value.glyph[y][x % Width(glyph)])
  {
    var planned := DifficultyStrip(glyph, d, colour, parse);
    if planned.Err? {
      return Err(planned.error);
    }
    var s := planned.value;
    assert IsRect(s.glyph) && Width(s.glyph) == Width(glyph) by {
      if |glyph| > 0 {
        assert |s.glyph[0]| == |glyph[0]|;
      }
    }
    var tiled := TileGlyphs(s.glyph, s.count, blend);
    r := Ok(tiled);
  }
}
