/** One print sheet pair (`generate_card_prints`): the faces of up to 16 cards pasted
    without mask at the slots of the two anchor tables, on two white 1691 x 2178
    sheets, one for the rectos and one for the versos. */
module PrintSheet {
  import opened Outcomes
  import opened Text
  import opened Raster
  import opened Anchors
  import opened Difficulty

  /** The two rendered faces of one fetched card, or the error its renderer raised. */
  datatype Rendered = Rendered(verso: Result<Grid, RenderError>, recto: Result<Grid, RenderError>)

  /** Why a sheet pair cannot be produced: a face renderer failed, or the card's
      position has no entry in an anchor table (`KeyError`). */
  datatype PrintError = RenderFailed(cause: RenderError) | KeyError(slot: int)

  predicate SquareFace(g: Grid) {
    HasSize(g, SlotSize, SlotSize)
  }

  predicate SquareFaces(faces: seq<Grid>) {
    forall k :: 0 <= k < |faces| ==> SquareFace(faces[k])
  }

  /** Pixel (x, y) lies in none of the slots 1..n. */
  ghost predicate Unused(anchors: map<int, Point>, n: int, x: int, y: int) {
    forall k :: 1 <= k <= n && k in anchors ==> !InSlot(anchors[k], x, y)
  }

  /** `sheet` is a white sheet with face k-1 placed in slot k for every k in 1..n. */
  ghost predicate Composed(sheet: Grid, faces: seq<Grid>, n: nat, anchors: map<int, Point>)
    requires n <= |faces| && n <= SlotCount && SquareFaces(faces) && SheetTable(anchors)
  {
    && HasSize(sheet, SheetW, SheetH)
    && (forall k, y, x :: 1 <= k <= n && 0 <= y < SheetH && 0 <= x < SheetW && InSlot(anchors[k], x, y) ==>
          sheet[y][x] == faces[k - 1][y - anchors[k].y][x - anchors[k].x])
    && (forall y, x :: 0 <= y < SheetH && 0 <= x < SheetW && Unused(anchors, n, x, y) ==>
          sheet[y][x] == White)
  }

  /** Pastes face k-1 at `anchors[k]` for k = 1, 2, ... in order on a white sheet. */
  method ComposeSheet(faces: seq<Grid>, anchors: map<int, Point>) returns (sheet: Grid)
    requires SheetTable(anchors)
    requires |faces| <= SlotCount && SquareFaces(faces)
    ensures Composed(sheet, faces, |faces|, anchors)
  {
    sheet := Canvas(SheetW, SheetH, White);
    var i := 0;
    while i < |faces|
      invariant 0 <= i <= |faces|
      invariant Composed(sheet, faces, i, anchors)
    {
      assert i + 1 in anchors;
      var a := anchors[i + 1];
      var face := faces[i];
      var before := sheet;
      sheet := Paste(sheet, face, a.x, a.y);
      assert Width(before) == SheetW;
      forall y, x | 0 <= y < SheetH && 0 <= x < SheetW
        ensures Covers(face, a.x, a.y, x, y) <==> InSlot(a, x, y)
        ensures InSlot(a, x, y) ==> sheet[y][x] == face[y - a.y][x - a.x]
        ensures !InSlot(a, x, y) ==> sheet[y][x] == before[y][x]
      {
      }
      forall k, y, x | 1 <= k <= i + 1 && 0 <= y < SheetH && 0 <= x < SheetW && InSlot(anchors[k], x, y)
        ensures sheet[y][x] == faces[k - 1][y - anchors[k].y][x - anchors[k].x]
      {
        if k <= i {
          assert Apart(anchors[k], a);
        }
      }
      i := i + 1;
    }
  }

  /** The error the source's loop raises at card k (0-based) when that card is the
      first that fails: its verso renderer, then the verso table lookup, then its recto
      renderer (the recto lookup fails exactly when the verso one does), as Python
      evaluates `verso.paste(generate_verso_card(...), anchors_verso[i])` and then the
      recto line. The lookup of slot k + 1 fails exactly when k >= 16 (`TableDomains`). */
  predicate CardFails(c: Rendered, k: nat) {
    c.verso.Err? || k >= SlotCount || c.recto.Err?
  }

  function CardError(c: Rendered, k: nat): PrintError
    requires CardFails(c, k)
  {
    if c.verso.Err? then RenderFailed(c.verso.error)
    else if k >= SlotCount then KeyError(k + 1)
    else RenderFailed(c.recto.error)
  }

  /** The error of the first failing card from position `i` on, if any. */
  function FirstFailure(cards: seq<Rendered>, i: nat): (r: Option<PrintError>)
    requires i <= |cards|
    ensures r.None? <==> forall k :: i <= k < |cards| ==> !CardFails(cards[k], k)
    ensures r.Some? ==>
      exists k :: i <= k < |cards| && CardFails(cards[k], k)
        && r.value == CardError(cards[k], k)
        && forall j :: i <= j < k ==> !CardFails(cards[j], j)
    decreases |cards| - i
  {
    if i == |cards| then None
    else if CardFails(cards[i], i) then Some(CardError(cards[i], i))
    else FirstFailure(cards, i + 1)
  }

  /** Both tables are keyed by exactly the slots 1..16, so a lookup fails exactly for
      slot numbers above 16. */
  lemma TableDomains()
    ensures forall slot :: slot in AnchorsVerso <==> 1 <= slot <= SlotCount
    ensures forall slot :: slot in AnchorsRecto <==> 1 <= slot <= SlotCount
  {
    forall slot ensures slot in AnchorsVerso <==> 1 <= slot <= SlotCount
      ensures slot in AnchorsRecto <==> 1 <= slot <= SlotCount
    {
      AnchorsClosedForm(slot);
    }
  }

  lemma {:induction false} SeventeenthLookupFails(cards: seq<Rendered>, i: nat)
    requires i <= SlotCount < |cards|
    requires forall k :: i <= k <= SlotCount ==> cards[k].verso.Ok?
    requires forall k :: i <= k < SlotCount ==> cards[k].recto.Ok?
    ensures FirstFailure(cards, i) == Some(KeyError(SlotCount + 1))
    decreases SlotCount - i
  {
    TableDomains();
    if i < SlotCount {
      assert !CardFails(cards[i], i);
      SeventeenthLookupFails(cards, i + 1);
    } else {
      assert CardFails(cards[i], i);
    }
  }

  /** A batch fits on one sheet pair exactly when it has at most 16 cards and every
      face renders; with at most 16 cards only a renderer can fail; with more cards the
      17th lookup fails, unless a face of one of the first 17 cards fails to render first. */
  lemma FailureFree(cards: seq<Rendered>)
    ensures FirstFailure(cards, 0).None? <==>
      |cards| <= SlotCount && forall k :: 0 <= k < |cards| ==> cards[k].verso.Ok? && cards[k].recto.Ok?
    ensures |cards| <= SlotCount && FirstFailure(cards, 0).Some? ==> FirstFailure(cards, 0).value.RenderFailed?
    ensures |cards| > SlotCount && (forall k :: 0 <= k <= SlotCount ==> cards[k].verso.Ok?)
        && (forall k :: 0 <= k < SlotCount ==> cards[k].recto.Ok?)
      ==> FirstFailure(cards, 0) == Some(KeyError(SlotCount + 1))
  {
    TableDomains();
    if |cards| > SlotCount {
      assert CardFails(cards[SlotCount], SlotCount);
      if (forall k :: 0 <= k <= SlotCount ==> cards[k].verso.Ok?)
          && (forall k :: 0 <= k < SlotCount ==> cards[k].recto.Ok?) {
        SeventeenthLookupFails(cards, 0);
      }
    }
  }

  /** A sheet file: the name it gets in the archive and the path it is saved at. */
  datatype SheetFile = SheetFile(name: string, path: string)

  const PrintsDir := "./app/routers/storybuilders/generated/prints/"

  /** `cards_{start}_{end}_{side}.jpeg`. */
  function SheetName(start: int, end: int, side: string): string {
    "cards_" + Decimal(start) + ("_" + Decimal(end) + ("_" + side + ".jpeg"))
  }

  function SheetFileFor(start: int, end: int, side: string): (f: SheetFile)
    ensures f.path == PrintsDir + f.name
  {
    var name := SheetName(start, end, side);
    SheetFile(name, PrintsDir + name)
  }

  /** A sheet name determines the range and the side it was made for. */
  lemma SheetNameInjective(s: int, e: int, side: string, s': int, e': int, side': string)
    requires side in {"recto", "verso"} && side' in {"recto", "verso"}
    ensures SheetName(s, e, side) == SheetName(s', e', side') ==> s == s' && e == e' && side == side'
  {
    if SheetName(s, e, side) == SheetName(s', e', side') {
      SheetNameParts(s, e, side, s', e', side');
    }
  }

  lemma SheetNameParts(s: int, e: int, side: string, s': int, e': int, side': string)
    requires side in {"recto", "verso"} && side' in {"recto", "verso"}
    requires SheetName(s, e, side) == SheetName(s', e', side')
    ensures s == s' && e == e' && side == side'
  {
    NumberedNameInjective("cards_", s, "_" + Decimal(e) + ("_" + side + ".jpeg"),
                          s', "_" + Decimal(e') + ("_" + side' + ".jpeg"));
    NumberedNameInjective("_", e, "_" + side + ".jpeg", e', "_" + side' + ".jpeg");
    assert side == ("_" + side + ".jpeg")[1..6];
    assert side' == ("_" + side' + ".jpeg")[1..6];
  }

  /** The two sheets of the id range [start, end]. The pair of (name, path) the source
      returns for them is `Files`, a function of the range alone. */
  datatype Prints = Prints(start: int, end: int, rectoSheet: Grid, versoSheet: Grid)

  function RectoFile(p: Prints): SheetFile {
    SheetFileFor(p.start, p.end, "recto")
  }

  function VersoFile(p: Prints): SheetFile {
    SheetFileFor(p.start, p.end, "verso")
  }

  /** The recto and verso faces of a batch in which every face rendered. */
  function Rectos(cards: seq<Rendered>): (r: seq<Grid>)
    requires forall k :: 0 <= k < |cards| ==> cards[k].recto.Ok?
    ensures |r| == |cards| && forall k :: 0 <= k < |cards| ==> r[k] == cards[k].recto.value
  {
    seq(|cards|, k requires 0 <= k < |cards| => cards[k].recto.value)
  }

  function Versos(cards: seq<Rendered>): (r: seq<Grid>)
    requires forall k :: 0 <= k < |cards| ==> cards[k].verso.Ok?
    ensures |r| == |cards| && forall k :: 0 <= k < |cards| ==> r[k] == cards[k].verso.value
  {
    seq(|cards|, k requires 0 <= k < |cards| => cards[k].verso.value)
  }

  /** `p` holds the sheets of `cards`: at most 16 cards, all rendered, card k's recto in
      slot k + 1 of the recto sheet and its verso in slot k + 1 of the verso sheet,
      white everywhere else. */
  ghost predicate PrintsOf(p: Prints, cards: seq<Rendered>) {
    && |cards| <= SlotCount
    && (forall k :: 0 <= k < |cards| ==> cards[k].verso.Ok? && cards[k].recto.Ok?)
    && SquareFaces(Rectos(cards)) && SquareFaces(Versos(cards))
    && SheetTable(AnchorsRecto) && SheetTable(AnchorsVerso)
    && Composed(p.rectoSheet, Rectos(cards), |cards|, AnchorsRecto)
    && Composed(p.versoSheet, Versos(cards), |cards|, AnchorsVerso)
  }

  /** `generate_card_prints(start, end)` over the cards the range query returned, in
      that order. The source pastes as it goes; since nothing is saved before the loop
      ends, checking the failures first and then composing both sheets is equivalent. */
  method GenerateCardPrints(start: int, end: int, cards: seq<Rendered>) returns (r: Result<Prints, PrintError>)
    requires forall k :: 0 <= k < |cards| ==>
      (cards[k].verso.Ok? ==> SquareFace(cards[k].verso.value)) &&
      (cards[k].recto.Ok? ==> SquareFace(cards[k].recto.value))
    ensures r.Err? <==> FirstFailure(cards, 0).Some?
    ensures r.Err? ==> r.error == FirstFailure(cards, 0).value
    ensures r.Ok? ==> PrintsOf(r.value, cards)
    ensures r.Ok? ==> r.value.start == start && r.value.end == end
  {
    var failure := FirstFailure(cards, 0);
    if failure.Some? {
      return Err(failure.value);
    }
    FailureFree(cards);
    TablesFitTheSheet();
    var rectos := Rectos(cards);
    var versos := Versos(cards);
    var rectoSheet := ComposeSheet(rectos, AnchorsRecto);
    var versoSheet := ComposeSheet(versos, AnchorsVerso);
    r := Ok(Prints(start, end, rectoSheet, versoSheet));
  }
}
