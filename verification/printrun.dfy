/** A print run (`generate_print`): the id range [start, end] is walked in windows of
    stride 11, one sheet pair is produced per window, and the sheet files are listed in
    a gzip tar archive, recto before verso for each window. */
module PrintRun {
  import opened Outcomes
  import opened Text
  import opened Anchors
  import opened PrintSheet

  /** The step between the first ids of consecutive windows. */
  const Stride := 11

  /** The inclusive id range `[lo, hi]` handed to `generate_card_prints`. */
  datatype Window = Window(lo: int, hi: int)

  function Min(a: int, b: int): int {
    if a < b then a else b
  }

  /** The windows the `while i <= end_id` loop requests, in order. */
  function Windows(start: int, end: int): seq<Window>
    decreases end - start
  {
    if start > end then []
    else [Window(start, if start + Stride < end then start + Stride else end)] + Windows(start + Stride, end)
  }

  /** Closed form: window k is [start + 11k, min(start + 11k + 11, end)], and there are
      (end - start) div 11 + 1 of them when the range is not empty. */
  lemma {:induction false} WindowsClosedForm(start: int, end: int)
    ensures |Windows(start, end)| == if start > end then 0 else (end - start) / Stride + 1
    ensures forall k :: 0 <= k < |Windows(start, end)| ==>
      Windows(start, end)[k] == Window(start + Stride * k, Min(start + Stride * k + Stride, end))
    decreases end - start
  {
    if start <= end {
      var ws := Windows(start, end);
      var rest := Windows(start + Stride, end);
      WindowsClosedForm(start + Stride, end);
      assert ws == [Window(start, Min(start + Stride, end))] + rest;
      assert (end - start) / Stride == if start + Stride > end then 0 else (end - start - Stride) / Stride + 1;
      forall k | 1 <= k < |ws|
        ensures ws[k] == Window(start + Stride * k, Min(start + Stride * k + Stride, end))
      {
        assert ws[k] == rest[k - 1];
        assert start + Stride + Stride * (k - 1) == start + Stride * k;
      }
    }
  }

  /** Every window is a non-empty sub-range of [start, end] of at most 12 ids, and
      consecutive windows share exactly their boundary id. */
  lemma WindowsShape(start: int, end: int)
    ensures forall k :: 0 <= k < |Windows(start, end)| ==>
      var w := Windows(start, end)[k];
      start <= w.lo <= w.hi <= end && w.hi - w.lo <= Stride
    ensures forall k :: 0 <= k < |Windows(start, end)| - 1 ==>
      Windows(start, end)[k].hi == Windows(start, end)[k + 1].lo
    ensures forall k, j :: 0 <= k < j < |Windows(start, end)| ==>
      Windows(start, end)[k].lo < Windows(start, end)[j].lo
  {
    WindowsClosedForm(start, end);
    var ws := Windows(start, end);
    forall k | 0 <= k < |ws| - 1 ensures ws[k].hi == ws[k + 1].lo {
      assert start + Stride * k + Stride <= end by {
        assert start + Stride * (k + 1) <= end;
      }
    }
  }

  /** Every id of [start, end] lies in some window. */
  lemma WindowsCover(start: int, end: int, id: int)
    requires start <= id <= end
    ensures exists k :: 0 <= k < |Windows(start, end)|
                     && Windows(start, end)[k].lo <= id <= Windows(start, end)[k].hi
  {
    WindowsClosedForm(start, end);
    var k := (id - start) / Stride;
    assert start + Stride * k <= id < start + Stride * k + Stride;
    assert k <= (end - start) / Stride by {
      assert id - start <= end - start;
    }
    assert Windows(start, end)[k].lo <= id <= Windows(start, end)[k].hi;
  }

  // ---------------------------------------------------------------------------
  // The fetched cards of one window

  /** A card row the range query returned: its id and the outcome of rendering its faces. */
  datatype Fetched = Fetched(id: int, faces: Rendered)

  /** What the range query `Card.id >= lo, Card.id <= hi` can return: rows with distinct
      ids inside the range, in some order. */
  predicate FetchedRange(cards: seq<Fetched>, lo: int, hi: int) {
    && (forall k :: 0 <= k < |cards| ==> lo <= cards[k].id <= hi)
    && (forall k, j :: 0 <= k < j < |cards| ==> cards[k].id != cards[j].id)
  }

  function FacesOf(cards: seq<Fetched>): (r: seq<Rendered>)
    ensures |r| == |cards| && forall k :: 0 <= k < |cards| ==> r[k] == cards[k].faces
  {
    seq(|cards|, k requires 0 <= k < |cards| => cards[k].faces)
  }

  function IdSet(cards: seq<Fetched>): set<int> {
    set k | 0 <= k < |cards| :: cards[k].id
  }

  lemma {:induction false} DistinctIdsCount(cards: seq<Fetched>)
    requires forall k, j :: 0 <= k < j < |cards| ==> cards[k].id != cards[j].id
    ensures |IdSet(cards)| == |cards|
    decreases |cards|
  {
    if |cards| > 0 {
      var init := cards[..|cards| - 1];
      var last := cards[|cards| - 1].id;
      DistinctIdsCount(init);
      assert IdSet(cards) == IdSet(init) + {last} by {
        forall id | id in IdSet(cards) ensures id in IdSet(init) + {last} {
          var k :| 0 <= k < |cards| && cards[k].id == id;
          if k < |cards| - 1 {
            assert init[k].id == id;
          }
        }
        forall id | id in IdSet(init) ensures id in IdSet(cards) {
          var k :| 0 <= k < |init| && init[k].id == id;
          assert cards[k].id == id;
        }
      }
      assert last !in IdSet(init) by {
        forall k | 0 <= k < |init| ensures init[k].id != last {
          assert init[k] == cards[k];
        }
      }
    }
  }

  /** The ids lo..hi as a set. */
  function Interval(lo: int, hi: int): (r: set<int>)
    ensures forall i :: i in r <==> lo <= i <= hi
    ensures |r| == if lo <= hi then hi - lo + 1 else 0
    decreases hi - lo
  {
    if lo > hi then {} else {lo} + Interval(lo + 1, hi)
  }

  /** A window's fetch holds at most as many rows as the window has ids. */
  lemma FetchedAtMostWindow(cards: seq<Fetched>, lo: int, hi: int)
    requires lo <= hi && FetchedRange(cards, lo, hi)
    ensures |cards| <= hi - lo + 1
  {
    DistinctIdsCount(cards);
    assert IdSet(cards) <= Interval(lo, hi);
    assert |IdSet(cards)| <= |Interval(lo, hi)| by {
      SubsetSize(IdSet(cards), Interval(lo, hi));
    }
  }

  lemma SubsetSize(a: set<int>, b: set<int>)
    requires a <= b
    ensures |a| <= |b|
  {
    assert b == a + (b - a);
    assert a * (b - a) == {};
  }

  /** A window's rows fit on one sheet. */
  lemma WindowFits(start: int, end: int, k: int, cards: seq<Fetched>)
    requires 0 <= k < |Windows(start, end)|
    requires FetchedRange(cards, Windows(start, end)[k].lo, Windows(start, end)[k].hi)
    ensures |cards| <= Stride + 1 < SlotCount
  {
    WindowsShape(start, end);
    FetchedAtMostWindow(cards, Windows(start, end)[k].lo, Windows(start, end)[k].hi);
  }

  /** Within a print run no sheet ever needs a 13th slot, so the 16-entry anchor lookup
      cannot fail: a window's sheet pair fails only when a face fails to render. */
  lemma WindowNeverOverflows(start: int, end: int, k: int, cards: seq<Fetched>)
    requires 0 <= k < |Windows(start, end)|
    requires FetchedRange(cards, Windows(start, end)[k].lo, Windows(start, end)[k].hi)
    ensures |cards| <= Stride + 1 < SlotCount
    ensures FirstFailure(FacesOf(cards), 0).None? <==>
      forall j :: 0 <= j < |cards| ==> cards[j].faces.verso.Ok? && cards[j].faces.recto.Ok?
    ensures FirstFailure(FacesOf(cards), 0).Some? ==> FirstFailure(FacesOf(cards), 0).value.RenderFailed?
  {
    WindowsShape(start, end);
    var w := Windows(start, end)[k];
    FetchedAtMostWindow(cards, w.lo, w.hi);
    FailureFree(FacesOf(cards));
  }

  // ---------------------------------------------------------------------------
  // The archive

  /** The tar members in the order they are added: for each window its recto sheet,
      then its verso sheet. */
  function TarEntries(ws: seq<Window>): (r: seq<string>)
    ensures |r| == 2 * |ws|
  {
    if ws == [] then []
    else [SheetName(ws[0].lo, ws[0].hi, "recto"), SheetName(ws[0].lo, ws[0].hi, "verso")] + TarEntries(ws[1..])
  }

  lemma {:induction false} TarEntriesOrder(ws: seq<Window>)
    ensures forall k :: 0 <= k < |ws| ==>
      TarEntries(ws)[2 * k] == SheetName(ws[k].lo, ws[k].hi, "recto") &&
      TarEntries(ws)[2 * k + 1] == SheetName(ws[k].lo, ws[k].hi, "verso")
    decreases |ws|
  {
    if ws != [] {
      TarEntriesOrder(ws[1..]);
      forall k | 1 <= k < |ws|
        ensures TarEntries(ws)[2 * k] == SheetName(ws[k].lo, ws[k].hi, "recto")
        ensures TarEntries(ws)[2 * k + 1] == SheetName(ws[k].lo, ws[k].hi, "verso")
      {
        assert TarEntries(ws)[2 * k] == TarEntries(ws[1..])[2 * (k - 1)];
        assert TarEntries(ws)[2 * k + 1] == TarEntries(ws[1..])[2 * (k - 1) + 1];
      }
    }
  }

  function Side(a: nat): string {
    if a % 2 == 0 then "recto" else "verso"
  }

  lemma TarEntryAt(ws: seq<Window>, a: nat)
    requires a < |TarEntries(ws)|
    ensures a / 2 < |ws| && TarEntries(ws)[a] == SheetName(ws[a / 2].lo, ws[a / 2].hi, Side(a))
  {
    TarEntriesOrder(ws);
    var k := a / 2;
    assert a == 2 * k || a == 2 * k + 1;
  }

  /** Windows with strictly increasing first ids give pairwise distinct tar members. */
  lemma TarEntriesDistinct(ws: seq<Window>)
    requires forall k, j :: 0 <= k < j < |ws| ==> ws[k].lo < ws[j].lo
    ensures forall a, b :: 0 <= a < b < |TarEntries(ws)| ==> TarEntries(ws)[a] != TarEntries(ws)[b]
  {
    var es := TarEntries(ws);
    forall a, b | 0 <= a < b < |es| ensures es[a] != es[b] {
      TarEntryAt(ws, a);
      TarEntryAt(ws, b);
      var ka, kb := a / 2, b / 2;
      SheetNameInjective(ws[ka].lo, ws[ka].hi, Side(a), ws[kb].lo, ws[kb].hi, Side(b));
      assert ka < kb || Side(a) != Side(b);
      assert ka < kb ==> ws[ka].lo < ws[kb].lo;
    }
  }

  const GeneratedDir := "./app/routers/storybuilders/generated/"

  /** `generated_prints_{start}_{end}`; the archive file adds `_{timestamp}.tar.gz`,
      the download name only `.tar.gz`. */
  function ArchiveStem(start: int, end: int): string {
    "generated_prints_" + Decimal(start) + "_" + Decimal(end)
  }

  datatype Archive = Archive(path: string, downloadName: string, members: seq<SheetFile>, sheets: seq<Prints>)

  /** The tar members, in the order `generate_print` adds them: each sheet pair's
      recto file, then its verso file. */
  function Members(sheets: seq<Prints>): (r: seq<SheetFile>)
    ensures |r| == 2 * |sheets|
  {
    if sheets == [] then [] else [RectoFile(sheets[0]), VersoFile(sheets[0])] + Members(sheets[1..])
  }

  /** Sheet pairs produced window by window give exactly the tar member names of the
      windows, each stored at the prints directory. */
  lemma {:induction false} MembersMatchEntries(ws: seq<Window>, sheets: seq<Prints>)
    requires |sheets| == |ws|
    requires forall k :: 0 <= k < |ws| ==>
      sheets[k].start == ws[k].lo && sheets[k].end == ws[k].hi
    ensures forall a :: 0 <= a < |Members(sheets)| ==>
      Members(sheets)[a].name == TarEntries(ws)[a] && Members(sheets)[a].path == PrintsDir + Members(sheets)[a].name
    decreases |ws|
  {
    if ws != [] {
      MembersMatchEntries(ws[1..], sheets[1..]);
      var m, e := Members(sheets), TarEntries(ws);
      forall a | 2 <= a < |m| ensures m[a] == Members(sheets[1..])[a - 2] && e[a] == TarEntries(ws[1..])[a - 2] {
      }
    }
  }

  /** The rows of a window whose rendered faces are all square, as the sheet layout needs. */
  predicate SquareRows(cards: seq<Fetched>) {
    forall k :: 0 <= k < |cards| ==>
      (cards[k].faces.verso.Ok? ==> SquareFace(cards[k].faces.verso.value)) &&
      (cards[k].faces.recto.Ok? ==> SquareFace(cards[k].faces.recto.value))
  }

  /** The range query returns, for every window, rows of that window with square faces. */
  ghost predicate GoodFetch(fetch: (int, int) -> seq<Fetched>) {
    (forall lo, hi :: FetchedRange(fetch(lo, hi), lo, hi)) && (forall lo, hi :: SquareRows(fetch(lo, hi)))
  }

  /** Every face of the window's rows renders. */
  predicate Renders(cards: seq<Fetched>) {
    FirstFailure(FacesOf(cards), 0).None?
  }

  /** `p` is the sheet pair of window `w` laid out from its rows `cards`. */
  ghost predicate Printed(p: Prints, w: Window, cards: seq<Fetched>) {
    p.start == w.lo && p.end == w.hi && PrintsOf(p, FacesOf(cards))
  }

  /** One iteration of the window loop: the sheet pair of the window's fetched rows. */
  method PrintWindow(w: Window, cards: seq<Fetched>) returns (r: Result<Prints, PrintError>)
    requires SquareRows(cards)
    ensures r.Err? <==> !Renders(cards)
    ensures r.Err? ==> Some(r.error) == FirstFailure(FacesOf(cards), 0)
    ensures r.Ok? ==> Printed(r.value, w, cards)
  {
    r := GenerateCardPrints(w.lo, w.hi, FacesOf(cards));
  }

  /** The loop over the windows `ws`, whose fetched rows are `rows`, each at most one
      sheet's worth: the sheet pairs in order, or the error of the first window that fails. */
  method PrintAll(ws: seq<Window>, rows: seq<seq<Fetched>>) returns (r: Result<seq<Prints>, PrintError>)
    requires |rows| == |ws|
    requires forall k :: 0 <= k < |rows| ==> SquareRows(rows[k]) && |rows[k]| <= SlotCount
    ensures r.Ok? <==> forall k :: 0 <= k < |rows| ==> Renders(rows[k])
    ensures r.Err? ==>
      exists k :: 0 <= k < |rows|
        && Some(r.error) == FirstFailure(FacesOf(rows[k]), 0)
        && r.error.RenderFailed?
        && forall j :: 0 <= j < k ==> Renders(rows[j])
    ensures r.Ok? ==> |r.value| == |ws| && forall k :: 0 <= k < |ws| ==> Printed(r.value[k], ws[k], rows[k])
  {
    var sheets: seq<Prints> := [];
    var i := 0;
    while i < |ws|
      invariant 0 <= i <= |ws|
      invariant |sheets| == i
      invariant forall k :: 0 <= k < i ==> Renders(rows[k])
      invariant forall k :: 0 <= k < i ==> Printed(sheets[k], ws[k], rows[k])
    {
      FailureFree(FacesOf(rows[i]));
      var prints := PrintWindow(ws[i], rows[i]);
      if prints.Err? {
        return Err(prints.error);
      }
      sheets := sheets + [prints.value];
      i := i + 1;
    }
    r := Ok(sheets);
  }

  /** The window loop of `generate_print`. `fetch(lo, hi)` stands for the rows the range
      query returns for the window [lo, hi]. */
  method PrintWindows(start: int, end: int, fetch: (int, int) -> seq<Fetched>) returns (r: Result<seq<Prints>, PrintError>)
    requires GoodFetch(fetch)
    ensures var ws := Windows(start, end);
      r.Ok? <==> forall k :: 0 <= k < |ws| ==> Renders(fetch(ws[k].lo, ws[k].hi))
    ensures var ws := Windows(start, end);
      r.Err? ==>
        exists k :: 0 <= k < |ws|
          && Some(r.error) == FirstFailure(FacesOf(fetch(ws[k].lo, ws[k].hi)), 0)
          && r.error.RenderFailed?
          && forall j :: 0 <= j < k ==> Renders(fetch(ws[j].lo, ws[j].hi))
    ensures var ws := Windows(start, end);
      r.Ok? ==> |r.value| == |ws| && forall k :: 0 <= k < |ws| ==> Printed(r.value[k], ws[k], fetch(ws[k].lo, ws[k].hi))
  {
    var ws := Windows(start, end);
    var rows := seq(|ws|, k requires 0 <= k < |ws| => fetch(ws[k].lo, ws[k].hi));
    forall k | 0 <= k < |rows| ensures |rows[k]| <= SlotCount {
      WindowFits(start, end, k, rows[k]);
    }
    r := PrintAll(ws, rows);
    assert forall k :: 0 <= k < |ws| ==> rows[k] == fetch(ws[k].lo, ws[k].hi);
  }

  /** The archive of a print run never holds two members under one name: the sheet
      pairs the window loop produces, one per window of [start, end] and carrying its
      bounds, give pairwise distinct member names. */
  lemma GeneratePrintMembersDistinct(start: int, end: int, sheets: seq<Prints>)
    requires |sheets| == |Windows(start, end)|
    requires forall k :: 0 <= k < |sheets| ==>
      sheets[k].start == Windows(start, end)[k].lo && sheets[k].end == Windows(start, end)[k].hi
    ensures forall a, b :: 0 <= a < b < |Members(sheets)| ==> Members(sheets)[a].name != Members(sheets)[b].name
  {
    var ws := Windows(start, end);
    WindowsShape(start, end);
    TarEntriesDistinct(ws);
    MembersMatchEntries(ws, sheets);
  }

  /** `generate_print(start, end)`: the window loop, then the archive of all sheet
      files. `stamp` stands for the decimal rendering of the current time. */
  method GeneratePrint(start: int, end: int, fetch: (int, int) -> seq<Fetched>, stamp: string)
    returns (r: Result<Archive, PrintError>)
    requires GoodFetch(fetch)
    ensures var ws := Windows(start, end);
      r.Ok? <==> forall k :: 0 <= k < |ws| ==> Renders(fetch(ws[k].lo, ws[k].hi))
    ensures var ws := Windows(start, end);
      r.Err? ==>
        exists k :: 0 <= k < |ws|
          && Some(r.error) == FirstFailure(FacesOf(fetch(ws[k].lo, ws[k].hi)), 0)
          && r.error.RenderFailed?
          && forall j :: 0 <= j < k ==> Renders(fetch(ws[j].lo, ws[j].hi))
    ensures r.Ok? ==> |r.value.sheets| == |Windows(start, end)|
    ensures r.Ok? ==> forall k :: 0 <= k < |r.value.sheets| ==>
      Printed(r.value.sheets[k], Windows(start, end)[k], fetch(Windows(start, end)[k].lo, Windows(start, end)[k].hi))
    ensures r.Ok? ==> r.value.members == Members(r.value.sheets)
    ensures r.Ok? ==> |r.value.members| == |TarEntries(Windows(start, end))|
    ensures r.Ok? ==> forall k :: 0 <= k < |r.value.members| ==>
      r.value.members[k].name == TarEntries(Windows(start, end))[k]
      && r.value.members[k].path == PrintsDir + r.value.members[k].name
    ensures r.Ok? ==> r.value.path == GeneratedDir + ArchiveStem(start, end) + "_" + stamp + ".tar.gz"
    ensures r.Ok? ==> r.value.downloadName == ArchiveStem(start, end) + ".tar.gz"
  {
    var sheets :- PrintWindows(start, end, fetch);
    MembersMatchEntries(Windows(start, end), sheets);
    r := Ok(Archive(GeneratedDir + ArchiveStem(start, end) + "_" + stamp + ".tar.gz",
                    ArchiveStem(start, end) + ".tar.gz", Members(sheets), sheets));
  }
}
