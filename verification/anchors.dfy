/** The two 16-slot anchor tables of the print sheet (`anchors_recto`,
    `anchors_verso`): a 4 x 4 grid of 400 x 400 card slots on a 1691 x 2178 sheet.
    The verso grid mirrors the recto grid left to right, so that a duplex print puts
    each card's back behind its front. */
module Anchors {

  const SheetW := 1691
  const SheetH := 2178

  /** Side of a rendered face, and so of a slot. */
  const SlotSize := 400

  /** Number of entries in each table. */
  const SlotCount := 16

  datatype Point = Point(x: int, y: int)

  function RectoAt(col: int, row: int): Point {
    Point(SheetW / 4 * col - 400, 50 + SheetH / 4 * row)
  }

  function VersoAt(col: int, row: int): Point {
    Point(SheetW - SheetW / 4 * col, 50 + SheetH / 4 * row)
  }

  const AnchorsRecto: map<int, Point> := map[
    1 := RectoAt(1, 0), 2 := RectoAt(2, 0), 3 := RectoAt(3, 0), 4 := RectoAt(4, 0),
    5 := RectoAt(1, 1), 6 := RectoAt(2, 1), 7 := RectoAt(3, 1), 8 := RectoAt(4, 1),
    9 := RectoAt(1, 2), 10 := RectoAt(2, 2), 11 := RectoAt(3, 2), 12 := RectoAt(4, 2),
    13 := RectoAt(1, 3), 14 := RectoAt(2, 3), 15 := RectoAt(3, 3), 16 := RectoAt(4, 3)]

  const AnchorsVerso: map<int, Point> := map[
    1 := VersoAt(1, 0), 2 := VersoAt(2, 0), 3 := VersoAt(3, 0), 4 := VersoAt(4, 0),
    5 := VersoAt(1, 1), 6 := VersoAt(2, 1), 7 := VersoAt(3, 1), 8 := VersoAt(4, 1),
    9 := VersoAt(1, 2), 10 := VersoAt(2, 2), 11 := VersoAt(3, 2), 12 := VersoAt(4, 2),
    13 := VersoAt(1, 3), 14 := VersoAt(2, 3), 15 := VersoAt(3, 3), 16 := VersoAt(4, 3)]

  /** Column (1..4) and row (0..3) of slot `k`, reading left to right, top to bottom. */
  function Column(k: int): int {
    (k - 1) % 4 + 1
  }

  function Row(k: int): int {
    (k - 1) / 4
  }

  /** Whether pixel (x, y) lies in the slot whose top-left corner is `p`. */
  predicate InSlot(p: Point, x: int, y: int) {
    p.x <= x < p.x + SlotSize && p.y <= y < p.y + SlotSize
  }

  predicate OnSheet(p: Point) {
    0 <= p.x && p.x + SlotSize <= SheetW && 0 <= p.y && p.y + SlotSize <= SheetH
  }

  /** Two slots that share no pixel: one lies wholly left of or above the other. */
  predicate Apart(p: Point, q: Point) {
    p.x + SlotSize <= q.x || q.x + SlotSize <= p.x || p.y + SlotSize <= q.y || q.y + SlotSize <= p.y
  }

  /** A table of slots 1..16, each on the sheet, no two overlapping. */
  ghost predicate SheetTable(m: map<int, Point>) {
    && (forall k :: k in m <==> 1 <= k <= SlotCount)
    && (forall k :: k in m ==> OnSheet(m[k]))
    && (forall k, j :: k in m && j in m && k != j ==> Apart(m[k], m[j]))
  }

  lemma SlotPosition(k: int)
    requires 1 <= k <= SlotCount
    ensures 1 <= Column(k) <= 4 && 0 <= Row(k) <= 3 && k == 4 * Row(k) + Column(k)
  {
  }

  /** Both tables are defined exactly on 1..16; slot k's recto corner is
      (422 col - 400, 50 + 544 row) and its verso corner is (1691 - 422 col, same y). */
  lemma AnchorsClosedForm(k: int)
    ensures k in AnchorsRecto <==> 1 <= k <= SlotCount
    ensures k in AnchorsVerso <==> 1 <= k <= SlotCount
    ensures 1 <= k <= SlotCount ==>
      && AnchorsRecto[k] == Point(422 * Column(k) - 400, 50 + 544 * Row(k))
      && AnchorsVerso[k] == Point(1691 - 422 * Column(k), 50 + 544 * Row(k))
  {
    if 1 <= k <= SlotCount {
      SlotPosition(k);
      assert k == 1 || k == 2 || k == 3 || k == 4 || k == 5 || k == 6 || k == 7 || k == 8
          || k == 9 || k == 10 || k == 11 || k == 12 || k == 13 || k == 14 || k == 15 || k == 16;
    }
  }

  /** The verso slot is the recto slot reflected across the sheet's vertical axis:
      its left edge is where the recto slot's right edge is, counted from the other side. */
  lemma VersoMirrorsRecto(k: int)
    requires 1 <= k <= SlotCount
    ensures AnchorsVerso[k].x == SheetW - (AnchorsRecto[k].x + SlotSize)
    ensures AnchorsVerso[k].y == AnchorsRecto[k].y
  {
    AnchorsClosedForm(k);
  }

  lemma ClosedFormApart(k: int, j: int)
    requires 1 <= k <= SlotCount && 1 <= j <= SlotCount && k != j
    ensures Column(k) != Column(j) || Row(k) != Row(j)
    ensures Column(k) != Column(j) ==> 422 <= 422 * Column(k) - 422 * Column(j) || 422 <= 422 * Column(j) - 422 * Column(k)
    ensures Row(k) != Row(j) ==> 544 <= 544 * Row(k) - 544 * Row(j) || 544 <= 544 * Row(j) - 544 * Row(k)
  {
    SlotPosition(k);
    SlotPosition(j);
  }

  /** Every slot of both tables lies on the sheet and no two slots of a table overlap. */
  lemma TablesFitTheSheet()
    ensures SheetTable(AnchorsRecto)
    ensures SheetTable(AnchorsVerso)
  {
    forall k | 1 <= k <= SlotCount
      ensures OnSheet(AnchorsRecto[k]) && OnSheet(AnchorsVerso[k])
    {
      AnchorsClosedForm(k);
      SlotPosition(k);
    }
    forall k, j | k in AnchorsRecto && j in AnchorsRecto && k != j
      ensures Apart(AnchorsRecto[k], AnchorsRecto[j]) && Apart(AnchorsVerso[k], AnchorsVerso[j])
    {
      AnchorsClosedForm(k);
      AnchorsClosedForm(j);
      ClosedFormApart(k, j);
    }
    forall k ensures k in AnchorsRecto <==> 1 <= k <= SlotCount {
      AnchorsClosedForm(k);
    }
    forall k ensures k in AnchorsVerso <==> 1 <= k <= SlotCount {
      AnchorsClosedForm(k);
    }
  }
}
