/** Repairing stock cells whose ledger lacks an opening balance. */
module OpeningLedger {
  import opened Common

  datatype Cell = Cell(org: nat, product: nat, variant: Option<nat>, location: nat)

  datatype Item = Item(cell: Cell, quantity: real, createdAt: int, costPrice: real)

  datatype Row = Row(
    cell: Cell,
    id: nat,
    createdAt: int,
    qtyBefore: real,
    change: real,
    balanceAfter: real,
    openingBackfill: bool,
    unitCost: real,
    totalValue: real)

  const EPS := 0.000001

  function Abs(x: real): real {
    if x < 0.0 then -x else x
  }

  // ---------------------------------------------------------------------------
  // Reading one cell
  // ---------------------------------------------------------------------------

  function CellRows(rows: seq<Row>, c: Cell): (r: seq<Row>)
    ensures forall i :: 0 <= i < |r| ==> r[i].cell == c
  {
    if rows == [] then []
    else
      var last := rows[|rows| - 1];
      CellRows(rows[..|rows| - 1], c) + if last.cell == c then [last] else []
  }

  function Total(rows: seq<Row>): real {
    if rows == [] then 0.0 else Total(rows[..|rows| - 1]) + rows[|rows| - 1].change
  }

  /** The order of the stock card: by time, then by id. */
  predicate Earlier(a: Row, b: Row) {
    a.createdAt < b.createdAt || (a.createdAt == b.createdAt && a.id < b.id)
  }

  function First(rows: seq<Row>): Option<Row> {
    if rows == [] then None
    else
      var before, last := First(rows[..|rows| - 1]), rows[|rows| - 1];
      if before.None? || Earlier(last, before.value) then Some(last) else before
  }

  predicate HasBackfill(rows: seq<Row>) {
    exists i :: 0 <= i < |rows| && rows[i].openingBackfill
  }

  // ---------------------------------------------------------------------------
  // Deciding and repairing
  // ---------------------------------------------------------------------------

  function Valued(quantity: real, unitCost: real): real {
    Abs(quantity) * unitCost
  }

  datatype Verdict = AlreadyBackfilled | InBalance | Unexplained | Opening(row: Row)

  function Judge(cellRows: seq<Row>, it: Item, newId: nat): Verdict {
    var gap := it.quantity - Total(cellRows);
    var first := First(cellRows);
    if HasBackfill(cellRows) then AlreadyBackfilled
    else if Abs(gap) <= EPS then InBalance
    else if first.Some? && Abs(gap - first.value.qtyBefore) > EPS then Unexplained
    else Opening(Row(it.cell, newId, if first.Some? then first.value.createdAt - 1 else it.createdAt,
                     0.0, gap, gap, true, it.costPrice, Valued(gap, it.costPrice)))
  }

  datatype Report = Report(rows: seq<Row>, fixed: nat, unexplained: nat)

  function Visit(r: Report, it: Item, apply: bool): Report {
    var v := Judge(CellRows(r.rows, it.cell), it, |r.rows|);
    match v
    case Opening(row) => Report(if apply then r.rows + [row] else r.rows, r.fixed + 1, r.unexplained)
    case Unexplained => r.(unexplained := r.unexplained + 1)
    case _ => r
  }

  function VisitAll(r: Report, items: seq<Item>, apply: bool): Report {
    if items == [] then r else Visit(VisitAll(r, items[..|items| - 1], apply), items[|items| - 1], apply)
  }

  lemma VisitAllSnoc(r: Report, items: seq<Item>, i: nat, apply: bool)
    requires i < |items|
    ensures VisitAll(r, items[..i + 1], apply) == Visit(VisitAll(r, items[..i], apply), items[i], apply)
  {
    assert items[..i + 1][..i] == items[..i];
  }

  /** The counters only add up. */
  lemma VisitCountsUp(r: Report, it: Item, apply: bool)
    ensures var one := Visit(Report(r.rows, 0, 0), it, apply);
            Visit(r, it, apply) == Report(one.rows, r.fixed + one.fixed, r.unexplained + one.unexplained)
  {
  }

  class Ledger {
    var rows: seq<Row>

    constructor (initial: seq<Row>)
      ensures rows == initial
    {
      rows := initial;
    }

    /** One turn of the loop: whether the cell was found to need an opening row, or is unexplained. */
    method VisitCell(it: Item, apply: bool) returns (fixed: bool, unexplained: bool)
      modifies this
      ensures Visit(Report(old(rows), 0, 0), it, apply) == Report(rows, if fixed then 1 else 0, if unexplained then 1 else 0)
    {
      fixed, unexplained := false, false;
      var cellRows := CellRows(rows, it.cell);
      if HasBackfill(cellRows) {
        return;
      }
      var first := First(cellRows);
      var gap := it.quantity - Total(cellRows);
      if Abs(gap) <= EPS {
        return;
      }
      if first.Some? && Abs(gap - first.value.qtyBefore) > EPS {
        unexplained := true;
        return;
      }
      var at := if first.Some? then first.value.createdAt - 1 else it.createdAt;
      fixed := true;
      if !apply {
        return;
      }
      rows := rows + [Row(it.cell, |rows|, at, 0.0, gap, gap, true, it.costPrice, Valued(gap, it.costPrice))];
    }

    method Backfill(items: seq<Item>, apply: bool) returns (fixed: nat, unexplained: nat)
      modifies this
      ensures Report(rows, fixed, unexplained) == VisitAll(Report(old(rows), 0, 0), items, apply)
    {
      fixed, unexplained := 0, 0;
      var i := 0;
      while i < |items|
        invariant 0 <= i <= |items|
        invariant Report(rows, fixed, unexplained) == VisitAll(Report(old(rows), 0, 0), items[..i], apply)
      {
        VisitAllSnoc(Report(old(rows), 0, 0), items, i, apply);
        VisitCountsUp(Report(rows, fixed, unexplained), items[i], apply);
        var f, u := VisitCell(items[i], apply);
        if f { fixed := fixed + 1; }
        if u { unexplained := unexplained + 1; }
        i := i + 1;
      }
      assert items[..i] == items;
    }
  }

  // ---------------------------------------------------------------------------
  // The stock card: a cell's rows in time order
  // ---------------------------------------------------------------------------

  function InsertByTime(x: Row, card: seq<Row>): seq<Row> {
    if card == [] || Earlier(x, card[0]) then [x] + card else [card[0]] + InsertByTime(x, card[1..])
  }

  function Card(cellRows: seq<Row>): seq<Row> {
    if cellRows == [] then [] else InsertByTime(cellRows[|cellRows| - 1], Card(cellRows[..|cellRows| - 1]))
  }

  /** The earliest row is the top of the card. */
  lemma {:induction false} FirstIsTopOfCard(cellRows: seq<Row>)
    ensures First(cellRows).None? <==> Card(cellRows) == []
    ensures First(cellRows).Some? ==> First(cellRows).value == Card(cellRows)[0]
  {
    if cellRows != [] {
      FirstIsTopOfCard(cellRows[..|cellRows| - 1]);
    }
  }

  lemma {:induction false} TotalOfConcat(a: seq<Row>, b: seq<Row>)
    ensures Total(a + b) == Total(a) + Total(b)
  {
    if b == [] {
      assert a + b == a;
    } else {
      var init := b[..|b| - 1];
      assert (a + b)[..|a + b| - 1] == a + init;
      TotalOfConcat(a, init);
    }
  }

  lemma {:induction false} InsertionAddsUp(x: Row, card: seq<Row>)
    ensures Total(InsertByTime(x, card)) == Total(card) + x.change
  {
    if card == [] || Earlier(x, card[0]) {
      TotalOfConcat([x], card);
      assert [x][..0] == [];
    } else {
      InsertionAddsUp(x, card[1..]);
      TotalOfConcat([card[0]], InsertByTime(x, card[1..]));
      TotalOfConcat([card[0]], card[1..]);
      assert card == [card[0]] + card[1..];
    }
  }

  lemma {:induction false} CardAddsUp(cellRows: seq<Row>)
    ensures Total(Card(cellRows)) == Total(cellRows)
  {
    if cellRows != [] {
      CardAddsUp(cellRows[..|cellRows| - 1]);
      InsertionAddsUp(cellRows[|cellRows| - 1], Card(cellRows[..|cellRows| - 1]));
    }
  }

  /** Each movement starts where the previous one ended. */
  ghost predicate Chained(card: seq<Row>) {
    && (forall i :: 0 <= i < |card| ==> card[i].balanceAfter == card[i].qtyBefore + card[i].change)
    && (forall i {:trigger card[i]} :: 0 < i < |card| ==> card[i].qtyBefore == card[i - 1].balanceAfter)
  }

  lemma {:induction false} ChainTelescopes(card: seq<Row>)
    requires Chained(card) && card != []
    ensures card[|card| - 1].balanceAfter == card[0].qtyBefore + Total(card)
  {
    var init := card[..|card| - 1];
    if init != [] {
      ChainTelescopes(init);
    }
  }

  // ---------------------------------------------------------------------------
  // What an insertion achieves
  // ---------------------------------------------------------------------------

  lemma CellRowsSnoc(rows: seq<Row>, x: Row, c: Cell)
    ensures CellRows(rows + [x], c) == CellRows(rows, c) + if x.cell == c then [x] else []
  {
    assert (rows + [x])[..|rows|] == rows;
  }

  /** The row heads the card and starts it at zero, and the ledger adds up to the cached quantity. */
  ghost predicate Repaired(before: seq<Row>, after: seq<Row>, it: Item, row: Row) {
    && Total(after) == it.quantity
    && Card(after) == [row] + Card(before)
    && row.qtyBefore == 0.0 && row.balanceAfter == row.change
    && (before != [] ==> Card(before) != [] && Abs(row.balanceAfter - Card(before)[0].qtyBefore) <= EPS)
    && HasBackfill(after)
  }

  /** An inserted row repairs its cell and leaves every other cell as it was. */
  lemma InsertionRepairsTheCell(rows: seq<Row>, it: Item, row: Row, id: nat)
    requires Judge(CellRows(rows, it.cell), it, id) == Opening(row)
    ensures Repaired(CellRows(rows, it.cell), CellRows(rows + [row], it.cell), it, row)
    ensures forall c :: c != it.cell ==> CellRows(rows + [row], c) == CellRows(rows, c)
  {
    PrependedByTime(CellRows(rows, it.cell), it, row, id);
    CellRowsSnoc(rows, row, it.cell);
    OtherCellsUntouched(rows, row);
  }

  lemma OtherCellsUntouched(rows: seq<Row>, x: Row)
    ensures forall c :: c != x.cell ==> CellRows(rows + [x], c) == CellRows(rows, c)
  {
    forall c | c != x.cell
      ensures CellRows(rows + [x], c) == CellRows(rows, c)
    {
      CellRowsSnoc(rows, x, c);
    }
  }

  lemma PrependedByTime(before: seq<Row>, it: Item, row: Row, id: nat)
    requires Judge(before, it, id) == Opening(row)
    ensures row.cell == it.cell && Repaired(before, before + [row], it, row)
  {
    assert (before + [row])[..|before|] == before;
    assert (before + [row])[|before|].openingBackfill;
    FirstIsTopOfCard(before);
    FirstExists(before);
  }

  lemma {:induction false} FirstExists(rows: seq<Row>)
    ensures rows != [] ==> First(rows).Some?
  {
  }

  /**
   * For a cell whose card chains and ends at the cached quantity, the gap is
   * exactly what the first movement saw: a row is inserted if and only if that is
   * not (within EPS) zero, and the card then chains from zero to the cached
   * quantity.
   */
  lemma ChainedCellIsCompleted(rows: seq<Row>, it: Item)
    requires var card := Card(CellRows(rows, it.cell));
             Chained(card) && card != [] && card[|card| - 1].balanceAfter == it.quantity
    requires !HasBackfill(CellRows(rows, it.cell))
    ensures var card := Card(CellRows(rows, it.cell));
            var v := Judge(CellRows(rows, it.cell), it, |rows|);
            && it.quantity - Total(CellRows(rows, it.cell)) == card[0].qtyBefore
            && (v.Opening? <==> Abs(card[0].qtyBefore) > EPS)
            && (v.Opening? ==>
                  var repaired := Card(CellRows(rows + [v.row], it.cell));
                  && Chained(repaired)
                  && repaired[0].qtyBefore == 0.0
                  && repaired[|repaired| - 1].balanceAfter == it.quantity
                  && Total(repaired) == it.quantity)
  {
    var cellRows := CellRows(rows, it.cell);
    var card := Card(cellRows);
    ChainTelescopes(card);
    CardAddsUp(cellRows);
    FirstIsTopOfCard(cellRows);
    var v := Judge(cellRows, it, |rows|);
    if v.Opening? {
      InsertionRepairsTheCell(rows, it, v.row, |rows|);
      CardAddsUp(CellRows(rows + [v.row], it.cell));
    }
  }

  // ---------------------------------------------------------------------------
  // Running it again
  // ---------------------------------------------------------------------------

  /** Visiting the item would insert nothing. */
  ghost predicate Quiet(rows: seq<Row>, it: Item) {
    !Judge(CellRows(rows, it.cell), it, 0).Opening?
  }

  lemma QuietWhateverTheId(rows: seq<Row>, it: Item, id: nat)
    ensures Judge(CellRows(rows, it.cell), it, id).Opening? <==> !Quiet(rows, it)
  {
  }

  lemma VisitQuiets(r: Report, it: Item)
    ensures Quiet(Visit(r, it, true).rows, it)
  {
    var v := Judge(CellRows(r.rows, it.cell), it, |r.rows|);
    QuietWhateverTheId(r.rows, it, |r.rows|);
    if v.Opening? {
      InsertionRepairsTheCell(r.rows, it, v.row, |r.rows|);
    }
  }

  lemma VisitKeepsQuiet(r: Report, it: Item, other: Item)
    requires Quiet(r.rows, it)
    ensures Quiet(Visit(r, other, true).rows, it)
  {
    var v := Judge(CellRows(r.rows, other.cell), other, |r.rows|);
    if v.Opening? {
      InsertionRepairsTheCell(r.rows, other, v.row, |r.rows|);
    }
  }

  lemma {:induction false} RunQuietsEveryItem(r: Report, items: seq<Item>, k: nat)
    requires k < |items|
    ensures Quiet(VisitAll(r, items, true).rows, items[k])
  {
    var init, last := items[..|items| - 1], items[|items| - 1];
    if k == |items| - 1 {
      VisitQuiets(VisitAll(r, init, true), last);
    } else {
      assert init[k] == items[k];
      RunQuietsEveryItem(r, init, k);
      VisitKeepsQuiet(VisitAll(r, init, true), items[k], last);
    }
  }

  lemma {:induction false} QuietRunInsertsNothing(r: Report, items: seq<Item>, apply: bool)
    requires forall k :: 0 <= k < |items| ==> Quiet(r.rows, items[k])
    ensures VisitAll(r, items, apply).rows == r.rows
    ensures VisitAll(r, items, apply).fixed == r.fixed
  {
    if items != [] {
      var init, last := items[..|items| - 1], items[|items| - 1];
      QuietRunInsertsNothing(r, init, apply);
      QuietWhateverTheId(r.rows, last, |r.rows|);
    }
  }

  /** A second run finds nothing to open and inserts nothing, whatever items it is given twice. */
  lemma SecondRunInsertsNothing(rows: seq<Row>, items: seq<Item>, apply: bool)
    ensures var once := VisitAll(Report(rows, 0, 0), items, true).rows;
            && VisitAll(Report(once, 0, 0), items, apply).rows == once
            && VisitAll(Report(once, 0, 0), items, apply).fixed == 0
  {
    var once := VisitAll(Report(rows, 0, 0), items, true).rows;
    forall k | 0 <= k < |items|
      ensures Quiet(once, items[k])
    {
      RunQuietsEveryItem(Report(rows, 0, 0), items, k);
    }
    QuietRunInsertsNothing(Report(once, 0, 0), items, apply);
  }

  // ---------------------------------------------------------------------------
  // What a visit decides
  // ---------------------------------------------------------------------------

  /** Further apart than a millionth. */
  ghost predicate Apart(x: real, y: real) {
    x - y > 0.000001 || y - x > 0.000001
  }

  /** The stock missing from the ledger of a cell. */
  ghost function Gap(cellRows: seq<Row>, it: Item): real {
    it.quantity - Total(cellRows)
  }

  /** The row that opens the card at the gap, just before its first movement, or when the item was made. */
  ghost predicate OpensAt(row: Row, cellRows: seq<Row>, it: Item, id: nat) {
    var gap := Gap(cellRows, it);
    && row.cell == it.cell && row.id == id && row.openingBackfill
    && row.qtyBefore == 0.0 && row.change == gap && row.balanceAfter == gap
    && row.unitCost == it.costPrice
    && row.totalValue == (if gap >= 0.0 then gap else -gap) * it.costPrice
    && row.createdAt == if cellRows == [] then it.createdAt else (if Card(cellRows) == [] then 0 else Card(cellRows)[0].createdAt - 1)
  }

  lemma ApartIsBeyondEps(x: real, y: real)
    ensures Apart(x, y) <==> Abs(x - y) > EPS
  {
  }

  lemma TopOfCard(cellRows: seq<Row>)
    ensures cellRows == [] <==> Card(cellRows) == []
    ensures cellRows == [] <==> First(cellRows).None?
    ensures cellRows != [] ==> First(cellRows).value == Card(cellRows)[0]
  {
    FirstExists(cellRows);
    FirstIsTopOfCard(cellRows);
  }

  lemma OpeningRowOpens(cellRows: seq<Row>, it: Item, id: nat, row: Row)
    requires Judge(cellRows, it, id) == Opening(row)
    ensures OpensAt(row, cellRows, it, id)
  {
    TopOfCard(cellRows);
  }

  /**
   * A cell is left alone when it was repaired before or its ledger agrees with the
   * cached quantity, reported when the gap is not what the first movement found,
   * and otherwise opened, a cell without any movement included.
   */
  lemma JudgementIsByTheGap(cellRows: seq<Row>, it: Item, id: nat)
    ensures var repaired := exists i :: 0 <= i < |cellRows| && cellRows[i].openingBackfill;
            var off := Apart(it.quantity, Total(cellRows));
            var v := Judge(cellRows, it, id);
            && (cellRows != [] ==> Card(cellRows) != [])
            && (v == AlreadyBackfilled <==> repaired)
            && (v == InBalance <==> !repaired && !off)
            && (v == Unexplained <==> !repaired && off && cellRows != [] && Apart(Gap(cellRows, it), Card(cellRows)[0].qtyBefore))
            && (v.Opening? <==> !repaired && off && (cellRows == [] || !Apart(Gap(cellRows, it), Card(cellRows)[0].qtyBefore)))
            && (v.Opening? ==> OpensAt(v.row, cellRows, it, id))
  {
    var v := Judge(cellRows, it, id);
    TopOfCard(cellRows);
    ApartIsBeyondEps(it.quantity, Total(cellRows));
    if cellRows != [] {
      ApartIsBeyondEps(Gap(cellRows, it), Card(cellRows)[0].qtyBefore);
    }
    if v.Opening? {
      OpeningRowOpens(cellRows, it, id, v.row);
    }
  }

  /** A run adds one row per cell it counts as fixed, at the end of the table, and none when it only reports. */
  lemma {:induction false} RunCountsWhatItInserts(rows: seq<Row>, items: seq<Item>, apply: bool)
    ensures var r := VisitAll(Report(rows, 0, 0), items, apply);
            && rows <= r.rows
            && (apply ==> |r.rows| == |rows| + r.fixed)
            && (!apply ==> r.rows == rows)
            && r.fixed + r.unexplained <= |items|
  {
    if items != [] {
      RunCountsWhatItInserts(rows, items[..|items| - 1], apply);
    }
  }

  /** A reporting run counts a cell as unexplained exactly when its judgement says so. */
  lemma {:induction false} DryRunCounts(rows: seq<Row>, items: seq<Item>)
    ensures VisitAll(Report(rows, 0, 0), items, false) ==
              Report(rows, CountOf(rows, items, true), CountOf(rows, items, false))
  {
    if items != [] {
      DryRunCounts(rows, items[..|items| - 1]);
      JudgementIsByTheGap(CellRows(rows, items[|items| - 1].cell), items[|items| - 1], |rows|);
    }
  }

  /** The items to open, or those that cannot be explained, by their gaps. */
  ghost function CountOf(rows: seq<Row>, items: seq<Item>, opening: bool): nat {
    if items == [] then 0
    else
      var it := items[|items| - 1];
      var cellRows := CellRows(rows, it.cell);
      var off := !(exists i :: 0 <= i < |cellRows| && cellRows[i].openingBackfill) && Apart(it.quantity, Total(cellRows));
      var explained := cellRows == [] || Card(cellRows) == [] || !Apart(Gap(cellRows, it), Card(cellRows)[0].qtyBefore);
      CountOf(rows, items[..|items| - 1], opening) + if off && explained == opening then 1 else 0
  }

  // ---------------------------------------------------------------------------
  // The card is the rows in time order
  // ---------------------------------------------------------------------------

  /** By time, and among equal times by id. */
  ghost predicate NoLater(x: Row, y: Row) {
    x.createdAt < y.createdAt || (x.createdAt == y.createdAt && x.id <= y.id)
  }

  ghost predicate InTimeOrder(card: seq<Row>) {
    forall i, j :: 0 <= i < j < |card| ==> NoLater(card[i], card[j])
  }

  ghost predicate Heads(x: Row, card: seq<Row>) {
    forall i :: 0 <= i < |card| ==> NoLater(x, card[i])
  }

  lemma HeadedInOrder(x: Row, card: seq<Row>)
    requires InTimeOrder(card) && Heads(x, card)
    ensures InTimeOrder([x] + card)
  {
  }

  lemma {:induction false} StillHeads(x: Row, card: seq<Row>, low: Row)
    requires Heads(low, card) && NoLater(low, x)
    ensures Heads(low, InsertByTime(x, card))
  {
    if card != [] && !Earlier(x, card[0]) {
      StillHeads(x, card[1..], low);
    }
  }

  lemma {:induction false} InsertionPermutes(x: Row, card: seq<Row>)
    ensures multiset(InsertByTime(x, card)) == multiset(card) + multiset{x}
  {
    if card != [] && !Earlier(x, card[0]) {
      InsertionPermutes(x, card[1..]);
      assert card == [card[0]] + card[1..];
    }
  }

  lemma {:induction false} InsertionKeepsOrder(x: Row, card: seq<Row>)
    requires InTimeOrder(card)
    ensures InTimeOrder(InsertByTime(x, card))
  {
    if card == [] || Earlier(x, card[0]) {
      HeadedInOrder(x, card);
    } else {
      InsertionKeepsOrder(x, card[1..]);
      StillHeads(x, card[1..], card[0]);
      HeadedInOrder(card[0], InsertByTime(x, card[1..]));
    }
  }

  /** The stock card holds exactly the rows of the cell, earliest first. */
  lemma {:induction false} CardIsTheRowsInOrder(cellRows: seq<Row>)
    ensures InTimeOrder(Card(cellRows)) && multiset(Card(cellRows)) == multiset(cellRows)
  {
    if cellRows != [] {
      var init, last := cellRows[..|cellRows| - 1], cellRows[|cellRows| - 1];
      CardIsTheRowsInOrder(init);
      InsertionKeepsOrder(last, Card(init));
      InsertionPermutes(last, Card(init));
      assert cellRows == init + [last];
    }
  }
}
