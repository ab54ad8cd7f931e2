/** Posting catch-up journals for valued stock movements that never reached the general ledger. */
module GlGaps {
  import opened Common

  type Account = nat

  datatype Row = Row(moveType: string, source: Option<string>, signedValue: real, code: string)

  datatype Group = Group(rows: nat, value: real, codes: seq<string>)

  /** A map in insertion order. */
  type Groups = seq<(string, Group)>

  datatype Line = Debit(account: Account, amount: real) | Credit(account: Account, amount: real)

  datatype Journal = Journal(code: string, source: string, lines: seq<Line>)

  /** `stock` is the first stock-valuation account; `mapping` resolves the counter-account keys. */
  datatype Config = Config(
    apply: bool,
    postOpening: bool,
    openingEquityKey: string,
    stock: Option<Account>,
    mapping: map<string, Account>)

  const EMPTY := Group(0, 0.0, [])

  // ---------------------------------------------------------------------------
  // Grouping
  // ---------------------------------------------------------------------------

  predicate IsMemo(r: Row) {
    r.moveType == "opening_balance" || r.source == Some("opening_balance") || r.source == Some("opening_backfill")
  }

  function KeyOf(r: Row): string {
    if r.source.Some? then r.source.value else "(none)"
  }

  function Add(g: Group, r: Row): Group {
    Group(g.rows + 1, g.value + r.signedValue, g.codes + [r.code])
  }

  /** Get, update and set one entry of an insertion-ordered map. */
  function Bump(gs: Groups, key: string, r: Row): Groups {
    if gs == [] then [(key, Add(EMPTY, r))]
    else if gs[0].0 == key then [(key, Add(gs[0].1, r))] + gs[1..]
    else [gs[0]] + Bump(gs[1..], key, r)
  }

  /** The groups of the memo rows, or of the others. */
  function GroupBy(rows: seq<Row>, memo: bool): Groups {
    if rows == [] then []
    else
      var before, r := GroupBy(rows[..|rows| - 1], memo), rows[|rows| - 1];
      if IsMemo(r) == memo then Bump(before, KeyOf(r), r) else before
  }

  function MemoRows(rows: seq<Row>): nat {
    if rows == [] then 0 else MemoRows(rows[..|rows| - 1]) + if IsMemo(rows[|rows| - 1]) then 1 else 0
  }

  // ---------------------------------------------------------------------------
  // Posting
  // ---------------------------------------------------------------------------

  function Abs(x: real): real {
    if x < 0.0 then -x else x
  }

  function Entry(code: string, source: string, stock: Account, counter: Account, value: real): Journal {
    Journal(code, source,
            if value > 0.0 then [Debit(stock, value), Credit(counter, value)]
            else [Debit(counter, -value), Credit(stock, -value)])
  }

  function CounterKey(cfg: Config, memo: bool, value: real): string {
    if memo then cfg.openingEquityKey
    else if value > 0.0 then "stock_adjustment_income" else "stock_adjustment_expense"
  }

  /** The group is worth an entry at all. */
  predicate Wanted(cfg: Config, memo: bool, g: Group) {
    g.value != 0.0 && (memo ==> cfg.postOpening)
  }

  /** The entry is actually written. */
  predicate Posted(cfg: Config, memo: bool, g: Group) {
    Wanted(cfg, memo, g) && cfg.apply && CounterKey(cfg, memo, g.value) in cfg.mapping
  }

  /** The entry is announced in the summary: an opening entry only once its account is known. */
  predicate Counted(cfg: Config, memo: bool, g: Group) {
    Wanted(cfg, memo, g) && (memo ==> CounterKey(cfg, memo, g.value) in cfg.mapping)
  }

  datatype Result = Result(journals: seq<Journal>, entries: nat, announced: real)

  function PostOne(cfg: Config, stock: Account, memo: bool, acc: Result, source: string, g: Group): Result {
    Result(
      if Posted(cfg, memo, g) then
        acc.journals + [Entry(if memo then "GEN" else "ADJ", source, stock, cfg.mapping[CounterKey(cfg, memo, g.value)], g.value)]
      else acc.journals,
      if Counted(cfg, memo, g) then acc.entries + 1 else acc.entries,
      if Counted(cfg, memo, g) then acc.announced + Abs(g.value) else acc.announced)
  }

  function PostAll(cfg: Config, stock: Account, memo: bool, acc: Result, gs: Groups): Result {
    if gs == [] then acc
    else
      var last := gs[|gs| - 1];
      PostOne(cfg, stock, memo, PostAll(cfg, stock, memo, acc, gs[..|gs| - 1]), last.0, last.1)
  }

  const NOTHING := Result([], 0, 0.0)

  /** Opening groups first, then the adjustment groups; nothing without rows or a stock account. */
  function CatchUp(cfg: Config, rows: seq<Row>): Result {
    if rows == [] || cfg.stock.None? then NOTHING
    else
      PostAll(cfg, cfg.stock.value, false,
              PostAll(cfg, cfg.stock.value, true, NOTHING, GroupBy(rows, true)),
              GroupBy(rows, false))
  }

  class Books {
    var journals: seq<Journal>

    constructor ()
      ensures journals == []
    {
      journals := [];
    }

    method Collect(rows: seq<Row>) returns (groups: Groups, opening: Groups, memoRows: nat)
      ensures groups == GroupBy(rows, false) && opening == GroupBy(rows, true) && memoRows == MemoRows(rows)
    {
      groups, opening, memoRows := [], [], 0;
      var i := 0;
      while i < |rows|
        invariant 0 <= i <= |rows|
        invariant groups == GroupBy(rows[..i], false) && opening == GroupBy(rows[..i], true) && memoRows == MemoRows(rows[..i])
      {
        var r := rows[i];
        assert rows[..i + 1][..i] == rows[..i];
        if IsMemo(r) {
          memoRows := memoRows + 1;
          opening := Bump(opening, KeyOf(r), r);
        } else {
          groups := Bump(groups, KeyOf(r), r);
        }
        i := i + 1;
      }
      assert rows[..i] == rows;
    }

    method PostOpening(cfg: Config, stock: Account, opening: Groups) returns (entries: nat, announced: real)
      modifies this
      ensures var r := PostAll(cfg, stock, true, Result(old(journals), 0, 0.0), opening);
              journals == r.journals && entries == r.entries && announced == r.announced
    {
      entries, announced := 0, 0.0;
      var i := 0;
      while i < |opening|
        invariant 0 <= i <= |opening|
        invariant Result(journals, entries, announced) == PostAll(cfg, stock, true, Result(old(journals), 0, 0.0), opening[..i])
      {
        var (source, o) := opening[i];
        assert opening[..i + 1][..i] == opening[..i];
        i := i + 1;
        if !cfg.postOpening || o.value == 0.0 {
          continue;
        }
        if cfg.openingEquityKey !in cfg.mapping {
          continue;
        }
        var equity := cfg.mapping[cfg.openingEquityKey];
        entries := entries + 1;
        announced := announced + Abs(o.value);
        if !cfg.apply {
          continue;
        }
        var amount := Abs(o.value);
        var lines := if o.value > 0.0 then [Debit(stock, amount), Credit(equity, amount)]
                     else [Debit(equity, amount), Credit(stock, amount)];
        journals := journals + [Journal("GEN", source, lines)];
      }
      assert opening[..i] == opening;
    }

    method PostAdjustments(cfg: Config, stock: Account, groups: Groups, entries0: nat, announced0: real)
      returns (entries: nat, announced: real)
      modifies this
      ensures var r := PostAll(cfg, stock, false, Result(old(journals), entries0, announced0), groups);
              journals == r.journals && entries == r.entries && announced == r.announced
    {
      entries, announced := entries0, announced0;
      var i := 0;
      while i < |groups|
        invariant 0 <= i <= |groups|
        invariant Result(journals, entries, announced)
               == PostAll(cfg, stock, false, Result(old(journals), entries0, announced0), groups[..i])
      {
        var (source, g) := groups[i];
        assert groups[..i + 1][..i] == groups[..i];
        i := i + 1;
        if g.value == 0.0 {
          continue;
        }
        var gain := g.value > 0.0;
        var amount := Abs(g.value);
        entries := entries + 1;
        announced := announced + amount;
        if !cfg.apply {
          continue;
        }
        var key := if gain then "stock_adjustment_income" else "stock_adjustment_expense";
        if key !in cfg.mapping {
          continue;
        }
        var counter := cfg.mapping[key];
        var lines := if gain then [Debit(stock, amount), Credit(counter, amount)]
                     else [Debit(counter, amount), Credit(stock, amount)];
        journals := journals + [Journal("ADJ", source, lines)];
      }
      assert groups[..i] == groups;
    }

    method Run(cfg: Config, rows: seq<Row>) returns (entries: nat, announced: real)
      requires journals == []
      modifies this
      ensures Result(journals, entries, announced) == CatchUp(cfg, rows)
    {
      if |rows| == 0 || cfg.stock.None? {
        return 0, 0.0;
      }
      var groups, opening, memoRows := Collect(rows);
      entries, announced := PostOpening(cfg, cfg.stock.value, opening);
      entries, announced := PostAdjustments(cfg, cfg.stock.value, groups, entries, announced);
    }
  }

  // ---------------------------------------------------------------------------
  // The groups are exactly the rows, by source
  // ---------------------------------------------------------------------------

  function Find(gs: Groups, key: string): Group {
    if gs == [] then EMPTY else if gs[0].0 == key then gs[0].1 else Find(gs[1..], key)
  }

  ghost predicate UniqueKeys(gs: Groups) {
    forall i, j :: 0 <= i < j < |gs| ==> gs[i].0 != gs[j].0
  }

  /** The rows of one kind and source, added up directly. */
  function Directly(rows: seq<Row>, memo: bool, key: string): Group {
    if rows == [] then EMPTY
    else
      var before, r := Directly(rows[..|rows| - 1], memo, key), rows[|rows| - 1];
      if IsMemo(r) == memo && KeyOf(r) == key then Add(before, r) else before
  }

  lemma {:induction false} BumpUpdatesOneKey(gs: Groups, key: string, r: Row, k: string)
    ensures Find(Bump(gs, key, r), k) == if k == key then Add(Find(gs, k), r) else Find(gs, k)
  {
    if gs != [] && gs[0].0 != key {
      BumpUpdatesOneKey(gs[1..], key, r, k);
    }
  }

  lemma {:induction false} GroupsAreTheRowsBySource(rows: seq<Row>, memo: bool, key: string)
    ensures Find(GroupBy(rows, memo), key) == Directly(rows, memo, key)
  {
    if rows != [] {
      var r := rows[|rows| - 1];
      GroupsAreTheRowsBySource(rows[..|rows| - 1], memo, key);
      BumpUpdatesOneKey(GroupBy(rows[..|rows| - 1], memo), KeyOf(r), r, key);
    }
  }

  lemma {:induction false} BumpKeepsKeysUnique(gs: Groups, key: string, r: Row)
    requires UniqueKeys(gs)
    ensures UniqueKeys(Bump(gs, key, r))
    ensures forall i :: 0 <= i < |Bump(gs, key, r)| ==>
              Bump(gs, key, r)[i].0 == key || exists j :: 0 <= j < |gs| && gs[j].0 == Bump(gs, key, r)[i].0
  {
    if gs != [] && gs[0].0 != key {
      var rest := Bump(gs[1..], key, r);
      BumpKeepsKeysUnique(gs[1..], key, r);
      forall i | 0 <= i < |rest|
        ensures rest[i].0 != gs[0].0
        ensures rest[i].0 == key || exists j :: 0 <= j < |gs| && gs[j].0 == rest[i].0
      {
        if rest[i].0 != key {
          var j :| 0 <= j < |gs[1..]| && gs[1..][j].0 == rest[i].0;
          assert gs[j + 1].0 == rest[i].0;
        }
      }
    }
  }

  lemma {:induction false} OneGroupPerSource(rows: seq<Row>, memo: bool)
    ensures UniqueKeys(GroupBy(rows, memo))
  {
    if rows != [] {
      OneGroupPerSource(rows[..|rows| - 1], memo);
      BumpKeepsKeysUnique(GroupBy(rows[..|rows| - 1], memo), KeyOf(rows[|rows| - 1]), rows[|rows| - 1]);
    }
  }

  // ---------------------------------------------------------------------------
  // Conservation
  // ---------------------------------------------------------------------------

  function TotalValue(gs: Groups): real {
    if gs == [] then 0.0 else TotalValue(gs[..|gs| - 1]) + gs[|gs| - 1].1.value
  }

  function TotalSigned(rows: seq<Row>): real {
    if rows == [] then 0.0 else TotalSigned(rows[..|rows| - 1]) + rows[|rows| - 1].signedValue
  }

  lemma {:induction false} TotalOfConcat(a: Groups, b: Groups)
    ensures TotalValue(a + b) == TotalValue(a) + TotalValue(b)
  {
    if b == [] {
      assert a + b == a;
    } else {
      assert (a + b)[..|a + b| - 1] == a + b[..|b| - 1];
      TotalOfConcat(a, b[..|b| - 1]);
    }
  }

  lemma TotalOfOne(e: (string, Group))
    ensures TotalValue([e]) == e.1.value
  {
    assert [e][..0] == [];
  }

  lemma {:induction false} BumpAddsTheRow(gs: Groups, key: string, r: Row)
    ensures TotalValue(Bump(gs, key, r)) == TotalValue(gs) + r.signedValue
  {
    if gs == [] {
      TotalOfOne((key, Add(EMPTY, r)));
    } else {
      assert gs == [gs[0]] + gs[1..];
      TotalOfConcat([gs[0]], gs[1..]);
      TotalOfOne(gs[0]);
      if gs[0].0 == key {
        TotalOfConcat([(key, Add(gs[0].1, r))], gs[1..]);
        TotalOfOne((key, Add(gs[0].1, r)));
      } else {
        BumpAddsTheRow(gs[1..], key, r);
        TotalOfConcat([gs[0]], Bump(gs[1..], key, r));
      }
    }
  }

  /** Memo totals plus group totals are all the signed value there is. */
  lemma {:induction false} GroupingConservesValue(rows: seq<Row>)
    ensures TotalValue(GroupBy(rows, true)) + TotalValue(GroupBy(rows, false)) == TotalSigned(rows)
  {
    if rows != [] {
      var init, r := rows[..|rows| - 1], rows[|rows| - 1];
      GroupingConservesValue(init);
      BumpAddsTheRow(GroupBy(init, IsMemo(r)), KeyOf(r), r);
    }
  }

  // ---------------------------------------------------------------------------
  // The journals
  // ---------------------------------------------------------------------------

  /** Two sides, equal and positive. */
  ghost predicate Balanced(j: Journal) {
    && |j.lines| == 2 && j.lines[0].Debit? && j.lines[1].Credit?
    && j.lines[0].amount == j.lines[1].amount > 0.0
  }

  function LineEffect(l: Line, a: Account): real {
    if l.account != a then 0.0 else if l.Debit? then l.amount else -l.amount
  }

  /** Net debit of a journal on an account. */
  function Effect(lines: seq<Line>, a: Account): real {
    if lines == [] then 0.0 else Effect(lines[..|lines| - 1], a) + LineEffect(lines[|lines| - 1], a)
  }

  function TotalEffect(js: seq<Journal>, a: Account): real {
    if js == [] then 0.0 else TotalEffect(js[..|js| - 1], a) + Effect(js[|js| - 1].lines, a)
  }

  lemma EffectOfTwo(lines: seq<Line>, a: Account)
    requires |lines| == 2
    ensures Effect(lines, a) == LineEffect(lines[0], a) + LineEffect(lines[1], a)
  {
    var first := lines[..|lines| - 1];
    assert first[..|first| - 1] == [];
    assert Effect(first, a) == LineEffect(lines[0], a);
  }

  /** An entry is balanced, and moves the stock account by the group's signed value, or not at all when the counter-account is the stock account. */
  lemma EntryMovesStockByItsValue(code: string, source: string, stock: Account, counter: Account, value: real)
    requires value != 0.0
    ensures Balanced(Entry(code, source, stock, counter, value))
    ensures Effect(Entry(code, source, stock, counter, value).lines, stock) == if counter != stock then value else 0.0
  {
    EffectOfTwo(Entry(code, source, stock, counter, value).lines, stock);
  }

  /** The value of the groups that are posted, or of those that are skipped. */
  function ValueWhere(cfg: Config, memo: bool, gs: Groups, posted: bool): real {
    if gs == [] then 0.0
    else
      var last := gs[|gs| - 1].1;
      ValueWhere(cfg, memo, gs[..|gs| - 1], posted) + if Posted(cfg, memo, last) == posted then last.value else 0.0
  }

  lemma {:induction false} PostedPlusSkipped(cfg: Config, memo: bool, gs: Groups)
    ensures ValueWhere(cfg, memo, gs, true) + ValueWhere(cfg, memo, gs, false) == TotalValue(gs)
  {
    if gs != [] {
      PostedPlusSkipped(cfg, memo, gs[..|gs| - 1]);
    }
  }

  /** The value of the posted groups whose counter-account is the stock account itself. */
  function SelfPosted(cfg: Config, stock: Account, memo: bool, gs: Groups): real {
    if gs == [] then 0.0
    else
      var last := gs[|gs| - 1].1;
      SelfPosted(cfg, stock, memo, gs[..|gs| - 1])
      + if Posted(cfg, memo, last) && cfg.mapping[CounterKey(cfg, memo, last.value)] == stock then last.value else 0.0
  }

  ghost predicate AllBalanced(js: seq<Journal>) {
    forall i :: 0 <= i < |js| ==> Balanced(js[i])
  }

  lemma {:induction false} PostingMovesStock(cfg: Config, stock: Account, memo: bool, acc: Result, gs: Groups)
    requires AllBalanced(acc.journals)
    ensures var r := PostAll(cfg, stock, memo, acc, gs);
            && AllBalanced(r.journals)
            && TotalEffect(r.journals, stock)
               == TotalEffect(acc.journals, stock) + ValueWhere(cfg, memo, gs, true) - SelfPosted(cfg, stock, memo, gs)
  {
    if gs != [] {
      var init, last := gs[..|gs| - 1], gs[|gs| - 1];
      PostingMovesStock(cfg, stock, memo, acc, init);
      if Posted(cfg, memo, last.1) {
        var before, after := PostAll(cfg, stock, memo, acc, init), PostAll(cfg, stock, memo, acc, gs);
        assert after.journals[..|after.journals| - 1] == before.journals;
        EntryMovesStockByItsValue(if memo then "GEN" else "ADJ", last.0, stock, cfg.mapping[CounterKey(cfg, memo, last.1.value)], last.1.value);
      }
    }
  }

  /**
   * Every journal balances with positive sides, and what is still missing from the
   * ledger afterwards is exactly the value of the groups that were skipped and of
   * those posted between the stock account and itself.
   */
  lemma RemainingGapIsExact(cfg: Config, rows: seq<Row>)
    requires cfg.stock.Some?
    ensures var js, stock := CatchUp(cfg, rows).journals, cfg.stock.value;
            var opening, groups := GroupBy(rows, true), GroupBy(rows, false);
            && AllBalanced(js)
            && TotalSigned(rows) - TotalEffect(js, stock)
               == ValueWhere(cfg, true, opening, false) + ValueWhere(cfg, false, groups, false)
                + SelfPosted(cfg, stock, true, opening) + SelfPosted(cfg, stock, false, groups)
  {
    var stock := cfg.stock.value;
    var opening, groups := GroupBy(rows, true), GroupBy(rows, false);
    PostingMovesStock(cfg, stock, true, NOTHING, opening);
    PostingMovesStock(cfg, stock, false, PostAll(cfg, stock, true, NOTHING, opening), groups);
    PostedPlusSkipped(cfg, true, opening);
    PostedPlusSkipped(cfg, false, groups);
    GroupingConservesValue(rows);
  }

  /** No counter-account the script may use is the stock account itself. */
  ghost predicate CountersDiffer(cfg: Config, stock: Account) {
    forall memo, value :: CounterKey(cfg, memo, value) in cfg.mapping ==> cfg.mapping[CounterKey(cfg, memo, value)] != stock
  }

  lemma {:induction false} NothingSelfPosted(cfg: Config, stock: Account, memo: bool, gs: Groups)
    requires CountersDiffer(cfg, stock)
    ensures SelfPosted(cfg, stock, memo, gs) == 0.0
  {
    if gs != [] {
      NothingSelfPosted(cfg, stock, memo, gs[..|gs| - 1]);
    }
  }

  /** With counter-accounts of their own, the remaining gap is exactly the skipped groups. */
  lemma RemainingGapIsTheSkippedGroups(cfg: Config, rows: seq<Row>)
    requires cfg.stock.Some? && CountersDiffer(cfg, cfg.stock.value)
    ensures TotalSigned(rows) - TotalEffect(CatchUp(cfg, rows).journals, cfg.stock.value)
         == ValueWhere(cfg, true, GroupBy(rows, true), false) + ValueWhere(cfg, false, GroupBy(rows, false), false)
  {
    RemainingGapIsExact(cfg, rows);
    NothingSelfPosted(cfg, cfg.stock.value, true, GroupBy(rows, true));
    NothingSelfPosted(cfg, cfg.stock.value, false, GroupBy(rows, false));
  }

  // ---------------------------------------------------------------------------
  // The summary line
  // ---------------------------------------------------------------------------

  /** Adjustment groups that are announced although no counter-account is mapped. */
  function Unmapped(cfg: Config, gs: Groups): nat {
    if gs == [] then 0
    else
      var g := gs[|gs| - 1].1;
      Unmapped(cfg, gs[..|gs| - 1]) + if g.value != 0.0 && CounterKey(cfg, false, g.value) !in cfg.mapping then 1 else 0
  }

  lemma {:induction false} EntriesOverJournals(cfg: Config, stock: Account, memo: bool, acc: Result, gs: Groups)
    requires cfg.apply
    ensures var r := PostAll(cfg, stock, memo, acc, gs);
            r.entries - |r.journals| == acc.entries - |acc.journals| + if memo then 0 else Unmapped(cfg, gs)
  {
    if gs != [] {
      EntriesOverJournals(cfg, stock, memo, acc, gs[..|gs| - 1]);
    }
  }

  /** When writing, the summary counts one entry per journal plus one per adjustment group left out for want of a mapping. */
  lemma SummaryCountsUnmappedGroups(cfg: Config, rows: seq<Row>)
    requires cfg.apply && cfg.stock.Some?
    ensures CatchUp(cfg, rows).entries == |CatchUp(cfg, rows).journals| + Unmapped(cfg, GroupBy(rows, false))
  {
    EntriesOverJournals(cfg, cfg.stock.value, true, NOTHING, GroupBy(rows, true));
    EntriesOverJournals(cfg, cfg.stock.value, false, PostAll(cfg, cfg.stock.value, true, NOTHING, GroupBy(rows, true)), GroupBy(rows, false));
  }

  // ---------------------------------------------------------------------------
  // Which movements a run sees
  // ---------------------------------------------------------------------------

  /** A valued movement; `documented` when another entry refers to it by document or ledger code. */
  datatype Move = Move(row: Row, createdAt: int, documented: bool)

  /** A catch-up entry in the ledger: its source and when it was created. */
  datatype Booked = Booked(source: string, at: int)

  predicate Hidden(history: seq<Booked>, m: Move) {
    exists i :: 0 <= i < |history| && history[i].source == KeyOf(m.row) && m.createdAt <= history[i].at
  }

  predicate Unposted(history: seq<Booked>, m: Move) {
    !m.documented && !Hidden(history, m)
  }

  /** The rows the report hands to a run. */
  function RowsFor(moves: seq<Move>, history: seq<Booked>, before: int): seq<Row> {
    if moves == [] then []
    else
      var m := moves[|moves| - 1];
      RowsFor(moves[..|moves| - 1], history, before) + if m.createdAt <= before && Unposted(history, m) then [m.row] else []
  }

  function Book(history: seq<Booked>, js: seq<Journal>, now: int): (r: seq<Booked>)
    ensures |r| == |history| + |js|
    ensures forall i :: 0 <= i < |r| ==> r[i] == if i < |history| then history[i] else Booked(js[i - |history|].source, now)
  {
    history + seq(|js|, i requires 0 <= i < |js| => Booked(js[i].source, now))
  }

  /** The ledger after a run over all movements up to `before`, with its entries created at `now`. */
  function AfterRun(cfg: Config, moves: seq<Move>, history: seq<Booked>, before: int, now: int): seq<Booked> {
    Book(history, CatchUp(cfg, RowsFor(moves, history, before)).journals, now)
  }

  // --- Which sources get an entry ----------------------------------------------

  ghost predicate HasEntry(js: seq<Journal>, key: string) {
    exists i :: 0 <= i < |js| && js[i].source == key
  }

  ghost predicate HasPostedGroup(cfg: Config, memo: bool, gs: Groups, key: string) {
    exists j :: 0 <= j < |gs| && gs[j].0 == key && Posted(cfg, memo, gs[j].1)
  }

  lemma {:induction false} EntriesArePostedGroups(cfg: Config, stock: Account, memo: bool, acc: Result, gs: Groups, key: string)
    ensures HasEntry(PostAll(cfg, stock, memo, acc, gs).journals, key)
            <==> HasEntry(acc.journals, key) || HasPostedGroup(cfg, memo, gs, key)
  {
    if gs != [] {
      var init, last := gs[..|gs| - 1], gs[|gs| - 1];
      EntriesArePostedGroups(cfg, stock, memo, acc, init, key);
      PostedGroupSnoc(cfg, memo, init, last, key);
      assert gs == init + [last];
      var before := PostAll(cfg, stock, memo, acc, init);
      EntrySnoc(before.journals, Entry(if memo then "GEN" else "ADJ", last.0, stock,
                                       if Posted(cfg, memo, last.1) then cfg.mapping[CounterKey(cfg, memo, last.1.value)] else stock,
                                       last.1.value), key);
    }
  }

  lemma EntrySnoc(js: seq<Journal>, j: Journal, key: string)
    ensures HasEntry(js + [j], key) <==> HasEntry(js, key) || j.source == key
  {
    var all := js + [j];
    if HasEntry(js, key) {
      var i :| 0 <= i < |js| && js[i].source == key;
      assert all[i].source == key;
    }
    if j.source == key { assert all[|js|].source == key; }
  }

  lemma PostedGroupSnoc(cfg: Config, memo: bool, gs: Groups, g: (string, Group), key: string)
    ensures HasPostedGroup(cfg, memo, gs + [g], key)
            <==> HasPostedGroup(cfg, memo, gs, key) || (g.0 == key && Posted(cfg, memo, g.1))
  {
    var all := gs + [g];
    if HasPostedGroup(cfg, memo, gs, key) {
      var j :| 0 <= j < |gs| && gs[j].0 == key && Posted(cfg, memo, gs[j].1);
      assert all[j] == gs[j];
    }
    assert all[|gs|] == g;
  }

  lemma {:induction false} FoundIsTheGroup(gs: Groups, j: nat)
    requires UniqueKeys(gs) && j < |gs|
    ensures Find(gs, gs[j].0) == gs[j].1
  {
    if j > 0 {
      FoundIsTheGroup(gs[1..], j - 1);
    }
  }

  lemma {:induction false} FoundIsThere(gs: Groups, key: string)
    requires Find(gs, key) != EMPTY
    ensures exists j :: 0 <= j < |gs| && gs[j].0 == key && gs[j].1 == Find(gs, key)
  {
    if gs[0].0 == key {
      assert gs[0].1 == Find(gs, key);
    } else {
      FoundIsThere(gs[1..], key);
      var j :| 0 <= j < |gs[1..]| && gs[1..][j].0 == key && gs[1..][j].1 == Find(gs, key);
      assert gs[j + 1] == gs[1..][j];
    }
  }

  lemma PostedGroupIsDirect(cfg: Config, memo: bool, rows: seq<Row>, key: string)
    ensures HasPostedGroup(cfg, memo, GroupBy(rows, memo), key) <==> Posted(cfg, memo, Directly(rows, memo, key))
  {
    var gs := GroupBy(rows, memo);
    OneGroupPerSource(rows, memo);
    GroupsAreTheRowsBySource(rows, memo, key);
    if HasPostedGroup(cfg, memo, gs, key) {
      var j :| 0 <= j < |gs| && gs[j].0 == key && Posted(cfg, memo, gs[j].1);
      FoundIsTheGroup(gs, j);
    }
    if Posted(cfg, memo, Directly(rows, memo, key)) {
      FoundIsThere(gs, key);
    }
  }

  /** The rows of the source, memo or not, are worth an entry that is written. */
  predicate SourcePosted(cfg: Config, rows: seq<Row>, key: string) {
    Posted(cfg, true, Directly(rows, true, key)) || Posted(cfg, false, Directly(rows, false, key))
  }

  lemma EntriesAreBySource(cfg: Config, rows: seq<Row>, key: string)
    requires cfg.stock.Some?
    ensures HasEntry(CatchUp(cfg, rows).journals, key) <==> SourcePosted(cfg, rows, key)
  {
    if rows != [] {
      var stock := cfg.stock.value;
      var opening := PostAll(cfg, stock, true, NOTHING, GroupBy(rows, true));
      EntriesArePostedGroups(cfg, stock, true, NOTHING, GroupBy(rows, true), key);
      EntriesArePostedGroups(cfg, stock, false, opening, GroupBy(rows, false), key);
      PostedGroupIsDirect(cfg, true, rows, key);
      PostedGroupIsDirect(cfg, false, rows, key);
    }
  }

  // --- The next run ------------------------------------------------------------

  /**
   * What a later run still sees: a movement unposted before, unless some entry was
   * written for its source and it existed by then.
   */
  lemma StillUnpostedIff(cfg: Config, moves: seq<Move>, history: seq<Booked>, before: int, now: int, m: Move)
    requires cfg.stock.Some?
    ensures Unposted(AfterRun(cfg, moves, history, before, now), m)
            <==> Unposted(history, m)
                 && !(SourcePosted(cfg, RowsFor(moves, history, before), KeyOf(m.row)) && m.createdAt <= now)
  {
    var js := CatchUp(cfg, RowsFor(moves, history, before)).journals;
    var after := AfterRun(cfg, moves, history, before, now);
    EntriesAreBySource(cfg, RowsFor(moves, history, before), KeyOf(m.row));
    if Hidden(history, m) {
      var i :| 0 <= i < |history| && history[i].source == KeyOf(m.row) && m.createdAt <= history[i].at;
      assert after[i] == history[i];
    }
    if HasEntry(js, KeyOf(m.row)) && m.createdAt <= now {
      var i :| 0 <= i < |js| && js[i].source == KeyOf(m.row);
      assert after[|history| + i] == Booked(js[i].source, now);
    }
  }

  /** The movement was among the rows of a group that was posted. */
  predicate Covered(cfg: Config, moves: seq<Move>, history: seq<Booked>, before: int, m: Move) {
    && m.createdAt <= before && Unposted(history, m)
    && Posted(cfg, IsMemo(m.row), Directly(RowsFor(moves, history, before), IsMemo(m.row), KeyOf(m.row)))
  }

  /** Rows covered by an entry are not seen again. */
  lemma CoveredIsHidden(cfg: Config, moves: seq<Move>, history: seq<Booked>, before: int, now: int, m: Move)
    requires cfg.stock.Some? && m.createdAt <= now && Covered(cfg, moves, history, before, m)
    ensures !Unposted(AfterRun(cfg, moves, history, before, now), m)
  {
    StillUnpostedIff(cfg, moves, history, before, now, m);
  }

  lemma {:induction false} PostedGroupHasMoves(cfg: Config, moves: seq<Move>, history: seq<Booked>, before: int, memo: bool, key: string)
    requires Directly(RowsFor(moves, history, before), memo, key) != EMPTY
    ensures exists m :: m in moves && m.createdAt <= before && Unposted(history, m) && IsMemo(m.row) == memo && KeyOf(m.row) == key
  {
    var init, m := moves[..|moves| - 1], moves[|moves| - 1];
    DirectlySnoc(RowsFor(init, history, before), m.row, memo, key);
    if !(m.createdAt <= before && Unposted(history, m) && IsMemo(m.row) == memo && KeyOf(m.row) == key) {
      PostedGroupHasMoves(cfg, init, history, before, memo, key);
    } else {
      assert m in moves;
    }
  }

  /** The run hides nothing it has not posted. */
  ghost predicate HidesOnlyCovered(cfg: Config, moves: seq<Move>, history: seq<Booked>, before: int, now: int) {
    forall m :: m in moves && Unposted(history, m) && !Unposted(AfterRun(cfg, moves, history, before, now), m)
      ==> Covered(cfg, moves, history, before, m)
  }

  /** No unposted movement shares its source with a covered one without being covered too. */
  ghost predicate NoBystanders(cfg: Config, moves: seq<Move>, history: seq<Booked>, before: int) {
    forall m, c :: m in moves && c in moves && Unposted(history, m) && Covered(cfg, moves, history, before, c) && KeyOf(m.row) == KeyOf(c.row)
      ==> Covered(cfg, moves, history, before, m)
  }

  lemma PostedIsNotEmpty(cfg: Config, memo: bool, g: Group)
    requires Posted(cfg, memo, g)
    ensures g != EMPTY
  {
  }

  lemma SourcePostedMeansCovered(cfg: Config, moves: seq<Move>, history: seq<Booked>, before: int, key: string)
    ensures SourcePosted(cfg, RowsFor(moves, history, before), key)
            <==> exists c :: c in moves && Covered(cfg, moves, history, before, c) && KeyOf(c.row) == key
  {
    var rows := RowsFor(moves, history, before);
    if SourcePosted(cfg, rows, key) {
      var memo := Posted(cfg, true, Directly(rows, true, key));
      assert Posted(cfg, memo, Directly(rows, memo, key));
      PostedIsNotEmpty(cfg, memo, Directly(rows, memo, key));
      PostedGroupHasMoves(cfg, moves, history, before, memo, key);
    }
  }

  /**
   * The exact condition, for movements that all exist when the entries are written:
   * the run hides from later ones only what it has posted exactly when no unposted
   * movement shares its source with a posted group without belonging to one, be it
   * a memo row not capitalised or a row later than `before`.
   */
  lemma OnlyCoveredAreHiddenIff(cfg: Config, moves: seq<Move>, history: seq<Booked>, before: int, now: int)
    requires cfg.stock.Some? && forall m :: m in moves ==> m.createdAt <= now
    ensures HidesOnlyCovered(cfg, moves, history, before, now) <==> NoBystanders(cfg, moves, history, before)
  {
    forall m | m in moves
      ensures Unposted(AfterRun(cfg, moves, history, before, now), m)
              <==> Unposted(history, m)
                   && !exists c :: c in moves && Covered(cfg, moves, history, before, c) && KeyOf(c.row) == KeyOf(m.row)
    {
      StillUnpostedIff(cfg, moves, history, before, now, m);
      SourcePostedMeansCovered(cfg, moves, history, before, KeyOf(m.row));
    }
  }

  // --- Running it again ---------------------------------------------------------

  lemma {:induction false} RestBySource(cfg: Config, moves: seq<Move>, earlier: seq<Booked>, later: seq<Booked>, before: int,
                                        rows: seq<Row>, memo: bool, key: string)
    requires forall m :: m in moves ==> (Unposted(later, m) <==> Unposted(earlier, m) && !SourcePosted(cfg, rows, KeyOf(m.row)))
    ensures Directly(RowsFor(moves, later, before), memo, key) ==
              if SourcePosted(cfg, rows, key) then EMPTY else Directly(RowsFor(moves, earlier, before), memo, key)
  {
    if moves != [] {
      var init, m := moves[..|moves| - 1], moves[|moves| - 1];
      assert forall x :: x in init ==> x in moves;
      RestBySource(cfg, init, earlier, later, before, rows, memo, key);
      DirectlySnoc(RowsFor(init, earlier, before), m.row, memo, key);
      DirectlySnoc(RowsFor(init, later, before), m.row, memo, key);
      assert m in moves;
    }
  }

  lemma DirectlySnoc(rows: seq<Row>, r: Row, memo: bool, key: string)
    ensures Directly(rows + [r], memo, key) ==
              if IsMemo(r) == memo && KeyOf(r) == key then Add(Directly(rows, memo, key), r) else Directly(rows, memo, key)
    ensures Directly(rows + [], memo, key) == Directly(rows, memo, key)
  {
    assert (rows + [r])[..|rows|] == rows;
    assert rows + [] == rows;
  }

  /** A second run with the same settings over the same movements writes no entry. */
  lemma SecondRunPostsNothing(cfg: Config, moves: seq<Move>, history: seq<Booked>, before: int, now: int)
    requires cfg.stock.Some? && forall m :: m in moves ==> m.createdAt <= now
    ensures CatchUp(cfg, RowsFor(moves, AfterRun(cfg, moves, history, before, now), before)).journals == []
  {
    var rows, after := RowsFor(moves, history, before), AfterRun(cfg, moves, history, before, now);
    var again := CatchUp(cfg, RowsFor(moves, after, before)).journals;
    forall m | m in moves
      ensures Unposted(after, m) <==> Unposted(history, m) && !SourcePosted(cfg, rows, KeyOf(m.row))
    {
      StillUnpostedIff(cfg, moves, history, before, now, m);
    }
    forall key
      ensures !HasEntry(again, key)
    {
      RestBySource(cfg, moves, history, after, before, rows, true, key);
      RestBySource(cfg, moves, history, after, before, rows, false, key);
      EntriesAreBySource(cfg, RowsFor(moves, after, before), key);
    }
    assert again == [] || HasEntry(again, again[0].source);
  }

  // --- A memo row hidden by a neighbour ------------------------------------------

  const MEMO_ROW := Move(Row("opening_balance", None, 40.0, "L1"), 1, false)
  const OTHER_ROW := Move(Row("adjustment_in", None, 10.0, "L2"), 1, false)
  const ADJUSTING := Config(true, false, "equity", Some(1), map["stock_adjustment_income" := 2, "equity" := 3])
  const CAPITALISING := ADJUSTING.(postOpening := true)

  lemma BothRowsAreSeen()
    ensures RowsFor([MEMO_ROW, OTHER_ROW], [], 1) == [MEMO_ROW.row, OTHER_ROW.row]
  {
    assert [MEMO_ROW, OTHER_ROW][..1] == [MEMO_ROW] && [MEMO_ROW][..0] == [];
    assert RowsFor([MEMO_ROW], [], 1) == [MEMO_ROW.row];
  }

  lemma TheirGroups()
    ensures var rows := [MEMO_ROW.row, OTHER_ROW.row];
            Directly(rows, true, "(none)").value == 40.0 && Directly(rows, false, "(none)").value == 10.0
  {
    var rows := [MEMO_ROW.row, OTHER_ROW.row];
    assert rows[..1] == [MEMO_ROW.row] && [MEMO_ROW.row][..0] == [];
    assert Directly([MEMO_ROW.row], false, "(none)") == EMPTY;
    assert Directly([MEMO_ROW.row], true, "(none)").value == 40.0;
  }

  lemma BothAreHiddenAfterwards(after: seq<Booked>)
    requires after == AfterRun(ADJUSTING, [MEMO_ROW, OTHER_ROW], [], 1, 2)
    ensures !Unposted(after, MEMO_ROW) && !Unposted(after, OTHER_ROW)
  {
    BothRowsAreSeen();
    TheirGroups();
    StillUnpostedIff(ADJUSTING, [MEMO_ROW, OTHER_ROW], [], 1, 2, MEMO_ROW);
    StillUnpostedIff(ADJUSTING, [MEMO_ROW, OTHER_ROW], [], 1, 2, OTHER_ROW);
  }

  lemma {:induction false} NothingSeen(moves: seq<Move>, history: seq<Booked>, before: int)
    requires forall m :: m in moves ==> !Unposted(history, m)
    ensures RowsFor(moves, history, before) == []
  {
    if moves != [] {
      var init := moves[..|moves| - 1];
      assert forall m :: m in init ==> m in moves;
      assert moves[|moves| - 1] in moves;
      NothingSeen(init, history, before);
    }
  }

  /**
   * A run that posts the adjustments of a source hides its memo rows as well: a
   * later run asked to capitalise opening balances, which would have posted one,
   * finds nothing.
   */
  lemma MemoRowIsHiddenByItsNeighbour()
    ensures var moves := [MEMO_ROW, OTHER_ROW];
            var after := AfterRun(ADJUSTING, moves, [], 1, 2);
            && !Covered(ADJUSTING, moves, [], 1, MEMO_ROW)
            && HasEntry(CatchUp(CAPITALISING, RowsFor(moves, [], 1)).journals, "(none)")
            && RowsFor(moves, after, 1) == []
  {
    var moves := [MEMO_ROW, OTHER_ROW];
    BothRowsAreSeen();
    TheirGroups();
    EntriesAreBySource(CAPITALISING, RowsFor(moves, [], 1), "(none)");
    var after := AfterRun(ADJUSTING, moves, [], 1, 2);
    BothAreHiddenAfterwards(after);
    NothingSeen(moves, after, 1);
  }

  // ---------------------------------------------------------------------------
  // What is posted, and where
  // ---------------------------------------------------------------------------

  /** Opening balances are memo rows, by movement type or by source; rows without a source are kept under one name. */
  lemma MemoRowsAreOpenings(r: Row)
    ensures IsMemo(r) <==> r.moveType == "opening_balance" || (r.source.Some? && r.source.value in {"opening_balance", "opening_backfill"})
    ensures KeyOf(r) == if r.source == None then "(none)" else r.source.value
  {
  }

  /** The account on the other side: of opening equity for memo rows, of adjustment income for a gain, of expense for a loss. */
  ghost predicate OtherSide(cfg: Config, memo: bool, value: real, account: Account) {
    var key := if memo then cfg.openingEquityKey
               else if value < 0.0 then "stock_adjustment_expense" else "stock_adjustment_income";
    key in cfg.mapping && cfg.mapping[key] == account
  }

  /** A gain is debited to stock and credited to the other side, a loss the other way round, both with its size. */
  ghost predicate BooksValue(cfg: Config, stock: Account, memo: bool, source: string, value: real, j: Journal) {
    && j.source == source && j.code == (if memo then "GEN" else "ADJ") && |j.lines| == 2
    && exists other :: OtherSide(cfg, memo, value, other)
         && (value > 0.0 ==> j.lines == [Debit(stock, value), Credit(other, value)])
         && (value < 0.0 ==> j.lines == [Debit(other, -value), Credit(stock, -value)])
  }

  /** A group is posted exactly when writing is on, its value is not zero, its other side is known, and memo groups are asked for. */
  lemma PostedExactly(cfg: Config, memo: bool, g: Group)
    ensures Posted(cfg, memo, g) <==>
              && cfg.apply && g.value != 0.0 && (memo ==> cfg.postOpening)
              && exists other :: OtherSide(cfg, memo, g.value, other)
  {
    if Posted(cfg, memo, g) {
      assert OtherSide(cfg, memo, g.value, cfg.mapping[CounterKey(cfg, memo, g.value)]);
    }
  }

  /** The journal books a posted group of the rows. */
  ghost predicate BooksARealGroup(cfg: Config, stock: Account, rows: seq<Row>, j: Journal) {
    exists memo :: Posted(cfg, memo, Directly(rows, memo, j.source))
                && BooksValue(cfg, stock, memo, j.source, Directly(rows, memo, j.source).value, j)
  }

  lemma EntryBooks(cfg: Config, stock: Account, memo: bool, source: string, g: Group)
    requires Posted(cfg, memo, g)
    ensures BooksValue(cfg, stock, memo, source, g.value,
                   Entry(if memo then "GEN" else "ADJ", source, stock, cfg.mapping[CounterKey(cfg, memo, g.value)], g.value))
  {
    assert OtherSide(cfg, memo, g.value, cfg.mapping[CounterKey(cfg, memo, g.value)]);
  }

  ghost predicate AllBookRealGroups(cfg: Config, stock: Account, rows: seq<Row>, js: seq<Journal>) {
    forall i :: 0 <= i < |js| ==> BooksARealGroup(cfg, stock, rows, js[i])
  }

  /** The groups are the direct sums of the rows. */
  ghost predicate DirectGroups(rows: seq<Row>, memo: bool, gs: Groups) {
    forall i :: 0 <= i < |gs| ==> gs[i].1 == Directly(rows, memo, gs[i].0)
  }

  lemma {:induction false} PostingBooksGroups(cfg: Config, stock: Account, memo: bool, acc: Result, gs: Groups, rows: seq<Row>)
    requires AllBookRealGroups(cfg, stock, rows, acc.journals) && DirectGroups(rows, memo, gs)
    ensures AllBookRealGroups(cfg, stock, rows, PostAll(cfg, stock, memo, acc, gs).journals)
  {
    if gs != [] {
      var init, last := gs[..|gs| - 1], gs[|gs| - 1];
      PostingBooksGroups(cfg, stock, memo, acc, init, rows);
      if Posted(cfg, memo, last.1) {
        EntryBooks(cfg, stock, memo, last.0, last.1);
        var j := Entry(if memo then "GEN" else "ADJ", last.0, stock, cfg.mapping[CounterKey(cfg, memo, last.1.value)], last.1.value);
        assert j.source == last.0 && last.1 == Directly(rows, memo, last.0);
        assert BooksARealGroup(cfg, stock, rows, j);
      }
    }
  }

  lemma GroupsAreDirect(rows: seq<Row>, memo: bool)
    ensures DirectGroups(rows, memo, GroupBy(rows, memo))
  {
    var gs := GroupBy(rows, memo);
    OneGroupPerSource(rows, memo);
    forall i | 0 <= i < |gs|
      ensures gs[i].1 == Directly(rows, memo, gs[i].0)
    {
      FoundIsTheGroup(gs, i);
      GroupsAreTheRowsBySource(rows, memo, gs[i].0);
    }
  }

  /**
   * Every journal of a run books one source's memo rows, or its other rows, with
   * their whole value on the right side of stock and the right counter-account.
   */
  lemma JournalsBookTheirRows(cfg: Config, rows: seq<Row>)
    requires cfg.stock.Some?
    ensures AllBookRealGroups(cfg, cfg.stock.value, rows, CatchUp(cfg, rows).journals)
  {
    if rows != [] {
      var stock := cfg.stock.value;
      GroupsAreDirect(rows, true);
      GroupsAreDirect(rows, false);
      PostingBooksGroups(cfg, stock, true, NOTHING, GroupBy(rows, true), rows);
      PostingBooksGroups(cfg, stock, false, PostAll(cfg, stock, true, NOTHING, GroupBy(rows, true)), GroupBy(rows, false), rows);
    }
  }

  /** Without rows, a stock account or permission to write, nothing is posted. */
  lemma NothingWithoutLeave(cfg: Config, rows: seq<Row>)
    requires rows == [] || cfg.stock == None || !cfg.apply
    ensures CatchUp(cfg, rows).journals == []
  {
    if rows != [] && cfg.stock.Some? {
      var js := CatchUp(cfg, rows).journals;
      JournalsBookTheirRows(cfg, rows);
      assert js == [] || BooksARealGroup(cfg, cfg.stock.value, rows, js[0]);
    }
  }

  // ---------------------------------------------------------------------------
  // What is announced
  // ---------------------------------------------------------------------------

  /** A group of the summary: worth an entry, and for opening balances with a known account. */
  ghost predicate Announces(cfg: Config, memo: bool, g: Group) {
    g.value != 0.0 && (memo ==> cfg.postOpening && cfg.openingEquityKey in cfg.mapping)
  }

  ghost function SizesOf(cfg: Config, memo: bool, gs: Groups): real {
    if gs == [] then 0.0
    else
      var g := gs[|gs| - 1].1;
      SizesOf(cfg, memo, gs[..|gs| - 1]) + if !Announces(cfg, memo, g) then 0.0 else if g.value < 0.0 then -g.value else g.value
  }

  ghost function NumberOf(cfg: Config, memo: bool, gs: Groups): nat {
    if gs == [] then 0 else NumberOf(cfg, memo, gs[..|gs| - 1]) + if Announces(cfg, memo, gs[|gs| - 1].1) then 1 else 0
  }

  lemma {:induction false} SummaryOfGroups(cfg: Config, stock: Account, memo: bool, acc: Result, gs: Groups)
    ensures PostAll(cfg, stock, memo, acc, gs).entries == acc.entries + NumberOf(cfg, memo, gs)
    ensures PostAll(cfg, stock, memo, acc, gs).announced == acc.announced + SizesOf(cfg, memo, gs)
  {
    if gs != [] {
      SummaryOfGroups(cfg, stock, memo, acc, gs[..|gs| - 1]);
    }
  }

  /** Writing or not, the summary counts the groups worth an entry and adds up their sizes. */
  lemma SummaryIsOfTheGroups(cfg: Config, rows: seq<Row>)
    requires cfg.stock.Some? && rows != []
    ensures CatchUp(cfg, rows).entries == NumberOf(cfg, true, GroupBy(rows, true)) + NumberOf(cfg, false, GroupBy(rows, false))
    ensures CatchUp(cfg, rows).announced == SizesOf(cfg, true, GroupBy(rows, true)) + SizesOf(cfg, false, GroupBy(rows, false))
  {
    SummaryOfGroups(cfg, cfg.stock.value, true, NOTHING, GroupBy(rows, true));
    SummaryOfGroups(cfg, cfg.stock.value, false, PostAll(cfg, cfg.stock.value, true, NOTHING, GroupBy(rows, true)), GroupBy(rows, false));
  }

  /** The ledger codes of the rows of one kind and source, in order. */
  ghost function CodesOf(rows: seq<Row>, memo: bool, key: string): seq<string> {
    if rows == [] then []
    else
      var r := rows[|rows| - 1];
      CodesOf(rows[..|rows| - 1], memo, key) + if IsMemo(r) == memo && KeyOf(r) == key then [r.code] else []
  }

  ghost function SumOf(rows: seq<Row>, memo: bool, key: string): real {
    if rows == [] then 0.0
    else
      var r := rows[|rows| - 1];
      SumOf(rows[..|rows| - 1], memo, key) + if IsMemo(r) == memo && KeyOf(r) == key then r.signedValue else 0.0
  }

  /** A group counts its rows, adds up their values and lists their codes. */
  lemma {:induction false} GroupsCountTheirRows(rows: seq<Row>, memo: bool, key: string)
    ensures Find(GroupBy(rows, memo), key)
         == Group(|CodesOf(rows, memo, key)|, SumOf(rows, memo, key), CodesOf(rows, memo, key))
  {
    GroupsAreTheRowsBySource(rows, memo, key);
    DirectlyCounts(rows, memo, key);
  }

  lemma {:induction false} DirectlyCounts(rows: seq<Row>, memo: bool, key: string)
    ensures Directly(rows, memo, key) == Group(|CodesOf(rows, memo, key)|, SumOf(rows, memo, key), CodesOf(rows, memo, key))
  {
    if rows != [] {
      DirectlyCounts(rows[..|rows| - 1], memo, key);
    }
  }

  lemma {:induction false} MemoRowsAreCounted(rows: seq<Row>)
    ensures MemoRows(rows) == |set i | 0 <= i < |rows| && IsMemo(rows[i])|
  {
    if rows != [] {
      var n := |rows| - 1;
      MemoRowsAreCounted(rows[..n]);
      var before, after := set i | 0 <= i < |rows[..n]| && IsMemo(rows[..n][i]), set i | 0 <= i < |rows| && IsMemo(rows[i]);
      assert after == before + if IsMemo(rows[n]) then {n} else {};
    }
  }
}
