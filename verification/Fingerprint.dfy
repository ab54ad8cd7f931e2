/** Comparing the fingerprints of two databases. */
module Fingerprint {
  import opened Common

  type Entries = map<string, string>

  datatype Snapshot = Snapshot(
    counts: map<string, int>,
    money: map<string, Entries>,
    inventory: Entries,
    identifiers: Entries,
    dateBounds: Entries,
    sequences: Entries,
    tableHashes: Entries)

  /** The columns a migration is known to rewrite, by table. */
  type Allowlist = map<string, set<string>>

  datatype Severity = Unexpected | Allowlisted | Info

  datatype Kind = Missing | Changed | Shrank | Grew | Appeared

  datatype Note = Note(severity: Severity, kind: Kind)

  datatype Area = Counts | Money(section: string) | Inventory | Identifiers | DateBounds | Sequences | Columns

  datatype Finding = Finding(area: Area, key: string, note: Note)

  // ---------------------------------------------------------------------------
  // What each key deserves
  // ---------------------------------------------------------------------------

  function MapVerdict(before: Entries, after: Entries, allowGrowth: bool, k: string): Option<Note> {
    if k in before then
      if k !in after then Some(Note(Unexpected, Missing))
      else if before[k] != after[k] then Some(Note(Unexpected, Changed))
      else None
    else if k in after then Some(Note(if allowGrowth then Info else Unexpected, Appeared))
    else None
  }

  function CountVerdict(before: map<string, int>, after: map<string, int>, k: string): Option<Note> {
    if k in before then
      if k !in after then Some(Note(Unexpected, Missing))
      else if after[k] < before[k] then Some(Note(Unexpected, Shrank))
      else if after[k] > before[k] then Some(Note(Allowlisted, Grew))
      else None
    else if k in after then Some(Note(Info, Appeared))
    else None
  }

  /** The text up to the first dot. */
  function UpToDot(s: string): (r: string)
    ensures r <= s && '.' !in r
    ensures r == s || s[|r|] == '.'
  {
    if s == [] || s[0] == '.' then [] else [s[0]] + UpToDot(s[1..])
  }

  /** `key.split('.')`, first two parts; the second is absent without a dot. */
  function TableOf(key: string): string {
    UpToDot(key)
  }

  function ColumnOf(key: string): Option<string> {
    var t := UpToDot(key);
    if t == key then None else Some(UpToDot(key[|t| + 1..]))
  }

  predicate Allowed(allow: Allowlist, key: string) {
    TableOf(key) in allow && ColumnOf(key).Some? && ColumnOf(key).value in allow[TableOf(key)]
  }

  function HashVerdict(allow: Allowlist, before: Entries, after: Entries, k: string): Option<Note> {
    var severity := if Allowed(allow, k) then Allowlisted else Unexpected;
    if k in before then
      if k !in after then Some(Note(severity, Missing))
      else if before[k] != after[k] then Some(Note(severity, Changed))
      else None
    else if k in after then Some(Note(Info, Appeared))
    else None
  }

  function MoneyAt(s: Snapshot, section: string): Entries {
    if section in s.money then s.money[section] else map[]
  }

  /** The note a comparison attaches to one key of one area, if any. */
  function Verdict(allow: Allowlist, before: Snapshot, after: Snapshot, area: Area, k: string): Option<Note> {
    match area
    case Counts => CountVerdict(before.counts, after.counts, k)
    case Money(section) =>
      if section in before.money then MapVerdict(before.money[section], MoneyAt(after, section), true, k) else None
    case Inventory => MapVerdict(before.inventory, after.inventory, true, k)
    case Identifiers => MapVerdict(before.identifiers, after.identifiers, false, k)
    case DateBounds => MapVerdict(before.dateBounds, after.dateBounds, false, k)
    case Sequences => MapVerdict(before.sequences, after.sequences, true, k)
    case Columns => HashVerdict(allow, before.tableHashes, after.tableHashes, k)
  }

  // ---------------------------------------------------------------------------
  // The comparison loops
  // ---------------------------------------------------------------------------

  method DiffMaps(area: Area, before: Entries, after: Entries, findings: seq<Finding>, allowGrowth: bool)
    returns (out: seq<Finding>)
    ensures forall f :: f in out <==> f in findings || (f.area == area && MapVerdict(before, after, allowGrowth, f.key) == Some(f.note))
  {
    out := findings;
    var todo := before.Keys;
    while todo != {}
      invariant todo <= before.Keys
      invariant forall f :: f in out <==>
                  f in findings
                  || (f.area == area && f.key in before.Keys - todo && MapVerdict(before, after, allowGrowth, f.key) == Some(f.note))
      decreases todo
    {
      var k :| k in todo;
      todo := todo - {k};
      if k !in after {
        out := out + [Finding(area, k, Note(Unexpected, Missing))];
      } else if before[k] != after[k] {
        out := out + [Finding(area, k, Note(Unexpected, Changed))];
      }
    }
    todo := after.Keys;
    while todo != {}
      invariant todo <= after.Keys
      invariant forall f :: f in out <==>
                  f in findings
                  || (f.area == area && f.key in before.Keys + (after.Keys - todo) && MapVerdict(before, after, allowGrowth, f.key) == Some(f.note))
      decreases todo
    {
      var k :| k in todo;
      todo := todo - {k};
      if k !in before {
        out := out + [Finding(area, k, Note(if allowGrowth then Info else Unexpected, Appeared))];
      }
    }
  }

  method DiffCounts(before: map<string, int>, after: map<string, int>) returns (out: seq<Finding>)
    ensures forall f :: f in out <==> f.area == Counts && CountVerdict(before, after, f.key) == Some(f.note)
  {
    out := [];
    var todo := before.Keys;
    while todo != {}
      invariant todo <= before.Keys
      invariant forall f :: f in out <==> f.area == Counts && f.key in before.Keys - todo && CountVerdict(before, after, f.key) == Some(f.note)
      decreases todo
    {
      var t :| t in todo;
      todo := todo - {t};
      if t !in after {
        out := out + [Finding(Counts, t, Note(Unexpected, Missing))];
      } else if after[t] < before[t] {
        out := out + [Finding(Counts, t, Note(Unexpected, Shrank))];
      } else if after[t] > before[t] {
        out := out + [Finding(Counts, t, Note(Allowlisted, Grew))];
      }
    }
    todo := after.Keys;
    while todo != {}
      invariant todo <= after.Keys
      invariant forall f :: f in out <==>
                  f.area == Counts && f.key in before.Keys + (after.Keys - todo) && CountVerdict(before, after, f.key) == Some(f.note)
      decreases todo
    {
      var t :| t in todo;
      todo := todo - {t};
      if t !in before {
        out := out + [Finding(Counts, t, Note(Info, Appeared))];
      }
    }
  }

  method DiffHashes(allow: Allowlist, before: Entries, after: Entries, findings: seq<Finding>) returns (out: seq<Finding>)
    ensures forall f :: f in out <==> f in findings || (f.area == Columns && HashVerdict(allow, before, after, f.key) == Some(f.note))
  {
    out := findings;
    var todo := before.Keys;
    while todo != {}
      invariant todo <= before.Keys
      invariant forall f :: f in out <==>
                  f in findings || (f.area == Columns && f.key in before.Keys - todo && HashVerdict(allow, before, after, f.key) == Some(f.note))
      decreases todo
    {
      var k :| k in todo;
      todo := todo - {k};
      var allowed := Allowed(allow, k);
      if k !in after {
        out := out + [Finding(Columns, k, Note(if allowed then Allowlisted else Unexpected, Missing))];
      } else if before[k] != after[k] {
        out := out + [Finding(Columns, k, Note(if allowed then Allowlisted else Unexpected, Changed))];
      }
    }
    todo := after.Keys;
    while todo != {}
      invariant todo <= after.Keys
      invariant forall f :: f in out <==>
                  f in findings
                  || (f.area == Columns && f.key in before.Keys + (after.Keys - todo) && HashVerdict(allow, before, after, f.key) == Some(f.note))
      decreases todo
    {
      var k :| k in todo;
      todo := todo - {k};
      if k !in before {
        out := out + [Finding(Columns, k, Note(Info, Appeared))];
      }
    }
  }

  method DiffMoney(before: Snapshot, after: Snapshot, findings: seq<Finding>) returns (out: seq<Finding>)
    ensures forall f :: f in out <==>
              f in findings
              || (f.area.Money? && f.area.section in before.money
                  && MapVerdict(before.money[f.area.section], MoneyAt(after, f.area.section), true, f.key) == Some(f.note))
  {
    out := findings;
    var todo := before.money.Keys;
    while todo != {}
      invariant todo <= before.money.Keys
      invariant forall f :: f in out <==>
                  f in findings
                  || (f.area.Money? && f.area.section in before.money.Keys - todo
                      && MapVerdict(before.money[f.area.section], MoneyAt(after, f.area.section), true, f.key) == Some(f.note))
      decreases todo
    {
      var section :| section in todo;
      todo := todo - {section};
      out := DiffMaps(Money(section), before.money[section], MoneyAt(after, section), out, true);
    }
  }

  /** The findings are exactly the notes the two snapshots deserve, and nothing else. */
  method CompareSnapshots(allow: Allowlist, before: Snapshot, after: Snapshot) returns (findings: seq<Finding>)
    ensures forall f :: f in findings <==> Verdict(allow, before, after, f.area, f.key) == Some(f.note)
    ensures Passes(allow, before, after) <==> forall f :: f in findings ==> f.note.severity != Unexpected
    ensures before == after ==> findings == []
  {
    findings := DiffCounts(before.counts, after.counts);
    findings := DiffMoney(before, after, findings);
    findings := DiffMaps(Inventory, before.inventory, after.inventory, findings, true);
    findings := DiffMaps(Identifiers, before.identifiers, after.identifiers, findings, false);
    findings := DiffMaps(DateBounds, before.dateBounds, after.dateBounds, findings, false);
    findings := DiffMaps(Sequences, before.sequences, after.sequences, findings, true);
    findings := DiffHashes(allow, before.tableHashes, after.tableHashes, findings);
    FindingsDecide(allow, before, after, findings);
    assert findings == [] || findings[0] in findings;
    forall f | before == after
      ensures f !in findings
    {
      SelfComparisonIsSilent(allow, before, f.area, f.key);
    }
  }

  // ---------------------------------------------------------------------------
  // Passing is a preorder
  // ---------------------------------------------------------------------------

  ghost predicate Unacceptable(v: Option<Note>) {
    v.Some? && v.value.severity == Unexpected
  }

  /** No key of any area is unexpected. */
  ghost predicate Passes(allow: Allowlist, before: Snapshot, after: Snapshot) {
    forall area, k :: !Unacceptable(Verdict(allow, before, after, area, k))
  }

  lemma FindingsDecide(allow: Allowlist, before: Snapshot, after: Snapshot, findings: seq<Finding>)
    requires forall f :: f in findings <==> Verdict(allow, before, after, f.area, f.key) == Some(f.note)
    ensures Passes(allow, before, after) <==> forall f :: f in findings ==> f.note.severity != Unexpected
  {
    if forall f :: f in findings ==> f.note.severity != Unexpected {
      forall area, k
        ensures !Unacceptable(Verdict(allow, before, after, area, k))
      {
        var v := Verdict(allow, before, after, area, k);
        if v.Some? {
          assert Finding(area, k, v.value) in findings;
        }
      }
    }
  }

  /** A snapshot compared with itself yields no finding at all. */
  lemma SelfComparisonIsSilent(allow: Allowlist, s: Snapshot, area: Area, k: string)
    ensures Verdict(allow, s, s, area, k).None?
  {
  }

  /** If before-to-middle and middle-to-after both pass, so does before-to-after. */
  lemma PassingIsTransitive(allow: Allowlist, before: Snapshot, middle: Snapshot, after: Snapshot)
    requires Passes(allow, before, middle) && Passes(allow, middle, after)
    ensures Passes(allow, before, after)
  {
    forall area, k
      ensures !Unacceptable(Verdict(allow, before, after, area, k))
    {
      assert !Unacceptable(Verdict(allow, before, middle, area, k));
      assert !Unacceptable(Verdict(allow, middle, after, area, k));
      if area.Money? && area.section in before.money && area.section !in middle.money {
        forall k'
          ensures !Unacceptable(Verdict(allow, before, middle, area, k'))
        {
        }
        EmptySectionMayVanish(allow, before, middle, area.section);
      }
    }
  }

  /** A money section that disappears goes unreported exactly when it was empty. */
  lemma EmptySectionMayVanish(allow: Allowlist, before: Snapshot, after: Snapshot, section: string)
    requires section in before.money && section !in after.money
    ensures (forall k :: !Unacceptable(Verdict(allow, before, after, Money(section), k))) <==> before.money[section] == map[]
  {
    if k :| k in before.money[section] {
      assert Unacceptable(Verdict(allow, before, after, Money(section), k));
    } else {
      assert before.money[section] == map[];
    }
  }

  const BARE := Snapshot(map[], map[], map[], map[], map[], map[], map[])

  /** Two snapshots that pass although a section is gone. */
  lemma ASectionVanishesUnreported(allow: Allowlist, section: string)
    ensures Passes(allow, BARE.(money := map[section := map[]]), BARE)
  {
  }

  // ---------------------------------------------------------------------------
  // Row by row
  // ---------------------------------------------------------------------------

  /** The rows lost, rewritten and added between two tables of row hashes. */
  method RowLevelCompare(source: Entries, target: Entries) returns (missing: set<string>, changed: set<string>, added: set<string>)
    ensures missing == source.Keys - target.Keys
    ensures added == target.Keys - source.Keys
    ensures changed <= source.Keys * target.Keys
    ensures missing + changed == {} <==> forall id :: id in source ==> id in target && target[id] == source[id]
    ensures forall id :: id in changed <==> id in source && id in target && source[id] != target[id]
  {
    missing, changed := {}, {};
    var todo := source.Keys;
    while todo != {}
      invariant todo <= source.Keys
      invariant missing == (source.Keys - todo) - target.Keys
      invariant forall id :: id in changed <==> id in source.Keys - todo && id in target && source[id] != target[id]
      decreases todo
    {
      var id :| id in todo;
      todo := todo - {id};
      if id !in target {
        missing := missing + {id};
      } else if target[id] != source[id] {
        changed := changed + {id};
      }
    }
    added := set id | id in target && id !in source;
    if missing + changed == {} {
      forall id | id in source
        ensures id in target && target[id] == source[id]
      {
        assert id !in missing && id !in changed;
      }
    }
  }

  // ---------------------------------------------------------------------------
  // What passing means
  // ---------------------------------------------------------------------------

  /** Everything there before is there unchanged. */
  ghost predicate Kept(before: Entries, after: Entries) {
    forall k :: k in before ==> k in after && after[k] == before[k]
  }

  /** The key names a column, `table.column`, that the allowlist owns. */
  ghost predicate OwnedByAllowlist(allow: Allowlist, key: string) {
    exists table, column, rest ::
      && table in allow && column in allow[table] && '.' !in table && '.' !in column
      && (rest == "" || rest[0] == '.')
      && key == Joined(table, column, rest)
  }

  function Joined(table: string, column: string, rest: string): string {
    table + "." + column + rest
  }

  lemma {:induction false} UpToDotStops(a: string, rest: string)
    requires '.' !in a && (rest == "" || rest[0] == '.')
    ensures UpToDot(a + rest) == a
  {
    if a == "" {
      assert a + rest == rest;
    } else {
      assert (a + rest)[1..] == a[1..] + rest;
      UpToDotStops(a[1..], rest);
    }
  }

  lemma KeySplits(table: string, column: string, rest: string)
    requires '.' !in table && '.' !in column && (rest == "" || rest[0] == '.')
    ensures TableOf(Joined(table, column, rest)) == table && ColumnOf(Joined(table, column, rest)) == Some(column)
  {
    var key := Joined(table, column, rest);
    assert key == table + ("." + column + rest);
    UpToDotStops(table, "." + column + rest);
    assert key[|table| + 1..] == column + rest;
    UpToDotStops(column, rest);
    assert |key| > |table|;
  }

  lemma CutAndJoin(key: string, table: string, column: string)
    requires table <= key && |table| < |key| && key[|table|] == '.' && column <= key[|table| + 1..]
    ensures key == Joined(table, column, key[|table| + 1..][|column|..])
  {
    var tail := key[|table| + 1..];
    assert key == table + ("." + tail);
    assert tail == column + tail[|column|..];
  }

  /** What follows table and column. */
  function RestOf(key: string): (r: string)
    requires ColumnOf(key).Some?
    ensures r == "" || r[0] == '.'
  {
    var tail := key[|TableOf(key)| + 1..];
    tail[|UpToDot(tail)|..]
  }

  lemma KeyRejoins(key: string)
    requires ColumnOf(key).Some?
    ensures key == Joined(TableOf(key), ColumnOf(key).value, RestOf(key))
  {
    CutAndJoin(key, TableOf(key), ColumnOf(key).value);
  }

  lemma AllowedIsOwned(allow: Allowlist, key: string)
    ensures Allowed(allow, key) <==> OwnedByAllowlist(allow, key)
  {
    if Allowed(allow, key) {
      KeyRejoins(key);
      NoDotInParts(key);
      assert RestOf(key) == "" || RestOf(key)[0] == '.';
    }
    if OwnedByAllowlist(allow, key) {
      var table, column, rest :|
        && table in allow && column in allow[table] && '.' !in table && '.' !in column
        && (rest == "" || rest[0] == '.')
        && key == Joined(table, column, rest);
      KeySplits(table, column, rest);
    }
  }

  lemma NoDotInParts(key: string)
    ensures '.' !in TableOf(key)
    ensures ColumnOf(key).Some? ==> '.' !in ColumnOf(key).value
  {
  }

  /** What a comparison lets pass, area by area. */
  ghost predicate NothingLost(allow: Allowlist, before: Snapshot, after: Snapshot) {
    && (forall t :: t in before.counts ==> t in after.counts && before.counts[t] <= after.counts[t])
    && (forall section, k :: section in before.money && k in before.money[section] ==>
          section in after.money && k in after.money[section] && after.money[section][k] == before.money[section][k])
    && Kept(before.inventory, after.inventory)
    && before.identifiers == after.identifiers
    && before.dateBounds == after.dateBounds
    && Kept(before.sequences, after.sequences)
    && (forall k :: k in before.tableHashes && !(k in after.tableHashes && after.tableHashes[k] == before.tableHashes[k])
          ==> OwnedByAllowlist(allow, k))
  }

  lemma GrowthPassesIff(before: Entries, after: Entries)
    ensures (forall k :: !Unacceptable(MapVerdict(before, after, true, k))) <==> Kept(before, after)
  {
    if forall k :: !Unacceptable(MapVerdict(before, after, true, k)) {
      forall k | k in before
        ensures k in after && after[k] == before[k]
      {
        assert !Unacceptable(MapVerdict(before, after, true, k));
      }
    }
  }

  lemma FixedPassesIff(before: Entries, after: Entries)
    ensures (forall k :: !Unacceptable(MapVerdict(before, after, false, k))) <==> before == after
  {
    if forall k :: !Unacceptable(MapVerdict(before, after, false, k)) {
      forall k
        ensures k in before <==> k in after
        ensures k in before && k in after ==> after[k] == before[k]
      {
        assert !Unacceptable(MapVerdict(before, after, false, k));
      }
    }
  }

  lemma CountsPassIff(before: map<string, int>, after: map<string, int>)
    ensures (forall k :: !Unacceptable(CountVerdict(before, after, k)))
            <==> forall t :: t in before ==> t in after && before[t] <= after[t]
  {
    if forall k :: !Unacceptable(CountVerdict(before, after, k)) {
      forall t | t in before
        ensures t in after && before[t] <= after[t]
      {
        assert !Unacceptable(CountVerdict(before, after, t));
      }
    }
  }

  lemma HashesPassIff(allow: Allowlist, before: Entries, after: Entries)
    ensures (forall k :: !Unacceptable(HashVerdict(allow, before, after, k)))
            <==> forall k :: k in before && !(k in after && after[k] == before[k]) ==> OwnedByAllowlist(allow, k)
  {
    forall k
      ensures Unacceptable(HashVerdict(allow, before, after, k))
              <==> k in before && !(k in after && after[k] == before[k]) && !OwnedByAllowlist(allow, k)
    {
      AllowedIsOwned(allow, k);
    }
  }

  lemma MoneyPassesIff(before: Snapshot, after: Snapshot)
    ensures (forall section, k :: section in before.money ==>
               !Unacceptable(MapVerdict(before.money[section], MoneyAt(after, section), true, k)))
            <==> forall section, k :: section in before.money && k in before.money[section] ==>
                   section in after.money && k in after.money[section] && after.money[section][k] == before.money[section][k]
  {
    if forall section, k :: section in before.money ==>
         !Unacceptable(MapVerdict(before.money[section], MoneyAt(after, section), true, k)) {
      forall section, k | section in before.money && k in before.money[section]
        ensures section in after.money && k in after.money[section] && after.money[section][k] == before.money[section][k]
      {
        assert !Unacceptable(MapVerdict(before.money[section], MoneyAt(after, section), true, k));
      }
    }
  }

  /** Passing area by area. */
  ghost predicate PassesByArea(allow: Allowlist, before: Snapshot, after: Snapshot) {
    && (forall k :: !Unacceptable(CountVerdict(before.counts, after.counts, k)))
    && (forall section, k :: section in before.money ==>
          !Unacceptable(MapVerdict(before.money[section], MoneyAt(after, section), true, k)))
    && (forall k :: !Unacceptable(MapVerdict(before.inventory, after.inventory, true, k)))
    && (forall k :: !Unacceptable(MapVerdict(before.identifiers, after.identifiers, false, k)))
    && (forall k :: !Unacceptable(MapVerdict(before.dateBounds, after.dateBounds, false, k)))
    && (forall k :: !Unacceptable(MapVerdict(before.sequences, after.sequences, true, k)))
    && (forall k :: !Unacceptable(HashVerdict(allow, before.tableHashes, after.tableHashes, k)))
  }

  lemma PassesAreaByArea(allow: Allowlist, before: Snapshot, after: Snapshot)
    ensures Passes(allow, before, after) <==> PassesByArea(allow, before, after)
  {
    if Passes(allow, before, after) {
      forall k
        ensures !Unacceptable(CountVerdict(before.counts, after.counts, k))
        ensures !Unacceptable(MapVerdict(before.inventory, after.inventory, true, k))
        ensures !Unacceptable(MapVerdict(before.identifiers, after.identifiers, false, k))
        ensures !Unacceptable(MapVerdict(before.dateBounds, after.dateBounds, false, k))
        ensures !Unacceptable(MapVerdict(before.sequences, after.sequences, true, k))
        ensures !Unacceptable(HashVerdict(allow, before.tableHashes, after.tableHashes, k))
      {
        assert !Unacceptable(Verdict(allow, before, after, Counts, k));
        assert !Unacceptable(Verdict(allow, before, after, Inventory, k));
        assert !Unacceptable(Verdict(allow, before, after, Identifiers, k));
        assert !Unacceptable(Verdict(allow, before, after, DateBounds, k));
        assert !Unacceptable(Verdict(allow, before, after, Sequences, k));
        assert !Unacceptable(Verdict(allow, before, after, Columns, k));
      }
      forall section, k | section in before.money
        ensures !Unacceptable(MapVerdict(before.money[section], MoneyAt(after, section), true, k))
      {
        assert !Unacceptable(Verdict(allow, before, after, Money(section), k));
      }
    }
  }

  /**
   * A comparison passes exactly when no table is lost or shrank, every money total,
   * stock figure and sequence is there unchanged, identifiers and date bounds are
   * the same, and only columns the allowlist owns were dropped or rewritten.
   */
  lemma PassesIffNothingLost(allow: Allowlist, before: Snapshot, after: Snapshot)
    ensures Passes(allow, before, after) <==> NothingLost(allow, before, after)
  {
    PassesAreaByArea(allow, before, after);
    CountsPassIff(before.counts, after.counts);
    MoneyPassesIff(before, after);
    GrowthPassesIff(before.inventory, after.inventory);
    FixedPassesIff(before.identifiers, after.identifiers);
    FixedPassesIff(before.dateBounds, after.dateBounds);
    GrowthPassesIff(before.sequences, after.sequences);
    HashesPassIff(allow, before.tableHashes, after.tableHashes);
  }

  /** What is new is reported as information where growth is expected, a grown table and an owned column as allowed. */
  lemma ExpectedChangesAreStillReported(allow: Allowlist, before: Snapshot, after: Snapshot, k: string)
    ensures k !in before.counts && k in after.counts ==>
              Verdict(allow, before, after, Counts, k) == Some(Note(Info, Appeared))
    ensures k in before.counts && k in after.counts && before.counts[k] < after.counts[k] ==>
              Verdict(allow, before, after, Counts, k) == Some(Note(Allowlisted, Grew))
    ensures k !in before.inventory && k in after.inventory ==>
              Verdict(allow, before, after, Inventory, k) == Some(Note(Info, Appeared))
    ensures k !in before.sequences && k in after.sequences ==>
              Verdict(allow, before, after, Sequences, k) == Some(Note(Info, Appeared))
    ensures k !in before.tableHashes && k in after.tableHashes ==>
              Verdict(allow, before, after, Columns, k) == Some(Note(Info, Appeared))
    ensures k in before.tableHashes && !(k in after.tableHashes && after.tableHashes[k] == before.tableHashes[k])
              && OwnedByAllowlist(allow, k) ==>
              Verdict(allow, before, after, Columns, k)
              == Some(Note(Allowlisted, if k in after.tableHashes then Changed else Missing))
  {
    AllowedIsOwned(allow, k);
  }
}
