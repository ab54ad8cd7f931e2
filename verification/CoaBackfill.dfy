/**
 * The chart-of-accounts backfill: decide a category for every account, write the
 * decisions, wire parents, and check the gates before committing.  An account's
 * id is its position in the table.
 */
module CoaBackfill {
  import opened Common

  datatype Balance = Debit | Credit

  datatype Account = Account(
    org: nat,
    code: string,
    accountType: string,
    isGroup: bool,
    isDefault: bool,
    deleted: bool,
    categoryId: Option<nat>,
    normalBalance: Balance,
    isPostable: bool,
    control: Option<string>,
    sortOrder: int,
    parent: Option<nat>)

  datatype Category = Category(id: nat, normalBalance: Balance)

  datatype TemplateRow = TemplateRow(
    categoryKey: Option<string>,
    isPostable: Option<bool>,
    control: Option<string>,
    sortOrder: Option<int>,
    parentCode: Option<string>)

  datatype TypeRule = TypeRule(key: string, confident: bool)

  /** The shipped template by code, the old-type map, and the category rows by key. */
  datatype Catalog = Catalog(
    template: map<string, TemplateRow>,
    typeMap: map<string, TypeRule>,
    categories: map<string, Category>)

  datatype Source = FromTemplate | TemplateGroup | LegacyGroup | FromType | AlreadySet | Unmapped

  datatype Decision = Decision(
    categoryId: Option<nat>,
    normalBalance: Balance,
    isPostable: bool,
    control: Option<string>,
    sortOrder: Option<int>,
    parentCode: Option<string>,
    source: Source,
    confident: bool)

  datatype Flags = Flags(apply: bool, force: bool, wireParents: bool)

  datatype Outcome = Blocked | DryRun | Committed | RolledBack

  // ---------------------------------------------------------------------------
  // One account
  // ---------------------------------------------------------------------------

  function OrElse<T>(o: Option<T>, d: T): T {
    if o.Some? then o.value else d
  }

  /** A decision whose category is looked up in the catalog. */
  function Assign(cat: Catalog, key: Option<string>, postable: bool, tpl: Option<TemplateRow>, source: Source, confident: bool): Decision {
    var c := if key.Some? && key.value in cat.categories then Some(cat.categories[key.value]) else None;
    Decision(
      if c.Some? then Some(c.value.id) else None,
      if c.Some? then c.value.normalBalance else Debit,
      postable,
      if tpl.Some? then tpl.value.control else None,
      if tpl.Some? then tpl.value.sortOrder else None,
      if tpl.Some? then tpl.value.parentCode else None,
      source, confident)
  }

  function Decide(cat: Catalog, a: Account, force: bool): Decision {
    if a.categoryId.Some? && !force then
      Decision(a.categoryId, Debit, !a.isGroup, None, None, None, AlreadySet, true)
    else if a.code in cat.template then
      var tpl := cat.template[a.code];
      Assign(cat, tpl.categoryKey, OrElse(tpl.isPostable, true), Some(tpl),
             if tpl.categoryKey.None? then TemplateGroup else FromTemplate, true)
    else if a.isGroup then
      Assign(cat, None, false, None, LegacyGroup, true)
    else if a.accountType in cat.typeMap && cat.typeMap[a.accountType].key in cat.categories then
      Assign(cat, Some(cat.typeMap[a.accountType].key), true, None, FromType, cat.typeMap[a.accountType].confident)
    else
      Assign(cat, None, true, None, Unmapped, false)
  }

  /** The UPDATE of one row. */
  function Written(a: Account, d: Decision): Account {
    if d.source == AlreadySet then a
    else a.(categoryId := d.categoryId, normalBalance := d.normalBalance, isPostable := d.isPostable,
            control := if d.control.Some? then d.control else a.control,
            sortOrder := OrElse(d.sortOrder, a.sortOrder))
  }

  // ---------------------------------------------------------------------------
  // The whole table
  // ---------------------------------------------------------------------------

  type Index = map<(nat, string), nat>

  /** Account ids by organisation and code; a later row wins. */
  function CodeIndex(accounts: seq<Account>): (m: Index)
    ensures forall k :: k in m ==> m[k] < |accounts| && accounts[m[k]].org == k.0 && accounts[m[k]].code == k.1
  {
    if accounts == [] then map[]
    else
      var last := |accounts| - 1;
      CodeIndex(accounts[..last])[(accounts[last].org, accounts[last].code) := last]
  }

  function ParentOf(index: Index, a: Account, id: nat, d: Decision): Option<nat> {
    if d.parentCode.Some? && (a.org, d.parentCode.value) in index && index[(a.org, d.parentCode.value)] != id
    then Some(index[(a.org, d.parentCode.value)]) else None
  }

  function Wired(a: Account, p: Option<nat>): Account {
    if p.Some? && a.parent.None? then a.(parent := p) else a
  }

  function FinalRow(cat: Catalog, index: Index, a: Account, id: nat, flags: Flags): Account {
    var d := Decide(cat, a, flags.force);
    if flags.wireParents then Wired(Written(a, d), ParentOf(index, a, id, d)) else Written(a, d)
  }

  function FinalTable(cat: Catalog, accounts: seq<Account>, flags: Flags): (r: seq<Account>)
    ensures |r| == |accounts|
    ensures forall i :: 0 <= i < |accounts| ==> r[i] == FinalRow(cat, CodeIndex(accounts), accounts[i], i, flags)
  {
    seq(|accounts|, i requires 0 <= i < |accounts| => FinalRow(cat, CodeIndex(accounts), accounts[i], i, flags))
  }

  predicate SomeUnmapped(cat: Catalog, accounts: seq<Account>, force: bool) {
    exists i :: 0 <= i < |accounts| && Decide(cat, accounts[i], force).source == Unmapped
  }

  predicate PostableWithoutCategory(rows: seq<Account>) {
    exists i :: 0 <= i < |rows| && rows[i].isPostable && rows[i].categoryId.None?
  }

  predicate CategoryWithoutPostable(rows: seq<Account>) {
    exists i :: 0 <= i < |rows| && !rows[i].isPostable && rows[i].categoryId.Some?
  }

  predicate CountsAsDefault(a: Account) {
    a.isDefault && !a.deleted && a.categoryId.Some?
  }

  predicate TwoDefaults(rows: seq<Account>) {
    exists i, j :: 0 <= i < j < |rows| && CountsAsDefault(rows[i]) && CountsAsDefault(rows[j])
                   && rows[i].org == rows[j].org && rows[i].categoryId == rows[j].categoryId
  }

  function Run(cat: Catalog, accounts: seq<Account>, flags: Flags): (seq<Account>, Outcome) {
    if SomeUnmapped(cat, accounts, flags.force) then (accounts, Blocked)
    else if !flags.apply then (accounts, DryRun)
    else
      var rows := FinalTable(cat, accounts, flags);
      if PostableWithoutCategory(rows) || CategoryWithoutPostable(rows) || TwoDefaults(rows) then (accounts, RolledBack)
      else (rows, Committed)
  }

  // ---------------------------------------------------------------------------
  // The script
  // ---------------------------------------------------------------------------

  class Database {
    var accounts: seq<Account>

    constructor (rows: seq<Account>)
      ensures accounts == rows
    {
      accounts := rows;
    }

    /** The decision for one account, branch by branch. */
    method DecideRow(cat: Catalog, a: Account, force: bool) returns (d: Decision)
      ensures d == Decide(cat, a, force)
    {
      if a.categoryId.Some? && !force {
        return Decision(a.categoryId, Debit, !a.isGroup, None, None, None, AlreadySet, true);
      }
      var tpl: Option<TemplateRow> := None;
      if a.code in cat.template {
        tpl := Some(cat.template[a.code]);
      }
      var categoryKey: Option<string> := None;
      var isPostable := true;
      var source := Unmapped;
      var confident := true;
      if tpl.Some? {
        categoryKey := tpl.value.categoryKey;
        isPostable := OrElse(tpl.value.isPostable, true);
        source := if categoryKey.None? then TemplateGroup else FromTemplate;
      } else if a.isGroup {
        isPostable := false;
        source := LegacyGroup;
      } else if a.accountType in cat.typeMap && cat.typeMap[a.accountType].key in cat.categories {
        categoryKey := Some(cat.typeMap[a.accountType].key);
        confident := cat.typeMap[a.accountType].confident;
        source := FromType;
      } else {
        confident := false;
      }
      d := Assign(cat, categoryKey, isPostable, tpl, source, confident);
    }

    method DecideAll(cat: Catalog, force: bool) returns (decisions: seq<Decision>)
      ensures |decisions| == |accounts|
      ensures forall k :: 0 <= k < |accounts| ==> decisions[k] == Decide(cat, accounts[k], force)
    {
      decisions := [];
      var i := 0;
      while i < |accounts|
        invariant i == |decisions| <= |accounts|
        invariant forall k :: 0 <= k < i ==> decisions[k] == Decide(cat, accounts[k], force)
      {
        var d := DecideRow(cat, accounts[i], force);
        decisions := decisions + [d];
        i := i + 1;
      }
    }

    method WriteAll(decisions: seq<Decision>) returns (rows: seq<Account>)
      requires |decisions| == |accounts|
      ensures |rows| == |accounts|
      ensures forall k :: 0 <= k < |rows| ==> rows[k] == Written(accounts[k], decisions[k])
    {
      rows := accounts;
      var i := 0;
      while i < |decisions|
        invariant 0 <= i <= |decisions| && |rows| == |accounts|
        invariant forall k :: 0 <= k < |rows| ==> rows[k] == if k < i then Written(accounts[k], decisions[k]) else accounts[k]
      {
        var d, row := decisions[i], rows[i];
        if d.source != AlreadySet {
          row := row.(categoryId := d.categoryId, normalBalance := d.normalBalance, isPostable := d.isPostable);
          if d.control.Some? { row := row.(control := d.control); }
          if d.sortOrder.Some? { row := row.(sortOrder := d.sortOrder.value); }
          rows := rows[i := row];
        }
        i := i + 1;
      }
    }

    method WireAll(decisions: seq<Decision>, codeToId: Index, written: seq<Account>) returns (rows: seq<Account>)
      requires |decisions| == |accounts| == |written|
      ensures |rows| == |accounts|
      ensures forall k :: 0 <= k < |rows| ==> rows[k] == Wired(written[k], ParentOf(codeToId, accounts[k], k, decisions[k]))
    {
      rows := written;
      var i := 0;
      while i < |decisions|
        invariant 0 <= i <= |decisions| && |rows| == |accounts|
        invariant forall k :: 0 <= k < |rows| ==>
                    rows[k] == if k < i then Wired(written[k], ParentOf(codeToId, accounts[k], k, decisions[k])) else written[k]
      {
        var d := decisions[i];
        if d.parentCode.Some? {
          var place := (accounts[i].org, d.parentCode.value);
          if place in codeToId && codeToId[place] != i && rows[i].parent.None? {
            rows := rows[i := rows[i].(parent := Some(codeToId[place]))];
          }
        }
        i := i + 1;
      }
    }

    method Backfill(cat: Catalog, flags: Flags) returns (outcome: Outcome)
      modifies this
      ensures (accounts, outcome) == Run(cat, old(accounts), flags)
    {
      var decisions := DecideAll(cat, flags.force);
      var codeToId := CodeIndex(accounts);
      var unmapped := exists k :: 0 <= k < |decisions| && decisions[k].source == Unmapped;
      assert unmapped <==> SomeUnmapped(cat, accounts, flags.force);
      if unmapped {
        return Blocked;
      }
      if !flags.apply {
        return DryRun;
      }
      var rows := WriteAll(decisions);
      if flags.wireParents {
        rows := WireAll(decisions, codeToId, rows);
      }
      assert rows == FinalTable(cat, accounts, flags);
      if PostableWithoutCategory(rows) || CategoryWithoutPostable(rows) || TwoDefaults(rows) {
        return RolledBack;
      }
      accounts := rows;
      outcome := Committed;
    }
  }

  // ---------------------------------------------------------------------------
  // What a run may change
  // ---------------------------------------------------------------------------

  ghost predicate Consistent(a: Account) {
    a.isPostable <==> a.categoryId.Some?
  }

  /** Identity, type and default marks are never touched. */
  ghost predicate SameIdentity(a: Account, b: Account) {
    && a.org == b.org && a.code == b.code && a.accountType == b.accountType && a.isGroup == b.isGroup
    && a.isDefault == b.isDefault && a.deleted == b.deleted
  }

  /** A parent is only ever filled in, from the template, inside the organisation. */
  ghost predicate ParentFilledOnly(cat: Catalog, accounts: seq<Account>, i: nat, after: Account)
    requires i < |accounts|
  {
    var before := accounts[i];
    after.parent == before.parent
    || (&& before.parent.None? && after.parent.Some?
        && after.parent.value < |accounts| && after.parent.value != i
        && accounts[after.parent.value].org == before.org
        && before.code in cat.template
        && cat.template[before.code].parentCode == Some(accounts[after.parent.value].code))
  }

  lemma FinalRowKeeps(cat: Catalog, accounts: seq<Account>, i: nat, flags: Flags)
    requires i < |accounts|
    ensures var after := FinalTable(cat, accounts, flags)[i];
            && SameIdentity(after, accounts[i])
            && ParentFilledOnly(cat, accounts, i, after)
            && (!flags.wireParents ==> after.parent == accounts[i].parent)
  {
    var d := Decide(cat, accounts[i], flags.force);
    assert d.parentCode.Some? ==> accounts[i].code in cat.template && d.parentCode == cat.template[accounts[i].code].parentCode;
    assert Written(accounts[i], d).parent == accounts[i].parent;
  }

  /**
   * A run either changes nothing or commits a table in which every account is
   * postable exactly when it has a category, identities are untouched and parents
   * were only filled in.
   */
  lemma RunIsAllOrConsistent(cat: Catalog, accounts: seq<Account>, flags: Flags)
    ensures var (rows, outcome) := Run(cat, accounts, flags);
            && (outcome != Committed ==> rows == accounts)
            && (outcome == Committed ==>
                  && |rows| == |accounts|
                  && !TwoDefaults(rows)
                  && forall i :: 0 <= i < |rows| ==>
                       && Consistent(rows[i])
                       && SameIdentity(rows[i], accounts[i])
                       && ParentFilledOnly(cat, accounts, i, rows[i])
                       && (!flags.wireParents ==> rows[i].parent == accounts[i].parent))
  {
    var (rows, outcome) := Run(cat, accounts, flags);
    if outcome == Committed {
      forall i | 0 <= i < |rows|
        ensures Consistent(rows[i])
        ensures SameIdentity(rows[i], accounts[i]) && ParentFilledOnly(cat, accounts, i, rows[i])
        ensures !flags.wireParents ==> rows[i].parent == accounts[i].parent
      {
        FinalRowKeeps(cat, accounts, i, flags);
      }
    }
  }

  // ---------------------------------------------------------------------------
  // When the category gates pass
  // ---------------------------------------------------------------------------

  /** The template's own invariant, and its category exists. */
  predicate TemplateRowOk(cat: Catalog, t: TemplateRow) {
    && (t.categoryKey.None? <==> t.isPostable == Some(false))
    && (t.categoryKey.Some? ==> t.categoryKey.value in cat.categories)
  }

  /** What can be checked about an account before the run. */
  predicate Ready(cat: Catalog, a: Account, force: bool) {
    if a.categoryId.Some? && !force then a.isPostable
    else if a.code in cat.template then
      (var t := cat.template[a.code];
       if t.categoryKey.Some? && t.categoryKey.value in cat.categories then t.isPostable != Some(false)
       else t.isPostable == Some(false))
    else true
  }

  lemma RowIsConsistentIffReady(cat: Catalog, index: Index, a: Account, id: nat, flags: Flags)
    requires Decide(cat, a, flags.force).source != Unmapped
    ensures Consistent(FinalRow(cat, index, a, id, flags)) <==> Ready(cat, a, flags.force)
  {
  }

  /** With everything mapped, the two category gates pass exactly when every account is ready. */
  lemma CategoryGatesPassIffReady(cat: Catalog, accounts: seq<Account>, flags: Flags)
    requires !SomeUnmapped(cat, accounts, flags.force)
    ensures var rows := FinalTable(cat, accounts, flags);
            (!PostableWithoutCategory(rows) && !CategoryWithoutPostable(rows))
            <==> forall i :: 0 <= i < |accounts| ==> Ready(cat, accounts[i], flags.force)
  {
    var rows := FinalTable(cat, accounts, flags);
    forall i | 0 <= i < |accounts|
      ensures Consistent(rows[i]) <==> Ready(cat, accounts[i], flags.force)
    {
      RowIsConsistentIffReady(cat, CodeIndex(accounts), accounts[i], i, flags);
    }
    if !PostableWithoutCategory(rows) && !CategoryWithoutPostable(rows) {
      forall i | 0 <= i < |accounts|
        ensures Ready(cat, accounts[i], flags.force)
      {
        assert Consistent(rows[i]);
      }
    }
  }

  /** So they cannot fire when the template obeys its invariant and rows already set are postable. */
  lemma ShippedTemplatePassesTheGates(cat: Catalog, accounts: seq<Account>, flags: Flags)
    requires !SomeUnmapped(cat, accounts, flags.force)
    requires forall code :: code in cat.template ==> TemplateRowOk(cat, cat.template[code])
    requires forall i :: 0 <= i < |accounts| && accounts[i].categoryId.Some? && !flags.force ==> accounts[i].isPostable
    ensures var rows := FinalTable(cat, accounts, flags);
            !PostableWithoutCategory(rows) && !CategoryWithoutPostable(rows)
  {
    CategoryGatesPassIffReady(cat, accounts, flags);
  }

  // ---------------------------------------------------------------------------
  // Running it again
  // ---------------------------------------------------------------------------

  lemma {:induction false} IndexDependsOnIdentity(a: seq<Account>, b: seq<Account>)
    requires |a| == |b| && forall i :: 0 <= i < |a| ==> SameIdentity(a[i], b[i])
    ensures CodeIndex(a) == CodeIndex(b)
  {
    if a != [] {
      IndexDependsOnIdentity(a[..|a| - 1], b[..|b| - 1]);
    }
  }

  /** A row still without a category is decided the same way again; one that has it is left alone. */
  lemma SecondDecision(cat: Catalog, index: Index, a: Account, id: nat, first: Flags)
    requires Decide(cat, a, first.force).source != Unmapped
    ensures var d := Decide(cat, a, first.force);
            var b := FinalRow(cat, index, a, id, first);
            Decide(cat, b, false) == if b.categoryId.None? then d
                                     else Decision(b.categoryId, Debit, !b.isGroup, None, None, None, AlreadySet, true)
  {
  }

  lemma WritingTwice(a: Account, d: Decision, p: Option<nat>)
    ensures Written(Wired(Written(a, d), p), d) == Wired(Written(a, d), p)
    ensures Written(Written(a, d), d) == Written(a, d)
  {
  }

  /** What a second run wires: only a row still without a category keeps its template parent in view. */
  function LateParent(cat: Catalog, index: Index, b: Account, id: nat): Option<nat> {
    if b.categoryId.None? then ParentOf(index, b, id, Decide(cat, b, false)) else None
  }

  /** A row that has its category by now is left alone. */
  lemma SetRowIsLeftAlone(cat: Catalog, index: Index, b: Account, id: nat, second: Flags)
    requires !second.force && b.categoryId.Some?
    ensures Decide(cat, b, second.force).source == AlreadySet && FinalRow(cat, index, b, id, second) == b
  {
  }

  /** A row still without one is written the same way again, and wired if it now may be. */
  lemma OpenRowIsWrittenAgain(cat: Catalog, index: Index, a: Account, id: nat, first: Flags, second: Flags)
    requires !second.force && Decide(cat, a, first.force).source != Unmapped
    requires FinalRow(cat, index, a, id, first).categoryId.None?
    ensures var b := FinalRow(cat, index, a, id, first);
            && Decide(cat, b, false) == Decide(cat, a, first.force)
            && Written(b, Decide(cat, b, false)) == b
            && (first.wireParents ==> Wired(b, ParentOf(index, b, id, Decide(cat, b, false))) == b)
  {
    var d := Decide(cat, a, first.force);
    SecondDecision(cat, index, a, id, first);
    WritingTwice(a, d, ParentOf(index, a, id, d));
  }

  lemma SecondRunOnRow(cat: Catalog, index: Index, a: Account, id: nat, first: Flags, second: Flags)
    requires !second.force && Decide(cat, a, first.force).source != Unmapped
    ensures var b := FinalRow(cat, index, a, id, first);
            && Decide(cat, b, second.force).source != Unmapped
            && FinalRow(cat, index, b, id, second) == (if second.wireParents then Wired(b, LateParent(cat, index, b, id)) else b)
            && (first.wireParents ==> Wired(b, LateParent(cat, index, b, id)) == b)
  {
    var b := FinalRow(cat, index, a, id, first);
    if b.categoryId.Some? {
      SetRowIsLeftAlone(cat, index, b, id, second);
    } else {
      OpenRowIsWrittenAgain(cat, index, a, id, first, second);
    }
  }

  /** Wiring a parent touches neither the code index nor the gates. */
  lemma WiringKeepsTheGates(a: seq<Account>, b: seq<Account>)
    requires |a| == |b| && forall i :: 0 <= i < |a| ==> b[i] == a[i].(parent := b[i].parent)
    ensures PostableWithoutCategory(a) <==> PostableWithoutCategory(b)
    ensures CategoryWithoutPostable(a) <==> CategoryWithoutPostable(b)
    ensures TwoDefaults(a) <==> TwoDefaults(b)
  {
    forall i | 0 <= i < |a|
      ensures a[i].isPostable == b[i].isPostable && a[i].categoryId == b[i].categoryId && a[i].org == b[i].org
      ensures CountsAsDefault(a[i]) == CountsAsDefault(b[i])
    {
    }
  }

  /** The row after a second run: as it was, or with the parent only an earlier wiring would have set. */
  function Rewired(cat: Catalog, rows: seq<Account>, i: nat, second: Flags): Account
    requires i < |rows|
  {
    if second.apply && second.wireParents then Wired(rows[i], LateParent(cat, CodeIndex(rows), rows[i], i)) else rows[i]
  }

  lemma SecondTable(cat: Catalog, accounts: seq<Account>, first: Flags, second: Flags)
    requires Run(cat, accounts, first).1 == Committed && !second.force
    ensures var rows := Run(cat, accounts, first).0;
            && !SomeUnmapped(cat, rows, second.force)
            && |FinalTable(cat, rows, second)| == |rows|
            && (forall i :: 0 <= i < |rows| ==>
                  && FinalTable(cat, rows, second)[i]
                     == (if second.wireParents then Wired(rows[i], LateParent(cat, CodeIndex(rows), rows[i], i)) else rows[i])
                  && (first.wireParents ==> Wired(rows[i], LateParent(cat, CodeIndex(rows), rows[i], i)) == rows[i]))
  {
    var rows := Run(cat, accounts, first).0;
    RunIsAllOrConsistent(cat, accounts, first);
    IndexDependsOnIdentity(rows, accounts);
    forall i | 0 <= i < |rows|
      ensures Decide(cat, rows[i], second.force).source != Unmapped
      ensures FinalTable(cat, rows, second)[i]
              == (if second.wireParents then Wired(rows[i], LateParent(cat, CodeIndex(rows), rows[i], i)) else rows[i])
      ensures first.wireParents ==> Wired(rows[i], LateParent(cat, CodeIndex(rows), rows[i], i)) == rows[i]
    {
      SecondRunOnRow(cat, CodeIndex(accounts), accounts[i], i, first, second);
    }
  }

  /** The three gates let the table through. */
  predicate GatesPass(rows: seq<Account>) {
    !PostableWithoutCategory(rows) && !CategoryWithoutPostable(rows) && !TwoDefaults(rows)
  }

  lemma CommitPassedTheGates(cat: Catalog, accounts: seq<Account>, flags: Flags)
    requires Run(cat, accounts, flags).1 == Committed
    ensures GatesPass(Run(cat, accounts, flags).0)
  {
  }

  lemma PassingRun(cat: Catalog, accounts: seq<Account>, flags: Flags)
    requires !SomeUnmapped(cat, accounts, flags.force) && GatesPass(FinalTable(cat, accounts, flags))
    ensures Run(cat, accounts, flags) ==
              if flags.apply then (FinalTable(cat, accounts, flags), Committed) else (accounts, DryRun)
  {
  }

  /**
   * After a commit, a second run without force commits again when it applies, and
   * changes no value but a parent that was missing: that of a row without a
   * category, when this run wires parents.
   */
  lemma SecondRunOnlyWires(cat: Catalog, accounts: seq<Account>, first: Flags, second: Flags)
    requires Run(cat, accounts, first).1 == Committed && !second.force
    ensures var rows := Run(cat, accounts, first).0;
            && |Run(cat, rows, second).0| == |rows|
            && (forall i :: 0 <= i < |rows| ==> Run(cat, rows, second).0[i] == Rewired(cat, rows, i, second))
            && (second.apply ==> Run(cat, rows, second).1 == Committed)
  {
    var rows := Run(cat, accounts, first).0;
    SecondTable(cat, accounts, first, second);
    SecondTablePasses(cat, accounts, first, second);
    PassingRun(cat, rows, second);
  }

  lemma SecondTablePasses(cat: Catalog, accounts: seq<Account>, first: Flags, second: Flags)
    requires Run(cat, accounts, first).1 == Committed && !second.force
    ensures GatesPass(FinalTable(cat, Run(cat, accounts, first).0, second))
  {
    var rows := Run(cat, accounts, first).0;
    var again := FinalTable(cat, rows, second);
    SecondTable(cat, accounts, first, second);
    CommitPassedTheGates(cat, accounts, first);
    forall i | 0 <= i < |rows|
      ensures again[i] == rows[i].(parent := again[i].parent)
    {
    }
    WiringKeepsTheGates(rows, again);
  }

  /**
   * So a second run changes nothing exactly when it does not wire parents, or no
   * row without a category is still to be wired; in particular whenever the first
   * run wired them.
   */
  lemma SecondRunChangesNothing(cat: Catalog, accounts: seq<Account>, first: Flags, second: Flags)
    requires Run(cat, accounts, first).1 == Committed && !second.force
    ensures var rows := Run(cat, accounts, first).0;
            && (Run(cat, rows, second).0 == rows <==>
                  !(second.apply && second.wireParents)
                  || forall i :: 0 <= i < |rows| ==> rows[i].parent.Some? || LateParent(cat, CodeIndex(rows), rows[i], i).None?)
            && (first.wireParents || !second.wireParents ==> Run(cat, rows, second).0 == rows)
  {
    var rows := Run(cat, accounts, first).0;
    var again := Run(cat, rows, second).0;
    SecondTable(cat, accounts, first, second);
    SecondRunOnlyWires(cat, accounts, first, second);
    forall i | 0 <= i < |rows|
      ensures Wired(rows[i], LateParent(cat, CodeIndex(rows), rows[i], i)) == rows[i]
              <==> rows[i].parent.Some? || LateParent(cat, CodeIndex(rows), rows[i], i).None?
    {
    }
    if forall i :: 0 <= i < |rows| ==> again[i] == rows[i] {
      assert again == rows;
    }
  }

  /** Every template row with a parent has a category of the catalogue; only headers without parent have none. */
  ghost predicate ParentsOnlyUnderCategories(cat: Catalog) {
    forall code :: code in cat.template && cat.template[code].parentCode.Some? ==>
      cat.template[code].categoryKey.Some? && cat.template[code].categoryKey.value in cat.categories
  }

  lemma NothingLeftToWire(cat: Catalog, index: Index, a: Account, id: nat, first: Flags)
    requires ParentsOnlyUnderCategories(cat) && Decide(cat, a, first.force).source != Unmapped
    ensures LateParent(cat, index, FinalRow(cat, index, a, id, first), id).None?
  {
    var b := FinalRow(cat, index, a, id, first);
    SecondDecision(cat, index, a, id, first);
    if b.categoryId.None? {
      assert b.categoryId == Decide(cat, a, first.force).categoryId;
    }
  }

  /**
   * The header's promise, for a template in which only rows with a category have a
   * parent, as the shipped one: after a commit, a run without force changes no
   * value, whatever its flags.  So parents not wired by the first run stay unwired.
   */
  lemma SecondRunIsIdle(cat: Catalog, accounts: seq<Account>, first: Flags, second: Flags)
    requires ParentsOnlyUnderCategories(cat)
    requires Run(cat, accounts, first).1 == Committed && !second.force
    ensures Run(cat, Run(cat, accounts, first).0, second).0 == Run(cat, accounts, first).0
  {
    var rows := Run(cat, accounts, first).0;
    RunIsAllOrConsistent(cat, accounts, first);
    IndexDependsOnIdentity(rows, accounts);
    forall i | 0 <= i < |rows|
      ensures LateParent(cat, CodeIndex(rows), rows[i], i).None?
    {
      NothingLeftToWire(cat, CodeIndex(accounts), accounts[i], i, first);
    }
    SecondRunChangesNothing(cat, accounts, first, second);
  }

  // ---------------------------------------------------------------------------
  // Wiring parents later
  // ---------------------------------------------------------------------------

  const ASSETS := Account(0, "1000", "asset", true, false, false, None, Debit, true, None, 0, None)
  const CASH := Account(0, "1100", "asset", false, false, false, None, Debit, true, None, 0, None)
  const WRITE := Flags(true, false, false)
  const WRITE_AND_WIRE := Flags(true, false, true)

  /** A header, and an account or a second header below it. */
  function SmallCatalog(below: Option<string>): Catalog {
    Catalog(map["1000" := TemplateRow(None, Some(false), None, None, None),
                "1100" := TemplateRow(below, if below.None? then Some(false) else None, None, None, Some("1000"))],
            map[],
            map["cash" := Category(5, Debit)])
  }

  lemma IndexOfTwo(a: Account, b: Account)
    ensures CodeIndex([a, b]) == map[(a.org, a.code) := 0, (b.org, b.code) := 1]
  {
    assert [a, b][..1] == [a] && [a][..0] == [];
    assert CodeIndex([a]) == map[(a.org, a.code) := 0];
  }

  /** The two rows as the first run leaves them. */
  function Settled(a: Account, below: Option<string>, parent: Option<nat>): Account {
    a.(categoryId := if below.Some? then Some(5) else None, isPostable := below.Some?, parent := parent)
  }

  lemma SmallRun(below: Option<string>, flags: Flags)
    requires below.None? || below == Some("cash")
    requires flags == WRITE || flags == WRITE_AND_WIRE
    ensures Run(SmallCatalog(below), [ASSETS, CASH], flags) ==
              ([Settled(ASSETS, None, None), Settled(CASH, below, if flags.wireParents then Some(0) else None)], Committed)
  {
    var cat, rows := SmallCatalog(below), [ASSETS, CASH];
    IndexOfTwo(ASSETS, CASH);
    var table := FinalTable(cat, rows, flags);
    assert table[0] == Settled(ASSETS, None, None);
    assert table[1] == Settled(CASH, below, if flags.wireParents then Some(0) else None);
    assert table == [table[0], table[1]];
    PassingRun(cat, rows, flags);
  }

  /** An account whose parent the first run did not wire never gets it from a later run that wires. */
  lemma LateWiringComesTooLate()
    ensures var cat, rows := SmallCatalog(Some("cash")), [ASSETS, CASH];
            var header := Settled(ASSETS, None, None);
            && ParentsOnlyUnderCategories(cat)
            && Run(cat, rows, WRITE_AND_WIRE).0 == [header, Settled(CASH, Some("cash"), Some(0))]
            && Run(cat, Run(cat, rows, WRITE).0, WRITE_AND_WIRE).0 == [header, Settled(CASH, Some("cash"), None)]
  {
    SmallRun(Some("cash"), WRITE);
    SmallRun(Some("cash"), WRITE_AND_WIRE);
    SecondRunIsIdle(SmallCatalog(Some("cash")), [ASSETS, CASH], WRITE, WRITE_AND_WIRE);
  }

  lemma NestedHeaderIsLate()
    ensures var cat, rows := SmallCatalog(None), [Settled(ASSETS, None, None), Settled(CASH, None, None)];
            && LateParent(cat, CodeIndex(rows), rows[0], 0).None?
            && LateParent(cat, CodeIndex(rows), rows[1], 1) == Some(0)
  {
    IndexOfTwo(Settled(ASSETS, None, None), Settled(CASH, None, None));
  }

  /** With a header under a header, which the shipped template does not have, a later run that wires does change a row. */
  lemma NestedHeaderIsWiredLate()
    ensures var cat, rows := SmallCatalog(None), [ASSETS, CASH];
            && !ParentsOnlyUnderCategories(cat)
            && Run(cat, rows, WRITE).0 == [Settled(ASSETS, None, None), Settled(CASH, None, None)]
            && Run(cat, Run(cat, rows, WRITE).0, WRITE_AND_WIRE).0 == [Settled(ASSETS, None, None), Settled(CASH, None, Some(0))]
  {
    var cat, rows := SmallCatalog(None), [ASSETS, CASH];
    SmallRun(None, WRITE);
    assert "1100" in cat.template && cat.template["1100"].parentCode.Some?;
    NestedHeaderIsLate();
    SecondRunOnlyWires(cat, rows, WRITE, WRITE_AND_WIRE);
  }

  // ---------------------------------------------------------------------------
  // What a committed run leaves in each row
  // ---------------------------------------------------------------------------

  /** The run leaves the row alone: its category is set and nothing is forced. */
  ghost predicate LeftAlone(a: Account, flags: Flags) {
    a.categoryId.Some? && !flags.force
  }

  /** The row has the category of this key, and that category's normal balance. */
  ghost predicate Filed(cat: Catalog, b: Account, key: string) {
    key in cat.categories && b.categoryId == Some(cat.categories[key].id) && b.normalBalance == cat.categories[key].normalBalance
  }

  /** The row has no category, and the balance of one that has none. */
  ghost predicate Unfiled(b: Account) {
    b.categoryId == None && b.normalBalance == Debit
  }

  /** The template gives the value, or it stays. */
  ghost predicate GivenOrKept<T>(given: Option<T>, was: T, now: T) {
    now == if given.Some? then given.value else was
  }

  /** A row of the template: its category, or none where the template names none it knows; control type and order as given. */
  ghost predicate FollowsTemplate(cat: Catalog, t: TemplateRow, a: Account, b: Account) {
    && (if t.categoryKey.Some? && t.categoryKey.value in cat.categories then Filed(cat, b, t.categoryKey.value) else Unfiled(b))
    && (b.control == if t.control.Some? then t.control else a.control)
    && GivenOrKept(t.sortOrder, a.sortOrder, b.sortOrder)
  }

  /** A row outside it: a group has no category, any other that of its old type; the rest stays. */
  ghost predicate FollowsType(cat: Catalog, a: Account, b: Account) {
    && (if a.isGroup then Unfiled(b)
        else a.accountType in cat.typeMap && Filed(cat, b, cat.typeMap[a.accountType].key))
    && b.control == a.control && b.sortOrder == a.sortOrder && b.parent == a.parent
  }

  /** Nothing says what the account is: no template row, no group, and no category for its type. */
  ghost predicate Unknown(cat: Catalog, a: Account, flags: Flags) {
    && !LeftAlone(a, flags) && a.code !in cat.template && !a.isGroup
    && !(a.accountType in cat.typeMap && cat.typeMap[a.accountType].key in cat.categories)
  }

  lemma UnknownIsUnmapped(cat: Catalog, a: Account, flags: Flags)
    ensures Decide(cat, a, flags.force).source == Unmapped <==> Unknown(cat, a, flags)
  {
  }

  lemma FinalRowFollows(cat: Catalog, index: Index, a: Account, id: nat, flags: Flags)
    requires !Unknown(cat, a, flags)
    ensures var b := FinalRow(cat, index, a, id, flags);
            if LeftAlone(a, flags) then b == a
            else if a.code in cat.template then FollowsTemplate(cat, cat.template[a.code], a, b)
            else FollowsType(cat, a, b)
  {
  }

  /**
   * A committed run leaves a row already set as it was; gives a row of the template
   * its template's category, and one outside it its type's, with that category's
   * normal balance, Debit without one; and takes control type and sort order from
   * the template where it gives them.
   */
  lemma CommittedRowsFollowTheCatalog(cat: Catalog, accounts: seq<Account>, flags: Flags, i: nat)
    requires Run(cat, accounts, flags).1 == Committed && i < |accounts|
    ensures var a := accounts[i];
            && |Run(cat, accounts, flags).0| == |accounts|
            && var b := Run(cat, accounts, flags).0[i];
               if LeftAlone(a, flags) then b == a
               else if a.code in cat.template then FollowsTemplate(cat, cat.template[a.code], a, b)
               else FollowsType(cat, a, b)
  {
    UnknownIsUnmapped(cat, accounts[i], flags);
    FinalRowFollows(cat, CodeIndex(accounts), accounts[i], i, flags);
  }

  lemma {:induction false} IndexIsComplete(accounts: seq<Account>, i: nat)
    requires i < |accounts|
    ensures (accounts[i].org, accounts[i].code) in CodeIndex(accounts)
  {
    if i < |accounts| - 1 {
      IndexIsComplete(accounts[..|accounts| - 1], i);
    }
  }

  /** An account other than `i` holds the code in its organisation, and `i` itself does not. */
  ghost predicate HeldByOthers(accounts: seq<Account>, i: nat, code: string)
    requires i < |accounts|
  {
    && accounts[i].code != code
    && exists j :: 0 <= j < |accounts| && accounts[j].org == accounts[i].org && accounts[j].code == code
  }

  /** With wiring on, a missing parent the template names is filled in whenever the organisation has it. */
  lemma MissingParentsAreWired(cat: Catalog, accounts: seq<Account>, flags: Flags, i: nat)
    requires Run(cat, accounts, flags).1 == Committed && i < |accounts| && flags.wireParents
    requires !LeftAlone(accounts[i], flags) && accounts[i].parent == None
    requires accounts[i].code in cat.template && cat.template[accounts[i].code].parentCode.Some?
    requires HeldByOthers(accounts, i, cat.template[accounts[i].code].parentCode.value)
    ensures |Run(cat, accounts, flags).0| == |accounts|
    ensures var p := Run(cat, accounts, flags).0[i].parent;
            && p.Some? && p.value < |accounts| && accounts[p.value].org == accounts[i].org
            && accounts[p.value].code == cat.template[accounts[i].code].parentCode.value
  {
    var code := cat.template[accounts[i].code].parentCode.value;
    var j :| 0 <= j < |accounts| && accounts[j].org == accounts[i].org && accounts[j].code == code;
    IndexIsComplete(accounts, j);
    FinalRowIsWired(cat, CodeIndex(accounts), accounts[i], i, flags, code);
  }

  lemma FinalRowIsWired(cat: Catalog, index: Index, a: Account, id: nat, flags: Flags, code: string)
    requires flags.wireParents && !LeftAlone(a, flags) && a.parent == None
    requires a.code in cat.template && cat.template[a.code].parentCode == Some(code)
    requires (a.org, code) in index && index[(a.org, code)] != id
    ensures FinalRow(cat, index, a, id, flags).parent == Some(index[(a.org, code)])
  {
  }

  /** Two live default accounts of one organisation and category. */
  ghost predicate DefaultsClash(rows: seq<Account>) {
    exists i, j :: 0 <= i < j < |rows| && rows[i].isDefault && rows[j].isDefault && !rows[i].deleted && !rows[j].deleted
      && rows[i].org == rows[j].org && rows[i].categoryId.Some? && rows[i].categoryId == rows[j].categoryId
  }

  lemma ClashIsTwoDefaults(rows: seq<Account>)
    ensures DefaultsClash(rows) <==> TwoDefaults(rows)
  {
  }

  /**
   * A run is blocked exactly when some account is unknown, is dry exactly when it is
   * not and writing is off, and commits exactly when writing is on, nothing is
   * unknown, every account is ready and no two defaults clash.
   */
  lemma OutcomesExactly(cat: Catalog, accounts: seq<Account>, flags: Flags)
    ensures var blocked := exists i :: 0 <= i < |accounts| && Unknown(cat, accounts[i], flags);
            && (Run(cat, accounts, flags).1 == Blocked <==> blocked)
            && (Run(cat, accounts, flags).1 == DryRun <==> !blocked && !flags.apply)
            && (Run(cat, accounts, flags).1 == Committed <==>
                  && !blocked && flags.apply
                  && (forall i :: 0 <= i < |accounts| ==> Ready(cat, accounts[i], flags.force))
                  && !DefaultsClash(FinalTable(cat, accounts, flags)))
  {
    forall i | 0 <= i < |accounts|
      ensures Decide(cat, accounts[i], flags.force).source == Unmapped <==> Unknown(cat, accounts[i], flags)
    {
      UnknownIsUnmapped(cat, accounts[i], flags);
    }
    ClashIsTwoDefaults(FinalTable(cat, accounts, flags));
    if !SomeUnmapped(cat, accounts, flags.force) {
      CategoryGatesPassIffReady(cat, accounts, flags);
    }
  }

  /** The label of a decision says what it rests on, and it is sure unless it rests on an unsure type or on nothing. */
  lemma LabelsSayWhy(cat: Catalog, a: Account, flags: Flags)
    ensures var d := Decide(cat, a, flags.force);
            && (d.source == AlreadySet <==> LeftAlone(a, flags))
            && (d.source == FromTemplate <==>
                  !LeftAlone(a, flags) && a.code in cat.template && cat.template[a.code].categoryKey.Some?)
            && (d.source == TemplateGroup <==>
                  !LeftAlone(a, flags) && a.code in cat.template && cat.template[a.code].categoryKey.None?)
            && (d.source == LegacyGroup <==> !LeftAlone(a, flags) && a.code !in cat.template && a.isGroup)
            && (d.source == Unmapped <==> Unknown(cat, a, flags))
            && (d.source == FromType ==>
                  a.accountType in cat.typeMap && d.confident == cat.typeMap[a.accountType].confident)
            && (d.source == Unmapped ==> !d.confident)
            && (d.source != FromType && d.source != Unmapped ==> d.confident)
  {
  }
}
