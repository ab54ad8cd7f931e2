/**
 * The block-and-retry gate in front of an action.  Its lookup and its insertion
 * are two separate database calls, so they are two separate steps here, and other
 * calls may run in between.
 */
module ApprovalGate {
  import opened Common
  import opened Approvals
  import opened ApprovalStore

  datatype Call = Call(t: Tenant, entityType: string, entityId: nat, amount: real)

  datatype Answer =
    | NeedsApproval(requestId: nat)
    | AlreadyApproved
    | NoApprovalRequired

  predicate Proceeds(a: Answer) {
    !a.NeedsApproval?
  }

  ghost predicate SameEntity(c: Call, d: Call) {
    c.t.org == d.t.org && c.entityType == d.entityType && c.entityId == d.entityId
  }

  predicate Concerns(req: Request, c: Call) {
    About(req, c.t.org, c.entityType, c.entityId)
  }

  function Lookup(s: Store, c: Call): (r: Option<nat>)
    ensures r.Some? ==> r.value < |s.requests| && Concerns(s.requests[r.value], c) && Live(s.requests[r.value])
    ensures r.None? ==> forall i :: 0 <= i < |s.requests| && Concerns(s.requests[i], c) ==> !Live(s.requests[i])
  {
    FindLive(s.requests, c.t.org, c.entityType, c.entityId)
  }

  function Open(s: Store, c: Call): Store {
    RequestApproval(s, c.t, c.entityType, c.entityId, c.amount)
  }

  /** The gate when nothing runs between its two database calls. */
  function Check(s: Store, c: Call): (Store, Answer) {
    match Lookup(s, c)
    case Some(r) => (s, if s.requests[r].status == Approved then AlreadyApproved else NeedsApproval(r))
    case None =>
      if OpenRequest(s, c.t, c.entityType, c.entityId, c.amount).None? then (s, NoApprovalRequired)
      else (Open(s, c), NeedsApproval(|s.requests|))
  }

  // ---------------------------------------------------------------------------
  // Gate calls interleaved with decisions, forced approvals and workflow edits
  // ---------------------------------------------------------------------------

  /** `waiting` holds the calls that found nothing and have not inserted yet. */
  datatype State = State(store: Store, waiting: seq<Call>)

  datatype Step =
    | Read(call: Call)
    | Create(index: nat)
    | Other(action: Action)

  predicate Allowed(g: State, e: Step) {
    match e
    case Read(_) => true
    case Create(i) => i < |g.waiting|
    case Other(a) => !a.DoRequest? && !a.DoOverride?
  }

  /** The calls still waiting once call `i` has gone on. */
  function Without(calls: seq<Call>, i: nat): (r: seq<Call>)
    requires i < |calls|
    ensures |r| == |calls| - 1
    ensures forall j :: 0 <= j < |r| ==> r[j] == if j < i then calls[j] else calls[j + 1]
  {
    calls[..i] + calls[i + 1..]
  }

  function Next(g: State, e: Step): State
    requires Allowed(g, e)
  {
    match e
    case Read(c) => if Lookup(g.store, c).Some? then g else g.(waiting := g.waiting + [c])
    case Create(i) => State(Open(g.store, g.waiting[i]), Without(g.waiting, i))
    case Other(a) => g.(store := Apply(g.store, a))
  }

  /** The call a step works for. */
  function Caller(g: State, e: Step): Option<Call>
    requires Allowed(g, e)
  {
    match e
    case Read(c) => Some(c)
    case Create(i) => Some(g.waiting[i])
    case Other(_) => None
  }

  /** The answer the step gives its caller; a lookup that finds nothing gives none yet. */
  function AnswerOf(g: State, e: Step): Option<Answer>
    requires Allowed(g, e)
  {
    match e
    case Read(c) =>
      (match Lookup(g.store, c)
       case Some(r) => Some(if g.store.requests[r].status == Approved then AlreadyApproved else NeedsApproval(r))
       case None => None)
    case Create(i) =>
      var c := g.waiting[i];
      Some(if OpenRequest(g.store, c.t, c.entityType, c.entityId, c.amount).None? then NoApprovalRequired
           else NeedsApproval(|g.store.requests|))
    case Other(_) => None
  }

  /** `Check` is the two steps with nothing in between. */
  lemma CheckIsReadThenCreate(g: State, c: Call)
    ensures var read := Next(g, Read(c));
            Check(g.store, c) ==
              if AnswerOf(g, Read(c)).Some? then (read.store, AnswerOf(g, Read(c)).value)
              else (Next(read, Create(|g.waiting|)).store, AnswerOf(read, Create(|g.waiting|)).value)
  {
  }

  /** Any interleaving at all, overlapping or not. */
  ghost predicate Feasible(g: State, steps: seq<Step>)
    decreases |steps|
  {
    steps != [] ==> Allowed(g, steps[0]) && Feasible(Next(g, steps[0]), steps[1..])
  }

  ghost function After(g: State, steps: seq<Step>): State
    requires Feasible(g, steps)
    decreases |steps|
  {
    if steps == [] then g else After(Next(g, steps[0]), steps[1..])
  }

  /** No gate call for the entity is between its lookup and its insertion. */
  ghost predicate Alone(g: State, e: Step) {
    e.Read? ==> forall i :: 0 <= i < |g.waiting| ==> !SameEntity(g.waiting[i], e.call)
  }

  ghost predicate Serial(g: State, steps: seq<Step>)
    requires Feasible(g, steps)
    decreases |steps|
  {
    steps != [] ==> Alone(g, steps[0]) && Serial(Next(g, steps[0]), steps[1..])
  }

  ghost predicate SameSubject(a: Request, b: Request) {
    a.org == b.org && a.entityType == b.entityType && a.entityId == b.entityId
  }

  ghost predicate OneLive(s: Store) {
    forall i, j :: 0 <= i < j < |s.requests| && SameSubject(s.requests[i], s.requests[j])
      ==> !(Live(s.requests[i]) && Live(s.requests[j]))
  }

  ghost predicate Exclusive(g: State) {
    && OneLive(g.store)
    && (forall i, r :: 0 <= i < |g.waiting| && 0 <= r < |g.store.requests| && Concerns(g.store.requests[r], g.waiting[i])
          ==> !Live(g.store.requests[r]))
    && (forall i, j :: 0 <= i < j < |g.waiting| ==> !SameEntity(g.waiting[i], g.waiting[j]))
  }

  /** Decisions and edits never bring a request back to life. */
  lemma OtherStepsOnlyEndRequests(s: Store, a: Action)
    requires !a.DoRequest? && !a.DoOverride?
    ensures |Apply(s, a).requests| == |s.requests|
    ensures forall r :: 0 <= r < |s.requests| ==>
              && SameSubject(Apply(s, a).requests[r], s.requests[r])
              && (Live(Apply(s, a).requests[r]) ==> Live(s.requests[r]))
  {
    forall r | 0 <= r < |s.requests|
      ensures SameSubject(Apply(s, a).requests[r], s.requests[r])
      ensures Live(Apply(s, a).requests[r]) ==> Live(s.requests[r])
    {
      StepEvolves(s, a, r);
    }
  }

  /** The insertion adds no second live request: the lookup would still find nothing, or nothing is inserted. */
  predicate Timely(g: State, i: nat)
    requires i < |g.waiting|
  {
    var c := g.waiting[i];
    Lookup(g.store, c).None? || OpenRequest(g.store, c.t, c.entityType, c.entityId, c.amount).None?
  }

  lemma InsertionIsSafeIffTimely(g: State, i: nat)
    requires OneLive(g.store) && i < |g.waiting|
    ensures OneLive(Next(g, Create(i)).store) <==> Timely(g, i)
  {
    var c := g.waiting[i];
    var found := Lookup(g.store, c);
    if found.Some? && OpenRequest(g.store, c.t, c.entityType, c.entityId, c.amount).Some? {
      var after := Next(g, Create(i)).store.requests;
      assert SameSubject(after[found.value], after[|g.store.requests|]);
    }
  }

  lemma OthersStillWait(waiting: seq<Call>, i: nat)
    requires i < |waiting| && forall j, k :: 0 <= j < k < |waiting| ==> !SameEntity(waiting[j], waiting[k])
    ensures var rest := Without(waiting, i);
            && (forall j :: 0 <= j < |rest| ==> rest[j] in waiting && !SameEntity(rest[j], waiting[i]))
            && (forall j, k :: 0 <= j < k < |rest| ==> !SameEntity(rest[j], rest[k]))
  {
  }

  lemma CreateKeepsExclusive(g: State, i: nat)
    requires Exclusive(g) && i < |g.waiting|
    ensures Exclusive(Next(g, Create(i)))
  {
    InsertionIsSafeIffTimely(g, i);
    OthersStillWait(g.waiting, i);
  }

  lemma OtherKeepsExclusive(g: State, a: Action)
    requires Exclusive(g) && Allowed(g, Other(a))
    ensures Exclusive(Next(g, Other(a)))
  {
    OtherStepsOnlyEndRequests(g.store, a);
  }

  lemma StepKeepsExclusive(g: State, e: Step)
    requires Exclusive(g) && Allowed(g, e) && Alone(g, e)
    ensures Exclusive(Next(g, e))
  {
    match e
    case Read(c) =>
    case Create(i) => CreateKeepsExclusive(g, i);
    case Other(a) => OtherKeepsExclusive(g, a);
  }

  /** As long as gate calls for one entity do not overlap, an entity has at most one pending-or-approved request. */
  lemma {:induction false} AtMostOneLiveRequest(g: State, steps: seq<Step>)
    requires Exclusive(g) && Feasible(g, steps) && Serial(g, steps)
    ensures Exclusive(After(g, steps))
    decreases |steps|
  {
    if steps != [] {
      StepKeepsExclusive(g, steps[0]);
      AtMostOneLiveRequest(Next(g, steps[0]), steps[1..]);
    }
  }

  lemma OpenAddsOne(s: Store, c: Call)
    requires OpenRequest(s, c.t, c.entityType, c.entityId, c.amount).Some?
    ensures var after := Open(s, c);
            && after.workflows == s.workflows && |after.requests| == |s.requests| + 1 && s.requests <= after.requests
            && Concerns(after.requests[|s.requests|], c) && after.requests[|s.requests|].status == Pending
  {
  }

  lemma TwoLive(s: Store, i: nat, j: nat, c: Call)
    requires i < j < |s.requests| && Concerns(s.requests[i], c) && Concerns(s.requests[j], c)
    requires Live(s.requests[i]) && Live(s.requests[j])
    ensures !OneLive(s)
  {
    assert SameSubject(s.requests[i], s.requests[j]);
  }

  /**
   * The condition is needed: whenever approval is required and nothing is live,
   * two overlapping lookups leave two live requests for the same entity.
   */
  lemma OverlappingCallsOpenTwoRequests(s: Store, c: Call)
    requires Lookup(s, c).None?
    requires OpenRequest(s, c.t, c.entityType, c.entityId, c.amount).Some?
    ensures var g := Next(Next(Next(Next(State(s, []), Read(c)), Read(c)), Create(0)), Create(0));
            && !OneLive(g.store)
            && |g.store.requests| == |s.requests| + 2
  {
    var g1 := Next(Next(State(s, []), Read(c)), Read(c));
    assert g1 == State(s, [c, c]);
    OpenAddsOne(s, c);
    OpenAddsOne(Open(s, c), c);
    var g3 := Next(Next(g1, Create(0)), Create(0));
    assert g3 == State(Open(Open(s, c), c), []);
    TwoLive(g3.store, |s.requests|, |s.requests| + 1, c);
  }

  ghost predicate OneLiveThroughout(g: State, steps: seq<Step>)
    requires Feasible(g, steps)
    decreases |steps|
  {
    OneLive(g.store) && (steps != [] ==> OneLiveThroughout(Next(g, steps[0]), steps[1..]))
  }

  ghost predicate AllTimely(g: State, steps: seq<Step>)
    requires Feasible(g, steps)
    decreases |steps|
  {
    steps != [] ==>
      && (steps[0].Create? ==> Timely(g, steps[0].index))
      && AllTimely(Next(g, steps[0]), steps[1..])
  }

  lemma StepKeepsOneLiveIff(g: State, e: Step)
    requires OneLive(g.store) && Allowed(g, e)
    ensures OneLive(Next(g, e).store) <==> (e.Create? ==> Timely(g, e.index))
  {
    match e
    case Read(_) =>
    case Create(i) => InsertionIsSafeIffTimely(g, i);
    case Other(a) => OtherStepsOnlyEndRequests(g.store, a);
  }

  /**
   * The exact condition, for every interleaving: no entity ever has two live
   * requests exactly when each insertion comes while nothing is live, or inserts
   * nothing.
   */
  lemma {:induction false} OneLiveIffInsertionsAreTimely(g: State, steps: seq<Step>)
    requires OneLive(g.store) && Feasible(g, steps)
    ensures OneLiveThroughout(g, steps) <==> AllTimely(g, steps)
    decreases |steps|
  {
    if steps != [] {
      StepKeepsOneLiveIff(g, steps[0]);
      if OneLive(Next(g, steps[0]).store) {
        OneLiveIffInsertionsAreTimely(Next(g, steps[0]), steps[1..]);
      }
    }
  }

  // ---------------------------------------------------------------------------
  // What the answers mean
  // ---------------------------------------------------------------------------

  /** The request is for the document of the call, in the caller's organisation. */
  ghost predicate IsFor(req: Request, c: Call) {
    req.org == c.t.org && req.entityType == c.entityType && req.entityId == c.entityId
  }

  ghost predicate HasStatus(s: Store, c: Call, status: Status) {
    exists r :: 0 <= r < |s.requests| && IsFor(s.requests[r], c) && s.requests[r].status == status
  }

  /** No active workflow clears the amount, or the selected one has no step whose band contains it. */
  ghost predicate NothingApplies(s: Store, c: Call) {
    match SelectWorkflow(s.workflows, c.t.org, c.entityType, c.amount)
    case None =>
      forall id: nat :: Candidate(s.workflows, id, c.t.org, c.entityType) ==> !Clears(s.workflows[id].value.minAmount, c.amount)
    case Some(w) =>
      w < |s.workflows| && s.workflows[w].Some? && forall st :: st in s.workflows[w].value.steps ==> !Applies(st, c.amount)
  }

  lemma NothingAppliesMeansNoRequest(s: Store, c: Call)
    ensures NothingApplies(s, c) <==> OpenRequest(s, c.t, c.entityType, c.entityId, c.amount).None?
  {
    SelectionIsMostSpecific(s.workflows, c.t.org, c.entityType, c.amount);
    var w := SelectWorkflow(s.workflows, c.t.org, c.entityType, c.amount);
    if w.Some? {
      var steps := s.workflows[w.value].value.steps;
      var applicable := ApplicableSteps(steps, c.amount);
      if applicable != [] {
        assert applicable[0] in applicable;
      }
    }
  }

  /** Where an entity has one live request at most, the lookup finds it, so its status is the one that counts. */
  lemma LookupTellsTheStatus(s: Store, c: Call)
    requires OneLive(s)
    ensures var found := Lookup(s, c);
            && (HasStatus(s, c, Approved) <==> found.Some? && s.requests[found.value].status == Approved)
            && (HasStatus(s, c, Pending) <==> found.Some? && s.requests[found.value].status == Pending)
  {
    var found := Lookup(s, c);
    if found.Some? {
      var f := found.value;
      forall r | 0 <= r < |s.requests| && Concerns(s.requests[r], c) && Live(s.requests[r])
        ensures r == f
      {
        assert SameSubject(s.requests[r], s.requests[f]) && SameSubject(s.requests[f], s.requests[r]);
      }
    }
  }

  /**
   * An answer given for `c`, with the tables before and after the step: the action
   * goes ahead on an approved request, or when nothing is live and nothing applies,
   * never while a request is pending; a block names a pending request.
   */
  ghost predicate Right(before: Store, after: Store, c: Call, answer: Answer) {
    && (answer == AlreadyApproved <==> HasStatus(before, c, Approved))
    && (answer == NoApprovalRequired <==>
          !HasStatus(before, c, Approved) && !HasStatus(before, c, Pending) && NothingApplies(before, c))
    && (HasStatus(before, c, Pending) ==> !Proceeds(answer))
    && (answer.NeedsApproval? ==>
          && answer.requestId < |after.requests|
          && IsFor(after.requests[answer.requestId], c) && after.requests[answer.requestId].status == Pending)
  }

  /** The answers of a gate whose two calls run back to back. */
  lemma GateAnswersAreRight(s: Store, c: Call)
    requires OneLive(s)
    ensures Right(s, Check(s, c).0, c, Check(s, c).1)
  {
    LookupTellsTheStatus(s, c);
    NothingAppliesMeansNoRequest(s, c);
  }

  /** If the step answers, its answer is right at that moment. */
  ghost predicate AnswersRightly(g: State, e: Step)
    requires Allowed(g, e)
  {
    AnswerOf(g, e).Some? ==> Right(g.store, Next(g, e).store, Caller(g, e).value, AnswerOf(g, e).value)
  }

  ghost predicate AllAnswersRight(g: State, steps: seq<Step>)
    requires Feasible(g, steps)
    decreases |steps|
  {
    steps != [] ==> AnswersRightly(g, steps[0]) && AllAnswersRight(Next(g, steps[0]), steps[1..])
  }

  /** Repeated at the moment of the insertion, the call's lookup would still find nothing. */
  predicate Sound(g: State, i: nat)
    requires i < |g.waiting|
  {
    Lookup(g.store, g.waiting[i]).None?
  }

  /** Over a live request an insertion either opens a second one or gives an answer that is not right. */
  lemma InsertionIsRightIffSound(g: State, i: nat)
    requires OneLive(g.store) && i < |g.waiting|
    ensures AnswersRightly(g, Create(i)) && OneLive(Next(g, Create(i)).store) <==> Sound(g, i)
  {
    InsertionIsSafeIffTimely(g, i);
    LookupTellsTheStatus(g.store, g.waiting[i]);
    NothingAppliesMeansNoRequest(g.store, g.waiting[i]);
  }

  lemma StepIsRightIffSound(g: State, e: Step)
    requires OneLive(g.store) && Allowed(g, e)
    ensures AnswersRightly(g, e) && OneLive(Next(g, e).store) <==> (e.Create? ==> Sound(g, e.index))
  {
    match e
    case Read(c) => LookupTellsTheStatus(g.store, c);
    case Create(i) => InsertionIsRightIffSound(g, i);
    case Other(a) => OtherStepsOnlyEndRequests(g.store, a);
  }

  ghost predicate AllSound(g: State, steps: seq<Step>)
    requires Feasible(g, steps)
    decreases |steps|
  {
    steps != [] ==>
      && (steps[0].Create? ==> Sound(g, steps[0].index))
      && AllSound(Next(g, steps[0]), steps[1..])
  }

  /**
   * The exact condition, for every interleaving: all answers of the two-step gate
   * are right and no entity ever has two live requests exactly when, at each
   * insertion, the lookup would still find nothing.
   */
  lemma {:induction false} AnswersAreRightIffLookupsStillHold(g: State, steps: seq<Step>)
    requires OneLive(g.store) && Feasible(g, steps)
    ensures AllAnswersRight(g, steps) && OneLiveThroughout(g, steps) <==> AllSound(g, steps)
    decreases |steps|
  {
    if steps != [] {
      StepIsRightIffSound(g, steps[0]);
      if OneLive(Next(g, steps[0]).store) {
        AnswersAreRightIffLookupsStillHold(Next(g, steps[0]), steps[1..]);
      }
    }
  }

  lemma {:induction false} SerialRunsAreSound(g: State, steps: seq<Step>)
    requires Exclusive(g) && Feasible(g, steps) && Serial(g, steps)
    ensures AllSound(g, steps)
    decreases |steps|
  {
    if steps != [] {
      StepKeepsExclusive(g, steps[0]);
      SerialRunsAreSound(Next(g, steps[0]), steps[1..]);
    }
  }

  /** As long as gate calls for one entity do not overlap, every answer of the two-step gate is right. */
  lemma SerialAnswersAreRight(g: State, steps: seq<Step>)
    requires Exclusive(g) && Feasible(g, steps) && Serial(g, steps)
    ensures AllAnswersRight(g, steps) && AllSound(g, steps)
  {
    SerialRunsAreSound(g, steps);
    AnswersAreRightIffLookupsStillHold(g, steps);
  }

  // ---------------------------------------------------------------------------
  // How an action gets past a pending request
  // ---------------------------------------------------------------------------

  /**
   * In any state whatever, an insertion lets the action through while a request is
   * pending exactly when a lookup repeated at that moment finds a pending one and
   * nothing applies to the call's own amount.
   */
  lemma ProceedsPastPendingIff(g: State, i: nat)
    requires i < |g.waiting|
    ensures var c := g.waiting[i];
            AnswerOf(g, Create(i)) == Some(NoApprovalRequired) && HasStatus(g.store, c, Pending)
            <==> FindPending(g.store.requests, c.t.org, c.entityType, c.entityId).Some? && NothingApplies(g.store, c)
  {
    NothingAppliesMeansNoRequest(g.store, g.waiting[i]);
  }

  /** Two overlapping lookups, the first of which goes on to insert. */
  function RaceRun(c: Call, d: Call): seq<Step> {
    [Read(c), Read(d), Create(0)]
  }

  /**
   * Whenever approval is required for one call and, once its request is open,
   * nothing applies to another call for the same entity, overlapping lets the
   * second action through while the first one's request is pending.
   */
  lemma OverlapLetsAnActionThrough(s: Store, c: Call, d: Call)
    requires SameEntity(c, d) && Lookup(s, c).None?
    requires !NothingApplies(s, c) && NothingApplies(Open(s, c), d)
    ensures Feasible(State(s, []), RaceRun(c, d))
    ensures var g := After(State(s, []), RaceRun(c, d));
            && g.waiting == [d] && Timely(g, 0)
            && HasStatus(g.store, d, Pending)
            && AnswerOf(g, Create(0)) == Some(NoApprovalRequired)
  {
    var g0, run := State(s, []), RaceRun(c, d);
    NothingAppliesMeansNoRequest(s, c);
    OpenAddsOne(s, c);
    var g1 := Next(g0, Read(c));
    assert g1 == State(s, [c]);
    var g2 := Next(g1, Read(d));
    assert g2 == State(s, [c, d]);
    var g3 := Next(g2, Create(0));
    assert g3 == State(Open(s, c), [d]);
    PlayOne(g3, [], g3);
    PlayOne(g2, run[2..], g3);
    PlayOne(g1, run[1..], g3);
    PlayOne(g0, run, g3);
    assert IsFor(g3.store.requests[|s.requests|], d);
    NothingAppliesMeansNoRequest(g3.store, d);
  }

  /** Unrolls one step of a run that ends in `end`. */
  lemma PlayOne(g: State, steps: seq<Step>, end: State)
    requires steps == [] ==> g == end
    requires steps != [] ==>
               && Allowed(g, steps[0])
               && Feasible(Next(g, steps[0]), steps[1..]) && After(Next(g, steps[0]), steps[1..]) == end
    ensures Feasible(g, steps) && After(g, steps) == end
  {
  }

  /** One workflow from 100 up, with a single step. */
  const FROM_100 := Workflow(0, "expense", Some(100.0), false, true, [Approvals.Step(1, 1, [], None, None)])

  /** Such calls exist: the amount of the same document is first 100, then 50. */
  lemma AnAmountThatDropsSlipsThrough()
    ensures var s, t := Store([Some(FROM_100)], [], []), Tenant(0, None, []);
            var c, d := Call(t, "expense", 0, 100.0), Call(t, "expense", 0, 50.0);
            && Feasible(State(s, []), RaceRun(c, d))
            && HasStatus(After(State(s, []), RaceRun(c, d)).store, d, Pending)
            && AnswerOf(After(State(s, []), RaceRun(c, d)), Create(0)) == Some(NoApprovalRequired)
  {
    var s, t := Store([Some(FROM_100)], [], []), Tenant(0, None, []);
    var c, d := Call(t, "expense", 0, 100.0), Call(t, "expense", 0, 50.0);
    SelectionIsMostSpecific(s.workflows, 0, "expense", 100.0);
    SelectionIsMostSpecific(s.workflows, 0, "expense", 50.0);
    assert Candidate(s.workflows, 0, 0, "expense");
    assert FROM_100.steps[0] in FROM_100.steps && Applies(FROM_100.steps[0], 100.0);
    assert Open(s, c).workflows == s.workflows;
    OverlapLetsAnActionThrough(s, c, d);
  }

  // ---------------------------------------------------------------------------
  // An open gate
  // ---------------------------------------------------------------------------

  /** An approved request stays approved through any interleaving. */
  lemma {:induction false} ApprovalLasts(g: State, steps: seq<Step>, r: nat)
    requires Feasible(g, steps) && r < |g.store.requests| && g.store.requests[r].status == Approved
    ensures r < |After(g, steps).store.requests|
    ensures SameSubject(After(g, steps).store.requests[r], g.store.requests[r])
    ensures After(g, steps).store.requests[r].status == Approved
    decreases |steps|
  {
    if steps != [] {
      if steps[0].Other? {
        StepEvolves(g.store, steps[0].action, r);
      }
      ApprovalLasts(Next(g, steps[0]), steps[1..], r);
    }
  }

  lemma {:induction false} OneLiveAtTheEnd(g: State, steps: seq<Step>)
    requires Feasible(g, steps) && OneLiveThroughout(g, steps)
    ensures OneLive(After(g, steps).store)
    decreases |steps|
  {
    if steps != [] {
      OneLiveAtTheEnd(Next(g, steps[0]), steps[1..]);
    }
  }

  /**
   * Once the gate answers from an approved request, it does so forever, through
   * every interleaving whose insertions are timely, and the approved request is
   * there to be found through any interleaving at all.
   */
  lemma OpenGateStaysOpen(g: State, steps: seq<Step>, c: Call)
    requires OneLive(g.store) && Feasible(g, steps)
    requires Check(g.store, c).1 == AlreadyApproved
    ensures HasStatus(After(g, steps).store, c, Approved)
    ensures AllTimely(g, steps) ==> Check(After(g, steps).store, c).1 == AlreadyApproved
  {
    var r := Lookup(g.store, c).value;
    ApprovalLasts(g, steps, r);
    OneLiveIffInsertionsAreTimely(g, steps);
    if AllTimely(g, steps) {
      OneLiveAtTheEnd(g, steps);
      GateAnswersAreRight(After(g, steps).store, c);
    }
  }
}
