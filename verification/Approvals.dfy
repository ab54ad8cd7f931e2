/**
 * The rules of the approval engine for one request: which workflow is selected,
 * which of its steps apply, who may decide, and what a recorded decision does to
 * the request.  The tables and the service around them are in ApprovalStore.
 */
module Approvals {
  import opened Common

  type UserId = nat

  // ---------------------------------------------------------------------------
  // Rows
  // ---------------------------------------------------------------------------

  datatype Step = Step(
    stepOrder: int,
    requiredCount: int,
    approverPermissions: seq<string>,
    minAmount: Option<real>,
    maxAmount: Option<real>)

  /** `steps` is the relation as the engine reads it, ordered by stepOrder. */
  datatype Workflow = Workflow(
    org: nat,
    entityType: string,
    minAmount: Option<real>,
    enforceDistinctApprovers: bool,
    isActive: bool,
    steps: seq<Step>)

  datatype Vote = Approve | Reject

  /** `held` records the permissions the approver presented; the program does not store it. */
  datatype Decision = Decision(approver: UserId, stepOrder: int, vote: Vote, held: seq<string>)

  datatype Status = Pending | Approved | Rejected | Cancelled

  /**
   * Which entry point created the request, or that posting its bill took it past
   * the engine; the program does not store it.
   */
  datatype Origin = ViaRequest | ViaOverride | Forced

  datatype Request = Request(
    org: nat,
    entityType: string,
    entityId: nat,
    amount: real,
    workflowId: Option<nat>,
    policyPermissions: seq<string>,
    currentStep: int,
    requiredCount: int,
    status: Status,
    createdBy: Option<UserId>,
    decisions: seq<Decision>,
    origin: Origin)

  datatype Tenant = Tenant(org: nat, user: Option<UserId>, permissions: seq<string>)

  // ---------------------------------------------------------------------------
  // Steps of a workflow
  // ---------------------------------------------------------------------------

  ghost predicate Ordered(steps: seq<Step>) {
    forall i, j :: 0 <= i < j < |steps| ==> steps[i].stepOrder < steps[j].stepOrder
  }

  predicate Applies(s: Step, amount: real) {
    && (s.minAmount.None? || amount >= s.minAmount.value)
    && (s.maxAmount.None? || amount < s.maxAmount.value)
  }

  /** Steps whose band contains the amount, in order. */
  function ApplicableSteps(steps: seq<Step>, amount: real): (r: seq<Step>)
    ensures forall s :: s in r <==> s in steps && Applies(s, amount)
  {
    if steps == [] then []
    else
      var rest := ApplicableSteps(steps[1..], amount);
      if Applies(steps[0], amount) then [steps[0]] + rest else rest
  }

  lemma {:induction false} ApplicableStepsOrdered(steps: seq<Step>, amount: real)
    requires Ordered(steps)
    ensures Ordered(ApplicableSteps(steps, amount))
  {
    if steps != [] {
      ApplicableStepsOrdered(steps[1..], amount);
      var rest := ApplicableSteps(steps[1..], amount);
      forall s | s in rest
        ensures steps[0].stepOrder < s.stepOrder
      {
        var i :| 0 <= i < |steps[1..]| && steps[1..][i] == s;
      }
    }
  }

  function FindStep(steps: seq<Step>, order: int): (r: Option<Step>)
    ensures r.Some? ==> r.value in steps && r.value.stepOrder == order
    ensures r.None? ==> forall s :: s in steps ==> s.stepOrder != order
  {
    if steps == [] then None
    else if steps[0].stepOrder == order then Some(steps[0])
    else FindStep(steps[1..], order)
  }

  function StepsAfter(steps: seq<Step>, order: int): (r: seq<Step>)
    ensures forall s :: s in r <==> s in steps && s.stepOrder > order
  {
    if steps == [] then []
    else
      var rest := StepsAfter(steps[1..], order);
      if steps[0].stepOrder > order then [steps[0]] + rest else rest
  }

  /** In an ordered list, filtering on "later than the k-th" leaves exactly the tail. */
  lemma {:induction false} StepsAfterIsTail(steps: seq<Step>, k: nat)
    requires Ordered(steps) && k < |steps|
    ensures StepsAfter(steps, steps[k].stepOrder) == steps[k + 1..]
  {
    if k == 0 {
      AllAfter(steps[1..], steps[0].stepOrder);
    } else {
      assert steps[1..][k - 1] == steps[k];
      StepsAfterIsTail(steps[1..], k - 1);
      assert steps[1..][k..] == steps[k + 1..];
    }
  }

  lemma {:induction false} AllAfter(steps: seq<Step>, order: int)
    requires forall i :: 0 <= i < |steps| ==> steps[i].stepOrder > order
    ensures StepsAfter(steps, order) == steps
  {
    if steps != [] {
      AllAfter(steps[1..], order);
      assert steps == [steps[0]] + steps[1..];
    }
  }

  /** Step orders identify steps, so looking one up by its order finds that very step. */
  lemma FindStepInOrdered(steps: seq<Step>, s: Step)
    requires Ordered(steps) && s in steps
    ensures FindStep(steps, s.stepOrder) == Some(s)
  {
    var r := FindStep(steps, s.stepOrder).value;
    var i :| 0 <= i < |steps| && steps[i] == s;
    var j :| 0 <= j < |steps| && steps[j] == r;
    assert !(i < j) && !(j < i);
  }

  // ---------------------------------------------------------------------------
  // Deciding
  // ---------------------------------------------------------------------------

  datatype DecideError =
    | NotAuthenticated
    | NotFound
    | AlreadyResolved
    | NotAllowed
    | OwnRequest
    | ClearedEarlierStep
    | AlreadyDecided

  datatype StepConfig = StepConfig(approverPermissions: seq<string>, requiredCount: int)

  /** The configuration a decision is judged by: the current step, or a fallback when it is gone. */
  function ActiveConfig(wf: Option<Workflow>, req: Request): StepConfig {
    match wf
    case None => StepConfig(req.policyPermissions, req.requiredCount)
    case Some(w) =>
      match FindStep(w.steps, req.currentStep)
      case Some(s) => StepConfig(s.approverPermissions, s.requiredCount)
      case None => StepConfig([], req.requiredCount)
  }

  predicate HoldsAny(permissions: seq<string>, held: seq<string>) {
    exists p :: p in permissions && p in held
  }

  predicate DecidedAt(ds: seq<Decision>, user: UserId, order: int) {
    exists d :: d in ds && d.approver == user && d.stepOrder == order
  }

  predicate DecidedBefore(ds: seq<Decision>, user: UserId, order: int) {
    exists d :: d in ds && d.approver == user && d.stepOrder < order
  }

  /** The first reason, in the order the checks are made, why `user` may not decide now. */
  function Refusal(wf: Option<Workflow>, req: Request, user: UserId, held: seq<string>): Option<DecideError> {
    var cfg := ActiveConfig(wf, req);
    if req.status != Pending then Some(AlreadyResolved)
    else if cfg.approverPermissions != [] && !HoldsAny(cfg.approverPermissions, held) then Some(NotAllowed)
    else if req.createdBy == Some(user) && cfg.approverPermissions != [] then Some(OwnRequest)
    else if wf.Some? && wf.value.enforceDistinctApprovers && DecidedBefore(req.decisions, user, req.currentStep)
    then Some(ClearedEarlierStep)
    else if DecidedAt(req.decisions, user, req.currentStep) then Some(AlreadyDecided)
    else None
  }

  /** How many decisions of one kind a step has received. */
  function Tally(ds: seq<Decision>, order: int, vote: Vote): nat {
    if ds == [] then 0
    else
      var last := ds[|ds| - 1];
      Tally(ds[..|ds| - 1], order, vote) + if last.stepOrder == order && last.vote == vote then 1 else 0
  }

  lemma TallySnoc(ds: seq<Decision>, d: Decision, order: int, vote: Vote)
    ensures Tally(ds + [d], order, vote)
         == Tally(ds, order, vote) + if d.stepOrder == order && d.vote == vote then 1 else 0
  {
    assert (ds + [d])[..|ds|] == ds;
  }

  lemma {:induction false} TallyPositive(ds: seq<Decision>, order: int, vote: Vote)
    ensures Tally(ds, order, vote) > 0 <==> exists d :: d in ds && d.stepOrder == order && d.vote == vote
  {
    if ds != [] {
      var init, last := ds[..|ds| - 1], ds[|ds| - 1];
      assert ds == init + [last];
      TallyPositive(init, order, vote);
    }
  }

  /** What the engine does to the row once the new decision is in the table; `steps` are the applicable ones. */
  function Settle(steps: seq<Step>, req: Request, required: int): Request {
    if Tally(req.decisions, req.currentStep, Reject) > 0 then
      req.(status := Rejected, requiredCount := required)
    else if Tally(req.decisions, req.currentStep, Approve) < required then
      req.(requiredCount := required)
    else
      var remaining := StepsAfter(steps, req.currentStep);
      if remaining == [] then req.(status := Approved, requiredCount := required)
      else req.(currentStep := remaining[0].stepOrder, requiredCount := remaining[0].requiredCount)
  }

  function StepsFor(wf: Option<Workflow>, amount: real): seq<Step> {
    if wf.Some? then ApplicableSteps(wf.value.steps, amount) else []
  }

  function Decided(wf: Option<Workflow>, req: Request, user: UserId, held: seq<string>, vote: Vote): Request
  {
    var d := Decision(user, req.currentStep, vote, held);
    Settle(StepsFor(wf, req.amount), req.(decisions := req.decisions + [d]), ActiveConfig(wf, req).requiredCount)
  }

  /** A fresh request at the first applicable step; absent when no step applies. */
  function Opened(wf: Workflow, wfId: nat, tenant: Tenant, entityType: string, entityId: nat, amount: real): Option<Request>
  {
    var steps := ApplicableSteps(wf.steps, amount);
    if steps == [] then None
    else Some(Request(tenant.org, entityType, entityId, amount, Some(wfId), [], steps[0].stepOrder,
                      steps[0].requiredCount, Pending, tenant.user, [], ViaRequest))
  }

  // ---------------------------------------------------------------------------
  // Selecting a workflow by threshold
  // ---------------------------------------------------------------------------

  datatype Listing = Listing(id: nat, minAmount: Option<real>)

  predicate Clears(t: Option<real>, amount: real) {
    t.None? || amount >= t.value
  }

  /** `a` may come before `b` in "highest threshold first, no threshold last". */
  predicate Above(a: Option<real>, b: Option<real>) {
    b.None? || (a.Some? && a.value >= b.value)
  }

  ghost predicate Descending(l: seq<Listing>) {
    forall i, j :: 0 <= i < j < |l| ==> Above(l[i].minAmount, l[j].minAmount)
  }

  function Insert(x: Listing, l: seq<Listing>): (r: seq<Listing>)
    ensures multiset(r) == multiset(l) + multiset{x}
  {
    if l == [] then [x]
    else if Above(x.minAmount, l[0].minAmount) then [x] + l
    else
      assert l == [l[0]] + l[1..];
      [l[0]] + Insert(x, l[1..])
  }

  function ByThreshold(l: seq<Listing>): (r: seq<Listing>)
    ensures multiset(r) == multiset(l)
  {
    if l == [] then []
    else
      assert l == [l[0]] + l[1..];
      Insert(l[0], ByThreshold(l[1..]))
  }

  ghost predicate AllBelow(t: Option<real>, l: seq<Listing>) {
    forall i :: 0 <= i < |l| ==> Above(t, l[i].minAmount)
  }

  lemma {:induction false} InsertKeepsOrder(x: Listing, l: seq<Listing>, t: Option<real>)
    requires Descending(l) && AllBelow(t, l) && Above(t, x.minAmount)
    ensures Descending(Insert(x, l)) && AllBelow(t, Insert(x, l))
  {
    if l == [] || Above(x.minAmount, l[0].minAmount) {
      PrependDescending(x, l);
    } else {
      InsertKeepsOrder(x, l[1..], t);
      InsertKeepsOrder(x, l[1..], l[0].minAmount);
      PrependDescending(l[0], Insert(x, l[1..]));
    }
  }

  lemma PrependDescending(x: Listing, l: seq<Listing>)
    requires Descending(l) && (l == [] || Above(x.minAmount, l[0].minAmount) || AllBelow(x.minAmount, l))
    ensures Descending([x] + l)
  {
  }

  lemma {:induction false} ByThresholdIsDescending(l: seq<Listing>)
    ensures Descending(ByThreshold(l))
  {
    if l != [] {
      ByThresholdIsDescending(l[1..]);
      var rest := ByThreshold(l[1..]);
      var top := if rest == [] || Above(l[0].minAmount, rest[0].minAmount) then l[0] else rest[0];
      InsertKeepsOrder(l[0], rest, top.minAmount);
    }
  }

  function FirstClearing(l: seq<Listing>, amount: real): (r: Option<Listing>)
    ensures r.None? ==> forall x :: x in l ==> !Clears(x.minAmount, amount)
    ensures r.Some? ==> r.value in l && Clears(r.value.minAmount, amount)
  {
    if l == [] then None
    else if Clears(l[0].minAmount, amount) then Some(l[0])
    else FirstClearing(l[1..], amount)
  }

  /** The winner's threshold is at least that of every other row the amount clears. */
  lemma {:induction false} FirstClearingIsGreatest(l: seq<Listing>, amount: real)
    requires Descending(l)
    ensures var r := FirstClearing(l, amount);
            r.Some? ==> forall x :: x in l && Clears(x.minAmount, amount) ==> Above(r.value.minAmount, x.minAmount)
  {
    if l != [] {
      if Clears(l[0].minAmount, amount) {
        forall x | x in l
          ensures Above(l[0].minAmount, x.minAmount)
        {
          var i :| 0 <= i < |l| && l[i] == x;
        }
      } else {
        FirstClearingIsGreatest(l[1..], amount);
      }
    }
  }

  /**
   * The database may return rows with equal thresholds in any order: every
   * correctly sorted answer over the same rows selects the same threshold.
   */
  lemma AnySortedAnswerSelectsTheSameThreshold(l1: seq<Listing>, l2: seq<Listing>, amount: real)
    requires Descending(l1) && Descending(l2) && multiset(l1) == multiset(l2)
    ensures FirstClearing(l1, amount).Some? <==> FirstClearing(l2, amount).Some?
    ensures FirstClearing(l1, amount).Some? ==>
              FirstClearing(l1, amount).value.minAmount == FirstClearing(l2, amount).value.minAmount
  {
    forall x
      ensures x in l1 <==> x in l2
    {
      assert x in l1 <==> x in multiset(l1);
      assert x in l2 <==> x in multiset(l2);
    }
    FirstClearingIsGreatest(l1, amount);
    FirstClearingIsGreatest(l2, amount);
  }

  /** Raising the amount never selects a lower threshold. */
  lemma RaisingTheAmountNeverLowersTheThreshold(l: seq<Listing>, low: real, high: real)
    requires Descending(l) && low <= high
    ensures FirstClearing(l, low).Some? ==>
              && FirstClearing(l, high).Some?
              && Above(FirstClearing(l, high).value.minAmount, FirstClearing(l, low).value.minAmount)
  {
    FirstClearingIsGreatest(l, high);
  }

  // ---------------------------------------------------------------------------
  // Tiered routing: contiguous half-open bands
  // ---------------------------------------------------------------------------

  /** Each band starts where the previous one ends, and no band is empty. */
  ghost predicate Contiguous(steps: seq<Step>) {
    && (forall i :: 0 <= i < |steps| && steps[i].minAmount.Some? && steps[i].maxAmount.Some?
          ==> steps[i].minAmount.value < steps[i].maxAmount.value)
    && (forall i {:trigger steps[i]} :: 0 < i < |steps| ==>
          steps[i].minAmount.Some? && steps[i - 1].maxAmount == steps[i].minAmount)
  }

  lemma {:induction false} NoBandAbove(steps: seq<Step>, amount: real)
    requires Contiguous(steps) && steps != []
    requires steps[0].minAmount.Some? && amount < steps[0].minAmount.value
    ensures ApplicableSteps(steps, amount) == []
  {
    if |steps| > 1 {
      assert steps[1].minAmount == steps[0].maxAmount;
      forall i {:trigger steps[1..][i]} | 0 < i < |steps[1..]|
        ensures steps[1..][i].minAmount.Some? && steps[1..][i - 1].maxAmount == steps[1..][i].minAmount
      {
        assert steps[1..][i] == steps[i + 1] && steps[1..][i - 1] == steps[i];
      }
      NoBandAbove(steps[1..], amount);
    }
  }

  /** When contiguous bands cover the amount, exactly one step applies. */
  lemma {:induction false} ExactlyOneBandApplies(steps: seq<Step>, amount: real)
    requires Contiguous(steps) && steps != []
    requires steps[0].minAmount.None? || steps[0].minAmount.value <= amount
    requires steps[|steps| - 1].maxAmount.None? || amount < steps[|steps| - 1].maxAmount.value
    ensures |ApplicableSteps(steps, amount)| == 1
  {
    if |steps| == 1 {
      assert Applies(steps[0], amount);
    } else {
      assert steps[1].minAmount == steps[0].maxAmount;
      forall i {:trigger steps[1..][i]} | 0 < i < |steps[1..]|
        ensures steps[1..][i].minAmount.Some? && steps[1..][i - 1].maxAmount == steps[1..][i].minAmount
      {
        assert steps[1..][i] == steps[i + 1] && steps[1..][i - 1] == steps[i];
      }
      if amount < steps[1].minAmount.value {
        NoBandAbove(steps[1..], amount);
      } else {
        ExactlyOneBandApplies(steps[1..], amount);
      }
    }
  }
}
