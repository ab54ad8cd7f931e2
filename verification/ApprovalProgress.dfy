/**
 * What every decision keeps true of a request whose workflow is not edited, and
 * what that says about an approved request.
 */
module ApprovalProgress {
  import opened Common
  import opened Approvals

  /** The engine's effective head-count: a step always takes at least one decision. */
  function Need(s: Step): nat {
    if s.requiredCount < 1 then 1 else s.requiredCount
  }

  function TotalNeed(steps: seq<Step>): nat {
    if steps == [] then 0 else Need(steps[0]) + TotalNeed(steps[1..])
  }

  /** `d` was made by someone allowed to decide step `s` of a request by `creator`. */
  ghost predicate Eligible(s: Step, creator: Option<UserId>, d: Decision) {
    s.approverPermissions != [] ==> HoldsAny(s.approverPermissions, d.held) && creator != Some(d.approver)
  }

  /** `d` is an eligible decision on one of the steps. */
  ghost predicate OnOneOf(steps: seq<Step>, creator: Option<UserId>, d: Decision) {
    exists j :: 0 <= j < |steps| && steps[j].stepOrder == d.stepOrder && Eligible(steps[j], creator, d)
  }

  ghost predicate AllOnOneOf(steps: seq<Step>, creator: Option<UserId>, ds: seq<Decision>) {
    forall i :: 0 <= i < |ds| ==> OnOneOf(steps, creator, ds[i])
  }

  /** No user decides the same step twice. */
  ghost predicate NoRepeat(ds: seq<Decision>) {
    forall i, j :: 0 <= i < j < |ds| ==> ds[i].approver != ds[j].approver || ds[i].stepOrder != ds[j].stepOrder
  }

  ghost predicate AllDistinct(ds: seq<Decision>) {
    forall i, j :: 0 <= i < j < |ds| ==> ds[i].approver != ds[j].approver
  }

  // ---------------------------------------------------------------------------
  // The invariant: the cursor stands at the k-th applicable step
  // ---------------------------------------------------------------------------

  ghost predicate RejectsOnly(ds: seq<Decision>, order: int) {
    forall i :: 0 <= i < |ds| && ds[i].vote == Reject ==> ds[i].stepOrder == order
  }

  /** Everything but the count on the current step. */
  ghost predicate PlacedAt(steps: seq<Step>, distinct: bool, creator: Option<UserId>, current: int, ds: seq<Decision>, k: nat) {
    && k < |steps|
    && steps[k].stepOrder == current
    && (forall j :: 0 <= j < k ==> Tally(ds, steps[j].stepOrder, Approve) == Need(steps[j]))
    && AllOnOneOf(steps[..k + 1], creator, ds)
    && RejectsOnly(ds, current)
    && NoRepeat(ds)
    && (distinct ==> AllDistinct(ds))
  }

  ghost predicate Placed(steps: seq<Step>, distinct: bool, req: Request, k: nat) {
    PlacedAt(steps, distinct, req.createdBy, req.currentStep, req.decisions, k)
  }

  /** Where the current step's count must stand, by status. */
  ghost predicate Counted(steps: seq<Step>, req: Request, k: nat)
    requires k < |steps|
  {
    var approvals := Tally(req.decisions, req.currentStep, Approve);
    var rejections := Tally(req.decisions, req.currentStep, Reject);
    match req.status
    case Pending => approvals < Need(steps[k]) && rejections == 0
    case Approved => k == |steps| - 1 && approvals == Need(steps[k]) && rejections == 0
    case Rejected => approvals < Need(steps[k]) && rejections == 1
    case Cancelled => false
  }

  ghost predicate StandsOn(steps: seq<Step>, distinct: bool, req: Request, k: nat) {
    Placed(steps, distinct, req, k) && Counted(steps, req, k)
  }

  /** The request stands at the k-th applicable step of the workflow. */
  ghost predicate Stands(wf: Workflow, req: Request, k: nat) {
    StandsOn(ApplicableSteps(wf.steps, req.amount), wf.enforceDistinctApprovers, req, k)
  }

  /** It also carries that step's head-count, as a request does whose workflow was not edited. */
  ghost predicate Progress(wf: Workflow, req: Request, k: nat) {
    Stands(wf, req, k) && req.requiredCount == ApplicableSteps(wf.steps, req.amount)[k].requiredCount
  }

  lemma OpenedProgress(wf: Workflow, wfId: nat, tenant: Tenant, entityType: string, entityId: nat, amount: real)
    ensures var r := Opened(wf, wfId, tenant, entityType, entityId, amount);
            r.Some? ==> Progress(wf, r.value, 0)
  {
  }

  /** What `Refusal` guarantees of an accepted decision row. */
  ghost predicate Fits(steps: seq<Step>, distinct: bool, req: Request, k: nat, d: Decision)
    requires k < |steps|
  {
    && d.stepOrder == req.currentStep
    && OnOneOf(steps[..k + 1], req.createdBy, d)
    && NoRepeat(req.decisions + [d])
    && (distinct ==> AllDistinct(req.decisions + [d]))
  }

  lemma DecisionsReachOnlyTheCursor(steps: seq<Step>, distinct: bool, req: Request, k: nat)
    requires Ordered(steps) && Placed(steps, distinct, req, k)
    ensures forall i :: 0 <= i < |req.decisions| ==> req.decisions[i].stepOrder <= req.currentStep
  {
    forall i | 0 <= i < |req.decisions|
      ensures req.decisions[i].stepOrder <= req.currentStep
    {
      assert OnOneOf(steps[..k + 1], req.createdBy, req.decisions[i]);
    }
  }

  lemma AcceptedRowIsNew(steps: seq<Step>, wf: Workflow, req: Request, k: nat, user: UserId, held: seq<string>, vote: Vote)
    requires Ordered(steps) && Placed(steps, wf.enforceDistinctApprovers, req, k)
    requires Refusal(Some(wf), req, user, held).None?
    ensures var ds := req.decisions + [Decision(user, req.currentStep, vote, held)];
            NoRepeat(ds) && (wf.enforceDistinctApprovers ==> AllDistinct(ds))
  {
    DecisionsReachOnlyTheCursor(steps, wf.enforceDistinctApprovers, req, k);
    forall i | 0 <= i < |req.decisions|
      ensures req.decisions[i].approver != user || req.decisions[i].stepOrder != req.currentStep
      ensures wf.enforceDistinctApprovers ==> req.decisions[i].approver != user
    {
      assert req.decisions[i] in req.decisions;
    }
  }

  lemma AcceptedRowFits(wf: Workflow, req: Request, k: nat, user: UserId, held: seq<string>, vote: Vote)
    requires Ordered(wf.steps) && Stands(wf, req, k)
    requires Refusal(Some(wf), req, user, held).None?
    ensures var steps := ApplicableSteps(wf.steps, req.amount);
            && ActiveConfig(Some(wf), req) == StepConfig(steps[k].approverPermissions, steps[k].requiredCount)
            && Fits(steps, wf.enforceDistinctApprovers, req, k, Decision(user, req.currentStep, vote, held))
  {
    var steps := ApplicableSteps(wf.steps, req.amount);
    assert steps[k] in steps;
    FindStepInOrdered(wf.steps, steps[k]);
    assert steps[..k + 1][k] == steps[k];
    ApplicableStepsOrdered(wf.steps, req.amount);
    AcceptedRowIsNew(steps, wf, req, k, user, held, vote);
  }

  /**
   * While the invariant holds, a decision is accepted exactly when the request is
   * pending and the user is eligible for the current step, has not decided it, and,
   * where steps must be cleared by different people, has not decided anything yet.
   */
  lemma AcceptedIff(wf: Workflow, req: Request, k: nat, user: UserId, held: seq<string>, vote: Vote)
    requires Ordered(wf.steps) && Stands(wf, req, k)
    ensures var step := ApplicableSteps(wf.steps, req.amount)[k];
            Refusal(Some(wf), req, user, held).None? <==>
              && req.status == Pending
              && Eligible(step, req.createdBy, Decision(user, req.currentStep, vote, held))
              && (forall i :: 0 <= i < |req.decisions| && req.decisions[i].approver == user ==>
                    req.decisions[i].stepOrder != req.currentStep && !wf.enforceDistinctApprovers)
  {
    var steps := ApplicableSteps(wf.steps, req.amount);
    assert steps[k] in steps;
    FindStepInOrdered(wf.steps, steps[k]);
    ApplicableStepsOrdered(wf.steps, req.amount);
    DecisionsReachOnlyTheCursor(steps, wf.enforceDistinctApprovers, req, k);
    assert forall i :: 0 <= i < |req.decisions| ==> req.decisions[i] in req.decisions;
  }

  /** The index of the current step after an accepted decision. */
  function NextIndex(req: Request, k: nat, after: Request): nat {
    if after.currentStep == req.currentStep then k else k + 1
  }

  /** The row is settled by the step it stands at. */
  lemma DecidedAtItsStep(wf: Workflow, req: Request, k: nat, user: UserId, held: seq<string>, vote: Vote)
    requires Ordered(wf.steps) && Stands(wf, req, k)
    requires Refusal(Some(wf), req, user, held).None?
    ensures var steps, d := ApplicableSteps(wf.steps, req.amount), Decision(user, req.currentStep, vote, held);
            && req.status == Pending && Ordered(steps) && Fits(steps, wf.enforceDistinctApprovers, req, k, d)
            && Decided(Some(wf), req, user, held, vote)
               == Settle(steps, req.(decisions := req.decisions + [d]), steps[k].requiredCount)
  {
    AcceptedRowFits(wf, req, k, user, held, vote);
    ApplicableStepsOrdered(wf.steps, req.amount);
  }

  lemma SettlingKeepsTheSubject(steps: seq<Step>, req: Request, required: int)
    ensures Settle(steps, req, required).amount == req.amount
  {
  }

  /** Every accepted decision keeps the invariant. */
  lemma DecisionKeepsProgress(wf: Workflow, req: Request, k: nat, user: UserId, held: seq<string>, vote: Vote)
    requires Ordered(wf.steps) && Stands(wf, req, k)
    requires Refusal(Some(wf), req, user, held).None?
    ensures var after := Decided(Some(wf), req, user, held, vote);
            Progress(wf, after, NextIndex(req, k, after))
  {
    var steps, d := ApplicableSteps(wf.steps, req.amount), Decision(user, req.currentStep, vote, held);
    DecidedAtItsStep(wf, req, k, user, held, vote);
    SettlingKeepsProgress(steps, wf.enforceDistinctApprovers, req, k, d);
    SettlingKeepsTheSubject(steps, req.(decisions := req.decisions + [d]), steps[k].requiredCount);
  }

  lemma SettlingKeepsProgress(steps: seq<Step>, distinct: bool, req: Request, k: nat, d: Decision)
    requires Ordered(steps) && StandsOn(steps, distinct, req, k) && req.status == Pending
    requires Fits(steps, distinct, req, k, d)
    ensures var after := Settle(steps, req.(decisions := req.decisions + [d]), steps[k].requiredCount);
            && StandsOn(steps, distinct, after, NextIndex(req, k, after))
            && after.requiredCount == steps[NextIndex(req, k, after)].requiredCount
  {
    var noted := req.(decisions := req.decisions + [d]);
    NotedIsPlaced(steps, distinct, req, k, d);
    StepsAfterIsTail(steps, k);
    TallySnoc(req.decisions, d, req.currentStep, Approve);
    TallySnoc(req.decisions, d, req.currentStep, Reject);
    var after := Settle(steps, noted, steps[k].requiredCount);
    if d.vote == Approve && Tally(noted.decisions, req.currentStep, Approve) >= steps[k].requiredCount && k + 1 < |steps| {
      AdvancedIsPlaced(steps, distinct, noted, k);
      assert steps[k + 1..][0] == steps[k + 1];
      assert Placed(steps, distinct, after, k + 1) && Counted(steps, after, k + 1);
    } else {
      assert Placed(steps, distinct, after, k) && Counted(steps, after, k);
    }
  }

  /** With the new row in, everything is still in place. */
  lemma NotedIsPlaced(steps: seq<Step>, distinct: bool, req: Request, k: nat, d: Decision)
    requires Ordered(steps) && Placed(steps, distinct, req, k) && Fits(steps, distinct, req, k, d)
    ensures Placed(steps, distinct, req.(decisions := req.decisions + [d]), k)
  {
    forall j | 0 <= j < k
      ensures Tally(req.decisions + [d], steps[j].stepOrder, Approve) == Need(steps[j])
    {
      TallySnoc(req.decisions, d, steps[j].stepOrder, Approve);
    }
  }

  /** Moving the cursor to the next step: that step is untouched and the earlier ones stay placed. */
  lemma AdvancedIsPlaced(steps: seq<Step>, distinct: bool, req: Request, k: nat)
    requires Ordered(steps) && Placed(steps, distinct, req, k) && k + 1 < |steps|
    requires Tally(req.decisions, req.currentStep, Approve) == Need(steps[k])
    requires Tally(req.decisions, req.currentStep, Reject) == 0
    ensures Placed(steps, distinct, req.(currentStep := steps[k + 1].stepOrder), k + 1)
    ensures Tally(req.decisions, steps[k + 1].stepOrder, Approve) == 0
    ensures Tally(req.decisions, steps[k + 1].stepOrder, Reject) == 0
  {
    NothingBeyond(steps, distinct, req, k, steps[k + 1].stepOrder);
    NoRejections(steps, distinct, req, k);
    forall i | 0 <= i < |req.decisions|
      ensures OnOneOf(steps[..k + 2], req.createdBy, req.decisions[i])
    {
      var d := req.decisions[i];
      assert OnOneOf(steps[..k + 1], req.createdBy, d);
      var j :| 0 <= j < k + 1 && steps[..k + 1][j].stepOrder == d.stepOrder && Eligible(steps[..k + 1][j], req.createdBy, d);
      assert steps[..k + 2][j] == steps[..k + 1][j];
    }
  }

  /** A request not rejected carries no rejection at all. */
  lemma NoRejections(steps: seq<Step>, distinct: bool, req: Request, k: nat)
    requires Placed(steps, distinct, req, k) && Tally(req.decisions, req.currentStep, Reject) == 0
    ensures forall i :: 0 <= i < |req.decisions| ==> req.decisions[i].vote == Approve
  {
    TallyPositive(req.decisions, req.currentStep, Reject);
    assert forall i :: 0 <= i < |req.decisions| ==> req.decisions[i] in req.decisions;
  }

  /** No decision sits on a step the cursor has not reached. */
  lemma NothingBeyond(steps: seq<Step>, distinct: bool, req: Request, k: nat, order: int)
    requires Ordered(steps) && Placed(steps, distinct, req, k) && req.currentStep < order
    ensures Tally(req.decisions, order, Approve) == 0 && Tally(req.decisions, order, Reject) == 0
  {
    DecisionsReachOnlyTheCursor(steps, distinct, req, k);
    forall d | d in req.decisions
      ensures d.stepOrder != order
    {
      var i :| 0 <= i < |req.decisions| && req.decisions[i] == d;
    }
    TallyPositive(req.decisions, order, Approve);
    TallyPositive(req.decisions, order, Reject);
  }

  // ---------------------------------------------------------------------------
  // From tallies to sets of people
  // ---------------------------------------------------------------------------

  ghost function ApproversOf(ds: seq<Decision>, order: int): set<UserId> {
    set d | d in ds && d.stepOrder == order && d.vote == Approve :: d.approver
  }

  ghost function AllApprovers(ds: seq<Decision>): set<UserId> {
    set d | d in ds :: d.approver
  }

  lemma ApproversSnoc(ds: seq<Decision>, d: Decision, order: int)
    ensures ApproversOf(ds + [d], order)
         == ApproversOf(ds, order) + if d.stepOrder == order && d.vote == Approve then {d.approver} else {}
  {
    assert forall e :: e in ds + [d] <==> e in ds || e == d;
  }

  lemma {:induction false} TallyCountsPeople(ds: seq<Decision>, order: int)
    requires NoRepeat(ds)
    ensures |ApproversOf(ds, order)| == Tally(ds, order, Approve)
  {
    if ds == [] {
      assert ApproversOf(ds, order) == {};
    } else {
      var init, last := ds[..|ds| - 1], ds[|ds| - 1];
      assert ds == init + [last];
      TallyCountsPeople(init, order);
      ApproversSnoc(init, last, order);
      if last.stepOrder == order {
        assert last.approver !in ApproversOf(init, order);
      }
    }
  }

  lemma {:induction false} DistinctCountsPeople(ds: seq<Decision>)
    requires AllDistinct(ds)
    ensures |AllApprovers(ds)| == |ds|
  {
    if ds == [] {
      assert AllApprovers(ds) == {};
    } else {
      var init, last := ds[..|ds| - 1], ds[|ds| - 1];
      assert ds == init + [last];
      DistinctCountsPeople(init);
      AllApproversSnoc(init, last);
      assert last.approver !in AllApprovers(init);
    }
  }

  // ---------------------------------------------------------------------------
  // Decisions are partitioned by the steps
  // ---------------------------------------------------------------------------

  /** Approvals collected over a list of steps. */
  function TotalTally(ds: seq<Decision>, steps: seq<Step>): nat {
    if steps == [] then 0 else Tally(ds, steps[0].stepOrder, Approve) + TotalTally(ds, steps[1..])
  }

  ghost predicate HasOrder(steps: seq<Step>, order: int) {
    exists j :: 0 <= j < |steps| && steps[j].stepOrder == order
  }

  lemma {:induction false} TotalTallySnoc(ds: seq<Decision>, d: Decision, steps: seq<Step>)
    requires Ordered(steps)
    ensures TotalTally(ds + [d], steps) == TotalTally(ds, steps)
              + if d.vote == Approve && HasOrder(steps, d.stepOrder) then 1 else 0
  {
    if steps != [] {
      TallySnoc(ds, d, steps[0].stepOrder, Approve);
      TotalTallySnoc(ds, d, steps[1..]);
      if HasOrder(steps, d.stepOrder) && steps[0].stepOrder != d.stepOrder {
        var j :| 0 <= j < |steps| && steps[j].stepOrder == d.stepOrder;
        assert steps[1..][j - 1] == steps[j];
      }
      if HasOrder(steps[1..], d.stepOrder) {
        var j :| 0 <= j < |steps[1..]| && steps[1..][j].stepOrder == d.stepOrder;
        assert steps[j + 1].stepOrder == d.stepOrder;
      }
    }
  }

  lemma {:induction false} TotalTallyOfNone(steps: seq<Step>)
    ensures TotalTally([], steps) == 0
  {
    if steps != [] {
      TotalTallyOfNone(steps[1..]);
    }
  }

  /** Approvals over the steps and rejections on `order` are all the decisions there are. */
  lemma {:induction false} DecisionsArePartitioned(ds: seq<Decision>, steps: seq<Step>, order: int)
    requires Ordered(steps) && RejectsOnly(ds, order)
    requires forall i :: 0 <= i < |ds| ==> HasOrder(steps, ds[i].stepOrder)
    ensures TotalTally(ds, steps) + Tally(ds, order, Reject) == |ds|
  {
    if ds == [] {
      TotalTallyOfNone(steps);
    } else {
      var init, last := ds[..|ds| - 1], ds[|ds| - 1];
      assert ds == init + [last];
      DecisionsArePartitioned(init, steps, order);
      TotalTallySnoc(init, last, steps);
      TallySnoc(init, last, order, Reject);
    }
  }

  lemma {:induction false} TallyAgainstNeed(ds: seq<Decision>, steps: seq<Step>)
    requires forall j :: 0 <= j < |steps| ==> Tally(ds, steps[j].stepOrder, Approve) <= Need(steps[j])
    ensures TotalTally(ds, steps) <= TotalNeed(steps)
    ensures TotalTally(ds, steps) == TotalNeed(steps) <==>
            forall j :: 0 <= j < |steps| ==> Tally(ds, steps[j].stepOrder, Approve) == Need(steps[j])
  {
    if steps != [] {
      forall j | 0 <= j < |steps[1..]|
        ensures Tally(ds, steps[1..][j].stepOrder, Approve) <= Need(steps[1..][j])
      {
        assert steps[1..][j] == steps[j + 1];
      }
      TallyAgainstNeed(ds, steps[1..]);
      if TotalTally(ds, steps) == TotalNeed(steps) {
        forall j | 0 <= j < |steps|
          ensures Tally(ds, steps[j].stepOrder, Approve) == Need(steps[j])
        {
          if j > 0 { assert steps[j] == steps[1..][j - 1]; }
        }
      }
    }
  }

  // ---------------------------------------------------------------------------
  // Main results for one request
  // ---------------------------------------------------------------------------

  /** How many decisions the request can still take. */
  function Outstanding(wf: Workflow, req: Request): int {
    TotalNeed(ApplicableSteps(wf.steps, req.amount)) - |req.decisions|
  }

  lemma OnSomeStep(steps: seq<Step>, upTo: nat, creator: Option<UserId>, ds: seq<Decision>)
    requires upTo <= |steps| && AllOnOneOf(steps[..upTo], creator, ds)
    ensures AllOnOneOf(steps, creator, ds)
    ensures forall i :: 0 <= i < |ds| ==> HasOrder(steps, ds[i].stepOrder)
  {
    forall i | 0 <= i < |ds|
      ensures OnOneOf(steps, creator, ds[i]) && HasOrder(steps, ds[i].stepOrder)
    {
      assert OnOneOf(steps[..upTo], creator, ds[i]);
      var j :| 0 <= j < upTo && steps[..upTo][j].stepOrder == ds[i].stepOrder && Eligible(steps[..upTo][j], creator, ds[i]);
      assert steps[j] == steps[..upTo][j];
    }
  }

  lemma StepTally(steps: seq<Step>, distinct: bool, req: Request, k: nat, j: nat)
    requires Ordered(steps) && StandsOn(steps, distinct, req, k) && j < |steps|
    ensures Tally(req.decisions, steps[j].stepOrder, Approve) <= Need(steps[j])
  {
    if j > k { NothingBeyond(steps, distinct, req, k, steps[j].stepOrder); }
  }

  lemma StepTallies(steps: seq<Step>, distinct: bool, req: Request, k: nat)
    requires Ordered(steps) && StandsOn(steps, distinct, req, k)
    ensures AllOnOneOf(steps, req.createdBy, req.decisions)
    ensures forall j :: 0 <= j < |steps| ==> Tally(req.decisions, steps[j].stepOrder, Approve) <= Need(steps[j])
    ensures TotalTally(req.decisions, steps) + Tally(req.decisions, req.currentStep, Reject) == |req.decisions|
  {
    forall j | 0 <= j < |steps|
      ensures Tally(req.decisions, steps[j].stepOrder, Approve) <= Need(steps[j])
    {
      StepTally(steps, distinct, req, k, j);
    }
    OnSomeStep(steps, k + 1, req.createdBy, req.decisions);
    DecisionsArePartitioned(req.decisions, steps, req.currentStep);
  }

  /** A pending request can still take a decision, an approved one has had exactly all of them, and none has more. */
  lemma OutstandingMeasuresProgress(wf: Workflow, req: Request, k: nat)
    requires Ordered(wf.steps) && Stands(wf, req, k)
    ensures Outstanding(wf, req) >= 0
    ensures req.status == Pending ==> Outstanding(wf, req) > 0
    ensures req.status == Approved ==> Outstanding(wf, req) == 0
  {
    var steps := ApplicableSteps(wf.steps, req.amount);
    ApplicableStepsOrdered(wf.steps, req.amount);
    StepTallies(steps, wf.enforceDistinctApprovers, req, k);
    TallyAgainstNeed(req.decisions, steps);
    assert req.status == Approved || Tally(req.decisions, steps[k].stepOrder, Approve) < Need(steps[k]);
  }

  /** Each accepted decision lowers the measure by exactly one, never below zero, and to zero when it approves. */
  lemma DecisionLowersOutstanding(wf: Workflow, req: Request, k: nat, user: UserId, held: seq<string>, vote: Vote)
    requires Ordered(wf.steps) && Stands(wf, req, k)
    requires Refusal(Some(wf), req, user, held).None?
    ensures var after := Decided(Some(wf), req, user, held, vote);
            && Outstanding(wf, after) == Outstanding(wf, req) - 1 >= 0
            && (after.status == Pending ==> Outstanding(wf, after) > 0)
            && (after.status == Approved ==> Outstanding(wf, after) == 0)
  {
    var after := Decided(Some(wf), req, user, held, vote);
    DecisionKeepsProgress(wf, req, k, user, held, vote);
    OutstandingMeasuresProgress(wf, after, NextIndex(req, k, after));
  }

  /**
   * The promise of the engine: each applicable step has exactly its number of
   * distinct approvers, every decision is an approval by someone eligible on an
   * applicable step, and there are no other decisions.
   */
  ghost predicate Cleared(wf: Workflow, req: Request) {
    var steps := ApplicableSteps(wf.steps, req.amount);
    && (forall j :: 0 <= j < |steps| ==> |ApproversOf(req.decisions, steps[j].stepOrder)| == Need(steps[j]))
    && (forall i :: 0 <= i < |req.decisions| ==> req.decisions[i].vote == Approve)
    && AllOnOneOf(steps, req.createdBy, req.decisions)
    && |req.decisions| == TotalNeed(steps)
    && (wf.enforceDistinctApprovers ==> |AllApprovers(req.decisions)| == TotalNeed(steps))
  }

  lemma ApprovedIsCleared(wf: Workflow, req: Request, k: nat)
    requires Ordered(wf.steps) && Stands(wf, req, k) && req.status == Approved
    ensures Cleared(wf, req)
  {
    var steps := ApplicableSteps(wf.steps, req.amount);
    ApplicableStepsOrdered(wf.steps, req.amount);
    StepTallies(steps, wf.enforceDistinctApprovers, req, k);
    OutstandingMeasuresProgress(wf, req, k);
    NoRejections(steps, wf.enforceDistinctApprovers, req, k);
    forall j | 0 <= j < |steps|
      ensures |ApproversOf(req.decisions, steps[j].stepOrder)| == Need(steps[j])
    {
      TallyCountsPeople(req.decisions, steps[j].stepOrder);
    }
    if wf.enforceDistinctApprovers {
      DistinctCountsPeople(req.decisions);
    }
  }

  // ---------------------------------------------------------------------------
  // What clearing takes
  // ---------------------------------------------------------------------------

  /** A decision noted on a pending request can complete the clearing only at the last step. */
  lemma ClearedNeedsTheLastStep(steps: seq<Step>, distinct: bool, req: Request, k: nat, d: Decision)
    requires Ordered(steps) && StandsOn(steps, distinct, req, k) && d.stepOrder == req.currentStep
    requires forall j :: 0 <= j < |steps| ==> ApproversOf(req.decisions + [d], steps[j].stepOrder) != {}
    ensures k == |steps| - 1
  {
    var ds := req.decisions + [d];
    DecisionsReachOnlyTheCursor(steps, distinct, req, k);
    var user :| user in ApproversOf(ds, steps[|steps| - 1].stepOrder);
    var e :| e in ds && e.stepOrder == steps[|steps| - 1].stepOrder;
    assert e.stepOrder <= steps[k].stepOrder;
  }

  /** With distinct orders, a decision is on one of the steps only if it fits the step of its order. */
  lemma ClearedNeedsEligibility(steps: seq<Step>, req: Request, k: nat, d: Decision)
    requires Ordered(steps) && k < |steps| && steps[k].stepOrder == d.stepOrder
    requires AllOnOneOf(steps, req.createdBy, req.decisions + [d])
    ensures Eligible(steps[k], req.createdBy, d)
  {
    var ds := req.decisions + [d];
    assert OnOneOf(steps, req.createdBy, ds[|req.decisions|]);
  }

  lemma {:induction false} AtMostOnePersonEach(ds: seq<Decision>)
    ensures |AllApprovers(ds)| <= |ds|
  {
    if ds == [] {
      assert AllApprovers(ds) == {};
    } else {
      AtMostOnePersonEach(ds[..|ds| - 1]);
      AllApproversSnoc(ds[..|ds| - 1], ds[|ds| - 1]);
      assert ds == ds[..|ds| - 1] + [ds[|ds| - 1]];
    }
  }

  lemma AllApproversSnoc(ds: seq<Decision>, d: Decision)
    ensures AllApprovers(ds + [d]) == AllApprovers(ds) + {d.approver}
    ensures |AllApprovers(ds + [d])| == |AllApprovers(ds)| + if d.approver in AllApprovers(ds) then 0 else 1
  {
    assert forall e :: e in ds + [d] <==> e in ds || e == d;
    assert AllApprovers(ds + [d]) == AllApprovers(ds) + {d.approver};
    if d.approver in AllApprovers(ds) {
      assert AllApprovers(ds) + {d.approver} == AllApprovers(ds);
    }
  }

  /** As many people as decisions: the last decision brought a new person. */
  lemma NewAmongDistinct(ds: seq<Decision>, d: Decision)
    requires |AllApprovers(ds + [d])| == |ds + [d]|
    ensures forall i :: 0 <= i < |ds| ==> ds[i].approver != d.approver
  {
    AllApproversSnoc(ds, d);
    AtMostOnePersonEach(ds);
    assert forall i :: 0 <= i < |ds| ==> ds[i] in ds;
  }

  /** Whoever's decision clears the steps stands at the last one, fits it, and is new where people must differ. */
  ghost predicate ByTheRules(steps: seq<Step>, distinct: bool, req: Request, k: nat, d: Decision) {
    && k < |steps| && k == |steps| - 1
    && Eligible(steps[k], req.createdBy, d)
    && (distinct ==> forall i :: 0 <= i < |req.decisions| ==> req.decisions[i].approver != d.approver)
  }

  lemma ClearingGoesByTheRules(steps: seq<Step>, distinct: bool, req: Request, k: nat, d: Decision)
    requires Ordered(steps) && StandsOn(steps, distinct, req, k) && d.stepOrder == req.currentStep
    requires forall j :: 0 <= j < |steps| ==> |ApproversOf(req.decisions + [d], steps[j].stepOrder)| == Need(steps[j])
    requires AllOnOneOf(steps, req.createdBy, req.decisions + [d])
    requires distinct ==> |AllApprovers(req.decisions + [d])| == |req.decisions + [d]|
    ensures ByTheRules(steps, distinct, req, k, d)
  {
    forall j | 0 <= j < |steps|
      ensures ApproversOf(req.decisions + [d], steps[j].stepOrder) != {}
    {
      assert |ApproversOf(req.decisions + [d], steps[j].stepOrder)| > 0;
    }
    ClearedNeedsTheLastStep(steps, distinct, req, k, d);
    ClearedNeedsEligibility(steps, req, k, d);
    if distinct {
      NewAmongDistinct(req.decisions, d);
    }
  }

  /** One more approval clears the request only at the last step and within the workflow's rules. */
  lemma ClearingTakesTheRules(wf: Workflow, req: Request, k: nat, after: Request, user: UserId, held: seq<string>)
    requires Ordered(wf.steps) && Stands(wf, req, k) && req.status == Pending
    requires forall i :: 0 <= i < |req.decisions| && req.decisions[i].approver == user
               ==> req.decisions[i].stepOrder != req.currentStep
    requires after.decisions == req.decisions + [Decision(user, req.currentStep, Approve, held)]
    requires after.amount == req.amount && after.createdBy == req.createdBy && Cleared(wf, after)
    ensures k == |ApplicableSteps(wf.steps, req.amount)| - 1 && Refusal(Some(wf), req, user, held).None?
  {
    ApplicableStepsOrdered(wf.steps, req.amount);
    ClearingGoesByTheRules(ApplicableSteps(wf.steps, req.amount), wf.enforceDistinctApprovers, req, k,
                           Decision(user, req.currentStep, Approve, held));
    AcceptedIff(wf, req, k, user, held, Approve);
  }

  // ---------------------------------------------------------------------------
  // Back from a cleared request to where it came from
  // ---------------------------------------------------------------------------

  /** The request stands somewhere on the workflow. */
  ghost predicate OnTrack(wf: Workflow, req: Request) {
    exists k: nat :: Stands(wf, req, k)
  }

  /** What holds of every row, whatever became of its workflow: nobody decided twice, and nothing beyond the cursor. */
  ghost predicate RowOk(req: Request) {
    NoRepeat(req.decisions) && forall i :: 0 <= i < |req.decisions| ==> req.decisions[i].stepOrder <= req.currentStep
  }

  lemma {:induction false} FirstAfterIsNext(steps: seq<Step>, order: int)
    requires Ordered(steps) && StepsAfter(steps, order) != []
    ensures forall s :: s in steps && s.stepOrder > order ==> StepsAfter(steps, order)[0].stepOrder <= s.stepOrder
  {
    if steps[0].stepOrder <= order {
      FirstAfterIsNext(steps[1..], order);
    } else {
      forall s | s in steps
        ensures steps[0].stepOrder <= s.stepOrder
      {
        var i :| 0 <= i < |steps| && steps[i] == s;
      }
    }
  }

  lemma {:induction false} PeopleAreDistinct(ds: seq<Decision>)
    requires |AllApprovers(ds)| == |ds|
    ensures AllDistinct(ds)
  {
    if ds != [] {
      var init, last := ds[..|ds| - 1], ds[|ds| - 1];
      assert ds == init + [last];
      NewAmongDistinct(init, last);
      AllApproversSnoc(init, last);
      AtMostOnePersonEach(init);
      PeopleAreDistinct(init);
    }
  }

  /** Before an approval that left the cursor where it was. */
  lemma StoodHere(steps: seq<Step>, distinct: bool, req: Request, after: Request, d: Decision, k: nat)
    requires Ordered(steps) && req.status == Pending && d.stepOrder == req.currentStep && d.vote == Approve
    requires StandsOn(steps, distinct, after, k) && after.status != Rejected
    requires after.decisions == req.decisions + [d]
    requires after.currentStep == req.currentStep && after.createdBy == req.createdBy
    ensures StandsOn(steps, distinct, req, k)
  {
    var ds := req.decisions;
    assert forall i :: 0 <= i < |ds| ==> after.decisions[i] == ds[i];
    TallySnoc(ds, d, req.currentStep, Approve);
    TallySnoc(ds, d, req.currentStep, Reject);
    forall j | 0 <= j < k
      ensures Tally(ds, steps[j].stepOrder, Approve) == Need(steps[j])
    {
      TallySnoc(ds, d, steps[j].stepOrder, Approve);
    }
  }

  /** The cursor came to the k-th step from the one before it. */
  lemma CameFromTheStepBefore(steps: seq<Step>, distinct: bool, req: Request, after: Request, d: Decision, k: nat)
    requires Ordered(steps) && StandsOn(steps, distinct, after, k)
    requires d.stepOrder == req.currentStep && after.decisions == req.decisions + [d]
    requires StepsAfter(steps, req.currentStep) != []
    requires after.currentStep == StepsAfter(steps, req.currentStep)[0].stepOrder
    ensures k > 0 && steps[k - 1].stepOrder == req.currentStep
  {
    assert OnOneOf(steps[..k + 1], after.createdBy, after.decisions[|req.decisions|]);
    var j :| 0 <= j < k + 1 && steps[..k + 1][j].stepOrder == d.stepOrder;
    assert steps[j].stepOrder == req.currentStep;
    assert StepsAfter(steps, req.currentStep)[0] in StepsAfter(steps, req.currentStep);
    FirstAfterIsNext(steps, req.currentStep);
    assert steps[k - 1] in steps;
  }

  lemma EarlierRowsFit(steps: seq<Step>, distinct: bool, req: Request, after: Request, d: Decision, k: nat)
    requires Ordered(steps) && RowOk(req) && StandsOn(steps, distinct, after, k)
    requires after.decisions == req.decisions + [d] && after.createdBy == req.createdBy
    requires k > 0 && steps[k - 1].stepOrder == req.currentStep
    ensures AllOnOneOf(steps[..k], req.createdBy, req.decisions)
    ensures forall i :: 0 <= i < |req.decisions| ==> req.decisions[i].vote == Approve
  {
    forall i | 0 <= i < |req.decisions|
      ensures OnOneOf(steps[..k], req.createdBy, req.decisions[i]) && req.decisions[i].vote == Approve
    {
      var e := req.decisions[i];
      assert after.decisions[i] == e;
      assert OnOneOf(steps[..k + 1], req.createdBy, e);
      var j :| 0 <= j < k + 1 && steps[..k + 1][j].stepOrder == e.stepOrder && Eligible(steps[..k + 1][j], req.createdBy, e);
      assert e.stepOrder <= req.currentStep < steps[k].stepOrder;
      assert steps[..k][j] == steps[..k + 1][j];
    }
  }

  /** Before an approval that moved the cursor on. */
  lemma StoodBefore(steps: seq<Step>, distinct: bool, req: Request, after: Request, d: Decision, k: nat)
    requires Ordered(steps) && req.status == Pending && d.stepOrder == req.currentStep && d.vote == Approve && RowOk(req)
    requires StandsOn(steps, distinct, after, k) && after.status == Pending
    requires after.decisions == req.decisions + [d] && after.createdBy == req.createdBy
    requires StepsAfter(steps, req.currentStep) != []
    requires after.currentStep == StepsAfter(steps, req.currentStep)[0].stepOrder
    ensures k > 0 && StandsOn(steps, distinct, req, k - 1)
  {
    var ds := req.decisions;
    CameFromTheStepBefore(steps, distinct, req, after, d, k);
    EarlierRowsFit(steps, distinct, req, after, d, k);
    assert forall i :: 0 <= i < |ds| ==> after.decisions[i] == ds[i];
    TallySnoc(ds, d, req.currentStep, Approve);
    TallyPositive(ds, req.currentStep, Reject);
    forall j | 0 <= j < k - 1
      ensures Tally(ds, steps[j].stepOrder, Approve) == Need(steps[j])
    {
      TallySnoc(ds, d, steps[j].stepOrder, Approve);
    }
    assert forall i :: 0 <= i < |ds| ==> ds[i] in ds;
  }

  lemma NothingAfterMeansLast(steps: seq<Step>, creator: Option<UserId>, d: Decision)
    requires Ordered(steps) && OnOneOf(steps, creator, d) && StepsAfter(steps, d.stepOrder) == []
    ensures steps[|steps| - 1].stepOrder == d.stepOrder
  {
    assert steps[|steps| - 1] in steps;
  }

  lemma ClearedTallies(steps: seq<Step>, ds: seq<Decision>, order: int)
    requires NoRepeat(ds) && forall i :: 0 <= i < |ds| ==> ds[i].vote == Approve
    requires forall j :: 0 <= j < |steps| ==> |ApproversOf(ds, steps[j].stepOrder)| == Need(steps[j])
    ensures forall j :: 0 <= j < |steps| ==> Tally(ds, steps[j].stepOrder, Approve) == Need(steps[j])
    ensures Tally(ds, order, Reject) == 0
  {
    forall j | 0 <= j < |steps|
      ensures Tally(ds, steps[j].stepOrder, Approve) == Need(steps[j])
    {
      TallyCountsPeople(ds, steps[j].stepOrder);
    }
    TallyPositive(ds, order, Reject);
  }

  /** A request approved by its last decision and cleared stands at the last step. */
  lemma ClearedStands(wf: Workflow, after: Request, d: Decision)
    requires Ordered(wf.steps) && Cleared(wf, after) && after.status == Approved && NoRepeat(after.decisions)
    requires d in after.decisions && d.stepOrder == after.currentStep
    requires StepsAfter(ApplicableSteps(wf.steps, after.amount), after.currentStep) == []
    ensures Stands(wf, after, |ApplicableSteps(wf.steps, after.amount)| - 1)
  {
    var steps, ds := ApplicableSteps(wf.steps, after.amount), after.decisions;
    ApplicableStepsOrdered(wf.steps, after.amount);
    var i :| 0 <= i < |ds| && ds[i] == d;
    assert OnOneOf(steps, after.createdBy, ds[i]);
    NothingAfterMeansLast(steps, after.createdBy, d);
    ClearedTallies(steps, ds, after.currentStep);
    if wf.enforceDistinctApprovers {
      PeopleAreDistinct(ds);
    }
    assert steps[..|steps| - 1 + 1] == steps;
  }

  /** What recording the approval `d` made of the row, whatever head-count was asked for. */
  ghost predicate Follows(steps: seq<Step>, req: Request, after: Request, d: Decision) {
    && req.status == Pending && d.vote == Approve && d.stepOrder == req.currentStep
    && after.decisions == req.decisions + [d] && NoRepeat(after.decisions)
    && after.amount == req.amount && after.createdBy == req.createdBy
    && (after.status == Approved ==> after.currentStep == req.currentStep && StepsAfter(steps, req.currentStep) == [])
    && (after.status == Pending && after.currentStep != req.currentStep ==>
          StepsAfter(steps, req.currentStep) != [] && after.currentStep == StepsAfter(steps, req.currentStep)[0].stepOrder)
  }

  lemma AcceptedKeepsNoRepeat(wf: Option<Workflow>, req: Request, user: UserId, held: seq<string>, vote: Vote)
    requires NoRepeat(req.decisions) && Refusal(wf, req, user, held).None?
    ensures NoRepeat(req.decisions + [Decision(user, req.currentStep, vote, held)])
  {
    assert forall i :: 0 <= i < |req.decisions| ==> req.decisions[i] in req.decisions;
  }

  lemma ApprovalFollows(wf: Workflow, req: Request, user: UserId, held: seq<string>)
    requires NoRepeat(req.decisions) && Refusal(Some(wf), req, user, held).None?
    ensures Follows(ApplicableSteps(wf.steps, req.amount), req, Decided(Some(wf), req, user, held, Approve),
                    Decision(user, req.currentStep, Approve, held))
  {
    AcceptedKeepsNoRepeat(Some(wf), req, user, held, Approve);
  }

  lemma WasOnTrack(wf: Workflow, req: Request, after: Request, d: Decision)
    requires Ordered(wf.steps) && RowOk(req) && Follows(ApplicableSteps(wf.steps, req.amount), req, after, d)
    requires after.status == Pending && OnTrack(wf, after)
    ensures OnTrack(wf, req)
  {
    var steps, distinct := ApplicableSteps(wf.steps, req.amount), wf.enforceDistinctApprovers;
    ApplicableStepsOrdered(wf.steps, req.amount);
    var k: nat :| Stands(wf, after, k);
    if after.currentStep == req.currentStep {
      StoodHere(steps, distinct, req, after, d, k);
      assert Stands(wf, req, k);
    } else {
      StoodBefore(steps, distinct, req, after, d, k);
      assert Stands(wf, req, k - 1);
    }
  }

  lemma WasOnTrackWhenCleared(wf: Workflow, req: Request, after: Request, d: Decision)
    requires Ordered(wf.steps) && Follows(ApplicableSteps(wf.steps, req.amount), req, after, d)
    requires after.status == Approved && Cleared(wf, after)
    ensures OnTrack(wf, req)
  {
    var steps := ApplicableSteps(wf.steps, req.amount);
    ApplicableStepsOrdered(wf.steps, req.amount);
    assert after.decisions[|req.decisions|] == d;
    ClearedStands(wf, after, d);
    StoodHere(steps, wf.enforceDistinctApprovers, req, after, d, |steps| - 1);
    assert Stands(wf, req, |steps| - 1);
  }

  lemma StaysOnTrack(wf: Workflow, req: Request, user: UserId, held: seq<string>)
    requires Ordered(wf.steps) && Refusal(Some(wf), req, user, held).None? && OnTrack(wf, req)
    ensures var after := Decided(Some(wf), req, user, held, Approve);
            OnTrack(wf, after) && (after.status == Approved ==> Cleared(wf, after))
  {
    var k: nat :| Stands(wf, req, k);
    var after := Decided(Some(wf), req, user, held, Approve);
    DecisionKeepsProgress(wf, req, k, user, held, Approve);
    assert Stands(wf, after, NextIndex(req, k, after));
    if after.status == Approved {
      ApprovedIsCleared(wf, after, NextIndex(req, k, after));
    }
  }

  /**
   * An accepted approval, under any workflow and from any row: if the request stays
   * pending it is on track exactly when it was before, and if it is approved it is
   * cleared exactly when it was on track before.
   */
  lemma ApprovalKeepsOnTrackIff(wf: Workflow, req: Request, user: UserId, held: seq<string>)
    requires Ordered(wf.steps) && RowOk(req) && Refusal(Some(wf), req, user, held).None?
    ensures var after := Decided(Some(wf), req, user, held, Approve);
            && (after.status == Pending ==> (OnTrack(wf, after) <==> OnTrack(wf, req)))
            && (after.status == Approved ==> (Cleared(wf, after) <==> OnTrack(wf, req)))
  {
    var after, d := Decided(Some(wf), req, user, held, Approve), Decision(user, req.currentStep, Approve, held);
    ApprovalFollows(wf, req, user, held);
    if OnTrack(wf, req) {
      StaysOnTrack(wf, req, user, held);
    }
    if after.status == Pending && OnTrack(wf, after) {
      WasOnTrack(wf, req, after, d);
    }
    if after.status == Approved && Cleared(wf, after) {
      WasOnTrackWhenCleared(wf, req, after, d);
    }
  }

  /** Some decision fits no step of the workflow, or someone decided twice where people must differ. */
  ghost predicate Spoiled(wf: Workflow, req: Request) {
    || !AllOnOneOf(ApplicableSteps(wf.steps, req.amount), req.createdBy, req.decisions)
    || (wf.enforceDistinctApprovers && !AllDistinct(req.decisions))
  }

  /** A row never recovers from that. */
  lemma SpoiledIsNeverCleared(wf: Workflow, before: Request, after: Request)
    requires Spoiled(wf, before) && before.decisions <= after.decisions
    requires after.amount == before.amount && after.createdBy == before.createdBy
    ensures !Cleared(wf, after)
  {
    assert forall i :: 0 <= i < |before.decisions| ==> after.decisions[i] == before.decisions[i];
    if Cleared(wf, after) && wf.enforceDistinctApprovers {
      PeopleAreDistinct(after.decisions);
    }
  }

  /** A decision by someone new to the step spoils the row if the workflow would have refused it. */
  lemma RefusedDecisionSpoils(wf: Workflow, req: Request, k: nat, after: Request, user: UserId, held: seq<string>, vote: Vote)
    requires Ordered(wf.steps) && Stands(wf, req, k) && req.status == Pending
    requires forall i :: 0 <= i < |req.decisions| && req.decisions[i].approver == user
               ==> req.decisions[i].stepOrder != req.currentStep
    requires after.decisions == req.decisions + [Decision(user, req.currentStep, vote, held)]
    requires after.amount == req.amount && after.createdBy == req.createdBy
    requires Refusal(Some(wf), req, user, held).Some?
    ensures Spoiled(wf, after)
  {
    var steps, d := ApplicableSteps(wf.steps, req.amount), Decision(user, req.currentStep, vote, held);
    ApplicableStepsOrdered(wf.steps, req.amount);
    AcceptedIff(wf, req, k, user, held, vote);
    if !Spoiled(wf, after) {
      ClearedNeedsEligibility(steps, req, k, d);
      if wf.enforceDistinctApprovers {
        forall i | 0 <= i < |req.decisions|
          ensures req.decisions[i].approver != user
        {
          assert after.decisions[i].approver != after.decisions[|req.decisions|].approver;
        }
      }
    }
  }
}
