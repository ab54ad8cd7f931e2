/**
 * The approval tables, every operation on them as one atomic step, and what holds
 * in every run of those steps.  A row's id is its position, so ids are fresh.
 */
module ApprovalStore {
  import opened Common
  import opened Approvals
  import opened ApprovalProgress

  datatype Event =
    | Requested(requestId: nat, stepOrder: int)
    | StepAdvanced(requestId: nat, stepOrder: int)
    | Resolved(requestId: nat, status: Status)

  /** A removed workflow leaves None behind: its id is never reused. */
  datatype Store = Store(workflows: seq<Option<Workflow>>, requests: seq<Request>, events: seq<Event>)

  function WorkflowAt(ws: seq<Option<Workflow>>, id: Option<nat>): Option<Workflow> {
    if id.Some? && id.value < |ws| then ws[id.value] else None
  }

  // ---------------------------------------------------------------------------
  // Selecting the workflow
  // ---------------------------------------------------------------------------

  predicate Candidate(ws: seq<Option<Workflow>>, id: nat, org: nat, entityType: string) {
    id < |ws| && ws[id].Some? && ws[id].value.org == org && ws[id].value.entityType == entityType && ws[id].value.isActive
  }

  function Candidates(ws: seq<Option<Workflow>>, org: nat, entityType: string): (r: seq<Listing>)
    ensures forall x :: x in r <==> Candidate(ws, x.id, org, entityType) && x.minAmount == ws[x.id].value.minAmount
  {
    if ws == [] then []
    else
      var last := |ws| - 1;
      var rest := Candidates(ws[..last], org, entityType);
      if Candidate(ws, last, org, entityType) then rest + [Listing(last, ws[last].value.minAmount)] else rest
  }

  /** The active workflow for the entity type and amount, most specific first. */
  function SelectWorkflow(ws: seq<Option<Workflow>>, org: nat, entityType: string, amount: real): Option<nat> {
    var hit := FirstClearing(ByThreshold(Candidates(ws, org, entityType)), amount);
    if hit.Some? then Some(hit.value.id) else None
  }

  /**
   * The selected workflow is an active one of the organisation and type with the
   * greatest threshold the amount clears (one without a threshold only when no
   * other clears), and nothing is selected exactly when nothing clears.
   */
  lemma SelectionIsMostSpecific(ws: seq<Option<Workflow>>, org: nat, entityType: string, amount: real)
    ensures match SelectWorkflow(ws, org, entityType, amount)
            case None =>
              forall id: nat :: Candidate(ws, id, org, entityType) ==> !Clears(ws[id].value.minAmount, amount)
            case Some(w) =>
              && Candidate(ws, w, org, entityType) && Clears(ws[w].value.minAmount, amount)
              && forall id: nat :: Candidate(ws, id, org, entityType) && Clears(ws[id].value.minAmount, amount)
                   ==> Above(ws[w].value.minAmount, ws[id].value.minAmount)
  {
    var rows := Candidates(ws, org, entityType);
    var listed := ByThreshold(rows);
    ByThresholdIsDescending(rows);
    FirstClearingIsGreatest(listed, amount);
    assert forall x :: x in listed <==> x in multiset(listed);
    assert forall x :: x in rows <==> x in multiset(rows);
    forall id: nat | Candidate(ws, id, org, entityType)
      ensures Listing(id, ws[id].value.minAmount) in listed
    {
      assert Listing(id, ws[id].value.minAmount) in rows;
    }
  }

  lemma SelectedIsStored(ws: seq<Option<Workflow>>, org: nat, entityType: string, amount: real)
    ensures var w := SelectWorkflow(ws, org, entityType, amount);
            w.Some? ==> Candidate(ws, w.value, org, entityType)
  {
    SelectionIsMostSpecific(ws, org, entityType, amount);
  }

  // ---------------------------------------------------------------------------
  // The service's operations
  // ---------------------------------------------------------------------------

  function OpenRequest(s: Store, t: Tenant, entityType: string, entityId: nat, amount: real): Option<Request> {
    var w := SelectWorkflow(s.workflows, t.org, entityType, amount);
    SelectedIsStored(s.workflows, t.org, entityType, amount);
    if w.None? then None
    else Opened(s.workflows[w.value].value, w.value, t, entityType, entityId, amount)
  }

  function AddRequest(s: Store, req: Request): Store {
    s.(requests := s.requests + [req], events := s.events + [Requested(|s.requests|, req.currentStep)])
  }

  function RequestApproval(s: Store, t: Tenant, entityType: string, entityId: nat, amount: real): Store {
    var req := OpenRequest(s, t, entityType, entityId, amount);
    if req.None? then s else AddRequest(s, req.value)
  }

  function DecisionEvents(id: nat, before: Request, after: Request): seq<Event> {
    (if after.currentStep != before.currentStep then [StepAdvanced(id, after.currentStep)] else [])
    + (if after.status != Pending then [Resolved(id, after.status)] else [])
  }

  function Decide(s: Store, t: Tenant, id: nat, vote: Vote): Result<Store, DecideError> {
    if t.user.None? then Err(NotAuthenticated)
    else if !(id < |s.requests| && s.requests[id].org == t.org) then Err(NotFound)
    else
      var req := s.requests[id];
      var wf := WorkflowAt(s.workflows, req.workflowId);
      var no := Refusal(wf, req, t.user.value, t.permissions);
      if no.Some? then Err(no.value)
      else
        var after := Decided(wf, req, t.user.value, t.permissions, vote);
        Ok(s.(requests := s.requests[id := after], events := s.events + DecisionEvents(id, req, after)))
  }

  predicate About(req: Request, org: nat, entityType: string, entityId: nat) {
    req.org == org && req.entityType == entityType && req.entityId == entityId
  }

  /** Pending or approved: the statuses the gate looks for. */
  predicate Live(req: Request) {
    req.status == Pending || req.status == Approved
  }

  function FindLive(reqs: seq<Request>, org: nat, entityType: string, entityId: nat): (r: Option<nat>)
    ensures r.Some? ==> r.value < |reqs| && About(reqs[r.value], org, entityType, entityId) && Live(reqs[r.value])
    ensures r.None? ==> forall i :: 0 <= i < |reqs| && About(reqs[i], org, entityType, entityId) ==> !Live(reqs[i])
  {
    if reqs == [] then None
    else
      var last := |reqs| - 1;
      var earlier := FindLive(reqs[..last], org, entityType, entityId);
      if earlier.Some? then earlier
      else if About(reqs[last], org, entityType, entityId) && Live(reqs[last]) then Some(last)
      else None
  }

  /** The steps of the workflow selected for the amount; none when no workflow is. */
  function SelectedSteps(s: Store, org: nat, entityType: string, amount: real): seq<Step> {
    var w := SelectWorkflow(s.workflows, org, entityType, amount);
    SelectedIsStored(s.workflows, org, entityType, amount);
    if w.Some? then s.workflows[w.value].value.steps else []
  }

  /** An override is born approved at the last applicable step, or at step 1 when none applies. */
  function OverrideRequest(s: Store, t: Tenant, entityType: string, entityId: nat, approver: UserId, amount: real): Request {
    var steps := ApplicableSteps(SelectedSteps(s, t.org, entityType, amount), amount);
    var last := if steps == [] then 1 else steps[|steps| - 1].stepOrder;
    Request(t.org, entityType, entityId, amount, SelectWorkflow(s.workflows, t.org, entityType, amount), [], last, 1,
            Approved, t.user, [Decision(approver, last, Approve, [])], ViaOverride)
  }

  ghost predicate IsLastApplicable(steps: seq<Step>, amount: real, order: int) {
    && (exists st :: st in steps && Applies(st, amount) && st.stepOrder == order)
    && (forall st :: st in steps && Applies(st, amount) ==> st.stepOrder <= order)
  }

  /** The manager's decision is all there is, and sits on the last applicable step, or on step 1 when none applies. */
  lemma OverrideSitsOnTheLastStep(s: Store, t: Tenant, entityType: string, entityId: nat, approver: UserId, amount: real)
    requires forall i :: 0 <= i < |s.workflows| && s.workflows[i].Some? ==> Ordered(s.workflows[i].value.steps)
    ensures var req := OverrideRequest(s, t, entityType, entityId, approver, amount);
            var steps := SelectedSteps(s, t.org, entityType, amount);
            && req.status == Approved && |req.decisions| == 1
            && req.decisions[0].approver == approver && req.decisions[0].vote == Approve
            && req.decisions[0].stepOrder == req.currentStep
            && (if exists st :: st in steps && Applies(st, amount) then IsLastApplicable(steps, amount, req.currentStep)
                else req.currentStep == 1)
  {
    var steps := SelectedSteps(s, t.org, entityType, amount);
    var applicable := ApplicableSteps(steps, amount);
    SelectedIsStored(s.workflows, t.org, entityType, amount);
    ApplicableStepsOrdered(steps, amount);
    if applicable != [] {
      var last := applicable[|applicable| - 1];
      assert last in applicable;
      forall st | st in applicable
        ensures st.stepOrder <= last.stepOrder
      {
        var i :| 0 <= i < |applicable| && applicable[i] == st;
      }
    }
  }

  function Override(s: Store, t: Tenant, entityType: string, entityId: nat, approver: UserId, amount: real): Store {
    s.(requests := s.requests + [OverrideRequest(s, t, entityType, entityId, approver, amount)])
  }

  /** The first pending request of an entity. */
  function FindPending(reqs: seq<Request>, org: nat, entityType: string, entityId: nat): (r: Option<nat>)
    ensures r.Some? ==> r.value < |reqs| && About(reqs[r.value], org, entityType, entityId) && reqs[r.value].status == Pending
    ensures r.None? ==> forall i :: 0 <= i < |reqs| && About(reqs[i], org, entityType, entityId) ==> reqs[i].status != Pending
  {
    if reqs == [] then None
    else
      var last := |reqs| - 1;
      var earlier := FindPending(reqs[..last], org, entityType, entityId);
      if earlier.Some? then earlier
      else if About(reqs[last], org, entityType, entityId) && reqs[last].status == Pending then Some(last)
      else None
  }

  /** Posting a vendor bill with override: a holder of the deciding permission approves its pending request outright. */
  function ForceApprove(s: Store, t: Tenant, billId: nat): Store {
    var r := FindPending(s.requests, t.org, "vendor_bill", billId);
    if r.None? || "approvals:decide" !in t.permissions then s
    else s.(requests := s.requests[r.value := s.requests[r.value].(status := Approved, origin := Forced)])
  }

  // ---------------------------------------------------------------------------
  // Editing workflows
  // ---------------------------------------------------------------------------

  ghost predicate DistinctOrders(steps: seq<Step>) {
    forall i, j :: 0 <= i < j < |steps| ==> steps[i].stepOrder != steps[j].stepOrder
  }

  /** The controller's check: at least one step and no repeated order. */
  predicate StepsAccepted(steps: seq<Step>)
    ensures StepsAccepted(steps) <==> steps != [] && DistinctOrders(steps)
  {
    steps != [] && forall i, j :: 0 <= i < j < |steps| ==> steps[i].stepOrder != steps[j].stepOrder
  }

  function InsertStep(x: Step, steps: seq<Step>): (r: seq<Step>)
    ensures multiset(r) == multiset(steps) + multiset{x}
  {
    if steps == [] then [x]
    else if x.stepOrder < steps[0].stepOrder then [x] + steps
    else
      assert steps == [steps[0]] + steps[1..];
      [steps[0]] + InsertStep(x, steps[1..])
  }

  /** The list as every query returns it. */
  function InOrder(steps: seq<Step>): (r: seq<Step>)
    ensures multiset(r) == multiset(steps)
  {
    if steps == [] then []
    else
      assert steps == [steps[0]] + steps[1..];
      InsertStep(steps[0], InOrder(steps[1..]))
  }

  ghost predicate AllAbove(order: int, steps: seq<Step>) {
    forall i :: 0 <= i < |steps| ==> order < steps[i].stepOrder
  }

  lemma PrependOrdered(x: Step, steps: seq<Step>)
    requires Ordered(steps) && AllAbove(x.stepOrder, steps)
    ensures Ordered([x] + steps)
  {
  }

  lemma {:induction false} InsertStepOrdered(x: Step, steps: seq<Step>, order: int)
    requires Ordered(steps) && forall i :: 0 <= i < |steps| ==> steps[i].stepOrder != x.stepOrder
    requires AllAbove(order, steps) && order < x.stepOrder
    ensures Ordered(InsertStep(x, steps)) && AllAbove(order, InsertStep(x, steps))
  {
    if steps == [] || x.stepOrder < steps[0].stepOrder {
      PrependOrdered(x, steps);
    } else {
      InsertStepOrdered(x, steps[1..], steps[0].stepOrder);
      PrependOrdered(steps[0], InsertStep(x, steps[1..]));
    }
  }

  lemma {:induction false} InOrderIsOrdered(steps: seq<Step>)
    requires DistinctOrders(steps)
    ensures Ordered(InOrder(steps))
  {
    if steps != [] {
      InOrderIsOrdered(steps[1..]);
      var rest := InOrder(steps[1..]);
      forall i | 0 <= i < |rest|
        ensures rest[i].stepOrder != steps[0].stepOrder
      {
        assert rest[i] in multiset(rest);
        var j :| 0 <= j < |steps[1..]| && steps[1..][j] == rest[i];
        assert steps[j + 1] == rest[i];
      }
      var lowest := if rest == [] || steps[0].stepOrder < rest[0].stepOrder then steps[0] else rest[0];
      InsertStepOrdered(steps[0], rest, lowest.stepOrder - 1);
    }
  }

  /** The optional fields of an update; an absent field is left as it is. */
  datatype WorkflowPatch = WorkflowPatch(
    entityType: Option<string>,
    minAmount: Option<Option<real>>,
    enforceDistinctApprovers: Option<bool>,
    isActive: Option<bool>,
    steps: Option<seq<Step>>)

  function OrElse<T>(o: Option<T>, d: T): T {
    if o.Some? then o.value else d
  }

  function Patched(w: Workflow, p: WorkflowPatch): Workflow {
    Workflow(w.org, OrElse(p.entityType, w.entityType), OrElse(p.minAmount, w.minAmount),
             OrElse(p.enforceDistinctApprovers, w.enforceDistinctApprovers), OrElse(p.isActive, w.isActive),
             if p.steps.Some? then InOrder(p.steps.value) else w.steps)
  }

  predicate Owned(s: Store, org: nat, id: nat) {
    id < |s.workflows| && s.workflows[id].Some? && s.workflows[id].value.org == org
  }

  function CreateWorkflow(s: Store, org: nat, w: Workflow): Store {
    if StepsAccepted(w.steps) then
      s.(workflows := s.workflows + [Some(w.(org := org, steps := InOrder(w.steps)))])
    else s
  }

  function UpdateWorkflow(s: Store, org: nat, id: nat, p: WorkflowPatch): Store {
    if Owned(s, org, id) && (p.steps.Some? ==> StepsAccepted(p.steps.value)) then
      s.(workflows := s.workflows[id := Some(Patched(s.workflows[id].value, p))])
    else s
  }

  /** Requests of a removed workflow keep their row; the reference becomes null. */
  function Detach(reqs: seq<Request>, id: nat): (r: seq<Request>)
    ensures |r| == |reqs|
    ensures forall i :: 0 <= i < |reqs| ==>
              r[i] == if reqs[i].workflowId == Some(id) then reqs[i].(workflowId := None) else reqs[i]
  {
    seq(|reqs|, i requires 0 <= i < |reqs| =>
      if reqs[i].workflowId == Some(id) then reqs[i].(workflowId := None) else reqs[i])
  }

  function RemoveWorkflow(s: Store, org: nat, id: nat): Store {
    if Owned(s, org, id) then
      s.(workflows := s.workflows[id := None], requests := Detach(s.requests, id))
    else s
  }

  // ---------------------------------------------------------------------------
  // Runs
  // ---------------------------------------------------------------------------

  datatype Action =
    | DoRequest(t: Tenant, entityType: string, entityId: nat, amount: real)
    | DoDecide(t: Tenant, requestId: nat, vote: Vote)
    | DoOverride(t: Tenant, entityType: string, entityId: nat, approver: UserId, amount: real)
    | DoForce(t: Tenant, billId: nat)
    | DoCreate(org: nat, workflow: Workflow)
    | DoUpdate(org: nat, id: nat, patch: WorkflowPatch)
    | DoRemove(org: nat, id: nat)

  /** One call, atomically; a refused call changes nothing. */
  function Apply(s: Store, a: Action): Store {
    match a
    case DoRequest(t, entityType, entityId, amount) => RequestApproval(s, t, entityType, entityId, amount)
    case DoDecide(t, id, vote) => (match Decide(s, t, id, vote) case Ok(s') => s' case Err(_) => s)
    case DoOverride(t, entityType, entityId, approver, amount) => Override(s, t, entityType, entityId, approver, amount)
    case DoForce(t, billId) => ForceApprove(s, t, billId)
    case DoCreate(org, w) => CreateWorkflow(s, org, w)
    case DoUpdate(org, id, p) => UpdateWorkflow(s, org, id, p)
    case DoRemove(org, id) => RemoveWorkflow(s, org, id)
  }

  function Run(s: Store, actions: seq<Action>): Store
    decreases |actions|
  {
    if actions == [] then s else Run(Apply(s, actions[0]), actions[1..])
  }

  const EMPTY := Store([], [], [])

  // --- Stored workflows are always ordered -----------------------------------

  ghost predicate WorkflowsOrdered(s: Store) {
    forall i :: 0 <= i < |s.workflows| && s.workflows[i].Some? ==> Ordered(s.workflows[i].value.steps)
  }

  lemma StepKeepsWorkflowsOrdered(s: Store, a: Action)
    requires WorkflowsOrdered(s)
    ensures WorkflowsOrdered(Apply(s, a))
  {
    match a
    case DoCreate(org, w) =>
      if StepsAccepted(w.steps) { InOrderIsOrdered(w.steps); }
    case DoUpdate(org, id, p) =>
      if p.steps.Some? && StepsAccepted(p.steps.value) { InOrderIsOrdered(p.steps.value); }
    case _ =>
  }

  lemma {:induction false} WorkflowsStayOrdered(s: Store, actions: seq<Action>)
    requires WorkflowsOrdered(s)
    ensures WorkflowsOrdered(Run(s, actions))
    decreases |actions|
  {
    if actions != [] {
      StepKeepsWorkflowsOrdered(s, actions[0]);
      WorkflowsStayOrdered(Apply(s, actions[0]), actions[1..]);
    }
  }

  // --- Requests on an unedited workflow --------------------------------------

  /** The action may replace the steps or the distinctness rule of workflow `id`, or remove it. */
  predicate Edits(a: Action, id: nat) {
    (a.DoUpdate? && a.id == id && (a.patch.steps.Some? || a.patch.enforceDistinctApprovers.Some?)) || (a.DoRemove? && a.id == id)
  }

  /** Workflow `id` reads the steps and the distinctness rule of `wf`; its other fields only steer selection. */
  ghost predicate Reads(s: Store, id: nat, wf: Workflow) {
    var w := WorkflowAt(s.workflows, Some(id));
    w.Some? && w.value.steps == wf.steps && w.value.enforceDistinctApprovers == wf.enforceDistinctApprovers
  }

  lemma StepKeepsReads(s: Store, a: Action, id: nat, wf: Workflow)
    requires Reads(s, id, wf) && !Edits(a, id)
    ensures Reads(Apply(s, a), id, wf)
  {
  }

  ghost predicate InProgress(wf: Workflow, req: Request) {
    exists k: nat :: Progress(wf, req, k)
  }

  /** The row as it was before it was forced, if it was. */
  function Unforced(req: Request): Request {
    if req.origin == Forced then req.(status := Pending, origin := ViaRequest) else req
  }

  /** The request was opened by requestApproval and obeys the invariant, up to being forced. */
  ghost predicate FollowsItsWorkflow(wf: Workflow, req: Request) {
    InProgress(wf, Unforced(req)) && (req.origin == Forced ==> req.status == Approved)
  }

  /** Overrides and forced requests are approved, so whatever is pending was opened by requestApproval and not forced. */
  ghost predicate OnlyOpenedWait(s: Store) {
    forall r :: 0 <= r < |s.requests| && s.requests[r].status == Pending ==> s.requests[r].origin == ViaRequest
  }

  /** Workflow `id` still reads `wf`, and every request opened on it obeys the invariant. */
  ghost predicate Tracked(s: Store, id: nat, wf: Workflow) {
    && Reads(s, id, wf)
    && OnlyOpenedWait(s)
    && forall r :: 0 <= r < |s.requests| && s.requests[r].workflowId == Some(id) && s.requests[r].origin != ViaOverride
         ==> FollowsItsWorkflow(wf, s.requests[r])
  }

  lemma RequestKeepsTracked(s: Store, t: Tenant, entityType: string, entityId: nat, amount: real, id: nat, wf: Workflow)
    requires Tracked(s, id, wf)
    ensures Tracked(RequestApproval(s, t, entityType, entityId, amount), id, wf)
  {
    var w := SelectWorkflow(s.workflows, t.org, entityType, amount);
    SelectedIsStored(s.workflows, t.org, entityType, amount);
    if w.Some? {
      OpenedProgress(s.workflows[w.value].value, w.value, t, entityType, entityId, amount);
      var req := OpenRequest(s, t, entityType, entityId, amount);
      if w.value == id && req.Some? {
        assert Progress(wf, req.value, 0);
      }
    }
  }

  lemma DecideKeepsTracked(s: Store, t: Tenant, r: nat, vote: Vote, id: nat, wf: Workflow)
    requires Ordered(wf.steps) && Tracked(s, id, wf)
    requires Decide(s, t, r, vote).Ok?
    ensures Tracked(Decide(s, t, r, vote).value, id, wf)
  {
    if s.requests[r].workflowId == Some(id) && s.requests[r].origin != ViaOverride {
      var w, req := s.workflows[id].value, s.requests[r];
      var k: nat :| Progress(wf, req, k);
      var after := Decided(Some(w), req, t.user.value, t.permissions, vote);
      DecisionKeepsProgress(w, req, k, t.user.value, t.permissions, vote);
      assert Progress(wf, after, NextIndex(req, k, after));
    }
  }

  lemma ForceKeepsTracked(s: Store, t: Tenant, billId: nat, id: nat, wf: Workflow)
    requires Tracked(s, id, wf)
    ensures Tracked(ForceApprove(s, t, billId), id, wf)
  {
    var r := FindPending(s.requests, t.org, "vendor_bill", billId);
    if r.Some? {
      var req := s.requests[r.value];
      assert Unforced(req.(status := Approved, origin := Forced)) == req == Unforced(req);
    }
  }

  lemma StepKeepsTracked(s: Store, a: Action, id: nat, wf: Workflow)
    requires Ordered(wf.steps) && Tracked(s, id, wf) && !Edits(a, id)
    ensures Tracked(Apply(s, a), id, wf)
  {
    StepKeepsReads(s, a, id, wf);
    match a
    case DoRequest(t, entityType, entityId, amount) => RequestKeepsTracked(s, t, entityType, entityId, amount, id, wf);
    case DoDecide(t, r, vote) => if Decide(s, t, r, vote).Ok? { DecideKeepsTracked(s, t, r, vote, id, wf); }
    case DoForce(t, billId) => ForceKeepsTracked(s, t, billId, id, wf);
    case _ =>
  }

  lemma {:induction false} RunKeepsTracked(s: Store, actions: seq<Action>, id: nat, wf: Workflow)
    requires Ordered(wf.steps) && Tracked(s, id, wf)
    requires forall a :: a in actions ==> !Edits(a, id)
    ensures Tracked(Run(s, actions), id, wf)
    decreases |actions|
  {
    if actions != [] {
      StepKeepsTracked(s, actions[0], id, wf);
      RunKeepsTracked(Apply(s, actions[0]), actions[1..], id, wf);
    }
  }

  /** A stored workflow nobody has opened a request on yet. */
  ghost predicate Unused(s: Store, id: nat) {
    && WorkflowsOrdered(s)
    && WorkflowAt(s.workflows, Some(id)).Some?
    && OnlyOpenedWait(s)
    && forall r :: 0 <= r < |s.requests| ==> s.requests[r].workflowId != Some(id)
  }

  /**
   * In every run that leaves the steps and the distinctness rule of workflow `id`
   * alone, whatever else is changed, a request opened on it and approved has been
   * cleared by exactly the right people if and only if it was not forced, and none
   * has taken more decisions than its applicable steps ask for.
   */
  lemma ApprovedRequestsAreCleared(s: Store, actions: seq<Action>, id: nat, r: nat)
    requires Unused(s, id)
    requires forall a :: a in actions ==> !Edits(a, id)
    requires r < |Run(s, actions).requests|
    requires Run(s, actions).requests[r].workflowId == Some(id) && Run(s, actions).requests[r].origin != ViaOverride
    ensures var wf := s.workflows[id].value;
            var req := Run(s, actions).requests[r];
            && (req.status == Approved ==> (Cleared(wf, req) <==> req.origin != Forced))
            && (req.status == Pending ==> Outstanding(wf, req) > 0)
            && |req.decisions| <= TotalNeed(ApplicableSteps(wf.steps, req.amount))
            && req.status != Cancelled
  {
    var wf := s.workflows[id].value;
    RunKeepsTracked(s, actions, id, wf);
    var req := Run(s, actions).requests[r];
    var k: nat :| Progress(wf, Unforced(req), k);
    OutstandingMeasuresProgress(wf, Unforced(req), k);
    if req.status == Approved && req.origin != Forced {
      ApprovedIsCleared(wf, req, k);
    }
  }

  // --- What holds even when workflows are edited mid-flight -------------------

  /** How a request row may evolve, whatever happens to its workflow. */
  ghost predicate Evolves(before: Request, after: Request) {
    && before.currentStep <= after.currentStep
    && before.decisions <= after.decisions
    && (before.status != Pending ==>
          after.status == before.status && after.currentStep == before.currentStep && after.decisions == before.decisions)
    && (NoRepeat(before.decisions) ==> NoRepeat(after.decisions))
    && before.org == after.org && before.entityType == after.entityType && before.entityId == after.entityId
    && before.amount == after.amount && before.createdBy == after.createdBy
    && (after.origin == before.origin || (before.status == Pending && after.status == Approved && after.origin == Forced))
  }

  lemma SettlingEvolves(steps: seq<Step>, req: Request, required: int)
    requires req.status == Pending
    ensures Evolves(req, Settle(steps, req, required))
    ensures Settle(steps, req, required).decisions == req.decisions
  {
    var remaining := StepsAfter(steps, req.currentStep);
    assert remaining != [] ==> remaining[0] in remaining;
  }

  lemma DecisionEvolves(wf: Option<Workflow>, req: Request, user: UserId, held: seq<string>, vote: Vote)
    requires Refusal(wf, req, user, held).None?
    ensures Evolves(req, Decided(wf, req, user, held, vote))
  {
    var d := Decision(user, req.currentStep, vote, held);
    forall i | 0 <= i < |req.decisions|
      ensures req.decisions[i].approver != user || req.decisions[i].stepOrder != req.currentStep
    {
      assert req.decisions[i] in req.decisions;
    }
    SettlingEvolves(StepsFor(wf, req.amount), req.(decisions := req.decisions + [d]), ActiveConfig(wf, req).requiredCount);
  }

  lemma StepEvolves(s: Store, a: Action, r: nat)
    requires r < |s.requests|
    ensures r < |Apply(s, a).requests| && Evolves(s.requests[r], Apply(s, a).requests[r])
  {
    if a.DoDecide? && Decide(s, a.t, a.requestId, a.vote).Ok? && a.requestId == r {
      var wf := WorkflowAt(s.workflows, s.requests[r].workflowId);
      DecisionEvolves(wf, s.requests[r], a.t.user.value, a.t.permissions, a.vote);
    }
  }

  /**
   * Whatever calls and edits follow, a request's cursor never moves back, a
   * resolved request never changes again, its decisions are only appended to, and
   * no user decides the same step twice.
   */
  lemma {:induction false} RequestsOnlyMoveForward(s: Store, actions: seq<Action>, r: nat)
    requires r < |s.requests|
    ensures r < |Run(s, actions).requests| && Evolves(s.requests[r], Run(s, actions).requests[r])
    decreases |actions|
  {
    if actions != [] {
      StepEvolves(s, actions[0], r);
      RequestsOnlyMoveForward(Apply(s, actions[0]), actions[1..], r);
    }
  }

  // --- Why clearing needs an unedited workflow ---------------------------------

  /** The row once its workflow is gone. */
  function Orphan(req: Request): Request {
    req.(workflowId := None)
  }

  /**
   * Removing the workflow leaves its pending requests one implicit step without
   * permissions: an approval completes the request exactly when its author is new
   * to the current step and the head-count noted on the row is then reached,
   * whatever steps and permissions were still to come.
   */
  lemma RemovalDropsTheRemainingSteps(s: Store, org: nat, id: nat, r: nat, user: UserId, held: seq<string>)
    requires Owned(s, org, id) && r < |s.requests|
    requires s.requests[r].workflowId == Some(id) && s.requests[r].status == Pending && s.requests[r].policyPermissions == []
    requires Tally(s.requests[r].decisions, s.requests[r].currentStep, Reject) == 0
    ensures var req := s.requests[r];
            var o := Decide(RemoveWorkflow(s, org, id), Tenant(req.org, Some(user), held), r, Approve);
            (o.Ok? && o.value.requests[r].status == Approved)
            <==> !DecidedAt(req.decisions, user, req.currentStep)
                 && Tally(req.decisions, req.currentStep, Approve) + 1 >= req.requiredCount
  {
    var req := s.requests[r];
    var d := Decision(user, req.currentStep, Approve, held);
    TallySnoc(req.decisions, d, req.currentStep, Approve);
    TallySnoc(req.decisions, d, req.currentStep, Reject);
  }

  lemma OpenToNewcomers(req: Request, user: UserId, held: seq<string>)
    requires Refusal(None, req, user, held).None?
    ensures forall i :: 0 <= i < |req.decisions| && req.decisions[i].approver == user
              ==> req.decisions[i].stepOrder != req.currentStep
  {
    assert forall i :: 0 <= i < |req.decisions| ==> req.decisions[i] in req.decisions;
  }

  /** At the last step, the removed workflow would have settled the request the same way. */
  lemma LastStepCompletes(wf: Workflow, req: Request, k: nat, user: UserId, held: seq<string>)
    requires Ordered(wf.steps) && Progress(wf, req, k) && k == |ApplicableSteps(wf.steps, req.amount)| - 1
    requires Refusal(Some(wf), req, user, held).None?
    requires Decided(None, Orphan(req), user, held, Approve).status == Approved
    ensures Cleared(wf, Decided(None, Orphan(req), user, held, Approve))
  {
    var steps := ApplicableSteps(wf.steps, req.amount);
    var kept := Decided(Some(wf), req, user, held, Approve);
    AcceptedRowFits(wf, req, k, user, held, Approve);
    ApplicableStepsOrdered(wf.steps, req.amount);
    StepsAfterIsTail(steps, k);
    DecisionKeepsProgress(wf, req, k, user, held, Approve);
    assert kept.status == Approved && kept.decisions == Decided(None, Orphan(req), user, held, Approve).decisions;
    ApprovedIsCleared(wf, kept, k);
  }

  /**
   * An approval that completes such a request meets the promise of the removed
   * workflow exactly when the cursor stood at the last applicable step and the
   * removed rules would have let its author decide it.
   */
  lemma RemovedWorkflowIsClearedIff(wf: Workflow, req: Request, k: nat, user: UserId, held: seq<string>)
    requires Ordered(wf.steps) && Progress(wf, req, k) && req.status == Pending
    requires Refusal(None, Orphan(req), user, held).None?
    requires Decided(None, Orphan(req), user, held, Approve).status == Approved
    ensures var steps := ApplicableSteps(wf.steps, req.amount);
            Cleared(wf, Decided(None, Orphan(req), user, held, Approve))
            <==> k == |steps| - 1 && Refusal(Some(wf), req, user, held).None?
  {
    if k == |ApplicableSteps(wf.steps, req.amount)| - 1 && Refusal(Some(wf), req, user, held).None? {
      LastStepCompletes(wf, req, k, user, held);
    }
    if Cleared(wf, Decided(None, Orphan(req), user, held, Approve)) {
      SettlingEvolves([], Orphan(req).(decisions := req.decisions + [Decision(user, req.currentStep, Approve, held)]), req.requiredCount);
      OpenToNewcomers(Orphan(req), user, held);
      ClearingTakesTheRules(wf, req, k, Decided(None, Orphan(req), user, held, Approve), user, held);
    }
  }

  // --- Steps replaced mid-flight ----------------------------------------------

  ghost predicate RowsOk(s: Store) {
    forall r :: 0 <= r < |s.requests| ==> RowOk(s.requests[r])
  }

  lemma DecisionKeepsRowOk(wf: Option<Workflow>, req: Request, user: UserId, held: seq<string>, vote: Vote)
    requires RowOk(req) && Refusal(wf, req, user, held).None?
    ensures RowOk(Decided(wf, req, user, held, vote))
  {
    DecisionEvolves(wf, req, user, held, vote);
  }

  lemma StepKeepsRowsOk(s: Store, a: Action)
    requires RowsOk(s)
    ensures RowsOk(Apply(s, a))
  {
    if a.DoDecide? && Decide(s, a.t, a.requestId, a.vote).Ok? {
      var req := s.requests[a.requestId];
      DecisionKeepsRowOk(WorkflowAt(s.workflows, req.workflowId), req, a.t.user.value, a.t.permissions, a.vote);
    }
  }

  /** In every run from empty tables, nobody has decided a step twice or ahead of the cursor. */
  lemma {:induction false} RowsStayOk(s: Store, actions: seq<Action>)
    requires RowsOk(s)
    ensures RowsOk(Run(s, actions))
    decreases |actions|
  {
    if actions != [] {
      StepKeepsRowsOk(s, actions[0]);
      RowsStayOk(Apply(s, actions[0]), actions[1..]);
    }
  }

  lemma RejectionRejects(s: Store, t: Tenant, r: nat)
    requires Decide(s, t, r, Reject).Ok?
    ensures Decide(s, t, r, Reject).value.requests[r].status == Rejected
  {
    var req := s.requests[r];
    TallySnoc(req.decisions, Decision(t.user.value, req.currentStep, Reject, t.permissions), req.currentStep, Reject);
  }

  /** Deciding under the stored workflow is deciding under `wf`. */
  lemma SameRulesDecideAlike(w: Workflow, wf: Workflow, req: Request, user: UserId, held: seq<string>, vote: Vote)
    requires w.steps == wf.steps && w.enforceDistinctApprovers == wf.enforceDistinctApprovers
    ensures Refusal(Some(w), req, user, held) == Refusal(Some(wf), req, user, held)
    ensures Decided(Some(w), req, user, held, vote) == Decided(Some(wf), req, user, held, vote)
  {
  }

  /** What an accepted approval of request `r` does to the claim. */
  lemma ApprovalStep(s: Store, t: Tenant, r: nat, id: nat, wf: Workflow)
    requires Ordered(wf.steps) && Reads(s, id, wf) && Decide(s, t, r, Approve).Ok?
    requires s.requests[r].workflowId == Some(id) && RowOk(s.requests[r])
    ensures var after := Decide(s, t, r, Approve).value.requests[r];
            && (after.status == Pending ==> (OnTrack(wf, after) <==> OnTrack(wf, s.requests[r])))
            && (after.status == Approved ==> (Cleared(wf, after) <==> OnTrack(wf, s.requests[r])))
  {
    var req := s.requests[r];
    SameRulesDecideAlike(s.workflows[id].value, wf, req, t.user.value, t.permissions, Approve);
    ApprovalKeepsOnTrackIff(wf, req, t.user.value, t.permissions);
  }

  /** Any step, for a request that ends up approved: it is on track, or finally cleared, exactly when it was on track before. */
  lemma StepKeepsClaim(s: Store, a: Action, r: nat, id: nat, wf: Workflow)
    requires Ordered(wf.steps) && Reads(s, id, wf) && !Edits(a, id) && RowsOk(s)
    requires r < |s.requests| && s.requests[r].workflowId == Some(id) && s.requests[r].status == Pending
    ensures r < |Apply(s, a).requests| && Apply(s, a).requests[r].workflowId == Some(id)
    ensures var after := Apply(s, a).requests[r];
            && (after.status == Pending ==> (OnTrack(wf, after) <==> OnTrack(wf, s.requests[r])))
            && (after.status == Approved && after.origin != Forced ==> (Cleared(wf, after) <==> OnTrack(wf, s.requests[r])))
  {
    if a.DoDecide? && a.requestId == r && Decide(s, a.t, r, a.vote).Ok? {
      if a.vote == Reject {
        RejectionRejects(s, a.t, r);
      } else {
        ApprovalStep(s, a.t, r, id, wf);
      }
    }
  }

  predicate ApprovedByDecisions(req: Request) {
    req.status == Approved && req.origin != Forced
  }

  lemma ClearedIsInTheRow(wf: Workflow, a: Request, b: Request)
    requires a.decisions == b.decisions && a.amount == b.amount && a.createdBy == b.createdBy
    ensures Cleared(wf, a) <==> Cleared(wf, b)
  {
  }

  /** From any state on, while the workflow reads `wf`, a pending request that ends approved by decisions is cleared exactly when it was on track. */
  lemma {:induction false} HonouredIffOnTrack(s: Store, actions: seq<Action>, r: nat, id: nat, wf: Workflow)
    requires Ordered(wf.steps) && Reads(s, id, wf) && RowsOk(s)
    requires forall a :: a in actions ==> !Edits(a, id)
    requires r < |s.requests| && s.requests[r].workflowId == Some(id) && s.requests[r].status == Pending
    requires r < |Run(s, actions).requests| && ApprovedByDecisions(Run(s, actions).requests[r])
    ensures Cleared(wf, Run(s, actions).requests[r]) <==> OnTrack(wf, s.requests[r])
    decreases |actions|
  {
    if actions != [] {
      var s', rest := Apply(s, actions[0]), actions[1..];
      StepKeepsReads(s, actions[0], id, wf);
      StepKeepsRowsOk(s, actions[0]);
      StepKeepsClaim(s, actions[0], r, id, wf);
      if s'.requests[r].status == Pending {
        HonouredIffOnTrack(s', rest, r, id, wf);
      } else {
        RequestsOnlyMoveForward(s', rest, r);
        ClearedIsInTheRow(wf, s'.requests[r], Run(s', rest).requests[r]);
      }
    }
  }

  lemma UpdatedRequestIsHonouredIff(s: Store, org: nat, id: nat, patch: WorkflowPatch, actions: seq<Action>, r: nat)
    requires WorkflowsOrdered(s) && RowsOk(s) && Owned(s, org, id)
    requires forall a :: a in actions ==> !Edits(a, id)
    requires r < |s.requests| && s.requests[r].workflowId == Some(id) && s.requests[r].status == Pending
    requires var end := Run(UpdateWorkflow(s, org, id, patch), actions).requests;
             r < |end| && ApprovedByDecisions(end[r])
    ensures var updated := UpdateWorkflow(s, org, id, patch);
            Cleared(updated.workflows[id].value, Run(updated, actions).requests[r])
            <==> OnTrack(updated.workflows[id].value, s.requests[r])
  {
    var updated := UpdateWorkflow(s, org, id, patch);
    StepKeepsWorkflowsOrdered(s, DoUpdate(org, id, patch));
    HonouredIffOnTrack(updated, actions, r, id, updated.workflows[id].value);
  }

  /**
   * The exact condition for an update, after any run from empty tables: a request
   * pending while its workflow is changed, and approved by decisions later, meets
   * the promise of the changed workflow exactly when it already stood on one of its
   * applicable steps at the change.
   */
  lemma UpdateIsHonouredIffOnTrack(history: seq<Action>, s: Store, org: nat, id: nat, patch: WorkflowPatch, actions: seq<Action>, r: nat)
    requires s == Run(EMPTY, history) && Owned(s, org, id)
    requires forall a :: a in actions ==> !Edits(a, id)
    requires r < |s.requests| && s.requests[r].workflowId == Some(id) && s.requests[r].status == Pending
    requires var end := Run(UpdateWorkflow(s, org, id, patch), actions).requests;
             r < |end| && ApprovedByDecisions(end[r])
    ensures var updated := UpdateWorkflow(s, org, id, patch);
            Cleared(updated.workflows[id].value, Run(updated, actions).requests[r])
            <==> OnTrack(updated.workflows[id].value, s.requests[r])
  {
    WorkflowsStayOrdered(EMPTY, history);
    RowsStayOk(EMPTY, history);
    UpdatedRequestIsHonouredIff(s, org, id, patch, actions, r);
  }

  /** Where the current step is gone from the list, nobody's permission is asked, not even the creator is refused. */
  lemma MissingStepAsksNobody(wf: Workflow, req: Request, user: UserId, held: seq<string>)
    requires req.status == Pending && FindStep(wf.steps, req.currentStep).None?
    ensures Refusal(Some(wf), req, user, held).None?
            <==> !DecidedAt(req.decisions, user, req.currentStep)
                 && !(wf.enforceDistinctApprovers && DecidedBefore(req.decisions, user, req.currentStep))
    ensures !OnTrack(wf, req)
  {
    var steps := ApplicableSteps(wf.steps, req.amount);
    forall k: nat
      ensures !Stands(wf, req, k)
    {
      if k < |steps| {
        assert steps[k] in steps;
      }
    }
  }

  const ONE_STEP := Workflow(0, "expense", None, false, true, [Step(1, 1, ["approve"], None, None)])
  const ZERO := Step(0, 1, ["approve"], None, None)
  const WAITING := Request(0, "expense", 0, 10.0, Some(0), [], 1, 1, Pending, Some(7), [], ViaRequest)
  const BEFORE := Store([Some(ONE_STEP)], [WAITING], [])
  const CREATOR := Tenant(0, Some(7), [])

  lemma ReplacedByStepZero()
    ensures UpdateWorkflow(BEFORE, 0, 0, WorkflowPatch(None, None, None, None, Some([ZERO])))
         == BEFORE.(workflows := [Some(ONE_STEP.(steps := [ZERO]))])
  {
    assert InOrder([ZERO]) == [ZERO];
  }

  lemma CreatorCompletesAlone()
    ensures var wf := ONE_STEP.(steps := [ZERO]);
            var after := Decided(Some(wf), WAITING, 7, [], Approve);
            && Refusal(Some(wf), WAITING, 7, []).None?
            && after.status == Approved && ApproversOf(after.decisions, 0) == {} && !Cleared(wf, after)
  {
    var wf := ONE_STEP.(steps := [ZERO]);
    var d := Decision(7, 1, Approve, []);
    MissingStepAsksNobody(wf, WAITING, 7, []);
    TallySnoc([], d, 1, Approve);
    TallySnoc([], d, 1, Reject);
    assert [] + [d] == [d];
    assert StepsAfter(ApplicableSteps(wf.steps, 10.0), 1) == [];
    ApprovalKeepsOnTrackIff(wf, WAITING, 7, []);
  }

  /**
   * Replacing the steps can let the creator's own approval, which was refused
   * before, complete the request, with the only step of the new list never decided.
   */
  lemma ReplacingStepsCanSkipThemAll()
    ensures var updated := UpdateWorkflow(BEFORE, 0, 0, WorkflowPatch(None, None, None, None, Some([ZERO])));
            && Decide(BEFORE, CREATOR, 0, Approve).Err?
            && Decide(updated, CREATOR, 0, Approve).Ok?
            && var end := Decide(updated, CREATOR, 0, Approve).value.requests[0];
               && end.status == Approved && ApproversOf(end.decisions, 0) == {}
               && !Cleared(updated.workflows[0].value, end)
  {
    ReplacedByStepZero();
    CreatorCompletesAlone();
  }

  // --- Removal over whole runs -------------------------------------------------

  /** If the step decides request `r`, the removed workflow would have let it. */
  ghost predicate Admitted(s: Store, a: Action, r: nat, wf: Workflow) {
    a.DoDecide? && a.requestId == r && Decide(s, a.t, r, a.vote).Ok? ==>
      Refusal(Some(wf), s.requests[r], a.t.user.value, a.t.permissions).None?
  }

  ghost predicate AllAdmitted(s: Store, actions: seq<Action>, r: nat, wf: Workflow)
    decreases |actions|
  {
    actions != [] ==> Admitted(s, actions[0], r, wf) && AllAdmitted(Apply(s, actions[0]), actions[1..], r, wf)
  }

  /** A resolved request takes no more decisions, so none is inadmissible. */
  lemma {:induction false} ResolvedIsAdmitted(s: Store, actions: seq<Action>, r: nat, wf: Workflow)
    requires r < |s.requests| && s.requests[r].status != Pending
    ensures AllAdmitted(s, actions, r, wf)
    decreases |actions|
  {
    if actions != [] {
      StepEvolves(s, actions[0], r);
      ResolvedIsAdmitted(Apply(s, actions[0]), actions[1..], r, wf);
    }
  }

  /** An admitted approval that does not complete the orphan leaves it standing where it stood. */
  lemma OrphanKeepsStanding(wf: Workflow, req: Request, k: nat, user: UserId, held: seq<string>)
    requires Ordered(wf.steps) && Progress(wf, req, k)
    requires Refusal(None, req, user, held).None? && Refusal(Some(wf), req, user, held).None?
    requires Decided(None, req, user, held, Approve).status == Pending
    ensures Progress(wf, Decided(None, req, user, held, Approve), k)
  {
    DecidedAtItsStep(wf, req, k, user, held, Approve);
    DecisionKeepsProgress(wf, req, k, user, held, Approve);
    assert Decided(None, req, user, held, Approve) == Decided(Some(wf), req, user, held, Approve);
  }

  /** One accepted approval of an orphan. */
  lemma OrphanApproval(wf: Workflow, req: Request, k: nat, user: UserId, held: seq<string>)
    requires Ordered(wf.steps) && Progress(wf, req, k) && req.workflowId.None?
    requires Refusal(None, req, user, held).None?
    ensures var after := Decided(None, req, user, held, Approve);
            var admitted := Refusal(Some(wf), req, user, held).None?;
            && (!admitted ==> Spoiled(wf, after))
            && (admitted && after.status == Pending ==> Progress(wf, after, k))
            && (after.status == Approved ==>
                  (Cleared(wf, after) <==> k == |ApplicableSteps(wf.steps, req.amount)| - 1 && admitted))
  {
    var after := Decided(None, req, user, held, Approve);
    OpenToNewcomers(req, user, held);
    if Refusal(Some(wf), req, user, held).Some? {
      RefusedDecisionSpoils(wf, req, k, after, user, held, Approve);
    } else if after.status == Pending {
      OrphanKeepsStanding(wf, req, k, user, held);
    }
    if after.status == Approved {
      assert Orphan(req) == req;
      RemovedWorkflowIsClearedIff(wf, req, k, user, held);
    }
  }

  /** A step of the run that does not decide `r` leaves the orphan alone. */
  lemma OrphanUntouched(s: Store, a: Action, r: nat)
    requires r < |s.requests| && s.requests[r].workflowId.None?
    requires !(a.DoDecide? && a.requestId == r && Decide(s, a.t, r, a.vote).Ok?)
    ensures r < |Apply(s, a).requests|
    ensures Apply(s, a).requests[r] == s.requests[r] || (Apply(s, a).requests[r].origin == Forced && Apply(s, a).requests[r].status == Approved)
  {
  }

  lemma OrphanDecided(s: Store, a: Action, r: nat)
    requires r < |s.requests| && s.requests[r].workflowId.None?
    requires a.DoDecide? && a.requestId == r && Decide(s, a.t, r, a.vote).Ok?
    ensures Refusal(None, s.requests[r], a.t.user.value, a.t.permissions).None?
    ensures |Apply(s, a).requests| == |s.requests|
    ensures Apply(s, a).requests[r] == Decided(None, s.requests[r], a.t.user.value, a.t.permissions, a.vote)
    ensures Apply(s, a).requests[r].workflowId.None?
  {
  }

  /**
   * From any state in which a pending request has lost workflow `wf` while standing
   * at its k-th step, over every run in which decisions approve it in the end: it meets
   * the promise of `wf` exactly when that step was the last one and `wf` would have
   * let every decision be made.
   */
  lemma {:induction false} OrphanIsClearedIff(s: Store, actions: seq<Action>, r: nat, wf: Workflow, k: nat)
    requires Ordered(wf.steps) && r < |s.requests| && s.requests[r].workflowId.None?
    requires s.requests[r].status == Pending && Progress(wf, s.requests[r], k)
    requires r < |Run(s, actions).requests| && ApprovedByDecisions(Run(s, actions).requests[r])
    ensures Cleared(wf, Run(s, actions).requests[r])
            <==> k == |ApplicableSteps(wf.steps, s.requests[r].amount)| - 1 && AllAdmitted(s, actions, r, wf)
    decreases |actions|
  {
    if actions != [] {
      var a, s', rest := actions[0], Apply(s, actions[0]), actions[1..];
      if a.DoDecide? && a.requestId == r && Decide(s, a.t, r, a.vote).Ok? {
        OrphanDecision(s, a, rest, r, wf, k);
        if s'.requests[r].status == Pending && Admitted(s, a, r, wf) {
          OrphanIsClearedIff(s', rest, r, wf, k);
        }
      } else {
        OrphanUntouched(s, a, r);
        RequestsOnlyMoveForward(s', rest, r);
        OrphanIsClearedIff(s', rest, r, wf, k);
      }
    }
  }

  /** A decision on the orphan: the claim is settled, or it is admitted and the orphan stands as before. */
  lemma OrphanDecision(s: Store, a: Action, rest: seq<Action>, r: nat, wf: Workflow, k: nat)
    requires Ordered(wf.steps) && r < |s.requests| && s.requests[r].workflowId.None?
    requires s.requests[r].status == Pending && Progress(wf, s.requests[r], k)
    requires a.DoDecide? && a.requestId == r && Decide(s, a.t, r, a.vote).Ok?
    requires r < |Run(Apply(s, a), rest).requests| && ApprovedByDecisions(Run(Apply(s, a), rest).requests[r])
    ensures var s' := Apply(s, a);
            && r < |s'.requests| && s'.requests[r].workflowId.None? && s'.requests[r].amount == s.requests[r].amount
            && (!Admitted(s, a, r, wf) ==> !Cleared(wf, Run(s', rest).requests[r]))
            && (Admitted(s, a, r, wf) && s'.requests[r].status == Pending ==> Progress(wf, s'.requests[r], k))
            && (Admitted(s, a, r, wf) && s'.requests[r].status != Pending ==>
                  && AllAdmitted(s', rest, r, wf)
                  && (Cleared(wf, Run(s', rest).requests[r])
                      <==> k == |ApplicableSteps(wf.steps, s.requests[r].amount)| - 1))
  {
    var s', req := Apply(s, a), s.requests[r];
    OrphanDecided(s, a, r);
    StepEvolves(s, a, r);
    RequestsOnlyMoveForward(s', rest, r);
    if a.vote == Reject {
      RejectionRejects(s, a.t, r);
    } else {
      OrphanApproval(wf, req, k, a.t.user.value, a.t.permissions);
    }
    if !Admitted(s, a, r, wf) {
      SpoiledIsNeverCleared(wf, s'.requests[r], Run(s', rest).requests[r]);
    } else if s'.requests[r].status != Pending {
      ResolvedIsAdmitted(s', rest, r, wf);
      ClearedIsInTheRow(wf, s'.requests[r], Run(s', rest).requests[r]);
    }
  }

  /**
   * The exact condition for a removal: a request pending when its workflow is
   * removed, and approved by decisions later, meets the promise of that workflow exactly when it
   * stood at the last step and the workflow would have let every later decision be
   * made.
   */
  lemma RemovalIsHonouredIff(s: Store, org: nat, id: nat, actions: seq<Action>, r: nat, k: nat)
    requires WorkflowsOrdered(s) && Owned(s, org, id)
    requires r < |s.requests| && s.requests[r].workflowId == Some(id) && s.requests[r].status == Pending
    requires Progress(s.workflows[id].value, s.requests[r], k)
    requires var end := Run(RemoveWorkflow(s, org, id), actions).requests;
             r < |end| && ApprovedByDecisions(end[r])
    ensures var wf, removed := s.workflows[id].value, RemoveWorkflow(s, org, id);
            Cleared(wf, Run(removed, actions).requests[r])
            <==> k == |ApplicableSteps(wf.steps, s.requests[r].amount)| - 1 && AllAdmitted(removed, actions, r, wf)
  {
    var wf, removed := s.workflows[id].value, RemoveWorkflow(s, org, id);
    assert removed.requests[r] == Orphan(s.requests[r]);
    assert Progress(wf, removed.requests[r], k);
    OrphanIsClearedIff(removed, actions, r, wf, k);
  }

  // --- The creator and one more ------------------------------------------------

  const TWO_HEADS := Workflow(0, "expense", None, false, true, [Step(1, 2, ["approve"], None, None)])
  const BOTH_AWAITED := Request(0, "expense", 0, 10.0, None, [], 1, 2, Pending, Some(7), [], ViaRequest)
  const OWN := Decision(7, 1, Approve, [])

  lemma OwnTally()
    ensures Tally([OWN], 1, Approve) == 1 && Tally([OWN], 1, Reject) == 0
  {
    TallySnoc([], OWN, 1, Approve);
    TallySnoc([], OWN, 1, Reject);
    assert [] + [OWN] == [OWN];
  }

  lemma CreatorCountsAsOne()
    ensures var after := Decided(None, BOTH_AWAITED, 7, [], Approve);
            && Progress(TWO_HEADS, BOTH_AWAITED, 0)
            && Refusal(None, BOTH_AWAITED, 7, []).None?
            && Refusal(Some(TWO_HEADS), BOTH_AWAITED, 7, []).Some?
            && after == BOTH_AWAITED.(decisions := [OWN])
  {
    OwnTally();
    assert [] + [OWN] == [OWN];
    assert ApplicableSteps(TWO_HEADS.steps, 10.0) == TWO_HEADS.steps;
  }

  lemma SecondPersonIsAdmitted(half: Request)
    requires half == BOTH_AWAITED.(decisions := [OWN])
    ensures Refusal(None, half, 8, ["approve"]).None?
    ensures Refusal(Some(TWO_HEADS), half, 8, ["approve"]).None?
  {
    assert "approve" in ["approve"];
    assert HoldsAny(["approve"], ["approve"]);
    assert FindStep(TWO_HEADS.steps, 1) == Some(TWO_HEADS.steps[0]);
  }

  lemma SecondPersonCompletes(half: Request)
    requires half == BOTH_AWAITED.(decisions := [OWN])
    ensures Decided(None, half, 8, ["approve"], Approve) ==
              half.(decisions := [OWN, Decision(8, 1, Approve, ["approve"])], status := Approved)
  {
    var d := Decision(8, 1, Approve, ["approve"]);
    OwnTally();
    TallySnoc(half.decisions, d, 1, Approve);
    TallySnoc(half.decisions, d, 1, Reject);
    assert half.decisions + [d] == [OWN, d];
  }

  /**
   * The condition on the last decision alone is not enough: after the removal of a
   * workflow asking for two heads, the creator's own approval counts as one, and
   * the second one, which the workflow would have admitted at its last step,
   * completes a request that is not cleared.
   */
  lemma CreatorAndOneMoreComplete()
    ensures var half := Decided(None, BOTH_AWAITED, 7, [], Approve);
            var whole := Decided(None, half, 8, ["approve"], Approve);
            && Refusal(None, BOTH_AWAITED, 7, []).None? && half.status == Pending
            && Refusal(None, half, 8, ["approve"]).None? && Refusal(Some(TWO_HEADS), half, 8, ["approve"]).None?
            && whole.status == Approved && !Cleared(TWO_HEADS, whole)
  {
    var half := BOTH_AWAITED.(decisions := [OWN]);
    CreatorCountsAsOne();
    SecondPersonIsAdmitted(half);
    SecondPersonCompletes(half);
    OrphanApproval(TWO_HEADS, BOTH_AWAITED, 0, 7, []);
    SpoiledIsNeverCleared(TWO_HEADS, half, Decided(None, half, 8, ["approve"], Approve));
  }

  // --- Exactly one outcome event per resolved request --------------------------

  function Outcomes(events: seq<Event>, r: nat): seq<Status> {
    if events == [] then []
    else
      var last := events[|events| - 1];
      Outcomes(events[..|events| - 1], r) + if last.Resolved? && last.requestId == r then [last.status] else []
  }

  lemma OutcomesSnoc(events: seq<Event>, e: Event, r: nat)
    ensures Outcomes(events + [e], r) == Outcomes(events, r) + if e.Resolved? && e.requestId == r then [e.status] else []
  {
    assert (events + [e])[..|events|] == events;
  }

  function ExpectedOutcomes(s: Store, r: nat): seq<Status> {
    if r < |s.requests| && s.requests[r].origin == ViaRequest && s.requests[r].status != Pending
    then [s.requests[r].status] else []
  }

  /** The outcomes announced are exactly the outcomes reached through decisions. */
  ghost predicate Announced(s: Store) {
    && (forall r: nat :: Outcomes(s.events, r) == ExpectedOutcomes(s, r))
    && (forall r :: 0 <= r < |s.requests| && s.requests[r].origin != ViaRequest ==> s.requests[r].status == Approved)
  }

  lemma DecisionOutcomes(events: seq<Event>, id: nat, before: Request, after: Request, r: nat)
    ensures Outcomes(events + DecisionEvents(id, before, after), r)
         == Outcomes(events, r) + if r == id && after.status != Pending then [after.status] else []
  {
    var advanced := if after.currentStep != before.currentStep then [StepAdvanced(id, after.currentStep)] else [];
    if advanced == [] {
      assert events + advanced == events;
    } else {
      OutcomesSnoc(events, advanced[0], r);
    }
    if after.status == Pending {
      assert events + DecisionEvents(id, before, after) == events + advanced;
    } else {
      assert events + DecisionEvents(id, before, after) == (events + advanced) + [Resolved(id, after.status)];
      OutcomesSnoc(events + advanced, Resolved(id, after.status), r);
    }
  }

  lemma DecisionKeepsAnnounced(s: Store, id: nat, after: Request)
    requires Announced(s) && id < |s.requests| && s.requests[id].status == Pending && after.origin == s.requests[id].origin
    ensures Announced(s.(requests := s.requests[id := after], events := s.events + DecisionEvents(id, s.requests[id], after)))
  {
    var s' := s.(requests := s.requests[id := after], events := s.events + DecisionEvents(id, s.requests[id], after));
    forall r: nat
      ensures Outcomes(s'.events, r) == ExpectedOutcomes(s', r)
    {
      assert Outcomes(s.events, r) == ExpectedOutcomes(s, r);
      DecisionOutcomes(s.events, id, s.requests[id], after, r);
    }
  }

  lemma RequestKeepsAnnounced(s: Store, req: Request)
    requires Announced(s) && req.origin == ViaRequest && req.status == Pending
    ensures Announced(AddRequest(s, req))
  {
    var s' := AddRequest(s, req);
    forall r: nat
      ensures Outcomes(s'.events, r) == ExpectedOutcomes(s', r)
    {
      assert Outcomes(s.events, r) == ExpectedOutcomes(s, r);
      OutcomesSnoc(s.events, Requested(|s.requests|, req.currentStep), r);
    }
  }

  /** Forcing announces nothing, and nothing is owed for it. */
  lemma ForceKeepsAnnounced(s: Store, t: Tenant, billId: nat)
    requires Announced(s)
    ensures Announced(ForceApprove(s, t, billId))
  {
    var s' := ForceApprove(s, t, billId);
    forall r: nat
      ensures Outcomes(s'.events, r) == ExpectedOutcomes(s', r)
    {
      assert Outcomes(s.events, r) == ExpectedOutcomes(s, r);
    }
  }

  lemma StepKeepsAnnounced(s: Store, a: Action)
    requires Announced(s)
    ensures Announced(Apply(s, a))
  {
    match a
    case DoRequest(t, entityType, entityId, amount) =>
      var req := OpenRequest(s, t, entityType, entityId, amount);
      if req.Some? { RequestKeepsAnnounced(s, req.value); }
    case DoDecide(t, id, vote) =>
      var o := Decide(s, t, id, vote);
      if o.Ok? { DecisionKeepsAnnounced(s, id, o.value.requests[id]); }
    case DoForce(t, billId) => ForceKeepsAnnounced(s, t, billId);
    case _ => SilentStepKeepsAnnounced(s, Apply(s, a));
  }

  lemma SilentStepKeepsAnnounced(s: Store, s': Store)
    requires Announced(s) && s'.events == s.events && |s.requests| <= |s'.requests|
    requires forall r :: 0 <= r < |s.requests| ==>
               s'.requests[r].origin == s.requests[r].origin && s'.requests[r].status == s.requests[r].status
    requires forall r :: |s.requests| <= r < |s'.requests| ==>
               s'.requests[r].origin == ViaOverride && s'.requests[r].status == Approved
    ensures Announced(s')
  {
    forall r: nat
      ensures Outcomes(s'.events, r) == ExpectedOutcomes(s', r)
    {
      assert Outcomes(s.events, r) == ExpectedOutcomes(s, r);
    }
  }

  lemma {:induction false} RunKeepsAnnounced(s: Store, actions: seq<Action>)
    requires Announced(s)
    ensures Announced(Run(s, actions))
    decreases |actions|
  {
    if actions != [] {
      StepKeepsAnnounced(s, actions[0]);
      RunKeepsAnnounced(Apply(s, actions[0]), actions[1..]);
    }
  }

  /**
   * Starting from empty tables, the requester is told each outcome reached through
   * decisions exactly once, and it is the final one; a forced approval and an
   * override are never announced.
   */
  lemma OutcomesAnnouncedOnce(actions: seq<Action>)
    ensures forall r: nat :: Outcomes(Run(EMPTY, actions).events, r) == ExpectedOutcomes(Run(EMPTY, actions), r)
  {
    RunKeepsAnnounced(EMPTY, actions);
  }
}
