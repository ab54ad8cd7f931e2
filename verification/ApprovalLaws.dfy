/**
 * What the calls on the approval tables do, said by their inputs and the rows
 * they meet rather than by the functions that compute them.
 */
module ApprovalLaws {
  import opened Common
  import opened Approvals
  import opened ApprovalProgress
  import opened ApprovalStore

  // ---------------------------------------------------------------------------
  // Opening a request
  // ---------------------------------------------------------------------------

  /** Workflow `id` is an active one of the organisation and type whose threshold the amount reaches. */
  ghost predicate Serves(s: Store, id: nat, org: nat, entityType: string, amount: real) {
    && id < |s.workflows| && s.workflows[id].Some?
    && var w := s.workflows[id].value;
       w.org == org && w.entityType == entityType && w.isActive && (w.minAmount.Some? ==> w.minAmount.value <= amount)
  }

  /** The highest threshold wins, and a workflow without one only when no other serves. */
  ghost predicate MostSpecific(s: Store, id: nat, org: nat, entityType: string, amount: real) {
    && Serves(s, id, org, entityType, amount)
    && forall other: nat :: Serves(s, other, org, entityType, amount) && s.workflows[other].value.minAmount.Some? ==>
         && s.workflows[id].value.minAmount.Some?
         && s.workflows[other].value.minAmount.value <= s.workflows[id].value.minAmount.value
  }

  ghost predicate InBand(st: Step, amount: real) {
    && (st.minAmount.Some? ==> st.minAmount.value <= amount)
    && (st.maxAmount.Some? ==> amount < st.maxAmount.value)
  }

  /** The lowest step of the band, beyond `after` if given. */
  ghost predicate LowestInBand(steps: seq<Step>, amount: real, after: Option<int>, st: Step) {
    && st in steps && InBand(st, amount) && (after.Some? ==> after.value < st.stepOrder)
    && forall other :: other in steps && InBand(other, amount) && (after.Some? ==> after.value < other.stepOrder)
         ==> st.stepOrder <= other.stepOrder
  }

  /** No workflow serves, or the most specific one has no step for the amount. */
  ghost predicate NothingToAsk(s: Store, org: nat, entityType: string, amount: real) {
    || (forall id: nat :: !Serves(s, id, org, entityType, amount))
    || exists id: nat :: MostSpecific(s, id, org, entityType, amount)
         && forall st :: st in s.workflows[id].value.steps ==> !InBand(st, amount)
  }

  /** A fresh row for the document, at the lowest step of a most specific workflow. */
  ghost predicate AsksFor(s: Store, t: Tenant, entityType: string, entityId: nat, amount: real, row: Request) {
    && row.workflowId.Some? && MostSpecific(s, row.workflowId.value, t.org, entityType, amount)
    && row.org == t.org && row.entityType == entityType && row.entityId == entityId && row.amount == amount
    && row.createdBy == t.user && row.status == Pending && row.decisions == [] && row.origin == ViaRequest
    && exists st :: LowestInBand(s.workflows[row.workflowId.value].value.steps, amount, None, st)
         && row.currentStep == st.stepOrder && row.requiredCount == st.requiredCount
  }

  lemma SelectedIsMostSpecific(s: Store, org: nat, entityType: string, amount: real)
    ensures match SelectWorkflow(s.workflows, org, entityType, amount)
            case None => forall id: nat :: !Serves(s, id, org, entityType, amount)
            case Some(id) => MostSpecific(s, id, org, entityType, amount)
  {
    SelectionIsMostSpecific(s.workflows, org, entityType, amount);
    forall id: nat
      ensures Serves(s, id, org, entityType, amount)
              <==> Candidate(s.workflows, id, org, entityType) && Clears(s.workflows[id].value.minAmount, amount)
    {
    }
  }

  lemma FirstIsLowest(steps: seq<Step>, amount: real)
    requires Ordered(steps) && ApplicableSteps(steps, amount) != []
    ensures LowestInBand(steps, amount, None, ApplicableSteps(steps, amount)[0])
  {
    var r := ApplicableSteps(steps, amount);
    ApplicableStepsOrdered(steps, amount);
    assert r[0] in r;
    forall other | other in steps && InBand(other, amount)
      ensures r[0].stepOrder <= other.stepOrder
    {
      assert Applies(other, amount);
      var i :| 0 <= i < |r| && r[i] == other;
    }
  }

  lemma NoneAppliesMeansNoneInBand(steps: seq<Step>, amount: real)
    ensures ApplicableSteps(steps, amount) == [] <==> forall st :: st in steps ==> !InBand(st, amount)
  {
    var r := ApplicableSteps(steps, amount);
    if r != [] {
      assert r[0] in r;
    } else {
      forall st | st in steps
        ensures !InBand(st, amount)
      {
        assert InBand(st, amount) ==> Applies(st, amount);
      }
    }
  }

  /**
   * What requestApproval does: either it adds one fresh row, at the lowest step
   * that asks for the amount on a most specific workflow serving it, and announces
   * it; or nothing is to be asked and nothing changes.
   */
  lemma RequestApprovalAddsWhatIsAsked(s: Store, t: Tenant, entityType: string, entityId: nat, amount: real)
    requires WorkflowsOrdered(s)
    ensures var after, n := Apply(s, DoRequest(t, entityType, entityId, amount)), |s.requests|;
            || (after == s && NothingToAsk(s, t.org, entityType, amount))
            || (&& after.workflows == s.workflows
                && |after.requests| == n + 1 && after.requests[..n] == s.requests
                && AsksFor(s, t, entityType, entityId, amount, after.requests[n])
                && after.events == s.events + [Requested(n, after.requests[n].currentStep)])
  {
    SelectedIsMostSpecific(s, t.org, entityType, amount);
    var w := SelectWorkflow(s.workflows, t.org, entityType, amount);
    if w.Some? {
      var steps := s.workflows[w.value].value.steps;
      NoneAppliesMeansNoneInBand(steps, amount);
      if ApplicableSteps(steps, amount) != [] {
        FirstIsLowest(steps, amount);
      }
    }
  }

  /**
   * A request just opened, and approved by decisions later while the workflow it
   * refers to keeps its steps and distinctness rule, has been cleared for it.
   */
  lemma OpenedThenApprovedIsCleared(history: seq<Action>, s: Store, t: Tenant, entityType: string, entityId: nat, amount: real,
                                    actions: seq<Action>)
    requires s == Run(EMPTY, history)
    ensures var asked, n := RequestApproval(s, t, entityType, entityId, amount), |s.requests|;
            |asked.requests| > n ==>
              && AsksFor(s, t, entityType, entityId, amount, asked.requests[n])
              && var id := asked.requests[n].workflowId.value;
                 (forall a :: a in actions ==> !Edits(a, id)) ==>
                   && n < |Run(asked, actions).requests|
                   && (ApprovedByDecisions(Run(asked, actions).requests[n]) ==>
                         Cleared(s.workflows[id].value, Run(asked, actions).requests[n]))
  {
    var asked, n := RequestApproval(s, t, entityType, entityId, amount), |s.requests|;
    WorkflowsStayOrdered(EMPTY, history);
    RowsStayOk(EMPTY, history);
    RequestApprovalAddsWhatIsAsked(s, t, entityType, entityId, amount);
    if |asked.requests| > n {
      var row := asked.requests[n];
      var id := row.workflowId.value;
      RequestsOnlyMoveForward(asked, actions, n);
      StepKeepsRowsOk(s, DoRequest(t, entityType, entityId, amount));
      OpenedIsOnTrack(s.workflows[id].value, row, amount);
      if (forall a :: a in actions ==> !Edits(a, id)) && ApprovedByDecisions(Run(asked, actions).requests[n]) {
        HonouredIffOnTrack(asked, actions, n, id, s.workflows[id].value);
      }
    }
  }

  /** A fresh row at the lowest step stands at the first applicable one. */
  lemma OpenedIsOnTrack(wf: Workflow, row: Request, amount: real)
    requires Ordered(wf.steps) && row.amount == amount && row.status == Pending && row.decisions == []
    requires exists st :: LowestInBand(wf.steps, amount, None, st) && row.currentStep == st.stepOrder
    ensures OnTrack(wf, row)
  {
    var st :| LowestInBand(wf.steps, amount, None, st) && row.currentStep == st.stepOrder;
    var r := ApplicableSteps(wf.steps, amount);
    NoneAppliesMeansNoneInBand(wf.steps, amount);
    FirstIsLowest(wf.steps, amount);
    assert r[0].stepOrder == st.stepOrder;
    assert Stands(wf, row, 0);
  }

  // ---------------------------------------------------------------------------
  // Deciding
  // ---------------------------------------------------------------------------

  /** The workflow the request refers to, while it exists. */
  ghost function LiveWorkflow(s: Store, req: Request): Option<Workflow> {
    if req.workflowId.Some? && req.workflowId.value < |s.workflows| then s.workflows[req.workflowId.value] else None
  }

  /** `st` is the step of the live workflow at the cursor. */
  ghost predicate AtCursor(s: Store, req: Request, st: Step) {
    LiveWorkflow(s, req).Some? && st in LiveWorkflow(s, req).value.steps && st.stepOrder == req.currentStep
  }

  /** The permissions asked for: of the step at the cursor; of nobody when it is gone; the request's own without workflow. */
  ghost predicate Asks(s: Store, req: Request, permissions: seq<string>) {
    || AtCursorAsks(s, req, permissions)
    || (LiveWorkflow(s, req).Some? && (forall st :: !AtCursor(s, req, st)) && permissions == [])
    || (LiveWorkflow(s, req).None? && permissions == req.policyPermissions)
  }

  ghost predicate AtCursorAsks(s: Store, req: Request, permissions: seq<string>) {
    exists st :: AtCursor(s, req, st) && permissions == st.approverPermissions
  }

  /** The head-count: of the step at the cursor, else the one noted on the row. */
  ghost predicate Wants(s: Store, req: Request, count: int) {
    || (exists st :: AtCursor(s, req, st) && count == st.requiredCount)
    || ((forall st :: !AtCursor(s, req, st)) && count == req.requiredCount)
  }

  ghost predicate Distinct(s: Store, req: Request) {
    LiveWorkflow(s, req).Some? && LiveWorkflow(s, req).value.enforceDistinctApprovers
  }

  ghost predicate Presents(permissions: seq<string>, held: seq<string>) {
    exists i, j :: 0 <= i < |permissions| && 0 <= j < |held| && permissions[i] == held[j]
  }

  ghost predicate HasDecided(req: Request, user: UserId, order: int) {
    exists i :: 0 <= i < |req.decisions| && req.decisions[i].approver == user && req.decisions[i].stepOrder == order
  }

  ghost predicate HasDecidedEarlier(req: Request, user: UserId) {
    exists i :: 0 <= i < |req.decisions| && req.decisions[i].approver == user && req.decisions[i].stepOrder < req.currentStep
  }

  /** The row is there, in the caller's organisation. */
  ghost predicate Found(s: Store, t: Tenant, id: nat) {
    id < |s.requests| && s.requests[id].org == t.org
  }

  /** Whoever the step asks for: one of its permissions, and not the creator; anyone when it asks for none. */
  ghost predicate MayJudge(t: Tenant, req: Request, permissions: seq<string>) {
    permissions != [] ==> Presents(permissions, t.permissions) && req.createdBy != t.user
  }

  ghost predicate MayDecide(s: Store, t: Tenant, id: nat) {
    && t.user.Some? && Found(s, t, id)
    && var req := s.requests[id];
       && req.status == Pending
       && (forall permissions :: Asks(s, req, permissions) ==> MayJudge(t, req, permissions))
       && !(Distinct(s, req) && HasDecidedEarlier(req, t.user.value))
       && !HasDecided(req, t.user.value, req.currentStep)
  }

  /** The configuration the engine looks up is the one described. */
  lemma ConfigIsAsked(s: Store, req: Request)
    requires WorkflowsOrdered(s)
    ensures var cfg := ActiveConfig(WorkflowAt(s.workflows, req.workflowId), req);
            && (forall permissions :: Asks(s, req, permissions) <==> permissions == cfg.approverPermissions)
            && (forall count :: Wants(s, req, count) <==> count == cfg.requiredCount)
  {
    var w := LiveWorkflow(s, req);
    if w.Some? {
      var found := FindStep(w.value.steps, req.currentStep);
      if found.Some? {
        assert AtCursor(s, req, found.value);
        forall st | AtCursor(s, req, st)
          ensures st == found.value
        {
          var i :| 0 <= i < |w.value.steps| && w.value.steps[i] == st;
          var j :| 0 <= j < |w.value.steps| && w.value.steps[j] == found.value;
          assert !(i < j) && !(j < i);
        }
      } else {
        assert forall st :: !AtCursor(s, req, st);
      }
    } else {
      assert forall st :: !AtCursor(s, req, st);
    }
  }

  lemma PresentsIsHoldsAny(permissions: seq<string>, held: seq<string>)
    ensures Presents(permissions, held) <==> HoldsAny(permissions, held)
  {
    if HoldsAny(permissions, held) {
      var p :| p in permissions && p in held;
      var i :| 0 <= i < |permissions| && permissions[i] == p;
      var j :| 0 <= j < |held| && held[j] == p;
    }
    if Presents(permissions, held) {
      var i, j :| 0 <= i < |permissions| && 0 <= j < |held| && permissions[i] == held[j];
      assert permissions[i] in permissions && permissions[i] in held;
    }
  }

  lemma DecidedIsInTheRows(req: Request, user: UserId)
    ensures HasDecided(req, user, req.currentStep) <==> DecidedAt(req.decisions, user, req.currentStep)
    ensures HasDecidedEarlier(req, user) <==> DecidedBefore(req.decisions, user, req.currentStep)
  {
    assert forall i :: 0 <= i < |req.decisions| ==> req.decisions[i] in req.decisions;
  }

  /** A decision is accepted exactly from a caller who may decide. */
  lemma DecideAcceptsExactly(s: Store, t: Tenant, id: nat, vote: Vote)
    requires WorkflowsOrdered(s)
    ensures Decide(s, t, id, vote).Ok? <==> MayDecide(s, t, id)
  {
    if t.user.Some? && Found(s, t, id) {
      var req := s.requests[id];
      var cfg := ActiveConfig(WorkflowAt(s.workflows, req.workflowId), req);
      ConfigIsAsked(s, req);
      assert Asks(s, req, cfg.approverPermissions);
      PresentsIsHoldsAny(cfg.approverPermissions, t.permissions);
      DecidedIsInTheRows(req, t.user.value);
    }
  }

  /** Each refusal has its own condition; the first that applies is given. */
  ghost predicate Refuses(s: Store, t: Tenant, id: nat, e: DecideError) {
    match e
    case NotAuthenticated => t.user.None?
    case NotFound => t.user.Some? && !Found(s, t, id)
    case AlreadyResolved => t.user.Some? && Found(s, t, id) && s.requests[id].status != Pending
    case NotAllowed => Open(s, t, id) && !Permitted(s, t, id)
    case OwnRequest => Open(s, t, id) && Permitted(s, t, id) && OwnAndAsked(s, t, id)
    case ClearedEarlierStep =>
      && Open(s, t, id) && Permitted(s, t, id) && !OwnAndAsked(s, t, id)
      && Distinct(s, s.requests[id]) && HasDecidedEarlier(s.requests[id], t.user.value)
    case AlreadyDecided =>
      && Open(s, t, id) && Permitted(s, t, id) && !OwnAndAsked(s, t, id)
      && !(Distinct(s, s.requests[id]) && HasDecidedEarlier(s.requests[id], t.user.value))
      && HasDecided(s.requests[id], t.user.value, s.requests[id].currentStep)
  }

  ghost predicate Open(s: Store, t: Tenant, id: nat) {
    t.user.Some? && Found(s, t, id) && s.requests[id].status == Pending
  }

  ghost predicate Permitted(s: Store, t: Tenant, id: nat)
    requires id < |s.requests|
  {
    forall permissions :: Asks(s, s.requests[id], permissions) && permissions != [] ==> Presents(permissions, t.permissions)
  }

  ghost predicate OwnAndAsked(s: Store, t: Tenant, id: nat)
    requires id < |s.requests|
  {
    s.requests[id].createdBy == t.user && !Asks(s, s.requests[id], [])
  }

  lemma DecideRefusesExactly(s: Store, t: Tenant, id: nat, vote: Vote, e: DecideError)
    requires WorkflowsOrdered(s)
    ensures Decide(s, t, id, vote) == Err(e) <==> Refuses(s, t, id, e)
    ensures Refuses(s, t, id, e) ==> Apply(s, DoDecide(t, id, vote)) == s
  {
    if t.user.Some? && Found(s, t, id) {
      var req := s.requests[id];
      ConfigIsAsked(s, req);
      PresentsIsHoldsAny(ActiveConfig(WorkflowAt(s.workflows, req.workflowId), req).approverPermissions, t.permissions);
      DecidedIsInTheRows(req, t.user.value);
    }
  }

  /** The people who have approved at the cursor, the caller included when the vote is one. */
  ghost function Supporters(req: Request, user: UserId, vote: Vote): set<UserId> {
    InFavour(req.decisions, req.currentStep) + if vote == Approve then {user} else {}
  }

  ghost function InFavour(ds: seq<Decision>, order: int): set<UserId> {
    set i | 0 <= i < |ds| && ds[i].stepOrder == order && ds[i].vote == Approve :: ds[i].approver
  }

  lemma InFavourAreTheApprovers(ds: seq<Decision>, order: int)
    ensures InFavour(ds, order) == ApproversOf(ds, order)
  {
    forall u
      ensures u in InFavour(ds, order) <==> u in ApproversOf(ds, order)
    {
      if u in InFavour(ds, order) {
        var i :| 0 <= i < |ds| && ds[i].stepOrder == order && ds[i].vote == Approve && ds[i].approver == u;
        assert ds[i] in ds;
      }
      if u in ApproversOf(ds, order) {
        var d :| d in ds && d.stepOrder == order && d.vote == Approve && d.approver == u;
        var i :| 0 <= i < |ds| && ds[i] == d;
      }
    }
  }

  ghost predicate Opposed(req: Request, vote: Vote) {
    vote == Reject || exists i :: 0 <= i < |req.decisions| && req.decisions[i].stepOrder == req.currentStep && req.decisions[i].vote == Reject
  }

  /** A step of the live workflow beyond the cursor still asks for the amount. */
  ghost predicate MoreToCome(s: Store, req: Request, st: Step) {
    LiveWorkflow(s, req).Some? && LowestInBand(LiveWorkflow(s, req).value.steps, req.amount, Some(req.currentStep), st)
  }

  /** What becomes of the row: opposed, not yet enough people, on to the next step, or approved. */
  ghost predicate Outcome(s: Store, req: Request, user: UserId, vote: Vote, count: int, after: Request) {
    if Opposed(req, vote) then after.status == Rejected && after.currentStep == req.currentStep && after.requiredCount == count
    else if |Supporters(req, user, vote)| < count then
      after.status == Pending && after.currentStep == req.currentStep && after.requiredCount == count
    else if exists st :: MoreToCome(s, req, st) then
      && after.status == Pending
      && exists st :: MoreToCome(s, req, st) && after.currentStep == st.stepOrder && after.requiredCount == st.requiredCount
    else after.status == Approved && after.currentStep == req.currentStep && after.requiredCount == count
  }

  /** The events owed for the change of the row. */
  ghost predicate Tells(before: seq<Event>, after: seq<Event>, id: nat, was: Request, now: Request) {
    after == before + (if now.currentStep > was.currentStep then [StepAdvanced(id, now.currentStep)] else [])
                    + (if now.status == Pending then [] else [Resolved(id, now.status)])
  }

  lemma OpponentsAreTallied(req: Request, user: UserId, held: seq<string>, vote: Vote)
    ensures Opposed(req, vote)
            <==> Tally(req.decisions + [Decision(user, req.currentStep, vote, held)], req.currentStep, Reject) > 0
  {
    TallySnoc(req.decisions, Decision(user, req.currentStep, vote, held), req.currentStep, Reject);
    TallyPositive(req.decisions, req.currentStep, Reject);
    assert forall i :: 0 <= i < |req.decisions| ==> req.decisions[i] in req.decisions;
  }

  lemma SupportersAreTallied(req: Request, user: UserId, held: seq<string>, vote: Vote)
    requires NoRepeat(req.decisions + [Decision(user, req.currentStep, vote, held)])
    ensures |Supporters(req, user, vote)|
         == Tally(req.decisions + [Decision(user, req.currentStep, vote, held)], req.currentStep, Approve)
  {
    var d := Decision(user, req.currentStep, vote, held);
    TallyCountsPeople(req.decisions + [d], req.currentStep);
    ApproversSnoc(req.decisions, d, req.currentStep);
    InFavourAreTheApprovers(req.decisions, req.currentStep);
  }

  lemma NextIsLowestBeyond(steps: seq<Step>, amount: real, order: int)
    requires Ordered(steps)
    ensures var rest := StepsAfter(ApplicableSteps(steps, amount), order);
            && (rest == [] ==> forall st :: !LowestInBand(steps, amount, Some(order), st))
            && (rest != [] ==> LowestInBand(steps, amount, Some(order), rest[0]))
  {
    var r := ApplicableSteps(steps, amount);
    var rest := StepsAfter(r, order);
    ApplicableStepsOrdered(steps, amount);
    assert forall st: Step :: InBand(st, amount) <==> Applies(st, amount);
    if rest != [] {
      assert rest[0] in rest;
      FirstAfterIsNext(r, order);
      forall other | other in steps && InBand(other, amount) && order < other.stepOrder
        ensures rest[0].stepOrder <= other.stepOrder
      {
        assert other in r;
      }
    } else {
      forall st
        ensures !LowestInBand(steps, amount, Some(order), st)
      {
        assert st !in rest;
      }
    }
  }

  /** Only the cursor, its head-count, the status and one more decision may differ. */
  ghost predicate OneMoreDecision(was: Request, now: Request, d: Decision) {
    now == was.(decisions := was.decisions + [d], status := now.status, currentStep := now.currentStep, requiredCount := now.requiredCount)
  }

  lemma DecideTouchesOneRow(s: Store, t: Tenant, id: nat, vote: Vote)
    requires Decide(s, t, id, vote).Ok?
    ensures var after := Decide(s, t, id, vote).value;
            && after.workflows == s.workflows && |after.requests| == |s.requests|
            && (forall r :: 0 <= r < |s.requests| && r != id ==> after.requests[r] == s.requests[r])
            && OneMoreDecision(s.requests[id], after.requests[id],
                               Decision(t.user.value, s.requests[id].currentStep, vote, t.permissions))
  {
  }

  /** The row as the rules of the engine settle it. */
  lemma SettledAsOwed(s: Store, was: Request, user: UserId, held: seq<string>, vote: Vote, count: int)
    requires WorkflowsOrdered(s) && NoRepeat(was.decisions + [Decision(user, was.currentStep, vote, held)]) && was.status == Pending
    ensures var noted := was.(decisions := was.decisions + [Decision(user, was.currentStep, vote, held)]);
            var now := Settle(StepsFor(WorkflowAt(s.workflows, was.workflowId), was.amount), noted, count);
            Outcome(s, was, user, vote, count, now) && now.currentStep >= was.currentStep
  {
    var wf := WorkflowAt(s.workflows, was.workflowId);
    SupportersAreTallied(was, user, held, vote);
    OpponentsAreTallied(was, user, held, vote);
    var rest := StepsAfter(StepsFor(wf, was.amount), was.currentStep);
    if wf.Some? {
      NextIsLowestBeyond(wf.value.steps, was.amount, was.currentStep);
    }
    if rest != [] {
      assert rest[0] in rest;
      assert MoreToCome(s, was, rest[0]);
    } else {
      assert forall st :: !MoreToCome(s, was, st);
    }
  }

  lemma OutcomeIs(s: Store, t: Tenant, id: nat, vote: Vote)
    requires WorkflowsOrdered(s) && RowsOk(s) && Decide(s, t, id, vote).Ok?
    ensures var was, wf := s.requests[id], WorkflowAt(s.workflows, s.requests[id].workflowId);
            var now := Decide(s, t, id, vote).value.requests[id];
            && Outcome(s, was, t.user.value, vote, ActiveConfig(wf, was).requiredCount, now)
            && Tells(s.events, Decide(s, t, id, vote).value.events, id, was, now)
  {
    var was := s.requests[id];
    var wf := WorkflowAt(s.workflows, was.workflowId);
    AcceptedKeepsNoRepeat(wf, was, t.user.value, t.permissions, vote);
    SettledAsOwed(s, was, t.user.value, t.permissions, vote, ActiveConfig(wf, was).requiredCount);
  }

  /** The outcome the supporters, opponents, head-count and remaining steps call for. */
  ghost predicate OutcomeOwed(s: Store, was: Request, user: UserId, vote: Vote, now: Request) {
    exists count :: Wants(s, was, count) && Outcome(s, was, user, vote, count, now)
  }

  /**
   * What an accepted decision does: the caller's vote is appended at the cursor with
   * the permissions presented, the row has the outcome its supporters, opponents
   * and remaining steps call for, the events owed are published, and nothing else
   * of the row, no other row and no workflow changes.
   */
  lemma DecideDoes(s: Store, t: Tenant, id: nat, vote: Vote)
    requires WorkflowsOrdered(s) && RowsOk(s) && Decide(s, t, id, vote).Ok?
    ensures var after := Apply(s, DoDecide(t, id, vote));
            && after == Decide(s, t, id, vote).value
            && after.workflows == s.workflows && |after.requests| == |s.requests|
            && (forall r :: 0 <= r < |s.requests| && r != id ==> after.requests[r] == s.requests[r])
            && OneMoreDecision(s.requests[id], after.requests[id],
                               Decision(t.user.value, s.requests[id].currentStep, vote, t.permissions))
            && OutcomeOwed(s, s.requests[id], t.user.value, vote, after.requests[id])
            && Tells(s.events, after.events, id, s.requests[id], after.requests[id])
  {
    var was := s.requests[id];
    DecideTouchesOneRow(s, t, id, vote);
    ConfigIsAsked(s, was);
    OutcomeIs(s, t, id, vote);
    assert Wants(s, was, ActiveConfig(WorkflowAt(s.workflows, was.workflowId), was).requiredCount);
  }

  // ---------------------------------------------------------------------------
  // Overrides and forced approvals
  // ---------------------------------------------------------------------------

  /** An override adds one approved row for the caller's document and publishes nothing. */
  lemma OverrideAddsAnApprovedRow(s: Store, t: Tenant, entityType: string, entityId: nat, approver: UserId, amount: real)
    requires WorkflowsOrdered(s)
    ensures var after, n := Apply(s, DoOverride(t, entityType, entityId, approver, amount)), |s.requests|;
            && after.workflows == s.workflows && after.events == s.events
            && |after.requests| == n + 1 && after.requests[..n] == s.requests
            && var row := after.requests[n];
               && row.org == t.org && row.entityType == entityType && row.entityId == entityId && row.amount == amount
               && row.createdBy == t.user && row.status == Approved && row.requiredCount == 1 && row.origin == ViaOverride
               && |row.decisions| == 1 && row.decisions[0].approver == approver
               && row.decisions[0].stepOrder == row.currentStep && row.decisions[0].vote == Approve
               && (row.workflowId.None? ==> row.currentStep == 1 && forall id: nat :: !Serves(s, id, t.org, entityType, amount))
               && (row.workflowId.Some? ==>
                     && MostSpecific(s, row.workflowId.value, t.org, entityType, amount)
                     && HighestInBand(s.workflows[row.workflowId.value].value.steps, amount, row.currentStep))
  {
    SelectedIsMostSpecific(s, t.org, entityType, amount);
    SelectedIsStored(s.workflows, t.org, entityType, amount);
    OverrideSitsOnTheLastStep(s, t, entityType, entityId, approver, amount);
    assert forall st: Step :: InBand(st, amount) <==> Applies(st, amount);
  }

  /** `order` is that of the highest step of the band, or 1 when no step is in it. */
  ghost predicate HighestInBand(steps: seq<Step>, amount: real, order: int) {
    && ((exists st :: st in steps && InBand(st, amount)) ==>
          && (exists st :: st in steps && InBand(st, amount) && st.stepOrder == order)
          && (forall st :: st in steps && InBand(st, amount) ==> st.stepOrder <= order))
    && ((forall st :: st in steps ==> !InBand(st, amount)) ==> order == 1)
  }

  ghost predicate PendingBill(s: Store, org: nat, billId: nat, r: nat) {
    && r < |s.requests| && s.requests[r].org == org && s.requests[r].entityType == "vendor_bill"
    && s.requests[r].entityId == billId && s.requests[r].status == Pending
  }

  /** Posting a bill with override approves one pending request of it outright, for a holder of the permission, and nothing else. */
  lemma ForcingApprovesThePendingBill(s: Store, t: Tenant, billId: nat)
    ensures var after := Apply(s, DoForce(t, billId));
            && after.workflows == s.workflows && after.events == s.events && |after.requests| == |s.requests|
            && (if "approvals:decide" in t.permissions && exists r: nat :: PendingBill(s, t.org, billId, r) then
                  exists r: nat :: PendingBill(s, t.org, billId, r)
                    && after.requests == s.requests[r := s.requests[r].(status := Approved, origin := Forced)]
                else after == s)
  {
    var found := FindPending(s.requests, t.org, "vendor_bill", billId);
    if found.Some? {
      assert PendingBill(s, t.org, billId, found.value);
    } else {
      forall r: nat
        ensures !PendingBill(s, t.org, billId, r)
      {
      }
    }
  }

  // ---------------------------------------------------------------------------
  // Editing workflows
  // ---------------------------------------------------------------------------

  /** The same steps, in strict order. */
  ghost predicate SameStepsInOrder(given: seq<Step>, stored: seq<Step>) {
    && multiset(stored) == multiset(given)
    && forall i, j :: 0 <= i < j < |stored| ==> stored[i].stepOrder < stored[j].stepOrder
  }

  /** At least one step, and no order given twice. */
  ghost predicate WellFormed(steps: seq<Step>) {
    |steps| > 0 && forall i, j :: 0 <= i < j < |steps| ==> steps[i].stepOrder != steps[j].stepOrder
  }

  lemma CreateWorkflowStoresIt(s: Store, org: nat, w: Workflow)
    ensures var after, n := Apply(s, DoCreate(org, w)), |s.workflows|;
            && after.requests == s.requests && after.events == s.events
            && (if WellFormed(w.steps) then
                  && |after.workflows| == n + 1 && after.workflows[..n] == s.workflows && after.workflows[n].Some?
                  && var stored := after.workflows[n].value;
                     && stored.org == org && stored.entityType == w.entityType && stored.minAmount == w.minAmount
                     && stored.enforceDistinctApprovers == w.enforceDistinctApprovers && stored.isActive == w.isActive
                     && SameStepsInOrder(w.steps, stored.steps)
                else after == s)
  {
    if StepsAccepted(w.steps) {
      InOrderIsOrdered(w.steps);
    }
  }

  /** The field is the one given, or the one it was. */
  ghost predicate Replaced<T>(given: Option<T>, was: T, now: T) {
    (given.Some? ==> now == given.value) && (given.None? ==> now == was)
  }

  lemma UpdateWorkflowReplacesWhatIsGiven(s: Store, org: nat, id: nat, p: WorkflowPatch)
    ensures var after := Apply(s, DoUpdate(org, id, p));
            && after.requests == s.requests && after.events == s.events && |after.workflows| == |s.workflows|
            && (forall other :: 0 <= other < |s.workflows| && other != id ==> after.workflows[other] == s.workflows[other])
            && (if id < |s.workflows| && s.workflows[id].Some? && s.workflows[id].value.org == org
                   && (p.steps.Some? ==> WellFormed(p.steps.value)) then
                  && after.workflows[id].Some?
                  && var was, now := s.workflows[id].value, after.workflows[id].value;
                     && now.org == was.org
                     && Replaced(p.entityType, was.entityType, now.entityType)
                     && Replaced(p.minAmount, was.minAmount, now.minAmount)
                     && Replaced(p.enforceDistinctApprovers, was.enforceDistinctApprovers, now.enforceDistinctApprovers)
                     && Replaced(p.isActive, was.isActive, now.isActive)
                     && (p.steps.None? ==> now.steps == was.steps)
                     && (p.steps.Some? ==> SameStepsInOrder(p.steps.value, now.steps))
                else after == s)
  {
    if p.steps.Some? && StepsAccepted(p.steps.value) {
      InOrderIsOrdered(p.steps.value);
    }
  }

  /** Removing a workflow takes it and every reference to it away, and nothing else. */
  lemma RemoveWorkflowClearsReferences(s: Store, org: nat, id: nat)
    ensures var after := Apply(s, DoRemove(org, id));
            if id < |s.workflows| && s.workflows[id].Some? && s.workflows[id].value.org == org then
              && after.workflows == s.workflows[id := None] && after.events == s.events && |after.requests| == |s.requests|
              && (forall r :: 0 <= r < |s.requests| ==>
                    && after.requests[r].workflowId == (if s.requests[r].workflowId == Some(id) then None else s.requests[r].workflowId)
                    && after.requests[r] == s.requests[r].(workflowId := after.requests[r].workflowId))
            else after == s
  {
  }
}
