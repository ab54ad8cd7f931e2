/** The approvals service as an object over its tables; every method refines the step of the same name. */
module ApprovalService {
  import opened Common
  import opened Approvals
  import Tables = ApprovalStore
  import Gate = ApprovalGate

  class ApprovalsService {
    var workflows: seq<Option<Workflow>>
    var requests: seq<Request>
    var events: seq<Tables.Event>

    ghost function View(): Tables.Store
      reads this
    {
      Tables.Store(workflows, requests, events)
    }

    constructor ()
      ensures View() == Tables.Store([], [], [])
    {
      workflows, requests, events := [], [], [];
    }

    method RequestApproval(t: Tenant, entityType: string, entityId: nat, amount: real) returns (created: Option<nat>)
      modifies this
      ensures View() == Tables.RequestApproval(old(View()), t, entityType, entityId, amount)
      ensures created == if |requests| == old(|requests|) then None else Some(old(|requests|))
    {
      var wf := Tables.SelectWorkflow(workflows, t.org, entityType, amount);
      if wf.None? {
        return None;
      }
      Tables.SelectedIsStored(workflows, t.org, entityType, amount);
      var steps := ApplicableSteps(workflows[wf.value].value.steps, amount);
      if |steps| == 0 {
        return None;
      }
      var first := steps[0];
      var id := |requests|;
      var row := Request(t.org, entityType, entityId, amount, wf, [], first.stepOrder, first.requiredCount,
                         Pending, t.user, [], ViaRequest);
      requests := requests + [row];
      events := events + [Tables.Requested(id, first.stepOrder)];
      created := Some(id);
    }

    method Decide(t: Tenant, requestId: nat, vote: Vote) returns (r: Result<Request, DecideError>)
      modifies this
      ensures match Tables.Decide(old(View()), t, requestId, vote)
              case Ok(after) => View() == after && requestId < |requests| && r == Ok(requests[requestId])
              case Err(e) => View() == old(View()) && r == Err(e)
    {
      if t.user.None? {
        return Err(NotAuthenticated);
      }
      var userId := t.user.value;
      if requestId >= |requests| || requests[requestId].org != t.org {
        return Err(NotFound);
      }
      var req := requests[requestId];
      if req.status != Pending {
        return Err(AlreadyResolved);
      }
      var wf := Tables.WorkflowAt(workflows, req.workflowId);
      var step := ActiveConfig(wf, req);
      if |step.approverPermissions| > 0 && !HoldsAny(step.approverPermissions, t.permissions) {
        return Err(NotAllowed);
      }
      if req.createdBy == Some(userId) && |step.approverPermissions| > 0 {
        return Err(OwnRequest);
      }
      if wf.Some? && wf.value.enforceDistinctApprovers && DecidedBefore(req.decisions, userId, req.currentStep) {
        return Err(ClearedEarlierStep);
      }
      if DecidedAt(req.decisions, userId, req.currentStep) {
        return Err(AlreadyDecided);
      }

      var decisions := req.decisions + [Decision(userId, req.currentStep, vote, t.permissions)];
      var updated, published := Conclude(requestId, wf, req, step, decisions);
      requests := requests[requestId := updated];
      events := events + published;
      r := Ok(updated);
    }

    /** The second half of a decision: tally the step, then reject, advance, approve or keep waiting. */
    method Conclude(requestId: nat, wf: Option<Workflow>, req: Request, step: StepConfig, decisions: seq<Decision>)
      returns (updated: Request, published: seq<Tables.Event>)
      requires req.status == Pending
      ensures updated == Settle(StepsFor(wf, req.amount), req.(decisions := decisions), step.requiredCount)
      ensures published == Tables.DecisionEvents(requestId, req, updated)
    {
      var approvals := Tally(decisions, req.currentStep, Approve);
      var rejections := Tally(decisions, req.currentStep, Reject);
      var nextStatus := Pending;
      var nextStep := req.currentStep;
      var nextRequired := step.requiredCount;
      var advancedTo: Option<int> := None;
      if rejections > 0 {
        nextStatus := Rejected;
      } else if approvals >= step.requiredCount {
        var remaining := StepsAfter(StepsFor(wf, req.amount), req.currentStep);
        if |remaining| > 0 {
          assert remaining[0] in remaining;
          nextStep := remaining[0].stepOrder;
          nextRequired := remaining[0].requiredCount;
          advancedTo := Some(nextStep);
        } else {
          nextStatus := Approved;
        }
      }
      updated := req.(decisions := decisions, status := nextStatus, currentStep := nextStep, requiredCount := nextRequired);
      published := [];
      if advancedTo.Some? {
        published := published + [Tables.StepAdvanced(requestId, advancedTo.value)];
      }
      if nextStatus != Pending {
        published := published + [Tables.Resolved(requestId, nextStatus)];
      }
    }

    method CheckOrRequestApproval(c: Gate.Call) returns (answer: Gate.Answer)
      modifies this
      ensures (View(), answer) == Gate.Check(old(View()), c)
    {
      var existing := Tables.FindLive(requests, c.t.org, c.entityType, c.entityId);
      if existing.Some? {
        if requests[existing.value].status == Approved {
          return Gate.AlreadyApproved;
        }
        return Gate.NeedsApproval(existing.value);
      }
      var req := RequestApproval(c.t, c.entityType, c.entityId, c.amount);
      if req.Some? {
        return Gate.NeedsApproval(req.value);
      }
      return Gate.NoApprovalRequired;
    }

    method RecordSynchronousOverride(t: Tenant, entityType: string, entityId: nat, approver: UserId, amount: real)
      modifies this
      ensures View() == Tables.Override(old(View()), t, entityType, entityId, approver, amount)
    {
      var wf := Tables.SelectWorkflow(workflows, t.org, entityType, amount);
      var steps := [];
      if wf.Some? {
        Tables.SelectedIsStored(workflows, t.org, entityType, amount);
        steps := ApplicableSteps(workflows[wf.value].value.steps, amount);
      }
      var lastStep := 1;
      if |steps| > 0 {
        lastStep := steps[|steps| - 1].stepOrder;
      }
      requests := requests + [Request(t.org, entityType, entityId, amount, wf, [], lastStep, 1, Approved, t.user,
                                      [Decision(approver, lastStep, Approve, [])], ViaOverride)];
    }

    method Patch(w: Workflow, patch: Tables.WorkflowPatch) returns (r: Workflow)
      ensures r == Tables.Patched(w, patch)
    {
      r := w;
      if patch.entityType.Some? { r := r.(entityType := patch.entityType.value); }
      if patch.minAmount.Some? { r := r.(minAmount := patch.minAmount.value); }
      if patch.enforceDistinctApprovers.Some? { r := r.(enforceDistinctApprovers := patch.enforceDistinctApprovers.value); }
      if patch.isActive.Some? { r := r.(isActive := patch.isActive.value); }
      if patch.steps.Some? { r := r.(steps := Tables.InOrder(patch.steps.value)); }
    }

    /** The controller's PATCH: scalar fields first, then a full replacement of the step list. */
    method UpdateWorkflow(org: nat, id: nat, patch: Tables.WorkflowPatch) returns (ok: bool)
      modifies this
      ensures View() == Tables.UpdateWorkflow(old(View()), org, id, patch)
      ensures ok <==> Tables.Owned(old(View()), org, id) && (patch.steps.Some? ==> Tables.StepsAccepted(patch.steps.value))
    {
      if id >= |workflows| || workflows[id].None? || workflows[id].value.org != org {
        return false;
      }
      if patch.steps.Some? && !Tables.StepsAccepted(patch.steps.value) {
        return false;
      }
      var w := Patch(workflows[id].value, patch);
      workflows := workflows[id := Some(w)];
      ok := true;
    }
  }
}
