/**
 * The handlers that turn approval events into notifications.  Delivery is at
 * least once and may be out of order, so a handler sees an arbitrary payload
 * against whatever the tables hold at that moment.
 */
module ApprovalNotifications {
  import opened Common
  import opened Approvals
  import opened ApprovalStore

  /** A user's position is their id; `roles` holds the permission list of each role. */
  datatype User = User(org: nat, roles: seq<seq<string>>)

  /** What the handlers read: the approval tables and the users. */
  datatype World = World(store: Store, users: seq<User>)

  /** The dedupe key, as the tuple its text is built from. */
  datatype Key =
    | PendingKey(requestId: nat, stepOrder: int, user: UserId)
    | DecidedKey(requestId: nat, status: Status)

  datatype Notification = Notification(org: nat, user: UserId, key: Key)

  datatype Event =
    | OnPending(org: nat, requestId: nat)
    | OnDecided(org: nat, requestId: nat, status: Status)

  // ---------------------------------------------------------------------------
  // Who is asked
  // ---------------------------------------------------------------------------

  predicate Holds(u: User, permissions: seq<string>) {
    exists i :: 0 <= i < |u.roles| && HoldsAny(permissions, u.roles[i])
  }

  /** Users of the organisation with a role carrying any of the permissions. */
  function Holders(users: seq<User>, org: nat, permissions: seq<string>): (r: seq<UserId>)
    ensures forall u: nat :: u in r <==> u < |users| && users[u].org == org && Holds(users[u], permissions)
  {
    if users == [] then []
    else
      var last := |users| - 1;
      var rest := Holders(users[..last], org, permissions);
      if users[last].org == org && Holds(users[last], permissions) then rest + [last] else rest
  }

  /** The request the payload names, if it exists in that organisation. */
  function Named(w: World, org: nat, requestId: nat): Option<Request> {
    if requestId < |w.store.requests| && w.store.requests[requestId].org == org then Some(w.store.requests[requestId]) else None
  }

  /** The permissions of the step awaiting a decision; none when there is nobody to ask. */
  function AskedPermissions(w: World, org: nat, requestId: nat): seq<string> {
    var req := Named(w, org, requestId);
    if req.None? || req.value.status != Pending then []
    else
      var wf := WorkflowAt(w.store.workflows, req.value.workflowId);
      if wf.None? then []
      else
        var step := FindStep(wf.value.steps, req.value.currentStep);
        if step.None? then [] else step.value.approverPermissions
  }

  /** A step of the request's workflow stands at its cursor and the user has a role with one of its permissions. */
  ghost predicate HasTheStep(w: World, req: Request, user: UserId) {
    && req.workflowId.Some? && req.workflowId.value < |w.store.workflows| && w.store.workflows[req.workflowId.value].Some?
    && user < |w.users|
    && exists st, i, p :: st in w.store.workflows[req.workflowId.value].value.steps && st.stepOrder == req.currentStep
         && 0 <= i < |w.users[user].roles| && p in st.approverPermissions && p in w.users[user].roles[i]
  }

  /** `user` may be asked to decide the current step of the request: a holder of the organisation, and not the creator. */
  ghost predicate MayBeAsked(w: World, org: nat, requestId: nat, stepOrder: int, user: UserId) {
    && requestId < |w.store.requests|
    && var req := w.store.requests[requestId];
       && req.org == org && req.status == Pending && req.currentStep == stepOrder
       && req.createdBy != Some(user)
       && user < |w.users| && w.users[user].org == org
       && HasTheStep(w, req, user)
  }

  /** The requester of a request of the organisation. */
  ghost predicate Asked(w: World, org: nat, requestId: nat, user: UserId) {
    requestId < |w.store.requests| && w.store.requests[requestId].org == org && w.store.requests[requestId].createdBy == Some(user)
  }

  /** A notification with this key has gone out in the organisation. */
  ghost predicate Told(sent: seq<Notification>, org: nat, key: Key) {
    exists i :: 0 <= i < |sent| && sent[i].org == org && sent[i].key == key
  }

  predicate AlreadyNotified(sent: seq<Notification>, org: nat, key: Key) {
    exists i :: 0 <= i < |sent| && sent[i].org == org && sent[i].key == key
  }

  function Send(sent: seq<Notification>, n: Notification): seq<Notification> {
    if AlreadyNotified(sent, n.org, n.key) then sent else sent + [n]
  }

  function Ask(sent: seq<Notification>, org: nat, requestId: nat, req: Request, user: UserId): seq<Notification> {
    if req.createdBy == Some(user) then sent
    else Send(sent, Notification(org, user, PendingKey(requestId, req.currentStep, user)))
  }

  function AskAll(sent: seq<Notification>, org: nat, requestId: nat, req: Request, users: seq<UserId>): seq<Notification> {
    if users == [] then sent
    else Ask(AskAll(sent, org, requestId, req, users[..|users| - 1]), org, requestId, req, users[|users| - 1])
  }

  function Min(a: nat, b: nat): nat {
    if a < b then a else b
  }

  /** One delivery; sending fails after `limit` recipients, and the handler swallows the failure. */
  function Handle(sent: seq<Notification>, w: World, e: Event, limit: nat): seq<Notification> {
    match e
    case OnPending(org, requestId) =>
      var permissions := AskedPermissions(w, org, requestId);
      if permissions == [] then sent
      else
        var targets := Holders(w.users, org, permissions);
        AskAll(sent, org, requestId, Named(w, org, requestId).value, targets[..Min(limit, |targets|)])
    case OnDecided(org, requestId, status) =>
      var req := Named(w, org, requestId);
      if req.None? || req.value.createdBy.None? || limit == 0 then sent
      else Send(sent, Notification(org, req.value.createdBy.value, DecidedKey(requestId, status)))
  }

  // ---------------------------------------------------------------------------
  // The subscriber
  // ---------------------------------------------------------------------------

  class Subscriber {
    var sent: seq<Notification>

    constructor ()
      ensures sent == []
    {
      sent := [];
    }

    method HandlePending(w: World, org: nat, requestId: nat, limit: nat)
      modifies this
      ensures sent == Handle(old(sent), w, OnPending(org, requestId), limit)
    {
      var found := Named(w, org, requestId);
      if found.None? || found.value.status != Pending {
        return;
      }
      var req := found.value;
      var perms := AskedPermissions(w, org, requestId);
      if |perms| == 0 {
        return;
      }
      var approvers := Holders(w.users, org, perms);
      var i := 0;
      while i < |approvers| && i < limit
        invariant 0 <= i <= Min(limit, |approvers|)
        invariant sent == AskAll(old(sent), org, requestId, req, approvers[..i])
      {
        var u := approvers[i];
        assert approvers[..i + 1][..i] == approvers[..i];
        i := i + 1;
        if req.createdBy == Some(u) {
          continue;
        }
        var key := PendingKey(requestId, req.currentStep, u);
        if AlreadyNotified(sent, org, key) {
          continue;
        }
        sent := sent + [Notification(org, u, key)];
      }
    }

    method HandleDecided(w: World, org: nat, requestId: nat, status: Status, limit: nat)
      modifies this
      ensures sent == Handle(old(sent), w, OnDecided(org, requestId, status), limit)
    {
      var req := Named(w, org, requestId);
      if req.None? || req.value.createdBy.None? {
        return;
      }
      var key := DecidedKey(requestId, status);
      if AlreadyNotified(sent, org, key) || limit == 0 {
        return;
      }
      sent := sent + [Notification(org, req.value.createdBy.value, key)];
    }
  }

  // ---------------------------------------------------------------------------
  // One delivery
  // ---------------------------------------------------------------------------

  ghost predicate NoDuplicates(sent: seq<Notification>) {
    forall i, j :: 0 <= i < j < |sent| ==> sent[i].org != sent[j].org || sent[i].key != sent[j].key
  }

  /** Everything sent beyond `before` asks one of `users`, never the creator. */
  ghost predicate OnlyAsks(before: seq<Notification>, after: seq<Notification>, org: nat, requestId: nat, req: Request, users: seq<UserId>) {
    && before <= after
    && forall i :: |before| <= i < |after| ==>
         && after[i].user in users && req.createdBy != Some(after[i].user)
         && after[i].org == org && after[i].key == PendingKey(requestId, req.currentStep, after[i].user)
  }

  lemma {:induction false} AskAllSendsOncePerUser(sent: seq<Notification>, org: nat, requestId: nat, req: Request, users: seq<UserId>)
    requires NoDuplicates(sent)
    ensures var after := AskAll(sent, org, requestId, req, users);
            && NoDuplicates(after)
            && OnlyAsks(sent, after, org, requestId, req, users)
            && forall u :: u in users && req.createdBy != Some(u)
                 ==> Told(after, org, PendingKey(requestId, req.currentStep, u))
  {
    if users != [] {
      var init, last := users[..|users| - 1], users[|users| - 1];
      assert users == init + [last];
      AskAllSendsOncePerUser(sent, org, requestId, req, init);
      var mid := AskAll(sent, org, requestId, req, init);
      var after := AskAll(sent, org, requestId, req, users);
      var key := PendingKey(requestId, req.currentStep, last);
      assert mid <= after;
      forall u | u in users && req.createdBy != Some(u)
        ensures Told(after, org, PendingKey(requestId, req.currentStep, u))
      {
        if u in init {
          var i :| 0 <= i < |mid| && mid[i].org == org && mid[i].key == PendingKey(requestId, req.currentStep, u);
          assert after[i] == mid[i];
        } else if !AlreadyNotified(mid, org, key) {
          assert after[|mid|].key == key;
        }
      }
    }
  }

  /** Whom the handler looks up are the ones who hold the step. */
  lemma HoldersHaveTheStep(w: World, org: nat, requestId: nat, user: UserId)
    requires AskedPermissions(w, org, requestId) != []
    ensures user in Holders(w.users, org, AskedPermissions(w, org, requestId)) ==>
              user < |w.users| && w.users[user].org == org && HasTheStep(w, w.store.requests[requestId], user)
  {
    var req := w.store.requests[requestId];
    var permissions := AskedPermissions(w, org, requestId);
    var st := FindStep(w.store.workflows[req.workflowId.value].value.steps, req.currentStep).value;
    if user in Holders(w.users, org, permissions) {
      var i :| 0 <= i < |w.users[user].roles| && HoldsAny(permissions, w.users[user].roles[i]);
      var p :| p in permissions && p in w.users[user].roles[i];
      assert p in st.approverPermissions;
    }
  }

  lemma WhoHasTheStepIsLookedUp(w: World, org: nat, requestId: nat, stepOrder: int, user: UserId)
    requires WorkflowsOrdered(w.store) && MayBeAsked(w, org, requestId, stepOrder, user)
    ensures AskedPermissions(w, org, requestId) != []
    ensures user in Holders(w.users, org, AskedPermissions(w, org, requestId))
  {
    var req := w.store.requests[requestId];
    var steps := w.store.workflows[req.workflowId.value].value.steps;
    var st, i, p :| st in steps && st.stepOrder == req.currentStep
      && 0 <= i < |w.users[user].roles| && p in st.approverPermissions && p in w.users[user].roles[i];
    FindStepInOrdered(steps, st);
    assert HoldsAny(st.approverPermissions, w.users[user].roles[i]);
    assert Holds(w.users[user], st.approverPermissions);
  }

  /**
   * Any delivery asks nobody but those who may be asked at that moment, and one
   * that does not fail leaves all of them told.
   */
  lemma PendingDeliveryAsksExactlyTheEligible(sent: seq<Notification>, w: World, org: nat, requestId: nat, limit: nat)
    requires NoDuplicates(sent)
    ensures var after := Handle(sent, w, OnPending(org, requestId), limit);
            && NoDuplicates(after) && sent <= after
            && (forall i :: |sent| <= i < |after| ==>
                  && after[i].key.PendingKey? && after[i].key.user == after[i].user
                  && after[i].org == org && after[i].key.requestId == requestId
                  && MayBeAsked(w, org, requestId, after[i].key.stepOrder, after[i].user))
            && (limit >= |w.users| && WorkflowsOrdered(w.store) ==>
                  (forall stepOrder, u :: MayBeAsked(w, org, requestId, stepOrder, u) ==>
                     Told(after, org, PendingKey(requestId, stepOrder, u))))
  {
    var permissions := AskedPermissions(w, org, requestId);
    if permissions != [] {
      PendingAsks(sent, w, org, requestId, limit);
    }
    if limit >= |w.users| && WorkflowsOrdered(w.store) {
      forall stepOrder, u | MayBeAsked(w, org, requestId, stepOrder, u)
        ensures Told(Handle(sent, w, OnPending(org, requestId), limit), org, PendingKey(requestId, stepOrder, u))
      {
        WhoHasTheStepIsLookedUp(w, org, requestId, stepOrder, u);
        PendingTellsAll(sent, w, org, requestId, limit, u);
      }
    }
  }

  lemma PendingAsks(sent: seq<Notification>, w: World, org: nat, requestId: nat, limit: nat)
    requires NoDuplicates(sent) && AskedPermissions(w, org, requestId) != []
    ensures var after := Handle(sent, w, OnPending(org, requestId), limit);
            && NoDuplicates(after) && sent <= after
            && (forall i :: |sent| <= i < |after| ==>
                  && after[i].key.PendingKey? && after[i].key.user == after[i].user
                  && after[i].org == org && after[i].key.requestId == requestId
                  && MayBeAsked(w, org, requestId, after[i].key.stepOrder, after[i].user))
  {
    var targets := Holders(w.users, org, AskedPermissions(w, org, requestId));
    var asked := targets[..Min(limit, |targets|)];
    var req := w.store.requests[requestId];
    AskAllSendsOncePerUser(sent, org, requestId, req, asked);
    var after := AskAll(sent, org, requestId, req, asked);
    forall i | |sent| <= i < |after|
      ensures MayBeAsked(w, org, requestId, after[i].key.stepOrder, after[i].user)
    {
      assert after[i].user in targets;
      HoldersHaveTheStep(w, org, requestId, after[i].user);
    }
  }

  lemma PendingTellsAll(sent: seq<Notification>, w: World, org: nat, requestId: nat, limit: nat, user: UserId)
    requires NoDuplicates(sent) && AskedPermissions(w, org, requestId) != [] && limit >= |w.users|
    requires user in Holders(w.users, org, AskedPermissions(w, org, requestId))
    requires w.store.requests[requestId].createdBy != Some(user)
    ensures Told(Handle(sent, w, OnPending(org, requestId), limit), org,
                 PendingKey(requestId, w.store.requests[requestId].currentStep, user))
  {
    var targets := Holders(w.users, org, AskedPermissions(w, org, requestId));
    HoldersAreFew(w.users, org, AskedPermissions(w, org, requestId));
    assert targets[..Min(limit, |targets|)] == targets;
    AskAllSendsOncePerUser(sent, org, requestId, w.store.requests[requestId], targets);
  }

  /** A delivery of an outcome tells the requester, once, unless sending fails, and tells nobody else anything. */
  lemma DecidedDeliveryTellsTheRequester(sent: seq<Notification>, w: World, org: nat, requestId: nat, status: Status, limit: nat)
    ensures var after, key := Handle(sent, w, OnDecided(org, requestId, status), limit), DecidedKey(requestId, status);
            && (after == sent || exists user :: Asked(w, org, requestId, user) && !Told(sent, org, key)
                                  && after == sent + [Notification(org, user, key)])
            && (limit > 0 && (exists user :: Asked(w, org, requestId, user)) ==> Told(after, org, key))
  {
    var after, key := Handle(sent, w, OnDecided(org, requestId, status), limit), DecidedKey(requestId, status);
    assert AlreadyNotified(sent, org, key) <==> Told(sent, org, key);
    if after != sent {
      assert after[|sent|].key == key;
      assert Asked(w, org, requestId, w.store.requests[requestId].createdBy.value);
    }
  }

  lemma {:induction false} HoldersAreFew(users: seq<User>, org: nat, permissions: seq<string>)
    ensures |Holders(users, org, permissions)| <= |users|
  {
    if users != [] {
      HoldersAreFew(users[..|users| - 1], org, permissions);
    }
  }

  // ---------------------------------------------------------------------------
  // Any sequence of deliveries, against tables that change in between
  // ---------------------------------------------------------------------------

  datatype Delivery = Delivery(world: World, event: Event, limit: nat)

  function DeliverAll(ds: seq<Delivery>): seq<Notification> {
    if ds == [] then []
    else
      var last := ds[|ds| - 1];
      Handle(DeliverAll(ds[..|ds| - 1]), last.world, last.event, last.limit)
  }

  /** Some delivery justifies the notification at the moment it was handled. */
  ghost predicate Justified(ds: seq<Delivery>, n: Notification) {
    exists i :: 0 <= i < |ds| && JustifiedBy(ds[i], n)
  }

  ghost predicate JustifiedBy(d: Delivery, n: Notification) {
    match n.key
    case PendingKey(requestId, stepOrder, user) =>
      user == n.user && MayBeAsked(d.world, n.org, requestId, stepOrder, user)
    case DecidedKey(requestId, status) =>
      d.event == OnDecided(n.org, requestId, status) && Asked(d.world, n.org, requestId, n.user)
  }

  /**
   * Under any redelivered, reordered, partly failing events: each approver hears
   * at most once about each request and step and could decide it when asked, the
   * creator is never asked, and the requester hears each outcome at most once.
   */
  lemma {:induction false} NotifiedAtMostOnceAndRightly(ds: seq<Delivery>)
    ensures NoDuplicates(DeliverAll(ds))
    ensures forall i :: 0 <= i < |DeliverAll(ds)| ==> Justified(ds, DeliverAll(ds)[i])
  {
    if ds != [] {
      var init, last := ds[..|ds| - 1], ds[|ds| - 1];
      NotifiedAtMostOnceAndRightly(init);
      var before, after := DeliverAll(init), DeliverAll(ds);
      if last.event.OnPending? {
        PendingDeliveryAsksExactlyTheEligible(before, last.world, last.event.org, last.event.requestId, last.limit);
      }
      assert before <= after;
      forall i | 0 <= i < |after|
        ensures Justified(ds, after[i])
      {
        if i < |before| {
          assert after[i] == before[i];
          var k :| 0 <= k < |init| && JustifiedBy(init[k], before[i]);
          assert ds[k] == init[k];
        } else {
          assert JustifiedBy(ds[|ds| - 1], after[i]);
        }
      }
    }
  }
}
