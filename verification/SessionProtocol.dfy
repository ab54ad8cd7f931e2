/** The client and the server together, with lost answers, page reloads and other activity. */
module SessionProtocol {
  import opened Common
  import opened Sessions
  import opened ApiClient

  /** `mine` holds the login families this client has been given. */
  datatype World = World(server: Server, client: Client, mine: set<nat>)

  datatype Event =
    | ClientSends(mutating: bool, ownKey: Option<Key>)
    | GotUnauthorized(request: nat, authRoute: bool)
    | GotOtherAnswer(request: nat)
    | ServerHandles(call: nat, now: int)
    | RefreshAnswerArrives
    | RefreshAnswerLost
    | Reload
    | LogIn(org: nat, user: UserId, now: int)
    | LogOut
    | Elsewhere(action: Sessions.Action)

  ghost predicate Allowed(w: World, e: Event) {
    match e
    case GotUnauthorized(i, _) => OnTheWire(w.client, i)
    case GotOtherAnswer(i) => OnTheWire(w.client, i)
    case ServerHandles(i, _) => i < |w.client.calls| && w.client.calls[i].answer == Unanswered
    case RefreshAnswerArrives => Refreshing(w.client) && w.client.calls[w.client.refreshing.value].answer != Unanswered
    case RefreshAnswerLost => Refreshing(w.client)
    case Elsewhere(a) =>
      // Nobody else knows this client's token values.
      a.DoRefresh? && a.value < |w.server.tokens| ==> w.server.tokens[a.value].family !in w.mine
    case _ => true
  }

  function Handled(w: World, i: nat, now: int): World
    requires i < |w.client.calls|
  {
    var call := w.client.calls[i];
    match Refresh(w.server, call.token, now)
    case Ok(server) =>
      World(server, w.client.(calls := w.client.calls[i := call.(answer := Granted(|w.server.tokens|))]), w.mine)
    case Err(_) =>
      w.(client := w.client.(calls := w.client.calls[i := call.(answer := Refused)]))
  }

  function Next(w: World, e: Event): World
    requires Allowed(w, e)
  {
    match e
    case ClientSends(mutating, ownKey) => w.(client := Send(w.client, mutating, ownKey))
    case GotUnauthorized(i, authRoute) => w.(client := Unauthorized(w.client, i, authRoute))
    case GotOtherAnswer(i) => w.(client := Settle(w.client, i))
    case ServerHandles(i, now) => Handled(w, i, now)
    case RefreshAnswerArrives =>
      var answer := w.client.calls[w.client.refreshing.value].answer;
      w.(client := RefreshEnded(w.client, if answer.Granted? then Some(answer.token) else None))
    case RefreshAnswerLost => w.(client := RefreshEnded(w.client, None))
    case Reload => w.(client := Reloaded(w.client))
    case LogIn(org, user, now) =>
      World(Issue(w.server, org, user, now), w.client.(stored := Some(|w.server.tokens|)), w.mine + {|w.server.tokens|})
    case LogOut => w.(client := w.client.(stored := None))
    case Elsewhere(a) => w.(server := Sessions.Apply(w.server, a))
  }

  ghost predicate Possible(w: World, events: seq<Event>)
    decreases |events|
  {
    events != [] ==> Allowed(w, events[0]) && Possible(Next(w, events[0]), events[1..])
  }

  ghost function After(w: World, events: seq<Event>): World
    requires Possible(w, events)
    decreases |events|
  {
    if events == [] then w else After(Next(w, events[0]), events[1..])
  }

  ghost predicate Fresh(w: World) {
    w.server.tokens == [] && w.client == Client(None, None, [], [], 0) && w.mine == {}
  }

  // ---------------------------------------------------------------------------
  // The invariant
  // ---------------------------------------------------------------------------

  ghost predicate Held(w: World, t: nat) {
    t < |w.server.tokens| && w.server.tokens[t].family in w.mine
  }

  ghost predicate AtTip(w: World, t: nat) {
    t < |w.server.tokens| && w.server.tokens[t].replacedBy.None?
  }

  /** The server has exchanged `t` for call `i`. */
  ghost predicate GrantedFor(w: World, i: nat, t: nat) {
    i < |w.client.calls| && w.client.calls[i].token == t && w.client.calls[i].answer.Granted?
  }

  /** No call has presented this token, and it has not reached the store. */
  ghost predicate Undelivered(w: World, n: nat) {
    w.client.stored != Some(n) && forall j :: 0 <= j < |w.client.calls| ==> w.client.calls[j].token != n
  }

  ghost predicate CallOk(w: World, i: nat)
    requires i < |w.client.calls|
  {
    var call := w.client.calls[i];
    && Held(w, call.token)
    && (call.answer.Granted? ==>
          && w.server.tokens[call.token].replacedBy == Some(call.answer.token)
          && (call.fate.Open? ==> Undelivered(w, call.answer.token)))
  }

  ghost predicate StoredOk(w: World) {
    w.client.stored.Some? ==>
      && Held(w, w.client.stored.value)
      && forall j :: 0 <= j < |w.client.calls| && w.client.calls[j].token == w.client.stored.value ==> !w.client.calls[j].fate.Ended?
  }

  /** Every exchange of one of this client's tokens was for one of its own calls. */
  ghost predicate SpentByCalls(w: World) {
    forall t: nat :: Held(w, t) && !AtTip(w, t) ==> exists i: nat :: GrantedFor(w, i, t)
  }

  ghost predicate Coherent(w: World) {
    && Linked(w.server.tokens)
    && ClientOk(w.client)
    && (forall f :: f in w.mine ==> f < |w.server.tokens|)
    && (forall i :: 0 <= i < |w.client.calls| ==> CallOk(w, i))
    && StoredOk(w)
    && SpentByCalls(w)
  }

  // ---------------------------------------------------------------------------
  // Every step keeps it
  // ---------------------------------------------------------------------------

  /** Steps of the client alone never change what a call presented or was answered. */
  ghost predicate SameAnswers(before: seq<RefreshCall>, after: seq<RefreshCall>) {
    && |before| <= |after|
    && forall i :: 0 <= i < |before| ==> after[i].token == before[i].token && after[i].answer == before[i].answer
  }

  lemma SameAnswersKeepSpent(w: World, w': World)
    requires SpentByCalls(w) && w'.server == w.server && w'.mine == w.mine && SameAnswers(w.client.calls, w'.client.calls)
    ensures SpentByCalls(w')
  {
    forall t: nat | Held(w', t) && !AtTip(w', t)
      ensures exists i: nat :: GrantedFor(w', i, t)
    {
      assert Held(w, t) && !AtTip(w, t);
      var i: nat :| GrantedFor(w, i, t);
      assert GrantedFor(w', i, t);
    }
  }

  lemma ClientStepKeepsCoherent(w: World, e: Event)
    requires Coherent(w) && Allowed(w, e)
    requires e.ClientSends? || e.GotOtherAnswer? || e.LogOut? || e.Reload?
    ensures Coherent(Next(w, e))
  {
    var w' := Next(w, e);
    SameAnswersKeepSpent(w, w');
    if e.GotOtherAnswer? { UnauthorizedKeepsClientOk(w.client, e.request, false); }
    if e.ClientSends? { SendKeepsClientOk(w.client, e.mutating, e.ownKey); }
    if e.Reload? { ReloadKeepsClientOk(w.client); }
    forall i | 0 <= i < |w'.client.calls|
      ensures CallOk(w', i)
    {
      assert CallOk(w, i);
    }
  }

  lemma UnauthorizedKeepsCoherent(w: World, i: nat, authRoute: bool)
    requires Coherent(w) && OnTheWire(w.client, i)
    ensures Coherent(Next(w, GotUnauthorized(i, authRoute)))
  {
    var w' := Next(w, GotUnauthorized(i, authRoute));
    SameAnswersKeepSpent(w, w');
    UnauthorizedKeepsClientOk(w.client, i, authRoute);
    forall k | 0 <= k < |w'.client.calls|
      ensures CallOk(w', k)
    {
      if k < |w.client.calls| { assert CallOk(w, k); }
    }
  }

  lemma RefreshEndKeepsCoherent(w: World, e: Event)
    requires Coherent(w) && Allowed(w, e) && (e.RefreshAnswerArrives? || e.RefreshAnswerLost?)
    ensures Coherent(Next(w, e))
  {
    var w' := Next(w, e);
    var r := w.client.refreshing.value;
    assert CallOk(w, r);
    assert LinkOk(w.server.tokens, w.client.calls[r].token);
    SameAnswersKeepSpent(w, w');
    RefreshEndKeepsClientOk(w.client, w'.client.stored);
    forall k | 0 <= k < |w'.client.calls|
      ensures CallOk(w', k)
    {
      assert CallOk(w, k);
    }
  }

  lemma CallTokensExist(w: World)
    requires Coherent(w)
    ensures forall j :: 0 <= j < |w.client.calls| ==> w.client.calls[j].token < |w.server.tokens|
  {
    forall j | 0 <= j < |w.client.calls|
      ensures w.client.calls[j].token < |w.server.tokens|
    {
      assert CallOk(w, j);
    }
  }

  /** A refused call changes nothing but its own answer. */
  lemma RefusalKeepsCoherent(w: World, i: nat, now: int)
    requires Coherent(w) && Allowed(w, ServerHandles(i, now))
    requires Refresh(w.server, w.client.calls[i].token, now).Err?
    ensures Coherent(Next(w, ServerHandles(i, now)))
  {
    var w' := Next(w, ServerHandles(i, now));
    forall k | 0 <= k < |w'.client.calls|
      ensures CallOk(w', k)
    {
      assert CallOk(w, k);
    }
    forall t: nat | Held(w', t) && !AtTip(w', t)
      ensures exists k: nat :: GrantedFor(w', k, t)
    {
      assert Held(w, t) && !AtTip(w, t);
      var k: nat :| GrantedFor(w, k, t);
      assert GrantedFor(w', k, t);
    }
  }

  /** The calls after the server rotated the token of call `i`. */
  lemma RotationKeepsCalls(w: World, i: nat, now: int, k: nat)
    requires Coherent(w) && Allowed(w, ServerHandles(i, now)) && k < |w.client.calls|
    requires Refresh(w.server, w.client.calls[i].token, now).Ok?
    ensures CallOk(Next(w, ServerHandles(i, now)), k)
  {
    assert CallOk(w, i) && CallOk(w, k);
    assert LinkOk(w.server.tokens, w.client.calls[i].token);
    CallTokensExist(w);
  }

  lemma RotationKeepsSpent(w: World, i: nat, now: int)
    requires Coherent(w) && Allowed(w, ServerHandles(i, now))
    requires Refresh(w.server, w.client.calls[i].token, now).Ok?
    ensures SpentByCalls(Next(w, ServerHandles(i, now)))
  {
    var w' := Next(w, ServerHandles(i, now));
    forall t: nat | Held(w', t) && !AtTip(w', t)
      ensures exists k: nat :: GrantedFor(w', k, t)
    {
      if t == w.client.calls[i].token {
        assert GrantedFor(w', i, t);
      } else {
        assert Held(w, t) && !AtTip(w, t);
        var k: nat :| GrantedFor(w, k, t);
        assert GrantedFor(w', k, t);
      }
    }
  }

  lemma RotationKeepsCoherent(w: World, i: nat, now: int)
    requires Coherent(w) && Allowed(w, ServerHandles(i, now))
    requires Refresh(w.server, w.client.calls[i].token, now).Ok?
    ensures Coherent(Next(w, ServerHandles(i, now)))
  {
    var w' := Next(w, ServerHandles(i, now));
    StepKeepsLinked(w.server, DoRefresh(w.client.calls[i].token, now));
    RotationKeepsSpent(w, i, now);
    forall k | 0 <= k < |w'.client.calls|
      ensures CallOk(w', k)
    {
      RotationKeepsCalls(w, i, now, k);
    }
  }

  lemma HandlingKeepsCoherent(w: World, i: nat, now: int)
    requires Coherent(w) && Allowed(w, ServerHandles(i, now))
    ensures Coherent(Next(w, ServerHandles(i, now)))
  {
    if Refresh(w.server, w.client.calls[i].token, now).Ok? {
      RotationKeepsCoherent(w, i, now);
    } else {
      RefusalKeepsCoherent(w, i, now);
    }
  }

  /** Calls live on while the server only gains tokens and marks. */
  lemma CallsOutlive(w: World, w': World)
    requires Coherent(w) && w'.client.calls == w.client.calls
    requires forall t: nat :: Held(w, t) ==> Held(w', t) && w'.server.tokens[t].replacedBy == w.server.tokens[t].replacedBy
    requires forall t: nat :: Held(w', t) && !AtTip(w', t) ==> Held(w, t)
    requires w'.client.stored == w.client.stored || w'.client.stored == Some(|w.server.tokens|)
    ensures forall k :: 0 <= k < |w'.client.calls| ==> CallOk(w', k)
    ensures SpentByCalls(w')
  {
    forall k | 0 <= k < |w'.client.calls|
      ensures CallOk(w', k)
    {
      assert CallOk(w, k);
      assert LinkOk(w.server.tokens, w.client.calls[k].token);
    }
    forall t: nat | Held(w', t) && !AtTip(w', t)
      ensures exists k: nat :: GrantedFor(w', k, t)
    {
      var k: nat :| GrantedFor(w, k, t);
      assert GrantedFor(w', k, t);
    }
  }

  lemma LogInKeepsCoherent(w: World, org: nat, user: UserId, now: int)
    requires Coherent(w)
    ensures Coherent(Next(w, LogIn(org, user, now)))
  {
    IssueKeepsLinked(w.server, org, user, now);
    CallTokensExist(w);
    var w' := Next(w, LogIn(org, user, now));
    forall t: nat | Held(w', t) && !AtTip(w', t)
      ensures Held(w, t)
    {
      assert LinkOk(w.server.tokens, t);
    }
    CallsOutlive(w, w');
  }

  lemma ElsewhereKeepsCoherent(w: World, a: Sessions.Action)
    requires Coherent(w) && Allowed(w, Elsewhere(a))
    ensures Coherent(Next(w, Elsewhere(a)))
  {
    var w' := Next(w, Elsewhere(a));
    StepKeepsLinked(w.server, a);
    forall t: nat | Held(w, t)
      ensures Held(w', t) && w'.server.tokens[t].replacedBy == w.server.tokens[t].replacedBy
    {
    }
    CallsOutlive(w, w');
  }

  lemma StepKeepsCoherent(w: World, e: Event)
    requires Coherent(w) && Allowed(w, e)
    ensures Coherent(Next(w, e))
  {
    match e
    case GotUnauthorized(i, authRoute) => UnauthorizedKeepsCoherent(w, i, authRoute);
    case ServerHandles(i, now) => HandlingKeepsCoherent(w, i, now);
    case RefreshAnswerArrives => RefreshEndKeepsCoherent(w, e);
    case RefreshAnswerLost => RefreshEndKeepsCoherent(w, e);
    case LogIn(org, user, now) => LogInKeepsCoherent(w, org, user, now);
    case Elsewhere(a) => ElsewhereKeepsCoherent(w, a);
    case _ => ClientStepKeepsCoherent(w, e);
  }

  lemma {:induction false} RunsStayCoherent(w: World, events: seq<Event>)
    requires Coherent(w) && Possible(w, events)
    ensures Coherent(After(w, events))
    decreases |events|
  {
    if events != [] {
      StepKeepsCoherent(w, events[0]);
      RunsStayCoherent(Next(w, events[0]), events[1..]);
    }
  }

  // ---------------------------------------------------------------------------
  // Runs without revocation: a token is revoked only by being replaced
  // ---------------------------------------------------------------------------

  ghost predicate RevokedOnlyByRotation(s: Server) {
    forall i :: 0 <= i < |s.tokens| && s.tokens[i].revokedAt.Some? ==> s.tokens[i].replacedBy.Some?
  }

  ghost predicate NoRevocation(e: Event) {
    e.Elsewhere? ==> !e.action.DoRevoke? && !e.action.DoRevokeAll?
  }

  lemma {:induction false} OnlyRotationRevokes(w: World, events: seq<Event>)
    requires Possible(w, events) && RevokedOnlyByRotation(w.server)
    requires forall i :: 0 <= i < |events| ==> NoRevocation(events[i])
    ensures RevokedOnlyByRotation(After(w, events).server)
    decreases |events|
  {
    if events != [] {
      assert NoRevocation(events[0]);
      OnlyRotationRevokes(Next(w, events[0]), events[1..]);
    }
  }

  /** `t` is the last token of its login's chain and the only one of that login still unrevoked. */
  ghost predicate SoleLiveTip(s: Server, t: nat) {
    && t < |s.tokens| && s.tokens[t].replacedBy.None? && s.tokens[t].revokedAt.None?
    && forall j :: 0 <= j < |s.tokens| && s.tokens[j].family == s.tokens[t].family && s.tokens[j].revokedAt.None? ==> j == t
  }

  lemma TipIsSoleLive(s: Server, t: nat)
    requires Linked(s.tokens) && RevokedOnlyByRotation(s) && t < |s.tokens| && s.tokens[t].replacedBy.None?
    ensures SoleLiveTip(s, t)
  {
    forall j | 0 <= j < |s.tokens| && s.tokens[j].family == s.tokens[t].family && s.tokens[j].revokedAt.None?
      ensures j == t
    {
      assert LinkOk(s.tokens, j) && LinkOk(s.tokens, t);
    }
  }

  /** A call abandoned by a reload presented `t`, and the server exchanged it. */
  ghost predicate SpentOnAbandoned(w: World, t: nat) {
    exists i: nat :: GrantedFor(w, i, t) && w.client.calls[i].fate.Abandoned?
  }

  lemma StoredTipIff(w: World)
    requires Coherent(w) && w.client.refreshing.None? && w.client.stored.Some?
    ensures AtTip(w, w.client.stored.value) <==> !SpentOnAbandoned(w, w.client.stored.value)
  {
    var t := w.client.stored.value;
    if !AtTip(w, t) {
      var i: nat :| GrantedFor(w, i, t);
      assert w.client.calls[i].fate.Abandoned?;
    }
    if i: nat :| GrantedFor(w, i, t) {
      assert CallOk(w, i);
    }
  }

  /**
   * Whatever is lost, reloaded or done elsewhere, whenever no refresh is in flight
   * the stored token is absent, or it is the end of its login's chain exactly when
   * no call abandoned by a reload has been granted for it; without revocations it
   * is then the login's only live token.  At most one refresh is open, and each
   * request goes out at most twice under one key.
   */
  lemma StoredTokenIsTheLiveTip(w: World, events: seq<Event>)
    requires Fresh(w) && Possible(w, events)
    ensures var end := After(w, events);
            && ClientOk(end.client)
            && (end.client.refreshing.None? && end.client.stored.Some? ==>
                  var t := end.client.stored.value;
                  && (AtTip(end, t) <==> !SpentOnAbandoned(end, t))
                  && ((forall i :: 0 <= i < |events| ==> NoRevocation(events[i])) ==>
                        (SoleLiveTip(end.server, t) <==> !SpentOnAbandoned(end, t))))
  {
    RunsStayCoherent(w, events);
    var end := After(w, events);
    if end.client.refreshing.None? && end.client.stored.Some? {
      StoredTipIff(end);
      if forall i :: 0 <= i < |events| ==> NoRevocation(events[i]) {
        OnlyRotationRevokes(w, events);
        if AtTip(end, end.client.stored.value) {
          TipIsSoleLive(end.server, end.client.stored.value);
        }
      }
    }
  }

  // ---------------------------------------------------------------------------
  // Reloads
  // ---------------------------------------------------------------------------

  /** The page is reloaded only while no refresh is in flight. */
  ghost predicate AtRest(w: World, e: Event) {
    e.Reload? ==> w.client.refreshing.None?
  }

  ghost predicate AllAtRest(w: World, events: seq<Event>)
    requires Possible(w, events)
    decreases |events|
  {
    events != [] ==> AtRest(w, events[0]) && AllAtRest(Next(w, events[0]), events[1..])
  }

  /** No call is abandoned, and no token is presented by two calls. */
  ghost predicate OneCallPerToken(w: World) {
    && (forall i :: 0 <= i < |w.client.calls| ==> !w.client.calls[i].fate.Abandoned?)
    && (forall i, j :: 0 <= i < j < |w.client.calls| ==> w.client.calls[i].token != w.client.calls[j].token)
  }

  lemma StepKeepsOneCallPerToken(w: World, e: Event)
    requires Coherent(w) && OneCallPerToken(w) && Allowed(w, e) && AtRest(w, e)
    ensures OneCallPerToken(Next(w, e))
  {
  }

  /** Reloads at rest do no harm: the stored token is then always the tip. */
  lemma {:induction false} ReloadsAtRestKeepTheTip(w: World, events: seq<Event>)
    requires Coherent(w) && OneCallPerToken(w) && Possible(w, events) && AllAtRest(w, events)
    ensures var end := After(w, events);
            && OneCallPerToken(end)
            && (end.client.refreshing.None? && end.client.stored.Some? ==> AtTip(end, end.client.stored.value))
    decreases |events|
  {
    if events == [] {
      if w.client.refreshing.None? && w.client.stored.Some? {
        StoredTipIff(w);
      }
    } else {
      StepKeepsCoherent(w, events[0]);
      StepKeepsOneCallPerToken(w, events[0]);
      ReloadsAtRestKeepTheTip(Next(w, events[0]), events[1..]);
    }
  }

  /** A reload between the rotation and its answer. */
  function ReloadRun(org: nat, user: UserId, now: int): seq<Event> {
    [LogIn(org, user, now), ClientSends(false, None), GotUnauthorized(0, false), ServerHandles(0, now), Reload]
  }

  /** That run is possible from the start, and leaves a spent, revoked token in the store with no refresh in flight. */
  lemma ReloadLeavesASpentToken(w: World, org: nat, user: UserId, now: int)
    requires Fresh(w) && user !in w.server.inactive
    ensures Possible(w, ReloadRun(org, user, now))
    ensures var end := After(w, ReloadRun(org, user, now));
            && end.client.refreshing.None? && end.client.stored == Some(0)
            && |end.server.tokens| == 2 && !AtTip(end, 0) && end.server.tokens[0].revokedAt.Some?
            && SpentOnAbandoned(end, 0)
  {
    var run := ReloadRun(org, user, now);
    var w1 := Next(w, run[0]);
    var w2 := Next(w1, run[1]);
    var w3 := Next(w2, run[2]);
    var w4 := Next(w3, run[3]);
    var w5 := Next(w4, run[4]);
    assert GrantedFor(w5, 0, 0);
    PlayOne(w5, [], w5);
    PlayOne(w4, run[4..], w5);
    PlayOne(w3, run[3..], w5);
    PlayOne(w2, run[2..], w5);
    PlayOne(w1, run[1..], w5);
    PlayOne(w, run, w5);
  }

  /** Unrolls one event of a run that ends in `end`. */
  lemma PlayOne(w: World, events: seq<Event>, end: World)
    requires events == [] ==> w == end
    requires events != [] ==>
               && Allowed(w, events[0])
               && Possible(Next(w, events[0]), events[1..]) && After(Next(w, events[0]), events[1..]) == end
    ensures Possible(w, events) && After(w, events) == end
  {
  }

  // ---------------------------------------------------------------------------
  // When the client is signed out by accident
  // ---------------------------------------------------------------------------

  /** No answer is lost, nothing is revoked, no token expires unused, no user is disabled, nobody logs out. */
  ghost predicate Calm(w: World, e: Event) {
    && NoRevocation(e)
    && !e.RefreshAnswerLost? && !e.LogOut?
    && (e.ServerHandles? && e.call < |w.client.calls| && w.client.calls[e.call].token < |w.server.tokens| ==>
          var t := w.server.tokens[w.client.calls[e.call].token];
          e.now <= t.expiresAt && t.user !in w.server.inactive)
  }

  ghost predicate AllCalm(w: World, events: seq<Event>)
    requires Possible(w, events)
    decreases |events|
  {
    events != [] ==> Calm(w, events[0]) && AllCalm(Next(w, events[0]), events[1..])
  }

  ghost predicate NeverRefused(w: World) {
    forall i :: 0 <= i < |w.client.calls| ==> w.client.calls[i].answer != Refused
  }

  /** The server handles a call only while nobody has been granted an exchange of its token. */
  ghost predicate Undisputed(w: World, e: Event) {
    e.ServerHandles? && e.call < |w.client.calls| ==> forall j: nat :: !GrantedFor(w, j, w.client.calls[e.call].token)
  }

  ghost predicate AllUndisputed(w: World, events: seq<Event>)
    requires Possible(w, events)
    decreases |events|
  {
    events != [] ==> Undisputed(w, events[0]) && AllUndisputed(Next(w, events[0]), events[1..])
  }

  /** In calm conditions a refresh is refused exactly when another call has already spent its token. */
  lemma RefusedIffDisputed(w: World, i: nat, now: int)
    requires Coherent(w) && RevokedOnlyByRotation(w.server)
    requires Allowed(w, ServerHandles(i, now)) && Calm(w, ServerHandles(i, now))
    ensures Refresh(w.server, w.client.calls[i].token, now).Err? <==> !Undisputed(w, ServerHandles(i, now))
  {
    var t := w.client.calls[i].token;
    assert CallOk(w, i) && LinkOk(w.server.tokens, t);
    if !AtTip(w, t) {
      var j: nat :| GrantedFor(w, j, t);
    }
    if j: nat :| GrantedFor(w, j, t) {
      assert CallOk(w, j);
    }
  }

  lemma {:induction false} RefusalsLast(w: World, events: seq<Event>)
    requires Possible(w, events) && !NeverRefused(w)
    ensures !NeverRefused(After(w, events))
    decreases |events|
  {
    if events != [] {
      var i :| 0 <= i < |w.client.calls| && w.client.calls[i].answer == Refused;
      assert Next(w, events[0]).client.calls[i].answer == Refused;
      RefusalsLast(Next(w, events[0]), events[1..]);
    }
  }

  lemma CalmStep(w: World, e: Event)
    requires Coherent(w) && RevokedOnlyByRotation(w.server) && NeverRefused(w) && Allowed(w, e) && Calm(w, e)
    ensures RevokedOnlyByRotation(Next(w, e).server)
    ensures NeverRefused(Next(w, e)) <==> Undisputed(w, e)
    ensures NeverRefused(Next(w, e)) && w.client.stored.Some? ==> Next(w, e).client.stored.Some?
  {
    if e.ServerHandles? {
      RefusedIffDisputed(w, e.call, e.now);
      assert CallOk(w, e.call);
      if Refresh(w.server, w.client.calls[e.call].token, e.now).Err? {
        assert Next(w, e).client.calls[e.call].answer == Refused;
      }
    }
  }

  /**
   * In calm runs, reloads included, the server refuses no refresh exactly when each
   * is handled while its token is unspent; a signed-in client then stays signed in.
   */
  lemma {:induction false} NeverRefusedIffUndisputed(w: World, events: seq<Event>)
    requires Coherent(w) && RevokedOnlyByRotation(w.server) && NeverRefused(w)
    requires Possible(w, events) && AllCalm(w, events)
    ensures NeverRefused(After(w, events)) <==> AllUndisputed(w, events)
    ensures AllUndisputed(w, events) && w.client.stored.Some? ==> After(w, events).client.stored.Some?
    decreases |events|
  {
    if events != [] {
      var w' := Next(w, events[0]);
      StepKeepsCoherent(w, events[0]);
      CalmStep(w, events[0]);
      if NeverRefused(w') {
        NeverRefusedIffUndisputed(w', events[1..]);
      } else {
        RefusalsLast(w', events[1..]);
      }
    }
  }

  lemma {:induction false} ReloadsAtRestAreUndisputed(w: World, events: seq<Event>)
    requires Coherent(w) && OneCallPerToken(w) && Possible(w, events) && AllAtRest(w, events)
    ensures AllUndisputed(w, events)
    decreases |events|
  {
    if events != [] {
      StepKeepsCoherent(w, events[0]);
      StepKeepsOneCallPerToken(w, events[0]);
      ReloadsAtRestAreUndisputed(Next(w, events[0]), events[1..]);
    }
  }

  /** So calm runs whose reloads never interrupt a refresh have every refresh accepted, and never sign the user out. */
  lemma CalmRunsNeverSignOut(w: World, events: seq<Event>)
    requires Coherent(w) && OneCallPerToken(w) && RevokedOnlyByRotation(w.server) && NeverRefused(w)
    requires Possible(w, events) && AllCalm(w, events) && AllAtRest(w, events)
    ensures NeverRefused(After(w, events))
    ensures w.client.stored.Some? ==> After(w, events).client.stored.Some?
  {
    ReloadsAtRestAreUndisputed(w, events);
    NeverRefusedIffUndisputed(w, events);
  }

  /**
   * What the store holds after each event: the login's fresh token, nothing after
   * signing out or a lost answer, the token of the answer or nothing when it was a
   * refusal, and otherwise what it held.
   */
  lemma WhatTheStoreHolds(w: World, e: Event)
    requires Allowed(w, e)
    ensures var now, n := Next(w, e).client.stored, |w.server.tokens|;
            match e
            case LogIn(org, user, at) =>
              now == Some(n) && |Next(w, e).server.tokens| == n + 1 && FreshFor(Next(w, e).server.tokens[n], org, user, n, at)
            case LogOut => now == None
            case RefreshAnswerLost => now == None
            case RefreshAnswerArrives =>
              forall t: nat :: now == Some(t) <==> w.client.calls[w.client.refreshing.value].answer == Granted(t)
            case _ => now == w.client.stored
  {
  }
}
