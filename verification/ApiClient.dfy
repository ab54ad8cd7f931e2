/**
 * The browser's HTTP client: the idempotency key and the single-flight token
 * refresh with one retry per request.  Each network answer is one step; all
 * requests waiting on a refresh resume in the step that delivers its answer.
 */
module ApiClient {
  import opened Common

  type Key = nat

  datatype Answer = Unanswered | Granted(token: nat) | Refused

  /** Awaited by the page, ended by its answer or by a failure, or abandoned when the page was reloaded. */
  datatype Fate = Open | Ended | Abandoned

  /** A call of the refresh endpoint, with the answer the server has given it. */
  datatype RefreshCall = RefreshCall(token: nat, answer: Answer, fate: Fate)

  datatype Phase = Sent | Waiting | Resent | Done

  /** `sends` is the Idempotency-Key header of each time the request went out. */
  datatype Http = Http(key: Option<Key>, retried: bool, phase: Phase, sends: seq<Option<Key>>)

  datatype Client = Client(
    stored: Option<nat>,
    refreshing: Option<nat>,
    calls: seq<RefreshCall>,
    requests: seq<Http>,
    nextKey: Key)

  // ---------------------------------------------------------------------------
  // Handlers
  // ---------------------------------------------------------------------------

  /** A caller's own key is kept; other writes get a fresh one; reads get none. */
  function Send(c: Client, mutating: bool, ownKey: Option<Key>): Client {
    var needsKey := mutating && ownKey.None?;
    var key := if needsKey then Some(c.nextKey) else ownKey;
    c.(requests := c.requests + [Http(key, false, Sent, [key])],
       nextKey := if needsKey then c.nextKey + 1 else c.nextKey)
  }

  predicate OnTheWire(c: Client, i: nat) {
    i < |c.requests| && (c.requests[i].phase == Sent || c.requests[i].phase == Resent)
  }

  function Settle(c: Client, i: nat): Client
    requires i < |c.requests|
  {
    c.(requests := c.requests[i := c.requests[i].(phase := Done)])
  }

  /** A 401 joins the refresh in flight, or starts one; a second 401, or one from an auth route, is final. */
  function Unauthorized(c: Client, i: nat, authRoute: bool): Client
    requires OnTheWire(c, i)
  {
    var r := c.requests[i];
    if r.retried || authRoute then Settle(c, i)
    else
      var marked := c.(requests := c.requests[i := r.(retried := true, phase := Waiting)]);
      if c.refreshing.Some? then marked
      else if c.stored.None? then Settle(marked, i)
      else marked.(refreshing := Some(|c.calls|), calls := c.calls + [RefreshCall(c.stored.value, Unanswered, Open)])
  }

  function Resume(r: Http, granted: bool): Http {
    if r.phase != Waiting then r
    else if granted then r.(phase := Resent, sends := r.sends + [r.key])
    else r.(phase := Done)
  }

  function ResumeAll(rs: seq<Http>, granted: bool): (out: seq<Http>)
    ensures |out| == |rs|
    ensures forall i :: 0 <= i < |rs| ==> out[i] == Resume(rs[i], granted)
  {
    seq(|rs|, i requires 0 <= i < |rs| => Resume(rs[i], granted))
  }

  predicate Refreshing(c: Client) {
    c.refreshing.Some? && c.refreshing.value < |c.calls|
  }

  /** The refresh ended: with a new token, or in any other way. */
  function RefreshEnded(c: Client, granted: Option<nat>): Client
    requires Refreshing(c)
  {
    var i := c.refreshing.value;
    Client(granted, None, c.calls[i := c.calls[i].(fate := Ended)], ResumeAll(c.requests, granted.Some?), c.nextKey)
  }

  /**
   * The page is loaded anew: the stored token is persisted, but the refresh in
   * flight and all pending requests go with the old page.
   */
  function Reloaded(c: Client): Client {
    c.(refreshing := None,
       calls := seq(|c.calls|, i requires 0 <= i < |c.calls| =>
         if c.calls[i].fate.Open? then c.calls[i].(fate := Abandoned) else c.calls[i]),
       requests := seq(|c.requests|, i requires 0 <= i < |c.requests| => c.requests[i].(phase := Done)))
  }

  // ---------------------------------------------------------------------------
  // The interceptors as an object
  // ---------------------------------------------------------------------------

  class Api {
    var stored: Option<nat>
    var refreshing: Option<nat>
    var calls: seq<RefreshCall>
    var requests: seq<Http>
    var nextKey: Key

    ghost function View(): Client
      reads this
    {
      Client(stored, refreshing, calls, requests, nextKey)
    }

    constructor ()
      ensures View() == Client(None, None, [], [], 0)
    {
      stored, refreshing, calls, requests, nextKey := None, None, [], [], 0;
    }

    method OnRequest(mutating: bool, ownKey: Option<Key>)
      modifies this
      ensures View() == Send(old(View()), mutating, ownKey)
    {
      var key := ownKey;
      if mutating && key.None? {
        key := Some(nextKey);
        nextKey := nextKey + 1;
      }
      requests := requests + [Http(key, false, Sent, [key])];
    }

    method OnUnauthorized(i: nat, authRoute: bool)
      requires OnTheWire(View(), i)
      modifies this
      ensures View() == Unauthorized(old(View()), i, authRoute)
    {
      var original := requests[i];
      if !original.retried && !authRoute {
        original := original.(retried := true, phase := Waiting);
        if refreshing.None? {
          if stored.None? {
            original := original.(phase := Done);
          } else {
            calls := calls + [RefreshCall(stored.value, Unanswered, Open)];
            refreshing := Some(|calls| - 1);
          }
        }
      } else {
        original := original.(phase := Done);
      }
      requests := requests[i := original];
    }

    method OnRefreshEnded(granted: Option<nat>)
      requires Refreshing(View())
      modifies this
      ensures View() == RefreshEnded(old(View()), granted)
    {
      stored := granted;
      calls := calls[refreshing.value := calls[refreshing.value].(fate := Ended)];
      refreshing := None;
      var i := 0;
      while i < |requests|
        invariant i <= |requests| == |old(requests)|
        invariant forall k :: 0 <= k < |requests| ==>
                    requests[k] == if k < i then Resume(old(requests)[k], granted.Some?) else old(requests)[k]
        invariant stored == granted && refreshing == None && nextKey == old(nextKey)
        invariant calls == RefreshEnded(old(View()), granted).calls
      {
        var r := requests[i];
        if r.phase == Waiting {
          if granted.Some? {
            r := r.(phase := Resent, sends := r.sends + [r.key]);
          } else {
            r := r.(phase := Done);
          }
        }
        requests := requests[i := r];
        i := i + 1;
      }
      assert requests == ResumeAll(old(requests), granted.Some?);
    }
  }

  // ---------------------------------------------------------------------------
  // What the client keeps true by itself
  // ---------------------------------------------------------------------------

  ghost predicate HttpOk(r: Http) {
    && 1 <= |r.sends| <= 2
    && (forall k :: 0 <= k < |r.sends| ==> r.sends[k] == r.key)
    && (|r.sends| == 2 ==> r.retried)
    && (r.phase == Sent ==> !r.retried)
    && (r.phase == Waiting ==> r.retried && |r.sends| == 1)
    && (r.phase == Resent ==> r.retried)
  }

  /** One refresh at most is open; every request goes out at most twice, with one and the same key. */
  ghost predicate ClientOk(c: Client) {
    && (c.refreshing.Some? ==> c.refreshing.value < |c.calls|)
    && (forall i :: 0 <= i < |c.calls| ==> (c.calls[i].fate.Open? <==> c.refreshing == Some(i)))
    && (forall i :: 0 <= i < |c.requests| ==> HttpOk(c.requests[i]))
    && (forall i :: 0 <= i < |c.requests| && c.requests[i].phase == Waiting ==> c.refreshing.Some?)
  }

  lemma SendKeepsClientOk(c: Client, mutating: bool, ownKey: Option<Key>)
    requires ClientOk(c)
    ensures ClientOk(Send(c, mutating, ownKey))
  {
  }

  lemma UnauthorizedKeepsClientOk(c: Client, i: nat, authRoute: bool)
    requires ClientOk(c) && OnTheWire(c, i)
    ensures ClientOk(Settle(c, i)) && ClientOk(Unauthorized(c, i, authRoute))
  {
  }

  lemma RefreshEndKeepsClientOk(c: Client, granted: Option<nat>)
    requires ClientOk(c) && Refreshing(c)
    ensures ClientOk(RefreshEnded(c, granted))
  {
  }

  lemma ReloadKeepsClientOk(c: Client)
    requires ClientOk(c)
    ensures ClientOk(Reloaded(c))
  {
  }

  // ---------------------------------------------------------------------------
  // What the interceptors do
  // ---------------------------------------------------------------------------

  /** The caller's key goes out as it is; a write without one gets the next fresh key; a read without one gets none. */
  lemma SendKeepsTheCallersKey(c: Client, mutating: bool, ownKey: Option<Key>)
    ensures var after, n := Send(c, mutating, ownKey), |c.requests|;
            && after.stored == c.stored && after.refreshing == c.refreshing && after.calls == c.calls
            && |after.requests| == n + 1 && after.requests[..n] == c.requests
            && after.requests[n].sends == [after.requests[n].key] && after.requests[n].phase == Sent && !after.requests[n].retried
            && (ownKey.Some? ==> after.requests[n].key == ownKey && after.nextKey == c.nextKey)
            && (ownKey.None? && mutating ==> after.requests[n].key == Some(c.nextKey) && after.nextKey > c.nextKey)
            && (ownKey.None? && !mutating ==> after.requests[n].key == None && after.nextKey == c.nextKey)
  {
  }

  /**
   * A 401 is final for a request that was retried before, that went to an auth
   * route, or when there is no token to refresh with; any other waits, and a
   * refresh with the stored token is started exactly when none is in flight.
   */
  lemma UnauthorizedWaitsOrEnds(c: Client, i: nat, authRoute: bool)
    requires OnTheWire(c, i)
    ensures var after, r := Unauthorized(c, i, authRoute), c.requests[i];
            var ends := r.retried || authRoute || (c.refreshing == None && c.stored == None);
            && after.stored == c.stored && after.nextKey == c.nextKey && |after.requests| == |c.requests|
            && (forall k :: 0 <= k < |c.requests| && k != i ==> after.requests[k] == c.requests[k])
            && after.requests[i].key == r.key && after.requests[i].sends == r.sends
            && after.requests[i].phase == (if ends then Done else Waiting)
            && (!ends ==> after.requests[i].retried)
            && (if !ends && c.refreshing == None then
                  && after.refreshing == Some(|c.calls|)
                  && after.calls == c.calls + [RefreshCall(c.stored.value, Unanswered, Open)]
                else after.refreshing == c.refreshing && after.calls == c.calls)
  {
  }

  /** When the refresh ends, its token is stored or the store is cleared, and every waiting request goes out again with its own key, or ends. */
  lemma RefreshEndResumesTheWaiting(c: Client, granted: Option<nat>)
    requires Refreshing(c)
    ensures var after := RefreshEnded(c, granted);
            && after.stored == granted && after.refreshing == None && after.nextKey == c.nextKey
            && after.calls == c.calls[c.refreshing.value := c.calls[c.refreshing.value].(fate := Ended)]
            && |after.requests| == |c.requests|
            && forall k :: 0 <= k < |c.requests| ==>
                 && after.requests[k].key == c.requests[k].key && after.requests[k].retried == c.requests[k].retried
                 && (c.requests[k].phase != Waiting ==> after.requests[k] == c.requests[k])
                 && (c.requests[k].phase == Waiting && granted.Some? ==>
                       after.requests[k].phase == Resent && after.requests[k].sends == c.requests[k].sends + [c.requests[k].key])
                 && (c.requests[k].phase == Waiting && granted.None? ==>
                       after.requests[k].phase == Done && after.requests[k].sends == c.requests[k].sends)
  {
  }

  /** A reload keeps what is persisted, abandons the refresh in flight, and ends every request of the old page. */
  lemma ReloadKeepsOnlyTheStore(c: Client)
    ensures var after := Reloaded(c);
            && after.stored == c.stored && after.refreshing == None && after.nextKey == c.nextKey
            && |after.calls| == |c.calls| && |after.requests| == |c.requests|
            && (forall i :: 0 <= i < |c.calls| ==>
                  && after.calls[i].token == c.calls[i].token && after.calls[i].answer == c.calls[i].answer
                  && after.calls[i].fate == if c.calls[i].fate == Open then Abandoned else c.calls[i].fate)
            && (forall i :: 0 <= i < |c.requests| ==>
                  after.requests[i].phase == Done && after.requests[i].sends == c.requests[i].sends)
  {
  }
}
