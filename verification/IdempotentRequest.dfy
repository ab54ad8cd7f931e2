/**
 * The client's idempotency keys.  A slot of the session storage stands for the
 * (method, url, payload) it is computed from; keys are fresh.  The server, seen
 * from here, executes a key once and replays it afterwards.
 */
module IdempotentRequest {
  import opened Common

  type Payload = string
  type Key = nat

  /** One call of `send`; `open` until its answer arrives, it times out, or the page reloads. */
  datatype Send = Send(payload: Payload, key: Key, open: bool)

  datatype Reply = Success | Status(code: int, operationPending: bool) | NoReply

  /** A definitive answer that reached the client. */
  datatype Verdict = Verdict(payload: Payload, key: Key, success: bool)

  datatype Effect = Effect(payload: Payload, key: Key)

  datatype State = State(
    slots: map<Payload, Key>,
    sends: seq<Send>,
    nextKey: Key,
    effects: seq<Effect>,
    verdicts: seq<Verdict>,
    faults: seq<Payload>)

  const INITIAL := State(map[], [], 0, [], [], [])

  // ---------------------------------------------------------------------------
  // The client
  // ---------------------------------------------------------------------------

  /** A client error that will not change by waiting. */
  predicate IsDefinitive(r: Reply) {
    r.Status? && !(r.code == 409 && r.operationPending) && 400 <= r.code < 500
  }

  predicate Releases(r: Reply) {
    r.Success? || IsDefinitive(r)
  }

  /** The key of the slot, or a fresh one that is stored; either storage call may fail. */
  function KeyFor(slots: map<Payload, Key>, p: Payload, nextKey: Key, readFails: bool): Key {
    if !readFails && p in slots then slots[p] else nextKey
  }

  class Client {
    var slots: map<Payload, Key>
    var nextKey: Key
    var sends: seq<Send>

    constructor ()
      ensures slots == map[] && nextKey == 0 && sends == []
    {
      slots, nextKey, sends := map[], 0, [];
    }

    method OperationKeyFor(p: Payload, readFails: bool, writeFails: bool) returns (key: Key)
      modifies this`slots, this`nextKey
      ensures key == KeyFor(old(slots), p, old(nextKey), readFails)
      ensures slots == if (readFails || p !in old(slots)) && !writeFails then old(slots)[p := key] else old(slots)
      ensures nextKey == if readFails || p !in old(slots) then old(nextKey) + 1 else old(nextKey)
    {
      var found: Option<Key> := None;
      if !readFails && p in slots {
        found := Some(slots[p]);
      }
      if found.None? {
        found := Some(nextKey);
        nextKey := nextKey + 1;
        if !writeFails {
          slots := slots[p := found.value];
        }
      }
      key := found.value;
    }

    method StartSend(p: Payload, readFails: bool, writeFails: bool)
      modifies this
      ensures var after := Next(State(old(slots), old(sends), old(nextKey), [], [], []), Start(p, readFails, writeFails));
              slots == after.slots && nextKey == after.nextKey && sends == after.sends
    {
      var key := OperationKeyFor(p, readFails, writeFails);
      sends := sends + [Send(p, key, true)];
    }

    method OnReply(i: nat, reply: Reply, removeFails: bool)
      requires i < |sends|
      modifies this`slots, this`sends
      ensures sends == old(sends)[i := old(sends)[i].(open := false)]
      ensures slots == if Releases(reply) && !removeFails then old(slots) - {old(sends)[i].payload} else old(slots)
      ensures forall e, v, f :: Allowed(State(old(slots), old(sends), nextKey, e, v, f), Answer(i, reply, removeFails)) ==>
                var after := Next(State(old(slots), old(sends), nextKey, e, v, f), Answer(i, reply, removeFails));
                slots == after.slots && sends == after.sends
    {
      if reply.Success? || IsDefinitive(reply) {
        if !removeFails {
          slots := slots - {sends[i].payload};
        }
      }
      sends := sends[i := sends[i].(open := false)];
    }
  }

  // ---------------------------------------------------------------------------
  // Client and server together
  // ---------------------------------------------------------------------------

  datatype Event =
    | Start(payload: Payload, readFails: bool, writeFails: bool)
    | ServerExecutes(send: nat)
    | Answer(send: nat, reply: Reply, removeFails: bool)
    | Reload

  predicate Executed(s: State, key: Key) {
    exists i :: 0 <= i < |s.effects| && s.effects[i].key == key
  }

  /** Success is only ever reported for an executed key; the server may execute a key long after its send gave up. */
  predicate Allowed(s: State, e: Event) {
    match e
    case Start(_, _, _) => true
    case ServerExecutes(i) => i < |s.sends|
    case Answer(i, reply, _) =>
      i < |s.sends| && s.sends[i].open && (reply.Success? ==> Executed(s, s.sends[i].key))
    case Reload => true
  }

  function CloseAll(sends: seq<Send>): (r: seq<Send>)
    ensures |r| == |sends|
    ensures forall i :: 0 <= i < |sends| ==> r[i] == sends[i].(open := false)
  {
    seq(|sends|, i requires 0 <= i < |sends| => sends[i].(open := false))
  }

  function Next(s: State, e: Event): State
    requires Allowed(s, e)
  {
    match e
    case Start(p, readFails, writeFails) =>
      var key := KeyFor(s.slots, p, s.nextKey, readFails);
      var isNew := readFails || p !in s.slots;
      s.(slots := if isNew && !writeFails then s.slots[p := key] else s.slots,
         nextKey := if isNew then s.nextKey + 1 else s.nextKey,
         sends := s.sends + [Send(p, key, true)],
         faults := if readFails || writeFails then s.faults + [p] else s.faults)
    case ServerExecutes(i) =>
      if Executed(s, s.sends[i].key) then s
      else s.(effects := s.effects + [Effect(s.sends[i].payload, s.sends[i].key)])
    case Answer(i, reply, removeFails) =>
      var sent := s.sends[i];
      var closed := s.(sends := s.sends[i := sent.(open := false)]);
      if Releases(reply) then
        closed.(slots := if removeFails then s.slots else s.slots - {sent.payload},
                verdicts := s.verdicts + [Verdict(sent.payload, sent.key, reply.Success?)])
      else closed
    case Reload => s.(sends := CloseAll(s.sends))
  }

  ghost predicate Possible(s: State, events: seq<Event>)
    decreases |events|
  {
    events != [] ==> Allowed(s, events[0]) && Possible(Next(s, events[0]), events[1..])
  }

  ghost function After(s: State, events: seq<Event>): State
    requires Possible(s, events)
    decreases |events|
  {
    if events == [] then s else After(Next(s, events[0]), events[1..])
  }

  // ---------------------------------------------------------------------------
  // Basic bookkeeping
  // ---------------------------------------------------------------------------

  ghost predicate Uses(s: State, p: Payload, key: Key) {
    exists i :: 0 <= i < |s.sends| && s.sends[i].payload == p && s.sends[i].key == key
  }

  /** Keys were drawn from the counter, and no key serves two payloads. */
  ghost predicate KeysOk(sends: seq<Send>, nextKey: Key) {
    && (forall i :: 0 <= i < |sends| ==> sends[i].key < nextKey)
    && (forall i, j :: 0 <= i < j < |sends| && sends[i].key == sends[j].key ==> sends[i].payload == sends[j].payload)
  }

  ghost predicate Books(s: State) {
    && KeysOk(s.sends, s.nextKey)
    && (forall p :: p in s.slots ==> Uses(s, p, s.slots[p]))
    && (forall i :: 0 <= i < |s.effects| ==> Uses(s, s.effects[i].payload, s.effects[i].key))
    && (forall i, j :: 0 <= i < j < |s.effects| ==> s.effects[i].key != s.effects[j].key)
    && (forall i :: 0 <= i < |s.verdicts| ==> Uses(s, s.verdicts[i].payload, s.verdicts[i].key))
    && (forall i :: 0 <= i < |s.verdicts| && s.verdicts[i].success ==> Executed(s, s.verdicts[i].key))
  }

  lemma UsesLast(s: State, e: Event)
    requires Allowed(s, e)
    ensures forall p, key :: Uses(s, p, key) ==> Uses(Next(s, e), p, key)
    ensures e.Start? ==> Uses(Next(s, e), e.payload, KeyFor(s.slots, e.payload, s.nextKey, e.readFails))
  {
    var s' := Next(s, e);
    forall p, key | Uses(s, p, key)
      ensures Uses(s', p, key)
    {
      var i :| 0 <= i < |s.sends| && s.sends[i].payload == p && s.sends[i].key == key;
      assert s'.sends[i].payload == p && s'.sends[i].key == key;
    }
    if e.Start? {
      assert s'.sends[|s.sends|].payload == e.payload;
    }
  }

  lemma ExecutedLasts(s: State, e: Event)
    requires Allowed(s, e)
    ensures forall key :: Executed(s, key) ==> Executed(Next(s, e), key)
    ensures e.ServerExecutes? ==> Executed(Next(s, e), s.sends[e.send].key)
  {
    var s' := Next(s, e);
    forall key | Executed(s, key)
      ensures Executed(s', key)
    {
      var i :| 0 <= i < |s.effects| && s.effects[i].key == key;
      assert s'.effects[i] == s.effects[i];
    }
    if e.ServerExecutes? && !Executed(s, s.sends[e.send].key) {
      assert s'.effects[|s.effects|].key == s.sends[e.send].key;
    }
  }

  /** Same sends and same executions, apart from who is still open. */
  lemma AnswerKeepsBooks(s: State, i: nat, reply: Reply, removeFails: bool)
    requires Books(s) && Allowed(s, Answer(i, reply, removeFails))
    ensures Books(Next(s, Answer(i, reply, removeFails)))
  {
    UsesLast(s, Answer(i, reply, removeFails));
    ExecutedLasts(s, Answer(i, reply, removeFails));
    assert Uses(s, s.sends[i].payload, s.sends[i].key);
  }

  /** A reused key belongs to the payload it was made for. */
  lemma SlotKeyIsThePayloads(s: State, p: Payload)
    requires Books(s) && p in s.slots
    ensures s.slots[p] < s.nextKey
    ensures forall i :: 0 <= i < |s.sends| && s.sends[i].key == s.slots[p] ==> s.sends[i].payload == p
  {
    var k :| 0 <= k < |s.sends| && s.sends[k].payload == p && s.sends[k].key == s.slots[p];
    forall i | 0 <= i < |s.sends| && s.sends[i].key == s.slots[p]
      ensures s.sends[i].payload == p
    {
      if i < k { assert s.sends[i].payload == s.sends[k].payload; }
    }
  }

  /** The sends stay consistent whether the new one reuses its payload's key or brings a fresh one. */
  lemma NewSendKeepsKeys(sends: seq<Send>, nextKey: Key, p: Payload, key: Key)
    requires KeysOk(sends, nextKey) && key <= nextKey
    requires forall i :: 0 <= i < |sends| && sends[i].key == key ==> sends[i].payload == p
    ensures KeysOk(sends + [Send(p, key, true)], nextKey + 1)
    ensures key < nextKey ==> KeysOk(sends + [Send(p, key, true)], nextKey)
  {
  }

  lemma StartKeepsBooks(s: State, p: Payload, readFails: bool, writeFails: bool)
    requires Books(s)
    ensures Books(Next(s, Start(p, readFails, writeFails)))
  {
    var e := Start(p, readFails, writeFails);
    var s' := Next(s, e);
    UsesLast(s, e);
    ExecutedLasts(s, e);
    if !readFails && p in s.slots {
      SlotKeyIsThePayloads(s, p);
    }
    NewSendKeepsKeys(s.sends, s.nextKey, p, KeyFor(s.slots, p, s.nextKey, readFails));
    forall q | q in s'.slots
      ensures Uses(s', q, s'.slots[q])
    {
      if q in s.slots && s.slots[q] == s'.slots[q] { assert Uses(s, q, s.slots[q]); }
    }
  }

  lemma StepKeepsBooks(s: State, e: Event)
    requires Books(s) && Allowed(s, e)
    ensures Books(Next(s, e))
  {
    match e
    case Start(p, readFails, writeFails) => StartKeepsBooks(s, p, readFails, writeFails);
    case Answer(i, reply, removeFails) => AnswerKeepsBooks(s, i, reply, removeFails);
    case ServerExecutes(i) => ExecutionKeepsBooks(s, i);
    case Reload => ReloadKeepsBooks(s);
  }

  lemma ExecutionKeepsBooks(s: State, i: nat)
    requires Books(s) && i < |s.sends|
    ensures Books(Next(s, ServerExecutes(i)))
  {
    UsesLast(s, ServerExecutes(i));
    ExecutedLasts(s, ServerExecutes(i));
    assert Uses(s, s.sends[i].payload, s.sends[i].key);
  }

  lemma ReloadKeepsBooks(s: State)
    requires Books(s)
    ensures Books(Next(s, Reload))
  {
    UsesLast(s, Reload);
    ExecutedLasts(s, Reload);
  }

  // ---------------------------------------------------------------------------
  // At most one key per definitive answer
  // ---------------------------------------------------------------------------

  ghost function KeysOf(sends: seq<Send>, p: Payload): set<Key> {
    set i | 0 <= i < |sends| && sends[i].payload == p :: sends[i].key
  }

  ghost function VerdictsOn(vs: seq<Verdict>, p: Payload): nat {
    if vs == [] then 0
    else VerdictsOn(vs[..|vs| - 1], p) + if vs[|vs| - 1].payload == p then 1 else 0
  }

  ghost function FaultsOn(fs: seq<Payload>, p: Payload): nat {
    if fs == [] then 0
    else FaultsOn(fs[..|fs| - 1], p) + if fs[|fs| - 1] == p then 1 else 0
  }

  ghost function EffectsOn(es: seq<Effect>, p: Payload): nat {
    if es == [] then 0
    else EffectsOn(es[..|es| - 1], p) + if es[|es| - 1].payload == p then 1 else 0
  }

  /** An empty slot is the right to one more key; only a definitive answer or a storage fault buys it. */
  ghost predicate Budget(s: State, p: Payload) {
    |KeysOf(s.sends, p)| + (if p in s.slots then 0 else 1) <= 1 + VerdictsOn(s.verdicts, p) + FaultsOn(s.faults, p)
  }

  lemma OtherStartKeepsBudget(s: State, e: Event, p: Payload)
    requires Budget(s, p) && e.Start? && e.payload != p
    ensures Budget(Next(s, e), p)
  {
    FaultsSnoc(s.faults, e.payload, p);
    KeysSnoc(s.sends, Send(e.payload, KeyFor(s.slots, e.payload, s.nextKey, e.readFails), true), p);
  }

  lemma SlotKeyIsUsed(s: State, p: Payload)
    requires Books(s) && p in s.slots
    ensures s.slots[p] in KeysOf(s.sends, p)
  {
    var i :| 0 <= i < |s.sends| && s.sends[i].payload == p && s.sends[i].key == s.slots[p];
  }

  lemma AgainAMember(keys: set<Key>, key: Key)
    requires key in keys
    ensures keys + {key} == keys
  {
  }

  /** The slot's key is already one of the payload's keys. */
  lemma RetryKeepsBudget(s: State, e: Event, p: Payload)
    requires Books(s) && Budget(s, p) && e.Start? && e.payload == p && !e.readFails && p in s.slots
    ensures Budget(Next(s, e), p)
  {
    SlotKeyIsUsed(s, p);
    AgainAMember(KeysOf(s.sends, p), s.slots[p]);
    FaultsSnoc(s.faults, p, p);
    KeysSnoc(s.sends, Send(p, s.slots[p], true), p);
  }

  /** A fresh key fills the empty slot, or the storage has failed. */
  lemma NewKeyKeepsBudget(s: State, e: Event, p: Payload)
    requires Budget(s, p) && e.Start? && e.payload == p && (e.readFails || p !in s.slots)
    ensures Budget(Next(s, e), p)
  {
    FaultsSnoc(s.faults, p, p);
    KeysSnoc(s.sends, Send(p, s.nextKey, true), p);
    assert |KeysOf(s.sends, p) + {s.nextKey}| <= |KeysOf(s.sends, p)| + 1;
  }

  lemma StartKeepsBudget(s: State, e: Event, p: Payload)
    requires Books(s) && Budget(s, p) && e.Start?
    ensures Budget(Next(s, e), p)
  {
    if e.payload != p {
      OtherStartKeepsBudget(s, e, p);
    } else if !e.readFails && p in s.slots {
      RetryKeepsBudget(s, e, p);
    } else {
      NewKeyKeepsBudget(s, e, p);
    }
  }

  lemma FaultsSnoc(fs: seq<Payload>, q: Payload, p: Payload)
    ensures FaultsOn(fs + [q], p) == FaultsOn(fs, p) + if q == p then 1 else 0
  {
    assert (fs + [q])[..|fs|] == fs;
  }

  lemma StepKeepsBudget(s: State, e: Event, p: Payload)
    requires Books(s) && Budget(s, p) && Allowed(s, e)
    ensures Budget(Next(s, e), p)
  {
    var s' := Next(s, e);
    match e
    case Start(_, _, _) => StartKeepsBudget(s, e, p);
    case ServerExecutes(_) =>
    case Answer(i, reply, removeFails) => AnswerKeepsBudget(s, i, reply, removeFails, p);
    case Reload => SameKeys(s.sends, s'.sends, p);
  }

  /** Only a release of the payload's own slot touches its budget, and its verdict pays for it. */
  lemma AnswerKeepsBudget(s: State, i: nat, reply: Reply, removeFails: bool, p: Payload)
    requires Budget(s, p) && Allowed(s, Answer(i, reply, removeFails))
    ensures Budget(Next(s, Answer(i, reply, removeFails)), p)
  {
    var s', q := Next(s, Answer(i, reply, removeFails)), s.sends[i].payload;
    SameKeys(s.sends, s'.sends, p);
    if Releases(reply) {
      VerdictsSnoc(s.verdicts, Verdict(q, s.sends[i].key, reply.Success?), p);
      if q != p {
        assert p in s.slots - {q} <==> p in s.slots;
      }
    }
  }

  lemma VerdictsSnoc(vs: seq<Verdict>, v: Verdict, p: Payload)
    ensures VerdictsOn(vs + [v], p) == VerdictsOn(vs, p) + if v.payload == p then 1 else 0
  {
    assert (vs + [v])[..|vs|] == vs;
  }

  lemma KeysSnoc(sends: seq<Send>, d: Send, p: Payload)
    ensures KeysOf(sends + [d], p) == KeysOf(sends, p) + if d.payload == p then {d.key} else {}
  {
    var all := sends + [d];
    assert forall i :: 0 <= i < |sends| ==> all[i] == sends[i];
    assert all[|sends|] == d;
  }

  lemma SameKeys(a: seq<Send>, b: seq<Send>, p: Payload)
    requires |a| == |b| && forall i :: 0 <= i < |a| ==> b[i] == a[i].(open := b[i].open)
    ensures KeysOf(a, p) == KeysOf(b, p)
  {
    assert forall i :: 0 <= i < |a| ==> a[i].key == b[i].key && a[i].payload == b[i].payload;
  }

  lemma {:induction false} EffectsFitTheKeys(es: seq<Effect>, p: Payload, keys: set<Key>)
    requires forall i, j :: 0 <= i < j < |es| ==> es[i].key != es[j].key
    requires forall i :: 0 <= i < |es| && es[i].payload == p ==> es[i].key in keys
    ensures EffectsOn(es, p) <= |keys|
  {
    if es != [] {
      var init, last := es[..|es| - 1], es[|es| - 1];
      if last.payload == p {
        assert |keys - {last.key}| == |keys| - 1;
        EffectsFitTheKeys(init, p, keys - {last.key});
      } else {
        EffectsFitTheKeys(init, p, keys);
      }
    }
  }

  lemma {:induction false} KeysAreBudgeted(s: State, events: seq<Event>, p: Payload)
    requires Books(s) && Budget(s, p) && Possible(s, events)
    ensures Books(After(s, events)) && Budget(After(s, events), p)
    decreases |events|
  {
    if events != [] {
      StepKeepsBooks(s, events[0]);
      StepKeepsBudget(s, events[0], p);
      KeysAreBudgeted(Next(s, events[0]), events[1..], p);
    }
  }

  /**
   * Over any interleaving of sends, lost answers, server errors, late executions
   * and reloads, a payload gets at most one key, and has at most one effect on the
   * server, beyond the definitive answers received for it and the times the
   * browser's storage failed.
   */
  lemma EffectsAreBounded(events: seq<Event>, p: Payload)
    requires Possible(INITIAL, events)
    ensures var s := After(INITIAL, events);
            EffectsOn(s.effects, p) <= |KeysOf(s.sends, p)| <= 1 + VerdictsOn(s.verdicts, p) + FaultsOn(s.faults, p)
  {
    KeysAreBudgeted(INITIAL, events, p);
    var s := After(INITIAL, events);
    forall i | 0 <= i < |s.effects| && s.effects[i].payload == p
      ensures s.effects[i].key in KeysOf(s.sends, p)
    {
      assert Uses(s, p, s.effects[i].key);
    }
    EffectsFitTheKeys(s.effects, p, KeysOf(s.sends, p));
  }

  // ---------------------------------------------------------------------------
  // Sends that do not overlap
  // ---------------------------------------------------------------------------

  /** No send of `p` is open when another one of `p` starts, and the storage works for `p`. */
  ghost predicate Orderly(s: State, e: Event, p: Payload)
    requires Allowed(s, e)
  {
    match e
    case Start(q, readFails, writeFails) => q == p ==> !readFails && !writeFails && !InFlight(s, p)
    case Answer(i, _, removeFails) => s.sends[i].payload == p ==> !removeFails
    case _ => true
  }

  ghost predicate InFlight(s: State, p: Payload) {
    exists i :: 0 <= i < |s.sends| && s.sends[i].payload == p && s.sends[i].open
  }

  ghost predicate Serial(s: State, events: seq<Event>, p: Payload)
    requires Possible(s, events)
    decreases |events|
  {
    events != [] ==> Orderly(s, events[0], p) && Serial(Next(s, events[0]), events[1..], p)
  }

  ghost predicate Judged(s: State, key: Key) {
    exists i :: 0 <= i < |s.verdicts| && s.verdicts[i].key == key
  }

  /** The promise of the module for one payload: its slot holds every key still without a definitive answer. */
  ghost predicate Kept(s: State, p: Payload) {
    forall i :: 0 <= i < |s.sends| && s.sends[i].payload == p && !Judged(s, s.sends[i].key) ==>
      p in s.slots && s.slots[p] == s.sends[i].key
  }

  /** Beyond the promise: only an unanswered key is held or in flight, one at a time, and no key is answered twice. */
  ghost predicate Steady(s: State, p: Payload) {
    && Kept(s, p)
    && (p in s.slots ==> !Judged(s, s.slots[p]))
    && (forall i :: 0 <= i < |s.sends| && s.sends[i].payload == p && s.sends[i].open ==> !Judged(s, s.sends[i].key))
    && (forall i, j :: 0 <= i < j < |s.sends| && s.sends[i].payload == p && s.sends[j].payload == p
          ==> !(s.sends[i].open && s.sends[j].open))
    && (forall i, j :: 0 <= i < j < |s.verdicts| && s.verdicts[i].payload == p && s.verdicts[j].payload == p
          ==> s.verdicts[i].key != s.verdicts[j].key)
  }

  lemma FreshKeyIsNotJudged(s: State)
    requires Books(s)
    ensures !Judged(s, s.nextKey)
  {
    forall i | 0 <= i < |s.verdicts|
      ensures s.verdicts[i].key < s.nextKey
    {
      var k :| 0 <= k < |s.sends| && s.sends[k].payload == s.verdicts[i].payload && s.sends[k].key == s.verdicts[i].key;
    }
  }

  /** A key used for one payload is used for no other. */
  lemma KeyHasOnePayload(s: State, p: Payload, i: nat)
    requires Books(s) && i < |s.sends| && s.sends[i].payload != p
    ensures p in s.slots ==> s.slots[p] != s.sends[i].key
    ensures forall j :: 0 <= j < |s.sends| && s.sends[j].payload == p ==> s.sends[j].key != s.sends[i].key
  {
    if p in s.slots {
      SlotKeyIsThePayloads(s, p);
    }
  }

  lemma StartKeepsSteady(s: State, e: Event, p: Payload)
    requires Books(s) && Steady(s, p) && e.Start? && Orderly(s, e, p)
    ensures Steady(Next(s, e), p)
  {
    var s' := Next(s, e);
    assert forall key :: Judged(s', key) <==> Judged(s, key);
    FreshKeyIsNotJudged(s);
    forall i | 0 <= i < |s'.sends| && s'.sends[i].payload == p && !Judged(s, s'.sends[i].key)
      ensures p in s'.slots && s'.slots[p] == s'.sends[i].key
    {
      if i < |s.sends| { assert s'.sends[i] == s.sends[i]; }
    }
  }

  /** A verdict judges exactly the key it was given for. */
  lemma JudgedAfter(s: State, i: nat, reply: Reply, removeFails: bool)
    requires Allowed(s, Answer(i, reply, removeFails))
    ensures forall k :: Judged(Next(s, Answer(i, reply, removeFails)), k)
                        <==> Judged(s, k) || (Releases(reply) && k == s.sends[i].key)
  {
    var s' := Next(s, Answer(i, reply, removeFails));
    forall k
      ensures Judged(s', k) <==> Judged(s, k) || (Releases(reply) && k == s.sends[i].key)
    {
      if Judged(s, k) {
        var v :| 0 <= v < |s.verdicts| && s.verdicts[v].key == k;
        assert s'.verdicts[v].key == k;
      }
      if Releases(reply) { assert s'.verdicts[|s.verdicts|].key == s.sends[i].key; }
    }
  }

  /** An answer to another payload is none of this one's business. */
  lemma OtherAnswerKeepsSteady(s: State, i: nat, reply: Reply, removeFails: bool, p: Payload)
    requires Books(s) && Steady(s, p) && Allowed(s, Answer(i, reply, removeFails)) && s.sends[i].payload != p
    ensures Steady(Next(s, Answer(i, reply, removeFails)), p)
  {
    JudgedAfter(s, i, reply, removeFails);
    KeyHasOnePayload(s, p, i);
  }

  lemma OwnAnswerKeepsSteady(s: State, i: nat, reply: Reply, p: Payload)
    requires Books(s) && Steady(s, p) && Allowed(s, Answer(i, reply, false)) && s.sends[i].payload == p
    ensures Steady(Next(s, Answer(i, reply, false)), p)
  {
    JudgedAfter(s, i, reply, false);
    if Releases(reply) {
      forall v | 0 <= v < |s.verdicts|
        ensures s.verdicts[v].key != s.sends[i].key
      {
        assert Judged(s, s.verdicts[v].key);
      }
    }
  }

  lemma StepKeepsSteady(s: State, e: Event, p: Payload)
    requires Books(s) && Steady(s, p) && Allowed(s, e) && Orderly(s, e, p)
    ensures Steady(Next(s, e), p)
  {
    match e
    case Start(_, _, _) => StartKeepsSteady(s, e, p);
    case Answer(i, reply, removeFails) =>
      if s.sends[i].payload == p {
        OwnAnswerKeepsSteady(s, i, reply, p);
      } else {
        OtherAnswerKeepsSteady(s, i, reply, removeFails, p);
      }
    case _ => assert forall k :: Judged(Next(s, e), k) <==> Judged(s, k);
  }

  lemma {:induction false} SerialRunsAreSteady(s: State, events: seq<Event>, p: Payload)
    requires Books(s) && Steady(s, p) && Possible(s, events) && Serial(s, events, p)
    ensures Books(After(s, events)) && Steady(After(s, events), p)
    decreases |events|
  {
    if events != [] {
      StepKeepsBooks(s, events[0]);
      StepKeepsSteady(s, events[0], p);
      SerialRunsAreSteady(Next(s, events[0]), events[1..], p);
    }
  }

  ghost function EffectsOfKey(es: seq<Effect>, key: Key): nat {
    if es == [] then 0
    else EffectsOfKey(es[..|es| - 1], key) + if es[|es| - 1].key == key then 1 else 0
  }

  lemma {:induction false} DistinctKeysCountOnce(es: seq<Effect>, key: Key)
    requires forall i, j :: 0 <= i < j < |es| ==> es[i].key != es[j].key
    ensures EffectsOfKey(es, key) <= 1
    ensures EffectsOfKey(es, key) == 1 <==> exists i :: 0 <= i < |es| && es[i].key == key
  {
    if es != [] {
      var init, last := es[..|es| - 1], es[|es| - 1];
      DistinctKeysCountOnce(init, key);
      if EffectsOfKey(init, key) == 1 {
        var i :| 0 <= i < |init| && init[i].key == key;
        assert es[i].key == key;
      }
      if i :| 0 <= i < |es| && es[i].key == key && i < |init| {
        assert init[i].key == key;
      }
    }
  }

  /**
   * When the sends of one payload do not overlap and its slot works, each of its
   * operations that ends in success had one key of its own from first try to
   * last, and took effect exactly once, whatever other payloads do.
   */
  lemma SuccessMeansExactlyOnce(events: seq<Event>, p: Payload)
    requires Possible(INITIAL, events) && Serial(INITIAL, events, p)
    ensures var s := After(INITIAL, events);
            && Steady(s, p)
            && (forall i :: 0 <= i < |s.verdicts| && s.verdicts[i].success ==> EffectsOfKey(s.effects, s.verdicts[i].key) == 1)
            && (forall i, j :: 0 <= i < j < |s.verdicts| && s.verdicts[i].payload == p && s.verdicts[j].payload == p
                  ==> s.verdicts[i].key != s.verdicts[j].key)
            && (forall i :: 0 <= i < |s.effects| && s.effects[i].payload == p ==>
                  || Judged(s, s.effects[i].key)
                  || (p in s.slots && s.slots[p] == s.effects[i].key))
  {
    SerialRunsAreSteady(INITIAL, events, p);
    var s := After(INITIAL, events);
    forall i | 0 <= i < |s.verdicts| && s.verdicts[i].success
      ensures EffectsOfKey(s.effects, s.verdicts[i].key) == 1
    {
      DistinctKeysCountOnce(s.effects, s.verdicts[i].key);
    }
    forall i | 0 <= i < |s.effects| && s.effects[i].payload == p
      ensures Judged(s, s.effects[i].key) || (p in s.slots && s.slots[p] == s.effects[i].key)
    {
      assert Uses(s, p, s.effects[i].key);
    }
  }

  // ---------------------------------------------------------------------------
  // Overlap breaks the promise
  // ---------------------------------------------------------------------------

  /** Retrying the payload now would reuse `key`. */
  predicate WouldRetryWith(s: State, p: Payload, key: Key) {
    KeyFor(s.slots, p, s.nextKey, false) == key
  }

  /**
   * A release removes whatever key is in the slot.  An unanswered key survives a
   * definitive answer to some send of its payload exactly when that answer is its own.
   */
  lemma ReleaseIsRightOnlyForItsOwnKey(s: State, i: nat, reply: Reply)
    requires Books(s) && Allowed(s, Answer(i, reply, false)) && Releases(reply)
    requires s.sends[i].payload in s.slots && !Judged(s, s.slots[s.sends[i].payload])
    ensures var p := s.sends[i].payload;
            var held := s.slots[p];
            var s' := Next(s, Answer(i, reply, false));
            (Judged(s', held) || WouldRetryWith(s', p, held)) <==> s.sends[i].key == held
  {
    JudgedAfter(s, i, reply, false);
    var p := s.sends[i].payload;
    assert Uses(s, p, s.slots[p]);
  }

  /** What can be checked before a step: a new key is stored and replaces no unanswered one, and a release hits no other key. */
  ghost predicate Rightful(s: State, e: Event, p: Payload)
    requires Allowed(s, e)
  {
    match e
    case Start(q, readFails, writeFails) =>
      q == p && (readFails || p !in s.slots) ==> !writeFails && (p in s.slots ==> Judged(s, s.slots[p]))
    case Answer(i, reply, removeFails) =>
      s.sends[i].payload == p && Releases(reply) && !removeFails && p in s.slots ==>
        Judged(s, s.slots[p]) || s.slots[p] == s.sends[i].key
    case _ => true
  }

  ghost predicate KeptThroughout(s: State, events: seq<Event>, p: Payload)
    requires Possible(s, events)
    decreases |events|
  {
    Kept(s, p) && (events != [] ==> KeptThroughout(Next(s, events[0]), events[1..], p))
  }

  ghost predicate AllRightful(s: State, events: seq<Event>, p: Payload)
    requires Possible(s, events)
    decreases |events|
  {
    events != [] ==> Rightful(s, events[0], p) && AllRightful(Next(s, events[0]), events[1..], p)
  }

  lemma StartKeepsIffRightful(s: State, e: Event, p: Payload)
    requires Books(s) && Kept(s, p) && e.Start?
    ensures Kept(Next(s, e), p) <==> Rightful(s, e, p)
  {
    var s' := Next(s, e);
    var n := |s.sends|;
    FreshKeyIsNotJudged(s);
    assert forall k :: Judged(s', k) <==> Judged(s, k);
    assert forall i :: 0 <= i < n ==> s'.sends[i] == s.sends[i];
    assert s'.sends[n].payload == e.payload && s'.sends[n].key == KeyFor(s.slots, e.payload, s.nextKey, e.readFails);
    if e.payload == p && p in s.slots {
      var k :| 0 <= k < n && s.sends[k].payload == p && s.sends[k].key == s.slots[p];
      SlotKeyIsThePayloads(s, p);
    }
  }

  lemma OtherAnswerKeeps(s: State, i: nat, reply: Reply, removeFails: bool, p: Payload)
    requires Books(s) && Kept(s, p) && Allowed(s, Answer(i, reply, removeFails)) && s.sends[i].payload != p
    ensures Kept(Next(s, Answer(i, reply, removeFails)), p)
  {
    JudgedAfter(s, i, reply, removeFails);
    KeyHasOnePayload(s, p, i);
  }

  /** Without a release the slot stays, and a verdict can only take a key off the list. */
  lemma UnreleasedAnswerKeeps(s: State, i: nat, reply: Reply, removeFails: bool, p: Payload)
    requires Kept(s, p) && Allowed(s, Answer(i, reply, removeFails)) && (removeFails || !Releases(reply))
    ensures Kept(Next(s, Answer(i, reply, removeFails)), p)
  {
    JudgedAfter(s, i, reply, removeFails);
  }

  lemma ReleaseKeepsIffRightful(s: State, i: nat, reply: Reply, p: Payload)
    requires Books(s) && Kept(s, p) && Allowed(s, Answer(i, reply, false)) && s.sends[i].payload == p && Releases(reply)
    ensures Kept(Next(s, Answer(i, reply, false)), p) <==> Rightful(s, Answer(i, reply, false), p)
  {
    var s' := Next(s, Answer(i, reply, false));
    assert p !in s'.slots;
    JudgedAfter(s, i, reply, false);
    if Kept(s', p) && p in s.slots {
      var k :| 0 <= k < |s.sends| && s.sends[k].payload == p && s.sends[k].key == s.slots[p];
      assert s'.sends[k].payload == p && s'.sends[k].key == s.slots[p];
    }
    if Rightful(s, Answer(i, reply, false), p) {
      forall j | 0 <= j < |s'.sends| && s'.sends[j].payload == p
        ensures Judged(s', s'.sends[j].key)
      {
        assert s'.sends[j].key == s.sends[j].key && s'.sends[j].payload == s.sends[j].payload;
      }
    }
  }

  lemma StepKeepsIffRightful(s: State, e: Event, p: Payload)
    requires Books(s) && Kept(s, p) && Allowed(s, e)
    ensures Kept(Next(s, e), p) <==> Rightful(s, e, p)
  {
    match e
    case Start(_, _, _) => StartKeepsIffRightful(s, e, p);
    case Answer(i, reply, removeFails) =>
      if removeFails || !Releases(reply) {
        UnreleasedAnswerKeeps(s, i, reply, removeFails, p);
      } else if s.sends[i].payload == p {
        ReleaseKeepsIffRightful(s, i, reply, p);
      } else {
        OtherAnswerKeeps(s, i, reply, removeFails, p);
      }
    case _ => assert forall k :: Judged(Next(s, e), k) <==> Judged(s, k);
  }

  /**
   * The exact condition, over every interleaving and with every storage fault: a
   * payload's unanswered key is held at every moment of a run exactly when every
   * new key could be stored without displacing an unanswered one, and every
   * release hit the answered key or an empty slot.
   */
  lemma {:induction false} KeptIffEveryStepIsRightful(s: State, events: seq<Event>, p: Payload)
    requires Books(s) && Kept(s, p) && Possible(s, events)
    ensures KeptThroughout(s, events, p) <==> AllRightful(s, events, p)
    decreases |events|
  {
    if events != [] {
      var s' := Next(s, events[0]);
      StepKeepsBooks(s, events[0]);
      StepKeepsIffRightful(s, events[0], p);
      if Kept(s', p) {
        KeptIffEveryStepIsRightful(s', events[1..], p);
      }
    }
  }

  /** Two overlapping sends, then a third one after the first of them was answered. */
  function OverlapRun(p: Payload): seq<Event> {
    [Start(p, false, false), Start(p, false, false), ServerExecutes(0), Answer(0, Success, false), Start(p, false, false)]
  }

  /** Such a run is possible, and leaves a late answer pending that would release a key that is not its own. */
  lemma OverlapReachesAWrongRelease(p: Payload)
    ensures Possible(INITIAL, OverlapRun(p))
    ensures var s := After(INITIAL, OverlapRun(p));
            && |s.sends| == 3 && s.sends[1].open && s.sends[1].payload == p
            && p in s.slots && s.slots[p] == s.sends[2].key != s.sends[1].key
            && !Judged(s, s.slots[p])
            && Allowed(s, Answer(1, Success, false)) && !Rightful(s, Answer(1, Success, false), p)
  {
    var start, exec, done := Start(p, false, false), ServerExecutes(0), Answer(0, Success, false);
    var s1 := Next(INITIAL, start);
    var s2 := Next(s1, start);
    var s3 := Next(s2, exec);
    assert s3.effects[0].key == 0;
    var s4 := Next(s3, done);
    var s5 := Next(s4, start);
    assert s5.effects[0].key == 0;
    PlayOne(s5, [], s5);
    PlayOne(s4, [start], s5);
    PlayOne(s3, [done, start], s5);
    PlayOne(s2, [exec, done, start], s5);
    PlayOne(s1, [start, exec, done, start], s5);
    PlayOne(INITIAL, OverlapRun(p), s5);
  }

  /** Unrolls one event of a run that ends in `end`. */
  lemma PlayOne(s: State, events: seq<Event>, end: State)
    requires events == [] ==> s == end
    requires events != [] ==>
               && Allowed(s, events[0])
               && Possible(Next(s, events[0]), events[1..]) && After(Next(s, events[0]), events[1..]) == end
    ensures Possible(s, events) && After(s, events) == end
  {
  }

  // ---------------------------------------------------------------------------
  // Which answers end an operation
  // ---------------------------------------------------------------------------

  /** No answer, a server error or anything else outside 400 to 499, or "still processing". */
  ghost predicate LeavesOpen(r: Reply) {
    match r
    case NoReply => true
    case Success => false
    case Status(code, operationPending) => code < 400 || 500 <= code || (code == 409 && operationPending)
  }

  /** The next start of a payload, with a working slot, uses this key. */
  ghost predicate NextStartUses(s: State, p: Payload, key: Key) {
    var n := |s.sends|;
    |Next(s, Start(p, false, false)).sends| == n + 1 && Next(s, Start(p, false, false)).sends[n] == Send(p, key, true)
  }

  /** After an answer that leaves the operation open, the slot keeps its key and a retry sends it again. */
  lemma OpenAnswersKeepTheKey(s: State, i: nat, reply: Reply, removeFails: bool, p: Payload)
    requires Allowed(s, Answer(i, reply, removeFails)) && LeavesOpen(reply)
    ensures var after := Next(s, Answer(i, reply, removeFails));
            && after.slots == s.slots && after.verdicts == s.verdicts && after.effects == s.effects
            && (p in s.slots ==> NextStartUses(after, p, s.slots[p]))
  {
  }

  /** After any other answer the slot is empty, if it can be removed, and a new submission gets a fresh key. */
  lemma FinalAnswersReleaseTheKey(s: State, i: nat, reply: Reply, p: Payload)
    requires Allowed(s, Answer(i, reply, false)) && !LeavesOpen(reply) && s.sends[i].payload == p
    ensures var after := Next(s, Answer(i, reply, false));
            && p !in after.slots
            && (forall q :: q != p ==> (q in after.slots <==> q in s.slots) && (q in s.slots ==> after.slots[q] == s.slots[q]))
            && after.verdicts == s.verdicts + [Verdict(p, s.sends[i].key, reply == Success)]
            && NextStartUses(after, p, s.nextKey)
  {
  }

  /** The run answers this payload only in ways that leave its operations open, and its slot works. */
  ghost predicate NeverFinal(s: State, events: seq<Event>, p: Payload)
    requires Possible(s, events)
    decreases |events|
  {
    events != [] ==>
      && (events[0].Answer? && s.sends[events[0].send].payload == p ==> LeavesOpen(events[0].reply))
      && (events[0].Start? && events[0].payload == p ==> !events[0].readFails && !events[0].writeFails)
      && NeverFinal(Next(s, events[0]), events[1..], p)
  }

  lemma {:induction false} NeverFinalLeavesNoVerdict(s: State, events: seq<Event>, p: Payload)
    requires Possible(s, events) && NeverFinal(s, events, p)
    requires VerdictsOn(s.verdicts, p) == 0 && FaultsOn(s.faults, p) == 0
    ensures VerdictsOn(After(s, events).verdicts, p) == 0 && FaultsOn(After(s, events).faults, p) == 0
    decreases |events|
  {
    if events != [] {
      NeverFinalStep(s, events[0], p);
      NeverFinalLeavesNoVerdict(Next(s, events[0]), events[1..], p);
    }
  }

  lemma NeverFinalStep(s: State, e: Event, p: Payload)
    requires Allowed(s, e)
    requires e.Answer? && s.sends[e.send].payload == p ==> LeavesOpen(e.reply)
    requires e.Start? && e.payload == p ==> !e.readFails && !e.writeFails
    ensures VerdictsOn(Next(s, e).verdicts, p) == VerdictsOn(s.verdicts, p)
    ensures FaultsOn(Next(s, e).faults, p) == FaultsOn(s.faults, p)
  {
    if e.Answer? && Releases(e.reply) {
      VerdictsSnoc(s.verdicts, Verdict(s.sends[e.send].payload, s.sends[e.send].key, e.reply.Success?), p);
    }
    if e.Start? && (e.readFails || e.writeFails) {
      FaultsSnoc(s.faults, e.payload, p);
    }
  }

  /**
   * However often a payload is sent again, over lost answers, server errors, "still
   * processing" and reloads: until a final answer it uses one key and takes at most
   * one effect.
   */
  lemma RetriesShareOneKey(events: seq<Event>, p: Payload)
    requires Possible(INITIAL, events) && NeverFinal(INITIAL, events, p)
    ensures var s := After(INITIAL, events);
            |KeysOf(s.sends, p)| <= 1 && EffectsOn(s.effects, p) <= 1
  {
    EffectsAreBounded(events, p);
    NeverFinalLeavesNoVerdict(INITIAL, events, p);
  }

  /** A reload ends every send of the old page and keeps the slots, so a retry after it reuses the key. */
  lemma ReloadKeepsTheSlots(s: State, p: Payload)
    ensures !InFlight(Next(s, Reload), p) && Next(s, Reload).slots == s.slots && Next(s, Reload).effects == s.effects
    ensures p in s.slots ==> NextStartUses(Next(s, Reload), p, s.slots[p])
  {
  }
}
