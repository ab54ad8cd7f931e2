/**
 * Refresh-token rotation on the server.  A row's id is its position and stands
 * for the token value as well: values are fresh and only their owner knows them.
 */
module Sessions {
  import opened Common

  type UserId = nat

  /** `family` is the id of the token issued at login; the program does not store it. */
  datatype Token = Token(
    org: nat,
    user: UserId,
    family: nat,
    expiresAt: int,
    revokedAt: Option<int>,
    replacedBy: Option<nat>)

  datatype Server = Server(tokens: seq<Token>, inactive: set<UserId>)

  datatype RefreshError = InvalidToken | UserInactive

  const LIFETIME := 7 * 24 * 60 * 60 * 1000

  // ---------------------------------------------------------------------------
  // Operations
  // ---------------------------------------------------------------------------

  /** What a successful login adds. */
  function Issue(s: Server, org: nat, user: UserId, now: int): Server {
    s.(tokens := s.tokens + [Token(org, user, |s.tokens|, now + LIFETIME, None, None)])
  }

  function Refresh(s: Server, value: nat, now: int): Result<Server, RefreshError> {
    if value >= |s.tokens| then Err(InvalidToken)
    else
      var existing := s.tokens[value];
      if existing.revokedAt.Some? || existing.expiresAt < now then Err(InvalidToken)
      else if existing.user in s.inactive then Err(UserInactive)
      else
        var next := Token(existing.org, existing.user, existing.family, now + LIFETIME, None, None);
        var spent := existing.(revokedAt := Some(now), replacedBy := Some(|s.tokens|));
        Ok(s.(tokens := s.tokens[value := spent] + [next]))
  }

  /** Revoking one session; it must belong to the caller. */
  function Revoke(s: Server, org: nat, user: UserId, id: nat, now: int): Option<Server> {
    if id < |s.tokens| && s.tokens[id].user == user && s.tokens[id].org == org then
      Some(s.(tokens := s.tokens[id := s.tokens[id].(revokedAt := Some(now))]))
    else None
  }

  /** What a password change does to the user's tokens. */
  function RevokeAll(s: Server, user: UserId, now: int): (r: Server)
    ensures |r.tokens| == |s.tokens| && r.inactive == s.inactive
    ensures forall i :: 0 <= i < |s.tokens| ==>
              r.tokens[i] == if s.tokens[i].user == user && s.tokens[i].revokedAt.None?
                             then s.tokens[i].(revokedAt := Some(now)) else s.tokens[i]
  {
    s.(tokens := seq(|s.tokens|, i requires 0 <= i < |s.tokens| =>
      if s.tokens[i].user == user && s.tokens[i].revokedAt.None? then s.tokens[i].(revokedAt := Some(now)) else s.tokens[i]))
  }

  predicate Listed(s: Server, org: nat, user: UserId, now: int, id: nat) {
    && id < |s.tokens| && s.tokens[id].user == user && s.tokens[id].org == org
    && s.tokens[id].revokedAt.None? && s.tokens[id].expiresAt > now
  }

  datatype Action =
    | DoIssue(org: nat, user: UserId, now: int)
    | DoRefresh(value: nat, now: int)
    | DoRevoke(org: nat, user: UserId, id: nat, now: int)
    | DoRevokeAll(user: UserId, now: int)
    | DoSetActive(user: UserId, active: bool)

  function Apply(s: Server, a: Action): Server {
    match a
    case DoIssue(org, user, now) => Issue(s, org, user, now)
    case DoRefresh(value, now) => (match Refresh(s, value, now) case Ok(s') => s' case Err(_) => s)
    case DoRevoke(org, user, id, now) => (match Revoke(s, org, user, id, now) case Some(s') => s' case None => s)
    case DoRevokeAll(user, now) => RevokeAll(s, user, now)
    case DoSetActive(user, active) => s.(inactive := if active then s.inactive - {user} else s.inactive + {user})
  }

  function Run(s: Server, actions: seq<Action>): Server
    decreases |actions|
  {
    if actions == [] then s else Run(Apply(s, actions[0]), actions[1..])
  }

  // ---------------------------------------------------------------------------
  // The families are paths
  // ---------------------------------------------------------------------------

  ghost predicate LinkOk(tokens: seq<Token>, i: nat)
    requires i < |tokens|
  {
    var t := tokens[i];
    && t.family <= i
    && tokens[t.family].family == t.family
    && tokens[t.family].user == t.user && tokens[t.family].org == t.org
    && (t.replacedBy.Some? ==>
          && i < t.replacedBy.value < |tokens|
          && tokens[t.replacedBy.value].family == t.family
          && t.revokedAt.Some?)
    && (i != t.family ==> exists p: nat :: Precedes(tokens, p, i))
  }

  ghost predicate Precedes(tokens: seq<Token>, p: nat, i: nat) {
    p < i < |tokens| && tokens[p].replacedBy == Some(i)
  }

  /** Rows point forward inside their family, each later row has a predecessor, and a family has one end. */
  ghost predicate Linked(tokens: seq<Token>) {
    && (forall i :: 0 <= i < |tokens| ==> LinkOk(tokens, i))
    && (forall i, j :: 0 <= i < j < |tokens| && tokens[i].family == tokens[j].family && tokens[i].replacedBy.None?
          ==> tokens[j].replacedBy.Some?)
  }

  lemma IssueKeepsLinked(s: Server, org: nat, user: UserId, now: int)
    requires Linked(s.tokens)
    ensures Linked(Issue(s, org, user, now).tokens)
  {
    var n := |s.tokens|;
    var tokens := Issue(s, org, user, now).tokens;
    forall i | 0 <= i < |tokens|
      ensures LinkOk(tokens, i)
    {
      if i < n {
        assert LinkOk(s.tokens, i);
        if i != s.tokens[i].family {
          var p: nat :| Precedes(s.tokens, p, i);
          assert Precedes(tokens, p, i);
        }
      }
    }
    forall i | 0 <= i < n
      ensures tokens[i].family != n
    {
      assert LinkOk(s.tokens, i);
    }
  }

  lemma RefreshKeepsLinked(s: Server, value: nat, now: int)
    requires Linked(s.tokens) && Refresh(s, value, now).Ok?
    requires s.tokens[value].replacedBy.None?
    ensures Linked(Refresh(s, value, now).value.tokens)
  {
    var n := |s.tokens|;
    var tokens := Refresh(s, value, now).value.tokens;
    forall i | 0 <= i < |tokens|
      ensures LinkOk(tokens, i)
    {
      if i < n {
        assert LinkOk(s.tokens, i);
        if i != s.tokens[i].family {
          var p: nat :| Precedes(s.tokens, p, i);
          assert Precedes(tokens, p, i);
        }
      } else {
        assert LinkOk(s.tokens, value);
        assert Precedes(tokens, value, n);
      }
    }
  }

  /** Changing only revocation marks, never clearing one, keeps the links. */
  lemma MarkingKeepsLinked(before: seq<Token>, after: seq<Token>)
    requires Linked(before) && |after| == |before|
    requires forall i :: 0 <= i < |before| ==>
               && after[i] == before[i].(revokedAt := after[i].revokedAt)
               && (before[i].revokedAt.Some? ==> after[i].revokedAt.Some?)
    ensures Linked(after)
  {
    forall i | 0 <= i < |after|
      ensures LinkOk(after, i)
    {
      assert LinkOk(before, i);
      if i != before[i].family {
        var p: nat :| Precedes(before, p, i);
        assert Precedes(after, p, i);
      }
    }
  }

  lemma StepKeepsLinked(s: Server, a: Action)
    requires Linked(s.tokens)
    ensures Linked(Apply(s, a).tokens)
  {
    match a
    case DoIssue(org, user, now) => IssueKeepsLinked(s, org, user, now);
    case DoRefresh(value, now) =>
      if Refresh(s, value, now).Ok? {
        assert LinkOk(s.tokens, value);
        RefreshKeepsLinked(s, value, now);
      }
    case _ => MarkingKeepsLinked(s.tokens, Apply(s, a).tokens);
  }

  lemma {:induction false} RunKeepsLinked(s: Server, actions: seq<Action>)
    requires Linked(s.tokens)
    ensures Linked(Run(s, actions).tokens)
    decreases |actions|
  {
    if actions != [] {
      StepKeepsLinked(s, actions[0]);
      RunKeepsLinked(Apply(s, actions[0]), actions[1..]);
    }
  }

  /** Following replacedBy from a row. */
  ghost function Chain(tokens: seq<Token>, i: nat): (c: seq<nat>)
    requires Linked(tokens) && i < |tokens|
    ensures |c| > 0 && c[0] == i
    ensures forall k :: 0 <= k < |c| ==> c[k] < |tokens|
    decreases |tokens| - i
  {
    assert LinkOk(tokens, i);
    if tokens[i].replacedBy.None? then [i] else [i] + Chain(tokens, tokens[i].replacedBy.value)
  }

  /** `c` is an acyclic, unbranching path of one user: every row but the last is spent on the next. */
  ghost predicate IsPath(tokens: seq<Token>, c: seq<nat>) {
    && |c| > 0
    && (forall k :: 0 <= k < |c| ==> c[k] < |tokens|)
    && (forall k, l :: 0 <= k < l < |c| ==> c[k] < c[l])
    && (forall k :: 0 <= k < |c| - 1 ==> tokens[c[k]].replacedBy == Some(c[k + 1]) && tokens[c[k]].revokedAt.Some?)
    && tokens[c[|c| - 1]].replacedBy.None?
    && (forall k :: 0 <= k < |c| ==>
          && tokens[c[k]].family == tokens[c[0]].family
          && tokens[c[k]].user == tokens[c[0]].user && tokens[c[k]].org == tokens[c[0]].org)
  }

  lemma {:induction false} ChainIsPath(tokens: seq<Token>, i: nat)
    requires Linked(tokens) && i < |tokens|
    ensures IsPath(tokens, Chain(tokens, i))
    decreases |tokens| - i
  {
    assert LinkOk(tokens, i);
    if tokens[i].replacedBy.Some? {
      var n := tokens[i].replacedBy.value;
      assert LinkOk(tokens, n);
      ChainIsPath(tokens, n);
    }
  }

  /** A chain contains, with any row, the row that replaced it. */
  lemma {:induction false} ChainIsClosed(tokens: seq<Token>, i: nat, p: nat, n: nat)
    requires Linked(tokens) && i < |tokens| && p in Chain(tokens, i) && Precedes(tokens, p, n)
    ensures n in Chain(tokens, i)
    decreases |tokens| - i
  {
    assert LinkOk(tokens, i);
    if i == p {
      assert Chain(tokens, n)[0] == n;
    } else {
      ChainIsClosed(tokens, tokens[i].replacedBy.value, p, n);
    }
  }

  lemma {:induction false} FamilyIsInChain(tokens: seq<Token>, f: nat, i: nat)
    requires Linked(tokens) && i < |tokens| && tokens[i].family == f && f < |tokens|
    ensures i in Chain(tokens, f)
    decreases i
  {
    assert LinkOk(tokens, i);
    if i == f {
      assert Chain(tokens, f)[0] == f;
    } else {
      var p: nat :| Precedes(tokens, p, i);
      assert LinkOk(tokens, p);
      FamilyIsInChain(tokens, f, p);
      ChainIsClosed(tokens, f, p, i);
    }
  }

  /**
   * In every run, the tokens of one login are exactly one such path starting at
   * the token issued at login; so only its last token can be unrevoked.
   */
  lemma EveryLoginIsOnePath(actions: seq<Action>, inactive: set<UserId>, f: nat)
    requires f < |Run(Server([], inactive), actions).tokens|
    requires Run(Server([], inactive), actions).tokens[f].family == f
    ensures var tokens := Run(Server([], inactive), actions).tokens;
            && Linked(tokens)
            && IsPath(tokens, Chain(tokens, f))
            && forall i: nat :: (i < |tokens| && tokens[i].family == f) <==> i in Chain(tokens, f)
  {
    RunKeepsLinked(Server([], inactive), actions);
    var tokens := Run(Server([], inactive), actions).tokens;
    ChainIsPath(tokens, f);
    forall i: nat
      ensures (i < |tokens| && tokens[i].family == f) <==> i in Chain(tokens, f)
    {
      if i < |tokens| && tokens[i].family == f {
        FamilyIsInChain(tokens, f, i);
      }
    }
  }

  /** The sessions screen shows at most one row per login. */
  lemma OneRowPerLogin(s: Server, org: nat, user: UserId, now: int, i: nat, j: nat)
    requires Linked(s.tokens)
    requires Listed(s, org, user, now, i) && Listed(s, org, user, now, j)
    requires s.tokens[i].family == s.tokens[j].family
    ensures i == j
  {
    assert LinkOk(s.tokens, i) && LinkOk(s.tokens, j);
  }

  // ---------------------------------------------------------------------------
  // A token is exchanged at most once
  // ---------------------------------------------------------------------------

  function Exchange(s: Server, a: Action, value: nat): nat {
    if a.DoRefresh? && a.value == value && Refresh(s, value, a.now).Ok? then 1 else 0
  }

  /** Successful exchanges of one token value over a run. */
  function Exchanges(s: Server, actions: seq<Action>, value: nat): nat
    decreases |actions|
  {
    if actions == [] then 0
    else Exchange(s, actions[0], value) + Exchanges(Apply(s, actions[0]), actions[1..], value)
  }

  lemma {:induction false} RevokedIsNeverExchanged(s: Server, actions: seq<Action>, value: nat)
    requires value < |s.tokens| && s.tokens[value].revokedAt.Some?
    ensures Exchanges(s, actions, value) == 0
    decreases |actions|
  {
    if actions != [] {
      RevokedIsNeverExchanged(Apply(s, actions[0]), actions[1..], value);
    }
  }

  lemma {:induction false} ExchangedAtMostOnce(s: Server, actions: seq<Action>, value: nat)
    ensures Exchanges(s, actions, value) <= 1
    decreases |actions|
  {
    if actions != [] {
      if Exchange(s, actions[0], value) == 1 {
        RevokedIsNeverExchanged(Apply(s, actions[0]), actions[1..], value);
      } else {
        ExchangedAtMostOnce(Apply(s, actions[0]), actions[1..], value);
      }
    }
  }

  // ---------------------------------------------------------------------------
  // Ending a family
  // ---------------------------------------------------------------------------

  ghost predicate Ended(tokens: seq<Token>, f: nat) {
    forall i :: 0 <= i < |tokens| && tokens[i].family == f ==> tokens[i].revokedAt.Some?
  }

  /** Once every token of a login is revoked, no run ever adds another one. */
  lemma {:induction false} EndedForGood(s: Server, actions: seq<Action>, f: nat)
    requires f < |s.tokens| && Ended(s.tokens, f)
    ensures Ended(Run(s, actions).tokens, f)
    ensures |s.tokens| <= |Run(s, actions).tokens|
    ensures forall i :: |s.tokens| <= i < |Run(s, actions).tokens| ==> Run(s, actions).tokens[i].family != f
    decreases |actions|
  {
    if actions != [] {
      EndedForGood(Apply(s, actions[0]), actions[1..], f);
      OldFamiliesStay(Apply(s, actions[0]), actions[1..]);
    }
  }

  /** No step renames the family of an existing row. */
  lemma {:induction false} OldFamiliesStay(s: Server, actions: seq<Action>)
    ensures |s.tokens| <= |Run(s, actions).tokens|
    ensures forall i :: 0 <= i < |s.tokens| ==> Run(s, actions).tokens[i].family == s.tokens[i].family
    decreases |actions|
  {
    if actions != [] {
      OldFamiliesStay(Apply(s, actions[0]), actions[1..]);
    }
  }

  /** A login is over exactly when its last token is revoked. */
  lemma EndedIffTipRevoked(tokens: seq<Token>, tip: nat)
    requires Linked(tokens) && tip < |tokens| && tokens[tip].replacedBy.None?
    ensures Ended(tokens, tokens[tip].family) <==> tokens[tip].revokedAt.Some?
  {
    if tokens[tip].revokedAt.Some? {
      forall i | 0 <= i < |tokens| && tokens[i].family == tokens[tip].family
        ensures tokens[i].revokedAt.Some?
      {
        assert LinkOk(tokens, i);
      }
    }
  }

  /** Revoking the last session of a login, or changing the password, ends it whatever follows. */
  lemma RevocationEndsTheLogin(s: Server, a: Action, tip: nat, actions: seq<Action>)
    requires Linked(s.tokens) && tip < |s.tokens| && s.tokens[tip].replacedBy.None?
    requires a.DoRevokeAll? || a.DoRevoke?
    requires a.user == s.tokens[tip].user && (a.DoRevoke? ==> a.id == tip && a.org == s.tokens[tip].org)
    ensures Ended(Run(Apply(s, a), actions).tokens, s.tokens[tip].family)
  {
    StepKeepsLinked(s, a);
    assert LinkOk(s.tokens, tip);
    EndedIffTipRevoked(Apply(s, a).tokens, tip);
    EndedForGood(Apply(s, a), actions, s.tokens[tip].family);
  }

  /**
   * A password change signs the user out everywhere and nobody else: no session of
   * the user is listed any more, no token value the user had is ever exchanged
   * again, every login of theirs is over for good, and other users' sessions are
   * listed as before.
   */
  lemma PasswordChangeSignsOutEverywhere(s: Server, user: UserId, now: int, actions: seq<Action>, value: nat)
    requires Linked(s.tokens) && value < |s.tokens| && s.tokens[value].user == user
    ensures var after := Apply(s, DoRevokeAll(user, now));
            && (forall org, at, id :: !Listed(after, org, user, at, id))
            && Exchanges(after, actions, value) == 0
            && Ended(Run(after, actions).tokens, s.tokens[value].family)
            && (forall org, other, at, id :: other != user ==> (Listed(after, org, other, at, id) <==> Listed(s, org, other, at, id)))
  {
    var after := RevokeAll(s, user, now);
    RevokedIsNeverExchanged(after, actions, value);
    var f := s.tokens[value].family;
    assert LinkOk(s.tokens, value);
    forall i | 0 <= i < |after.tokens| && after.tokens[i].family == f
      ensures after.tokens[i].revokedAt.Some?
    {
      assert LinkOk(s.tokens, i);
    }
    EndedForGood(after, actions, f);
  }

  // ---------------------------------------------------------------------------
  // What the calls do, said by the rows they meet
  // ---------------------------------------------------------------------------

  /** The row is there, unrevoked and not past its expiry, whoever owns it. */
  ghost predicate Presentable(s: Server, value: nat, now: int) {
    value < |s.tokens| && s.tokens[value].revokedAt == None && now <= s.tokens[value].expiresAt
  }

  /**
   * A refresh succeeds exactly for a token that exists, is unrevoked, has not
   * expired and belongs to an active user; a token of a disabled user is refused as
   * such only when it could have been presented otherwise.
   */
  lemma RefreshAnswersExactly(s: Server, value: nat, now: int)
    ensures Refresh(s, value, now).Ok? <==> Presentable(s, value, now) && s.tokens[value].user !in s.inactive
    ensures Refresh(s, value, now) == Err(InvalidToken) <==> !Presentable(s, value, now)
    ensures Refresh(s, value, now) == Err(UserInactive) <==> Presentable(s, value, now) && s.tokens[value].user in s.inactive
  {
  }

  /** A fresh, live token that lasts seven days. */
  ghost predicate FreshFor(t: Token, org: nat, user: UserId, family: nat, now: int) {
    && t.org == org && t.user == user && t.family == family && t.revokedAt == None && t.replacedBy == None
    && t.expiresAt == now + 7 * 24 * 60 * 60 * 1000
  }

  /** A rotation spends the presented token on one fresh token of the same login, and touches nothing else. */
  lemma RefreshRotates(s: Server, value: nat, now: int)
    requires Refresh(s, value, now).Ok?
    ensures Apply(s, DoRefresh(value, now)) == Refresh(s, value, now).value
    ensures var after, n := Refresh(s, value, now).value, |s.tokens|;
            && after.inactive == s.inactive && |after.tokens| == n + 1
            && FreshFor(after.tokens[n], s.tokens[value].org, s.tokens[value].user, s.tokens[value].family, now)
            && (forall i :: 0 <= i < n && i != value ==> after.tokens[i] == s.tokens[i])
            && after.tokens[value] == s.tokens[value].(revokedAt := Some(now), replacedBy := Some(n))
  {
  }

  lemma IssueStartsALogin(s: Server, org: nat, user: UserId, now: int)
    ensures var after, n := Apply(s, DoIssue(org, user, now)), |s.tokens|;
            && after.inactive == s.inactive && |after.tokens| == n + 1 && after.tokens[..n] == s.tokens
            && FreshFor(after.tokens[n], org, user, n, now)
  {
  }

  /** Revoking a session works exactly on the caller's own, in their organisation, and marks nothing else. */
  lemma RevokeIsForTheOwner(s: Server, org: nat, user: UserId, id: nat, now: int)
    ensures Revoke(s, org, user, id, now).Some? <==> id < |s.tokens| && s.tokens[id].user == user && s.tokens[id].org == org
    ensures Revoke(s, org, user, id, now).Some? ==>
              var after := Revoke(s, org, user, id, now).value;
              && Apply(s, DoRevoke(org, user, id, now)) == after
              && after.inactive == s.inactive && |after.tokens| == |s.tokens|
              && (forall i :: 0 <= i < |s.tokens| && i != id ==> after.tokens[i] == s.tokens[i])
              && after.tokens[id] == s.tokens[id].(revokedAt := Some(now))
  {
  }

  /** A listed session is one the user could use: their own, unrevoked, and still to expire. */
  lemma ListedIsLive(s: Server, org: nat, user: UserId, now: int, id: nat)
    ensures Listed(s, org, user, now, id) <==>
              && id < |s.tokens| && s.tokens[id].org == org && s.tokens[id].user == user
              && s.tokens[id].revokedAt == None && now < s.tokens[id].expiresAt
    ensures Listed(s, org, user, now, id) && user !in s.inactive ==> Refresh(s, id, now).Ok?
  {
  }

  /** No step moves a token's expiry or owner. */
  lemma {:induction false} TermsStay(s: Server, actions: seq<Action>)
    ensures |s.tokens| <= |Run(s, actions).tokens|
    ensures forall i :: 0 <= i < |s.tokens| ==>
              && Run(s, actions).tokens[i].expiresAt == s.tokens[i].expiresAt
              && Run(s, actions).tokens[i].user == s.tokens[i].user
    decreases |actions|
  {
    if actions != [] {
      TermsStay(Apply(s, actions[0]), actions[1..]);
    }
  }

  /** Over a run: a token presented only after its expiry is never exchanged. */
  lemma {:induction false} ExpiredIsNeverExchanged(s: Server, actions: seq<Action>, value: nat)
    requires value < |s.tokens|
    requires forall a :: a in actions && a.DoRefresh? && a.value == value ==> s.tokens[value].expiresAt < a.now
    ensures Exchanges(s, actions, value) == 0
    decreases |actions|
  {
    if actions != [] {
      TermsStay(s, [actions[0]]);
      assert Run(s, [actions[0]]) == Apply(s, actions[0]) by {
        assert [actions[0]][1..] == [];
      }
      ExpiredIsNeverExchanged(Apply(s, actions[0]), actions[1..], value);
    }
  }

  /** Over a run: no token of a user is exchanged while the user is disabled. */
  lemma {:induction false} DisabledNeverExchange(s: Server, actions: seq<Action>, value: nat)
    requires value < |s.tokens| && s.tokens[value].user in s.inactive
    requires forall a :: a in actions && a.DoSetActive? && a.user == s.tokens[value].user ==> !a.active
    ensures Exchanges(s, actions, value) == 0
    decreases |actions|
  {
    if actions != [] {
      TermsStay(s, [actions[0]]);
      assert Run(s, [actions[0]]) == Apply(s, actions[0]) by {
        assert [actions[0]][1..] == [];
      }
      DisabledNeverExchange(Apply(s, actions[0]), actions[1..], value);
    }
  }

  /** Disabling or enabling a user is about that user only, and leaves the tokens. */
  lemma ActivityIsThatUsers(s: Server, user: UserId, active: bool)
    ensures var after := Apply(s, DoSetActive(user, active));
            && after.tokens == s.tokens && (user in after.inactive <==> !active)
            && forall other :: other != user ==> (other in after.inactive <==> other in s.inactive)
  {
  }
}
