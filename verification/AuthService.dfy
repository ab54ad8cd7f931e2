/** The authentication service as an object over its user and token rows. */
module AuthService {
  import opened Common
  import Sessions
  import Lockout

  datatype LoginError = InvalidCredentials | Locked

  class AuthService {
    var tokens: seq<Sessions.Token>
    var inactive: set<Sessions.UserId>
    var accounts: map<Sessions.UserId, Lockout.Account>

    ghost function View(): Sessions.Server
      reads this
    {
      Sessions.Server(tokens, inactive)
    }

    constructor ()
      ensures View() == Sessions.Server([], {}) && accounts == map[]
    {
      tokens, inactive, accounts := [], {}, map[];
    }

    /**
     * First half of a password login: read the account and check its lock.  The
     * row read travels with the call; `user` is absent when no active row matches
     * the e-mail.
     */
    method BeginLogin(user: Option<Sessions.UserId>, now: int) returns (r: Result<Option<Lockout.Account>, LoginError>)
      requires user.Some? ==> user.value in accounts
      ensures user.None? ==> r == Ok(None)
      ensures user.Some? ==> r == if Lockout.LockedAt(accounts[user.value], now) then Err(Locked) else Ok(Some(accounts[user.value]))
    {
      if user.None? {
        return Ok(None);
      }
      var account := accounts[user.value];
      if account.lockedUntil.Some? && account.lockedUntil.value > now {
        return Err(Locked);
      }
      r := Ok(Some(account));
    }

    /**
     * Second half, for a user without a second factor, once the password is
     * compared.  What is written comes from the row read at the start, whatever
     * the table holds by now.
     */
    method FinishLogin(org: nat, user: Option<Sessions.UserId>, read: Option<Lockout.Account>, passwordOk: bool, now: int)
      returns (r: Result<nat, LoginError>)
      requires user.Some? <==> read.Some?
      modifies this
      ensures user.None? ==> r == Err(InvalidCredentials) && View() == old(View()) && accounts == old(accounts)
      ensures user.Some? ==>
                && accounts == old(accounts)[user.value := Lockout.Recorded(read.value, passwordOk, now)]
                && (if !passwordOk then r == Err(InvalidCredentials) && View() == old(View())
                    else r == Ok(old(|tokens|)) && View() == Sessions.Issue(old(View()), org, user.value, now))
    {
      if user.None? || !passwordOk {
        RecordFailedLogin(user, read, now);
        return Err(InvalidCredentials);
      }
      accounts := accounts[user.value := Lockout.Account(0, None)];
      var issued := Sessions.Token(org, user.value, |tokens|, now + Sessions.LIFETIME, None, None);
      tokens := tokens + [issued];
      r := Ok(|tokens| - 1);
    }

    /** A password login during which nothing else runs. */
    method Login(org: nat, user: Option<Sessions.UserId>, passwordOk: bool, checkedAt: int, recordedAt: int)
      returns (r: Result<nat, LoginError>)
      requires user.Some? ==> user.value in accounts
      modifies this
      ensures user.None? ==> r == Err(InvalidCredentials) && View() == old(View()) && accounts == old(accounts)
      ensures user.Some? ==>
                var before := old(accounts)[user.value];
                if Lockout.LockedAt(before, checkedAt) then r == Err(Locked) && View() == old(View()) && accounts == old(accounts)
                else
                  && accounts == old(accounts)[user.value := Lockout.Recorded(before, passwordOk, recordedAt)]
                  && (if !passwordOk then r == Err(InvalidCredentials) && View() == old(View())
                      else r == Ok(old(|tokens|)) && View() == Sessions.Issue(old(View()), org, user.value, recordedAt))
    {
      var begun := BeginLogin(user, checkedAt);
      if begun.Err? {
        return Err(begun.error);
      }
      r := FinishLogin(org, user, begun.value, passwordOk, recordedAt);
    }

    method RecordFailedLogin(user: Option<Sessions.UserId>, read: Option<Lockout.Account>, now: int)
      requires user.Some? <==> read.Some?
      modifies this`accounts
      ensures accounts == if user.None? then old(accounts)
                          else old(accounts)[user.value := Lockout.Failed(read.value, now)]
    {
      if user.None? {
        return;
      }
      var next := read.value.failedLoginCount + 1;
      var locked := next >= Lockout.MAX_FAILED_ATTEMPTS;
      var until: Option<int> := None;
      if locked {
        until := Some(now + Lockout.LOCKOUT_DURATION);
      }
      accounts := accounts[user.value := Lockout.Account(next, until)];
    }

    method Refresh(value: nat, now: int) returns (r: Result<nat, Sessions.RefreshError>)
      modifies this`tokens
      ensures match Sessions.Refresh(old(View()), value, now)
              case Ok(after) => View() == after && r == Ok(old(|tokens|))
              case Err(e) => View() == old(View()) && r == Err(e)
    {
      if value >= |tokens| {
        return Err(Sessions.InvalidToken);
      }
      var existing := tokens[value];
      if existing.revokedAt.Some? || existing.expiresAt < now {
        return Err(Sessions.InvalidToken);
      }
      if existing.user in inactive {
        return Err(Sessions.UserInactive);
      }
      var newId := |tokens|;
      tokens := tokens + [Sessions.Token(existing.org, existing.user, existing.family, now + Sessions.LIFETIME, None, None)];
      tokens := tokens[value := existing.(revokedAt := Some(now), replacedBy := Some(newId))];
      r := Ok(newId);
    }

    /** Live sessions of the user, newest first. */
    method ListSessions(org: nat, user: Sessions.UserId, now: int) returns (ids: seq<nat>)
      ensures forall id: nat :: id in ids <==> Sessions.Listed(View(), org, user, now, id)
      ensures forall i, j :: 0 <= i < j < |ids| ==> ids[i] > ids[j]
    {
      ids := [];
      var i := 0;
      while i < |tokens|
        invariant i <= |tokens|
        invariant forall id: nat :: id in ids <==> id < i && Sessions.Listed(View(), org, user, now, id)
        invariant forall k, l :: 0 <= k < l < |ids| ==> ids[k] > ids[l]
      {
        var t := tokens[i];
        if t.user == user && t.org == org && t.revokedAt.None? && t.expiresAt > now {
          assert forall k :: 0 <= k < |ids| ==> ids[k] in ids;
          ids := [i] + ids;
        }
        i := i + 1;
      }
    }

    method RevokeSession(org: nat, user: Sessions.UserId, id: nat, now: int) returns (ok: bool)
      modifies this`tokens
      ensures match Sessions.Revoke(old(View()), org, user, id, now)
              case Some(after) => ok && View() == after
              case None => !ok && View() == old(View())
    {
      if id >= |tokens| || tokens[id].user != user || tokens[id].org != org {
        return false;
      }
      tokens := tokens[id := tokens[id].(revokedAt := Some(now))];
      ok := true;
    }

    /** The password change itself: counter and lock cleared, every live token of the user revoked. */
    method ChangePassword(user: Sessions.UserId, currentOk: bool, now: int) returns (ok: bool)
      modifies this
      ensures ok <==> user in old(accounts) && currentOk
      ensures accounts == if ok then old(accounts)[user := Lockout.CLEAN] else old(accounts)
      ensures View() == if ok then Sessions.RevokeAll(old(View()), user, now) else old(View())
    {
      if user !in accounts || !currentOk {
        return false;
      }
      accounts := accounts[user := Lockout.Account(0, None)];
      var rows := [];
      var i := 0;
      while i < |tokens|
        invariant i <= |tokens| && |rows| == i && tokens == old(tokens) && inactive == old(inactive)
        invariant accounts == old(accounts)[user := Lockout.CLEAN]
        invariant rows == Sessions.RevokeAll(View(), user, now).tokens[..i]
      {
        var t := tokens[i];
        if t.user == user && t.revokedAt.None? {
          t := t.(revokedAt := Some(now));
        }
        rows := rows + [t];
        i := i + 1;
      }
      tokens := rows;
      ok := true;
    }
  }
}
