/**
 * The failed-login counter and the timed lock of one account.  A try reads the
 * account row when it checks the lock and, once the password is compared, writes
 * a row computed from what it read; other tries may run in between.
 */
module Lockout {
  import opened Common

  const MAX_FAILED_ATTEMPTS := 10
  const LOCKOUT_DURATION := 15 * 60 * 1000

  datatype Account = Account(failedLoginCount: nat, lockedUntil: Option<int>)

  const CLEAN := Account(0, None)

  predicate LockedAt(a: Account, now: int) {
    a.lockedUntil.Some? && a.lockedUntil.value > now
  }

  /** The row a failure writes, from the row its try has read. */
  function Failed(read: Account, now: int): Account {
    var next := read.failedLoginCount + 1;
    Account(next, if next >= MAX_FAILED_ATTEMPTS then Some(now + LOCKOUT_DURATION) else None)
  }

  /** The row a finished try writes. */
  function Recorded(read: Account, passwordOk: bool, now: int): Account {
    if passwordOk then CLEAN else Failed(read, now)
  }

  // ---------------------------------------------------------------------------
  // Tries of one account, interleaved in any way
  // ---------------------------------------------------------------------------

  /** A try that found the account unlocked; `basis` is the failure whose row it read, if any. */
  datatype Attempt = Attempt(checkedAt: int, read: Account, basis: Option<nat>, open: bool)

  /** A wrong password that was recorded. */
  datatype Failure = Failure(checkedAt: int, recordedAt: int, basis: Option<nat>)

  /** `latest` is the failure that wrote the current row, if any. */
  datatype State = State(account: Account, latest: Option<nat>, attempts: seq<Attempt>, failures: seq<Failure>)

  datatype Event =
    | Check(now: int)
    | Record(attempt: nat, passwordOk: bool, now: int)
    | Reset

  const INITIAL := State(CLEAN, None, [], [])

  /** A locked account refuses the try before the password is looked at; a try is recorded once. */
  function Next(s: State, e: Event): State {
    match e
    case Check(now) =>
      if LockedAt(s.account, now) then s
      else s.(attempts := s.attempts + [Attempt(now, s.account, s.latest, true)])
    case Record(i, passwordOk, now) =>
      if !(i < |s.attempts| && s.attempts[i].open) then s
      else
        var t := s.attempts[i];
        State(Recorded(t.read, passwordOk, now),
              if passwordOk then None else Some(|s.failures|),
              s.attempts[i := t.(open := false)],
              if passwordOk then s.failures else s.failures + [Failure(t.checkedAt, now, t.basis)])
    case Reset => s.(account := CLEAN, latest := None)
  }

  function Run(events: seq<Event>): State {
    if events == [] then INITIAL else Next(Run(events[..|events| - 1]), events[|events| - 1])
  }

  lemma RunSnoc(events: seq<Event>, e: Event)
    ensures Run(events + [e]) == Next(Run(events), e)
  {
    assert (events + [e])[..|events|] == events;
  }

  // ---------------------------------------------------------------------------
  // What the counter counts
  // ---------------------------------------------------------------------------

  /** How many failures in a row each read the row the previous one wrote, up to the i-th. */
  function Chain(failures: seq<Failure>, i: nat): (n: nat)
    requires i < |failures|
    ensures 1 <= n <= i + 1
    decreases i
  {
    var b := failures[i].basis;
    if b.Some? && b.value < i then Chain(failures, b.value) + 1 else 1
  }

  lemma {:induction false} ChainLooksBack(failures: seq<Failure>, f: Failure, i: nat)
    requires i < |failures|
    ensures Chain(failures + [f], i) == Chain(failures, i)
    decreases i
  {
    var b := failures[i].basis;
    if b.Some? && b.value < i {
      ChainLooksBack(failures, f, b.value);
    }
  }

  /** `row` is what the failure `author` wrote, or a clean row. */
  ghost predicate WrittenBy(failures: seq<Failure>, row: Account, author: Option<nat>) {
    match author
    case None => row == CLEAN
    case Some(l) =>
      && l < |failures|
      && row.failedLoginCount == Chain(failures, l)
      && row.lockedUntil == if Chain(failures, l) >= MAX_FAILED_ATTEMPTS
                            then Some(failures[l].recordedAt + LOCKOUT_DURATION) else None
  }

  /** A failure read an earlier failure's row, and not before the lock set there was over. */
  ghost predicate Spaced(failures: seq<Failure>, k: nat)
    requires k < |failures|
  {
    var b := failures[k].basis;
    b.Some? ==>
      && b.value < k
      && (Chain(failures, b.value) >= MAX_FAILED_ATTEMPTS ==>
            failures[k].checkedAt >= failures[b.value].recordedAt + LOCKOUT_DURATION)
  }

  ghost predicate Accounted(s: State) {
    && WrittenBy(s.failures, s.account, s.latest)
    && (forall i :: 0 <= i < |s.attempts| ==>
          && WrittenBy(s.failures, s.attempts[i].read, s.attempts[i].basis)
          && !LockedAt(s.attempts[i].read, s.attempts[i].checkedAt))
    && (forall k :: 0 <= k < |s.failures| ==> Spaced(s.failures, k))
  }

  lemma WrittenByLasts(failures: seq<Failure>, f: Failure, row: Account, author: Option<nat>)
    requires WrittenBy(failures, row, author)
    ensures WrittenBy(failures + [f], row, author)
  {
    if author.Some? {
      ChainLooksBack(failures, f, author.value);
    }
  }

  lemma SpacedLasts(failures: seq<Failure>, f: Failure, k: nat)
    requires k < |failures| && Spaced(failures, k)
    ensures Spaced(failures + [f], k)
  {
    if failures[k].basis.Some? {
      ChainLooksBack(failures, f, failures[k].basis.value);
    }
  }

  /** A recorded failure extends the chain it read by one. */
  lemma NewFailure(failures: seq<Failure>, t: Attempt, now: int)
    requires WrittenBy(failures, t.read, t.basis) && !LockedAt(t.read, t.checkedAt)
    ensures var after := failures + [Failure(t.checkedAt, now, t.basis)];
            WrittenBy(after, Failed(t.read, now), Some(|failures|)) && Spaced(after, |failures|)
  {
    if t.basis.Some? {
      ChainLooksBack(failures, Failure(t.checkedAt, now, t.basis), t.basis.value);
    }
  }

  lemma RecordKeepsAccounted(s: State, i: nat, now: int)
    requires Accounted(s) && i < |s.attempts| && s.attempts[i].open
    ensures Accounted(Next(s, Record(i, false, now)))
  {
    var t, s' := s.attempts[i], Next(s, Record(i, false, now));
    var f := Failure(t.checkedAt, now, t.basis);
    NewFailure(s.failures, t, now);
    forall j | 0 <= j < |s'.attempts|
      ensures WrittenBy(s'.failures, s'.attempts[j].read, s'.attempts[j].basis)
      ensures !LockedAt(s'.attempts[j].read, s'.attempts[j].checkedAt)
    {
      WrittenByLasts(s.failures, f, s.attempts[j].read, s.attempts[j].basis);
    }
    forall k | 0 <= k < |s'.failures|
      ensures Spaced(s'.failures, k)
    {
      if k < |s.failures| { SpacedLasts(s.failures, f, k); }
    }
  }

  /**
   * In every run, whatever overlaps, the counter is the length of the chain of
   * failures behind the current row, each of which read the row of the one before
   * it and not before its lock was over.
   */
  lemma {:induction false} CounterIsTheChain(events: seq<Event>)
    ensures Accounted(Run(events))
  {
    if events != [] {
      var s, e := Run(events[..|events| - 1]), events[|events| - 1];
      CounterIsTheChain(events[..|events| - 1]);
      if e.Record? && e.attempt < |s.attempts| && s.attempts[e.attempt].open && !e.passwordOk {
        RecordKeepsAccounted(s, e.attempt, e.now);
      }
    }
  }

  /** The lock is set exactly when the counter has reached the limit. */
  ghost predicate LockMatchesCount(a: Account) {
    a.lockedUntil.Some? <==> a.failedLoginCount >= MAX_FAILED_ATTEMPTS
  }

  lemma LockAlwaysMatchesCount(events: seq<Event>)
    ensures LockMatchesCount(Run(events).account)
  {
    CounterIsTheChain(events);
  }

  // ---------------------------------------------------------------------------
  // How fast a chain can grow
  // ---------------------------------------------------------------------------

  /** Within one try the clock does not run backwards. */
  ghost predicate ClockForward(failures: seq<Failure>) {
    forall k :: 0 <= k < |failures| ==> failures[k].checkedAt <= failures[k].recordedAt
  }

  /** The failure of the chain that set the first lock. */
  ghost function FirstLock(failures: seq<Failure>, i: nat): (t: nat)
    requires i < |failures| && Chain(failures, i) >= MAX_FAILED_ATTEMPTS
    ensures t <= i && Chain(failures, t) == MAX_FAILED_ATTEMPTS
    decreases i
  {
    if Chain(failures, i) == MAX_FAILED_ATTEMPTS then i else FirstLock(failures, failures[i].basis.value)
  }

  lemma {:induction false} ChainsAreSlow(failures: seq<Failure>, i: nat)
    requires ClockForward(failures) && forall k :: 0 <= k < |failures| ==> Spaced(failures, k)
    requires i < |failures| && Chain(failures, i) >= MAX_FAILED_ATTEMPTS
    ensures failures[i].recordedAt - failures[FirstLock(failures, i)].recordedAt
         >= (Chain(failures, i) - MAX_FAILED_ATTEMPTS) * LOCKOUT_DURATION
    decreases i
  {
    if Chain(failures, i) > MAX_FAILED_ATTEMPTS {
      assert Spaced(failures, i);
      ChainsAreSlow(failures, failures[i].basis.value);
    }
  }

  /**
   * In every run, overlapping or not: a counter standing at n, n at least ten, was
   * reached (n - 10) lock durations after the chain's first lock or later.
   */
  lemma CountingIsSlow(events: seq<Event>)
    requires ClockForward(Run(events).failures)
    ensures var s := Run(events);
            s.account.failedLoginCount >= MAX_FAILED_ATTEMPTS ==>
              && s.latest.Some? && s.latest.value < |s.failures|
              && Chain(s.failures, s.latest.value) == s.account.failedLoginCount
              && s.failures[s.latest.value].recordedAt - s.failures[FirstLock(s.failures, s.latest.value)].recordedAt
                 >= (s.account.failedLoginCount - MAX_FAILED_ATTEMPTS) * LOCKOUT_DURATION
  {
    CounterIsTheChain(events);
    var s := Run(events);
    if s.account.failedLoginCount >= MAX_FAILED_ATTEMPTS {
      ChainsAreSlow(s.failures, s.latest.value);
    }
  }

  // ---------------------------------------------------------------------------
  // When every wrong password is counted
  // ---------------------------------------------------------------------------

  /** No success and no reset. */
  ghost predicate OnlyWrongPasswords(events: seq<Event>) {
    forall i :: 0 <= i < |events| ==> !events[i].Reset? && (events[i].Record? ==> !events[i].passwordOk)
  }

  /** What can be checked as a failure is recorded: the row is still the one its try has read. */
  predicate Current(s: State, e: Event) {
    e.Record? && e.attempt < |s.attempts| && s.attempts[e.attempt].open ==> s.attempts[e.attempt].basis == s.latest
  }

  ghost predicate AllCurrent(events: seq<Event>) {
    events != [] ==> AllCurrent(events[..|events| - 1]) && Current(Run(events[..|events| - 1]), events[|events| - 1])
  }

  /** Without successes and resets the current row is the last failure's. */
  lemma {:induction false} LatestIsLast(events: seq<Event>)
    requires OnlyWrongPasswords(events)
    ensures var s := Run(events);
            s.latest == if s.failures == [] then None else Some(|s.failures| - 1)
  {
    if events != [] {
      LatestIsLast(events[..|events| - 1]);
    }
  }

  /**
   * The exact condition, for every interleaving of wrong passwords: the counter is
   * the number of failures exactly when each one was recorded over the very row
   * its try had read.
   */
  lemma {:induction false} AllAreCountedIffReadsAreCurrent(events: seq<Event>)
    requires OnlyWrongPasswords(events)
    ensures Run(events).account.failedLoginCount == |Run(events).failures| <==> AllCurrent(events)
    ensures Run(events).account.failedLoginCount <= |Run(events).failures|
  {
    if events != [] {
      var init, e := events[..|events| - 1], events[|events| - 1];
      var s := Run(init);
      AllAreCountedIffReadsAreCurrent(init);
      LatestIsLast(init);
      CounterIsTheChain(init);
      CounterIsTheChain(events);
      if e.Record? && e.attempt < |s.attempts| && s.attempts[e.attempt].open {
        CountGrowsIffCurrent(s, e.attempt, e.now);
      }
    }
  }

  lemma CountGrowsIffCurrent(s: State, i: nat, now: int)
    requires Accounted(s) && i < |s.attempts| && s.attempts[i].open
    requires s.latest == if s.failures == [] then None else Some(|s.failures| - 1)
    ensures Next(s, Record(i, false, now)).account.failedLoginCount == |s.failures| + 1
            <==> s.account.failedLoginCount == |s.failures| && s.attempts[i].basis == s.latest
  {
    assert WrittenBy(s.failures, s.attempts[i].read, s.attempts[i].basis);
  }

  // ---------------------------------------------------------------------------
  // Tries one after the other
  // ---------------------------------------------------------------------------

  ghost predicate NoneOpen(s: State) {
    forall i :: 0 <= i < |s.attempts| ==> !s.attempts[i].open
  }

  /** No try starts before the previous one is recorded. */
  ghost predicate Serial(events: seq<Event>) {
    events != [] ==>
      && Serial(events[..|events| - 1])
      && (events[|events| - 1].Check? ==> NoneOpen(Run(events[..|events| - 1])))
  }

  ghost predicate OneOpenAtMost(s: State) {
    && (forall i :: 0 <= i < |s.attempts| && s.attempts[i].open ==> s.attempts[i].basis == s.latest)
    && (forall i, j :: 0 <= i < j < |s.attempts| ==> !(s.attempts[i].open && s.attempts[j].open))
  }

  lemma {:induction false} SerialReadsAreCurrent(events: seq<Event>)
    requires Serial(events) && OnlyWrongPasswords(events)
    ensures OneOpenAtMost(Run(events)) && AllCurrent(events)
  {
    if events != [] {
      SerialReadsAreCurrent(events[..|events| - 1]);
    }
  }

  /** Where every failure is counted, the k-th failure made the counter k. */
  lemma {:induction false} FullChain(failures: seq<Failure>, i: nat, k: nat)
    requires k <= i < |failures| && Chain(failures, i) == i + 1
    ensures Chain(failures, k) == k + 1
    ensures k > 0 ==> failures[k].basis == Some(k - 1)
    decreases i
  {
    if k < i {
      FullChain(failures, failures[i].basis.value, k);
    }
  }

  lemma FullChainIsSpaced(failures: seq<Failure>, i: nat)
    requires ClockForward(failures) && forall k :: 0 <= k < |failures| ==> Spaced(failures, k)
    requires MAX_FAILED_ATTEMPTS <= i < |failures|
    requires Chain(failures, |failures| - 1) == |failures|
    ensures failures[i].recordedAt >= failures[i - 1].recordedAt + LOCKOUT_DURATION
  {
    FullChain(failures, |failures| - 1, i);
    FullChain(failures, |failures| - 1, i - 1);
    assert Spaced(failures, i);
  }

  /**
   * When tries do not overlap, the counter is the number of wrong passwords, and
   * from the tenth on each was recorded a full lock after the one before it.
   */
  lemma FailuresAreSpaced(events: seq<Event>)
    requires OnlyWrongPasswords(events) && Serial(events) && ClockForward(Run(events).failures)
    ensures var f := Run(events).failures;
            && Run(events).account.failedLoginCount == |f|
            && forall i :: MAX_FAILED_ATTEMPTS <= i < |f| ==> f[i].recordedAt >= f[i - 1].recordedAt + LOCKOUT_DURATION
  {
    SerialReadsAreCurrent(events);
    AllAreCountedIffReadsAreCurrent(events);
    CounterIsTheChain(events);
    LatestIsLast(events);
    var f := Run(events).failures;
    forall i | MAX_FAILED_ATTEMPTS <= i < |f|
      ensures f[i].recordedAt >= f[i - 1].recordedAt + LOCKOUT_DURATION
    {
      FullChainIsSpaced(f, i);
    }
  }

  lemma FullChainIsSlow(failures: seq<Failure>)
    requires ClockForward(failures) && forall k :: 0 <= k < |failures| ==> Spaced(failures, k)
    requires |failures| >= MAX_FAILED_ATTEMPTS && Chain(failures, |failures| - 1) == |failures|
    ensures failures[|failures| - 1].recordedAt - failures[MAX_FAILED_ATTEMPTS - 1].recordedAt
         >= (|failures| - MAX_FAILED_ATTEMPTS) * LOCKOUT_DURATION
  {
    var first := FirstLock(failures, |failures| - 1);
    FullChain(failures, |failures| - 1, first);
    ChainsAreSlow(failures, |failures| - 1);
  }

  /** n wrong passwords, n at least ten, one try at a time, take at least (n - 10) lock durations after the tenth. */
  lemma GuessingIsSlow(events: seq<Event>)
    requires OnlyWrongPasswords(events) && Serial(events) && ClockForward(Run(events).failures)
    ensures var f := Run(events).failures;
            |f| >= 10 ==> f[|f| - 1].recordedAt - f[9].recordedAt >= (|f| - 10) * (15 * 60 * 1000)
  {
    FailuresAreSpaced(events);
    LatestIsLast(events);
    CounterIsTheChain(events);
    if |Run(events).failures| >= MAX_FAILED_ATTEMPTS {
      FullChainIsSlow(Run(events).failures);
    }
  }

  // ---------------------------------------------------------------------------
  // Tries in parallel
  // ---------------------------------------------------------------------------

  /** All `n` tries read the account before the first of `k` of them is recorded, all at time 0. */
  function ParallelRun(n: nat, k: nat): seq<Event>
    decreases n, k
  {
    if k > 0 then ParallelRun(n, k - 1) + [Record(k - 1, false, 0)]
    else if n > 0 then ParallelRun(n - 1, 0) + [Check(0)]
    else []
  }

  /** `n` tries under way, the first `k` of them recorded: each read a clean row, and the counter is at most one. */
  ghost predicate Parallel(s: State, n: nat, k: nat) {
    && |s.failures| == k && |s.attempts| == n
    && (forall i :: 0 <= i < n ==> s.attempts[i] == Attempt(0, CLEAN, None, i >= k))
    && s.account == Account(if k == 0 then 0 else 1, None)
    && (k == 0 ==> s.latest == None)
  }

  lemma ParallelCheck(s: State, n: nat)
    requires Parallel(s, n, 0)
    ensures Parallel(Next(s, Check(0)), n + 1, 0)
  {
  }

  lemma ParallelRecord(s: State, n: nat, k: nat)
    requires Parallel(s, n, k) && k < n
    ensures Parallel(Next(s, Record(k, false, 0)), n, k + 1)
  {
  }

  /** However many wrong passwords are tried at once, the counter ends at one and no lock is ever set. */
  lemma {:induction false} ParallelGuessesAreCountedOnce(n: nat, k: nat)
    requires k <= n
    ensures OnlyWrongPasswords(ParallelRun(n, k))
    ensures Parallel(Run(ParallelRun(n, k)), n, k)
    decreases n, k
  {
    if k > 0 {
      ParallelGuessesAreCountedOnce(n, k - 1);
      RunSnoc(ParallelRun(n, k - 1), Record(k - 1, false, 0));
      ParallelRecord(Run(ParallelRun(n, k - 1)), n, k - 1);
    } else if n > 0 {
      ParallelGuessesAreCountedOnce(n - 1, 0);
      RunSnoc(ParallelRun(n - 1, 0), Check(0));
      ParallelCheck(Run(ParallelRun(n - 1, 0)), n - 1);
    }
  }

  // ---------------------------------------------------------------------------
  // The bound for tries one after the other is tight
  // ---------------------------------------------------------------------------

  function FastestTime(i: nat): int {
    if i < MAX_FAILED_ATTEMPTS then 0 else (i - MAX_FAILED_ATTEMPTS + 1) * LOCKOUT_DURATION
  }

  function FastestRun(n: nat): seq<Event> {
    if n == 0 then [] else FastestRun(n - 1) + [Check(FastestTime(n - 1))] + [Record(n - 1, false, FastestTime(n - 1))]
  }

  /** After n failures at the fastest times. */
  ghost predicate AtFastestTimes(s: State, n: nat) {
    && |s.failures| == n && |s.attempts| == n && NoneOpen(s)
    && (forall i :: 0 <= i < n ==> s.failures[i].checkedAt == s.failures[i].recordedAt == FastestTime(i))
    && s.account.failedLoginCount == n
    && s.account.lockedUntil == if n >= MAX_FAILED_ATTEMPTS then Some(FastestTime(n - 1) + LOCKOUT_DURATION) else None
  }

  lemma FastestStep(s: State, n: nat)
    requires AtFastestTimes(s, n)
    ensures AtFastestTimes(Next(Next(s, Check(FastestTime(n))), Record(n, false, FastestTime(n))), n + 1)
  {
    assert !LockedAt(s.account, FastestTime(n));
  }

  lemma SerialSnoc(events: seq<Event>, e: Event)
    requires Serial(events) && (e.Check? ==> NoneOpen(Run(events)))
    ensures Serial(events + [e])
  {
    assert (events + [e])[..|events|] == events;
  }

  /** One more try at its earliest time. */
  lemma FastestExtends(before: seq<Event>, n: nat)
    requires OnlyWrongPasswords(before) && Serial(before) && AtFastestTimes(Run(before), n)
    ensures var more := before + [Check(FastestTime(n))] + [Record(n, false, FastestTime(n))];
            OnlyWrongPasswords(more) && Serial(more) && AtFastestTimes(Run(more), n + 1)
  {
    var check, record := Check(FastestTime(n)), Record(n, false, FastestTime(n));
    RunSnoc(before, check);
    RunSnoc(before + [check], record);
    FastestStep(Run(before), n);
    SerialSnoc(before, check);
    SerialSnoc(before + [check], record);
  }

  lemma FastestSpan(n: nat)
    requires n >= MAX_FAILED_ATTEMPTS
    ensures FastestTime(n - 1) - FastestTime(MAX_FAILED_ATTEMPTS - 1) == (n - MAX_FAILED_ATTEMPTS) * LOCKOUT_DURATION
  {
  }

  lemma {:induction false} FastestRunIsFast(n: nat)
    ensures OnlyWrongPasswords(FastestRun(n)) && Serial(FastestRun(n)) && AtFastestTimes(Run(FastestRun(n)), n)
  {
    if n > 0 {
      FastestRunIsFast(n - 1);
      FastestExtends(FastestRun(n - 1), n - 1);
    }
  }

  /** Trying again the moment each lock ends fails n times in exactly (n - 10) lock durations. */
  lemma FastestRunMeetsTheBound(n: nat)
    requires n >= MAX_FAILED_ATTEMPTS
    ensures var f := Run(FastestRun(n)).failures;
            && OnlyWrongPasswords(FastestRun(n)) && Serial(FastestRun(n)) && ClockForward(f) && |f| == n
            && f[n - 1].recordedAt - f[MAX_FAILED_ATTEMPTS - 1].recordedAt == (n - MAX_FAILED_ATTEMPTS) * LOCKOUT_DURATION
  {
    FastestRunIsFast(n);
    FastestSpan(n);
  }

  // ---------------------------------------------------------------------------
  // What is read and written
  // ---------------------------------------------------------------------------

  /** A wrong password writes the count read plus one, and a lock of fifteen minutes from the tenth on; a right one clears both. */
  lemma RecordedRow(read: Account, passwordOk: bool, now: int)
    ensures passwordOk ==> Recorded(read, passwordOk, now) == Account(0, None)
    ensures !passwordOk ==>
              var row := Recorded(read, passwordOk, now);
              && row.failedLoginCount == read.failedLoginCount + 1
              && row.lockedUntil == if read.failedLoginCount + 1 >= 10 then Some(now + 15 * 60 * 1000) else None
  {
  }

  /** A check is refused exactly while the lock is in the future, and then changes nothing. */
  lemma LockedAttemptIsRefused(s: State, now: int)
    ensures Next(s, Check(now)) == s <==> exists until :: s.account.lockedUntil == Some(until) && now < until
  {
  }

  /** A reset leaves a clean row, whatever is still under way; a finished try writes what its own read calls for, once. */
  lemma ResetAndRecord(s: State, i: nat, passwordOk: bool, now: int)
    ensures Next(s, Reset).account == Account(0, None) && Next(s, Reset).attempts == s.attempts
    ensures i < |s.attempts| && s.attempts[i].open ==>
              var after := Next(s, Record(i, passwordOk, now));
              && after.account == Recorded(s.attempts[i].read, passwordOk, now)
              && !after.attempts[i].open
              && |after.failures| == |s.failures| + if passwordOk then 0 else 1
    ensures !(i < |s.attempts| && s.attempts[i].open) ==> Next(s, Record(i, passwordOk, now)) == s
  {
  }
}
