/** The account lockout policy shared by the password step and the code step,
    and exactly how many failures it lets an account collect. */
module Lockout {
  import opened SlidingWindow
  import opened HubTables
  import opened HubDatabase

  datatype Config = Config(
    accountMaxFailures: int,
    ipMaxFailures: int,
    failureWindow: int,
    lockoutDuration: int)
  {
    predicate Valid() {
      accountMaxFailures > 0 && ipMaxFailures > 0 && failureWindow > 0 && lockoutDuration > 0
    }
  }

  const DEFAULT: Config := Config(5, 20, 15 * MINUTE, 15 * MINUTE)

  datatype Outcome = Unlocked | NowLocked(until: int, failedAttempts: nat)

  /** What EvaluateAccount decides from the failures already recorded. */
  function Evaluate(policy: Config, failures: nat, now: int): Outcome {
    if failures < policy.accountMaxFailures then Unlocked
    else NowLocked(now + policy.lockoutDuration, failures)
  }

  /** The account policy applied to tables that already hold the new failure:
      past the threshold the account is locked and the lock is audited. */
  function Judge(policy: Config, t: Tables, user: UserId, ip: Option<Address>, at: int, now: int): (r: (Tables, Outcome)) {
    var outcome := Evaluate(policy, FailuresOfAccount(t.audit, user, now - policy.failureWindow), now);
    match outcome
    case Unlocked => (t, outcome)
    case NowLocked(until, _) =>
      (t.(accounts := WithLock(t.accounts, user, until),
          audit := t.audit + [AuditEvent(Some(user), AccountLocked, ip, at)]), outcome)
  }

  /** Counts the recorded failures and writes the lock; None when a call failed. */
  method EvaluateAccount(policy: Config, db: Database, user: UserId, now: int, faults: set<Call>)
    returns (outcome: Option<Outcome>)
    requires policy.Valid()
    modifies db`accounts
    ensures outcome.None? ==> CountByAccount in faults || LockUser in faults
    ensures outcome.Some? ==>
              && outcome.value == Evaluate(policy, FailuresOfAccount(db.audit, user, now - policy.failureWindow), now)
              && db.accounts == match outcome.value
                                case Unlocked => old(db.accounts)
                                case NowLocked(until, _) => WithLock(old(db.accounts), user, until)
  {
    if CountByAccount in faults {
      return None;
    }
    var failures := FailuresOfAccount(db.audit, user, now - policy.failureWindow);
    if failures < policy.accountMaxFailures {
      return Some(Unlocked);
    }
    var lockedUntil := now + policy.lockoutDuration;
    var ok := db.LockLoginUser(user, lockedUntil, faults);
    if !ok {
      return None;
    }
    return Some(NowLocked(lockedUntil, failures));
  }

  // ------------------------------------------------- one account, over a run

  /** What the two sign-in steps see and change of one account. */
  datatype AccountState = AccountState(status: Status, lockedUntil: Option<int>, failures: seq<int>)

  datatype Step = Password | Code

  /** One attempt: the transaction began, read the clock, then took the row lock. */
  datatype Attempt = Attempt(step: Step, began: int, reading: int, locked: int, correct: bool)

  function RecordFailure(policy: Config, a: AccountState, began: int, reading: int): AccountState {
    var failures := a.failures + [began];
    if a.status != Active then a.(failures := failures)
    else
      match Evaluate(policy, CountSince(failures, reading - policy.failureWindow), reading)
      case Unlocked => a.(failures := failures)
      case NowLocked(until, _) => AccountState(Locked, Some(until), failures)
  }

  /** The password step releases an expired lock; the code step never does. */
  function ReleaseExpired(a: AccountState, reading: int): AccountState {
    if a.status == Locked && a.lockedUntil.Some? && a.lockedUntil.value <= reading
    then a.(status := Active, lockedUntil := None)
    else a
  }

  function Next(policy: Config, a: AccountState, t: Attempt): AccountState {
    match t.step
    case Password =>
      var released := ReleaseExpired(a, t.reading);
      if released.status == Locked then a
      else if t.correct && released.status == Active then released
      else RecordFailure(policy, released, t.began, t.reading)
    case Code =>
      if a.status != Active || t.correct then a
      else RecordFailure(policy, a, t.began, t.reading)
  }

  function AccountOf(t: Tables, user: UserId): AccountState
    requires user in t.accounts
  {
    AccountState(t.accounts[user].status, t.accounts[user].lockedUntil, Failures(t.audit, user))
  }

  /** The failure is newer than the account's last completed password reset, so it counts. */
  predicate ResetBefore(audit: seq<AuditEvent>, user: UserId, began: int) {
    LastReset(audit, user).None? || LastReset(audit, user).value < began
  }

  /** Judging tables that hold the new failure is what the account machine does with it. */
  lemma JudgeIsRecording(policy: Config, recorded: Tables, user: UserId, a: AccountState, ip: Option<Address>, began: int, now: int)
    requires policy.Valid() && user in recorded.accounts && a.status == Active
    requires AccountOf(recorded, user) == a.(failures := a.failures + [began])
    ensures var judged := Judge(policy, recorded, user, ip, began, now).0;
      user in judged.accounts && AccountOf(judged, user) == RecordFailure(policy, a, began, now)
  {
    var locked := AuditEvent(Some(user), AccountLocked, ip, began);
    var failures := a.failures + [began];
    assert Failures(recorded.audit + [locked], user) == failures by {
      FailuresAppend(recorded.audit, locked, user);
    }
    match Evaluate(policy, CountSince(failures, now - policy.failureWindow), now)
    case Unlocked =>
    case NowLocked(until, _) =>
      assert Judge(policy, recorded, user, ip, began, now).0
          == recorded.(accounts := WithLock(recorded.accounts, user, until), audit := recorded.audit + [locked]);
  }

  const FRESH: AccountState := AccountState(Active, None, [])

  function After(policy: Config, run: seq<Attempt>): AccountState {
    if run == [] then FRESH
    else Next(policy, After(policy, run[..|run| - 1]), run[|run| - 1])
  }

  /** Locks are taken in clock order; the clock is read between the beginning
      of the transaction and the lock, at most delay before the lock. */
  ghost predicate Timely(run: seq<Attempt>, delay: int) {
    && (forall i :: 0 <= i < |run| ==>
          run[i].began <= run[i].reading <= run[i].locked <= run[i].began + delay)
    && (forall i, j :: 0 <= i < j < |run| ==> run[i].locked <= run[j].locked)
  }

  /** Every closed interval of this length holds at most accountMaxFailures failures, in every run. */
  ghost predicate BoundsFailures(policy: Config, delay: int, length: int) {
    forall run :: Timely(run, delay) ==>
      Capped(After(policy, run).failures, length, policy.accountMaxFailures)
  }

  predicate LongEnough(policy: Config, delay: int, length: int) {
    && length + delay < policy.lockoutDuration
    && (if policy.accountMaxFailures == 1 then delay else length + delay) <= policy.failureWindow
  }

  /** A full interval has locked the account until past the reach of a late stamp. */
  ghost predicate Guarded(policy: Config, a: AccountState, clock: int, length: int) {
    forall x ::
      && CountFrom(a.failures, x, length) <= policy.accountMaxFailures
      && (CountFrom(a.failures, x, length) == policy.accountMaxFailures ==>
            || x + policy.lockoutDuration <= clock
            || (a.status == Locked && a.lockedUntil.Some? && x + policy.lockoutDuration <= a.lockedUntil.value))
  }

  lemma RecordingKeepsGuard(policy: Config, a: AccountState, t: Attempt, delay: nat, length: nat)
    requires policy.Valid() && LongEnough(policy, delay, length)
    requires Guarded(policy, a, t.locked, length)
    requires t.began <= t.reading <= t.locked <= t.began + delay
    requires a.status == Active
    ensures Guarded(policy, RecordFailure(policy, a, t.began, t.reading), t.locked, length)
  {
    var after := RecordFailure(policy, a, t.began, t.reading);
    var since := t.reading - policy.failureWindow;
    forall x
      ensures CountFrom(after.failures, x, length) <= policy.accountMaxFailures
      ensures CountFrom(after.failures, x, length) == policy.accountMaxFailures ==>
            || x + policy.lockoutDuration <= t.locked
            || (after.status == Locked && after.lockedUntil.Some? && x + policy.lockoutDuration <= after.lockedUntil.value)
    {
      CountInAppend(a.failures, t.began, x, x + length);
      assert CountFrom(a.failures, x, length) <= policy.accountMaxFailures;
      if x <= t.began <= x + length && CountFrom(after.failures, x, length) == policy.accountMaxFailures {
        if policy.accountMaxFailures == 1 {
          CountSinceAppend(a.failures, t.began, since);
        } else {
          IntervalWithinLookback(after.failures, x, x + length, since);
        }
      }
    }
  }

  lemma NextKeepsGuard(policy: Config, a: AccountState, clock: int, t: Attempt, delay: nat, length: nat)
    requires policy.Valid() && LongEnough(policy, delay, length)
    requires Guarded(policy, a, clock, length) && clock <= t.locked
    requires t.began <= t.reading <= t.locked <= t.began + delay
    requires a.status == Active || a.status == Locked
    ensures Guarded(policy, Next(policy, a, t), t.locked, length)
    ensures Next(policy, a, t).status == Active || Next(policy, a, t).status == Locked
  {
    assert Guarded(policy, a, t.locked, length) by {
      forall x
        ensures CountFrom(a.failures, x, length) <= policy.accountMaxFailures
        ensures CountFrom(a.failures, x, length) == policy.accountMaxFailures ==>
            || x + policy.lockoutDuration <= t.locked
            || (a.status == Locked && a.lockedUntil.Some? && x + policy.lockoutDuration <= a.lockedUntil.value)
      {}
    }
    var released := ReleaseExpired(a, t.reading);
    assert Guarded(policy, released, t.locked, length) by {
      forall x
        ensures CountFrom(released.failures, x, length) <= policy.accountMaxFailures
        ensures CountFrom(released.failures, x, length) == policy.accountMaxFailures ==>
            || x + policy.lockoutDuration <= t.locked
            || (released.status == Locked && released.lockedUntil.Some? && x + policy.lockoutDuration <= released.lockedUntil.value)
      {
        assert CountFrom(a.failures, x, length) <= policy.accountMaxFailures;
      }
    }
    if a.status == Active {
      RecordingKeepsGuard(policy, a, t, delay, length);
    }
    if released.status == Active {
      RecordingKeepsGuard(policy, released, t, delay, length);
    }
  }

  lemma FreshIsGuarded(policy: Config, clock: int, length: nat)
    requires policy.Valid()
    ensures Guarded(policy, FRESH, clock, length)
  {}

  function ClockAfter(run: seq<Attempt>): int {
    if run == [] then 0 else run[|run| - 1].locked
  }

  lemma {:induction false} RunIsGuarded(policy: Config, run: seq<Attempt>, delay: nat, length: nat)
    requires policy.Valid() && LongEnough(policy, delay, length) && Timely(run, delay)
    ensures After(policy, run).status == Active || After(policy, run).status == Locked
    ensures Guarded(policy, After(policy, run), ClockAfter(run), length)
  {
    if run == [] {
      FreshIsGuarded(policy, 0, length);
    } else {
      var n := |run| - 1;
      RunIsGuarded(policy, run[..n], delay, length);
      if n == 0 {
        FreshIsGuarded(policy, run[n].locked, length);
        NextKeepsGuard(policy, FRESH, run[n].locked, run[n], delay, length);
      } else {
        NextKeepsGuard(policy, After(policy, run[..n]), run[n - 1].locked, run[n], delay, length);
      }
    }
  }

  // ------------------------------------------ the bound is exact: bad schedules

  function Wrong(step: Step, began: int, reading: int, locked: int): Attempt {
    Attempt(step, began, reading, locked, false)
  }

  lemma AfterAppend(policy: Config, run: seq<Attempt>, t: Attempt)
    ensures After(policy, run + [t]) == Next(policy, After(policy, run), t)
  {
    assert (run + [t])[..|run|] == run;
  }

  /** The account after n wrong codes on top of the earlier failures base, all out of the window. */
  ghost predicate Filled(policy: Config, a: AccountState, base: seq<int>, t: Attempt, n: nat) {
    var since := t.reading - policy.failureWindow;
    && a.failures == base + Repeated(t.began, n)
    && CountSince(a.failures, since) == (if since <= t.began then n else 0)
    && (n < policy.accountMaxFailures ==> a.status == Active)
    && (n == policy.accountMaxFailures && since <= t.began ==>
          a.status == Locked && a.lockedUntil == Some(t.reading + policy.lockoutDuration))
  }

  lemma FillOne(policy: Config, a: AccountState, base: seq<int>, t: Attempt, n: nat)
    requires policy.Valid() && n < policy.accountMaxFailures
    requires t.step == Code && !t.correct
    requires Filled(policy, a, base, t, n)
    ensures Filled(policy, Next(policy, a, t), base, t, n + 1)
  {
    CountSinceAppend(a.failures, t.began, t.reading - policy.failureWindow);
    RepeatedSnoc(base, t.began, n);
  }

  function Iterated<S>(step: S -> S, s: S, n: nat): S {
    if n == 0 then s else step(Iterated(step, s, n - 1))
  }

  lemma {:induction false} IteratedKeeps<S(!new)>(step: S -> S, holds: (S, nat) -> bool, s: S, n: nat, cap: nat)
    requires n <= cap && holds(s, 0)
    requires forall x, k: nat :: k < cap && holds(x, k) ==> holds(step(x), k + 1)
    ensures holds(Iterated(step, s, n), n)
  {
    if n != 0 {
      IteratedKeeps(step, holds, s, n - 1, cap);
    }
  }

  function Facing(policy: Config, t: Attempt): AccountState -> AccountState {
    (a: AccountState) => Next(policy, a, t)
  }

  /** The account after n attempts like t. */
  function Again(policy: Config, a: AccountState, t: Attempt, n: nat): AccountState {
    Iterated(Facing(policy, t), a, n)
  }

  lemma RepeatedSnoc<T>(prefix: seq<T>, t: T, n: nat)
    ensures prefix + Repeated(t, 0) == prefix
    ensures prefix + Repeated(t, n + 1) == prefix + Repeated(t, n) + [t]
  {}

  lemma OneMoreAttempt(policy: Config, prefix: seq<Attempt>, t: Attempt, k: nat)
    ensures After(policy, prefix + Repeated(t, k + 1)) == Facing(policy, t)(After(policy, prefix + Repeated(t, k)))
  {
    RepeatedSnoc(prefix, t, k);
    AfterAppend(policy, prefix + Repeated(t, k), t);
  }

  ghost function ReachedBy(policy: Config, prefix: seq<Attempt>, t: Attempt): (AccountState, nat) -> bool {
    (x: AccountState, k: nat) => x == After(policy, prefix + Repeated(t, k))
  }

  lemma AfterRepeated(policy: Config, prefix: seq<Attempt>, t: Attempt, n: nat)
    ensures After(policy, prefix + Repeated(t, n)) == Again(policy, After(policy, prefix), t, n)
  {
    var holds := ReachedBy(policy, prefix, t);
    RepeatedSnoc(prefix, t, 0);
    forall x, k: nat | holds(x, k) ensures holds(Facing(policy, t)(x), k + 1) {
      OneMoreAttempt(policy, prefix, t, k);
    }
    IteratedKeeps(Facing(policy, t), holds, After(policy, prefix), n, n);
    assert holds(Again(policy, After(policy, prefix), t, n), n);
  }

  lemma NothingFilled(policy: Config, a: AccountState, t: Attempt)
    requires policy.Valid() && a.status == Active
    requires CountSince(a.failures, t.reading - policy.failureWindow) == 0
    ensures Filled(policy, a, a.failures, t, 0)
  {
    assert a.failures + Repeated(t.began, 0) == a.failures;
  }

  ghost function FilledBy(policy: Config, base: seq<int>, t: Attempt): (AccountState, nat) -> bool {
    (x: AccountState, k: nat) => Filled(policy, x, base, t, k)
  }

  lemma FillOneMore(policy: Config, a: AccountState, base: seq<int>, t: Attempt, n: nat)
    requires policy.Valid() && n < policy.accountMaxFailures
    requires t.step == Code && !t.correct && FilledBy(policy, base, t)(a, n)
    ensures FilledBy(policy, base, t)(Facing(policy, t)(a), n + 1)
  {
    FillOne(policy, a, base, t, n);
  }

  lemma FillingStep(policy: Config, base: seq<int>, t: Attempt)
    requires policy.Valid() && t.step == Code && !t.correct
    ensures forall x, k: nat :: k < policy.accountMaxFailures && FilledBy(policy, base, t)(x, k) ==>
      FilledBy(policy, base, t)(Facing(policy, t)(x), k + 1)
  {
    forall x, k: nat | k < policy.accountMaxFailures && FilledBy(policy, base, t)(x, k)
      ensures FilledBy(policy, base, t)(Facing(policy, t)(x), k + 1)
    {
      FillOneMore(policy, x, base, t, k);
    }
  }

  /** Repeating a wrong code records every one of accountMaxFailures attempts; only the last can lock. */
  lemma RepeatedRecord(policy: Config, a: AccountState, t: Attempt, n: nat)
    requires policy.Valid() && n <= policy.accountMaxFailures
    requires t.step == Code && !t.correct && a.status == Active
    requires CountSince(a.failures, t.reading - policy.failureWindow) == 0
    ensures Filled(policy, Again(policy, a, t, n), a.failures, t, n)
  {
    var holds := FilledBy(policy, a.failures, t);
    NothingFilled(policy, a, t);
    FillingStep(policy, a.failures, t);
    IteratedKeeps(Facing(policy, t), holds, a, n, policy.accountMaxFailures);
    assert holds(Again(policy, a, t, n), n);
  }

  lemma RepeatedIsTimely(prefix: seq<Attempt>, t: Attempt, n: nat, delay: int)
    requires Timely(prefix + [t], delay)
    ensures Timely(prefix + Repeated(t, n), delay)
  {
    RepeatedElements(t, n);
    var run, one := prefix + Repeated(t, n), prefix + [t];
    var m := |prefix|;
    assert one[m] == t;
    forall i | 0 <= i < |run|
      ensures run[i].began <= run[i].reading <= run[i].locked <= run[i].began + delay
    {
      assert run[i] == one[if i < m then i else m];
    }
    forall i, j | 0 <= i < j < |run| ensures run[i].locked <= run[j].locked {
      assert run[i] == one[if i < m then i else m];
      assert run[j] == one[if j < m then j else m];
    }
  }

  lemma AppendIsTimely(run: seq<Attempt>, t: Attempt, delay: int, clock: int)
    requires Timely(run, delay)
    requires forall i :: 0 <= i < |run| ==> run[i].locked <= clock
    requires t.began <= t.reading <= t.locked <= t.began + delay && clock <= t.locked
    ensures Timely(run + [t], delay)
  {}

  lemma Overflow(policy: Config, delay: int, length: int, run: seq<Attempt>)
    requires Timely(run, delay)
    requires CountFrom(After(policy, run).failures, 0, length) > policy.accountMaxFailures
    ensures !BoundsFailures(policy, delay, length)
  {}

  /** One failure at time zero that the later attempts no longer see. */
  lemma UnseenFailureOverflows(policy: Config, delay: nat, length: nat, first: Attempt, later: Attempt)
    requires policy.Valid() && Timely([first] + [later], delay)
    requires Next(policy, FRESH, first) == AccountState(Active, None, [0])
    requires later.step == Code && !later.correct && 0 <= later.began <= length
    requires 0 < later.reading - policy.failureWindow
    ensures !BoundsFailures(policy, delay, length)
  {
    var n := policy.accountMaxFailures;
    var run := [first] + Repeated(later, n);
    RepeatedIsTimely([first], later, n, delay);
    AfterRepeated(policy, [first], later, n);
    var a := After(policy, [first]);
    assert a == AccountState(Active, None, [0]);
    CountSinceAppend([], 0, later.reading - policy.failureWindow);
    assert [] + [0] == [0];
    RepeatedRecord(policy, a, later, n);
    assert CountFrom(After(policy, run).failures, 0, length) == n + 1 by {
      CountInConcat([0], Repeated(later.began, n), 0, length);
      CountInAppend([], 0, 0, length);
      CountRepeated(later.began, n, 0, length);
    }
    Overflow(policy, delay, length, run);
  }

  /** A clock read late misses an old failure of the same interval, and one more gets in. */
  lemma LateReadingOverflows(policy: Config, delay: nat, length: nat)
    requires policy.Valid()
    requires policy.failureWindow < if policy.accountMaxFailures == 1 then delay else length + delay
    ensures !BoundsFailures(policy, delay, length)
  {
    var first := if policy.accountMaxFailures == 1 then Wrong(Code, 0, delay, delay) else Wrong(Code, 0, 0, 0);
    var later := if policy.accountMaxFailures == 1 then first else Wrong(Code, length, length + delay, length + delay);
    CountSinceAppend([], 0, first.reading - policy.failureWindow);
    assert [] + [0] == [0];
    UnseenFailureOverflows(policy, delay, length, first, later);
  }

  /** Enough wrong codes at time zero lock the account for one lock duration. */
  lemma FillAtZero(policy: Config)
    requires policy.Valid()
    ensures var n := policy.accountMaxFailures;
      After(policy, Repeated(Wrong(Code, 0, 0, 0), n))
      == AccountState(Locked, Some(policy.lockoutDuration), Repeated(0, n))
  {
    var n, early := policy.accountMaxFailures, Wrong(Code, 0, 0, 0);
    AfterRepeated(policy, [], early, n);
    assert [] + Repeated(early, n) == Repeated(early, n);
    RepeatedRecord(policy, FRESH, early, n);
    assert [] + Repeated(0, n) == Repeated(0, n);
  }

  /** The first attempt after the lock expired is recorded beside those that locked. */
  lemma RecordedAfterExpiry(policy: Config, a: AccountState, last: Attempt, n: nat)
    requires a == AccountState(Locked, Some(last.reading), Repeated(0, n))
    requires last.step == Password && !last.correct && last.locked == last.reading
    ensures Next(policy, a, last).failures == Repeated(0, n) + [last.began]
  {}

  lemma CountAfterExpiry(n: nat, began: int, length: nat)
    requires 0 <= began <= length
    ensures CountFrom(Repeated(0, n) + [began], 0, length) == n + 1
  {
    CountInAppend(Repeated(0, n), began, 0, length);
    CountRepeated(0, n, 0, length);
  }

  /** A lock that expires within reach of a late stamp lets one more failure into the same interval. */
  lemma ShortLockOverflows(policy: Config, delay: nat, length: nat)
    requires policy.Valid()
    requires policy.lockoutDuration <= length + delay
    ensures !BoundsFailures(policy, delay, length)
  {
    var n, d := policy.accountMaxFailures, policy.lockoutDuration;
    var filled := Repeated(Wrong(Code, 0, 0, 0), n);
    var last := Wrong(Password, if delay <= d then d - delay else 0, d, d);
    RepeatedElements(Wrong(Code, 0, 0, 0), n);
    AppendIsTimely(filled, last, delay, 0);
    FillAtZero(policy);
    AfterAppend(policy, filled, last);
    RecordedAfterExpiry(policy, After(policy, filled), last, n);
    CountAfterExpiry(n, last.began, length);
    Overflow(policy, delay, length, filled + [last]);
  }

  /** Exactly which intervals the policy bounds, for every policy and every
      delay between a failure's timestamp and the row lock. */
  lemma LockoutBoundIsExact(policy: Config, delay: nat, length: nat)
    requires policy.Valid()
    ensures BoundsFailures(policy, delay, length) <==> LongEnough(policy, delay, length)
  {
    if LongEnough(policy, delay, length) {
      forall run | Timely(run, delay)
        ensures Capped(After(policy, run).failures, length, policy.accountMaxFailures)
      {
        RunIsGuarded(policy, run, delay, length);
      }
    } else if policy.lockoutDuration <= length + delay {
      ShortLockOverflows(policy, delay, length);
    } else {
      LateReadingOverflows(policy, delay, length);
    }
  }

  /** The default policy bounds an interval exactly when, together with the delay, it is shorter than fifteen minutes. */
  lemma DefaultBoundIsExact(delay: nat, length: nat)
    ensures DEFAULT.Valid() && (BoundsFailures(DEFAULT, delay, length) <==> length + delay < 15 * MINUTE)
  {
    LockoutBoundIsExact(DEFAULT, delay, length);
  }

  /** With instantaneous transactions, a half-open interval of one failure
      window is bounded exactly when the lock lasts at least as long. */
  lemma WindowIsBoundedIffLockOutlastsIt(policy: Config)
    requires policy.Valid()
    ensures policy.failureWindow <= policy.lockoutDuration ==> BoundsFailures(policy, 0, policy.failureWindow - 1)
    ensures policy.lockoutDuration < policy.failureWindow ==> !BoundsFailures(policy, 0, policy.failureWindow - 1)
  {
    LockoutBoundIsExact(policy, 0, policy.failureWindow - 1);
  }
}
