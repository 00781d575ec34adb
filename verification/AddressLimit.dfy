/** The per-address limit of the password step. A login counts the failures of
    its address before it takes any row lock, so logins of one address overlap:
    this is exactly what the limit then bounds. */
module AddressLimit {
  import opened SlidingWindow
  import opened HubTables
  import opened Lockout
  import opened Login

  /** The times of the login failures of an address: rejected codes count
      towards its limit, but only the login step is stopped by it. */
  function LoginStamps(audit: seq<AuditEvent>, ip: Address): seq<int> {
    if audit == [] then []
    else
      var e := audit[|audit| - 1];
      var earlier := LoginStamps(audit[..|audit| - 1], ip);
      if e.ip == Some(ip) && e.action == LoginFailed then earlier + [e.at] else earlier
  }

  lemma LoginStampsAppend(audit: seq<AuditEvent>, e: AuditEvent, ip: Address)
    ensures LoginStamps(audit + [e], ip)
         == if e.ip == Some(ip) && e.action == LoginFailed then LoginStamps(audit, ip) + [e.at]
            else LoginStamps(audit, ip)
  {
    assert (audit + [e])[..|audit|] == audit;
  }

  lemma {:induction false} LoginStampsAreCounted(audit: seq<AuditEvent>, ip: Address, early: int, late: int)
    requires early <= late
    ensures CountSince(LoginStamps(audit, ip), late) <= FailuresOfAddress(audit, ip, early)
  {
    if audit != [] {
      var n := |audit| - 1;
      LoginStampsAreCounted(audit[..n], ip, early, late);
      CountSinceAppend(LoginStamps(audit[..n], ip), audit[n].at, late);
      CountSinceAppend(StampsOfAddress(audit[..n], ip), audit[n].at, early);
    }
  }

  // --------------------------------------------------------------- whole runs

  /** inFlight: the logins that counted below the limit and have not committed. */
  datatype System = System(tables: Tables, inFlight: seq<Request>)

  datatype Step =
    | Count(request: Request)
    | Commit(flight: nat)
    | Abort(aborted: nat)
    | Append(event: AuditEvent)
    | Administer(user: UserId, account: Account)

  /** The clock is read at most delay after the transaction began; other
      transactions audit anything but a failed login. */
  predicate Enabled(s: System, step: Step, delay: int) {
    match step
    case Count(r) => r.began <= r.now <= r.began + delay
    case Commit(i) => i < |s.inFlight|
    case Abort(i) => i < |s.inFlight|
    case Append(e) => e.action != LoginFailed
    case Administer(_, _) => true
  }

  function Without(inFlight: seq<Request>, i: nat): seq<Request>
    requires i < |inFlight|
  {
    inFlight[..i] + inFlight[i + 1..]
  }

  function Apply(policy: Config, s: System, step: Step, delay: int): System
    requires Enabled(s, step, delay)
  {
    var t := s.tables;
    match step
    case Count(r) => if AddressIsLimited(policy, t, r.input.ip, r.now) then s else s.(inFlight := s.inFlight + [r])
    case Commit(i) =>
      var r := s.inFlight[i];
      System(Admitted(policy, t, r.input, r.began, r.now).0, Without(s.inFlight, i))
    case Abort(i) => s.(inFlight := Without(s.inFlight, i))
    case Append(e) => s.(tables := t.(audit := t.audit + [e]))
    case Administer(user, account) => s.(tables := t.(accounts := t.accounts[user := account]))
  }

  function FlightStamps(inFlight: seq<Request>, ip: Address): seq<int> {
    if inFlight == [] then []
    else
      var r := inFlight[|inFlight| - 1];
      var earlier := FlightStamps(inFlight[..|inFlight| - 1], ip);
      if r.input.ip == Some(ip) then earlier + [r.began] else earlier
  }

  /** At most k logins of the address are between counting and committing. */
  predicate AtMost(s: System, ip: Address, k: nat) {
    |FlightStamps(s.inFlight, ip)| <= k
  }

  predicate IsRun(policy: Config, s: System, steps: seq<Step>, ip: Address, delay: int, k: nat)
    decreases |steps|
  {
    && AtMost(s, ip, k)
    && (steps == [] || (Enabled(s, steps[0], delay) && IsRun(policy, Apply(policy, s, steps[0], delay), steps[1..], ip, delay, k)))
  }

  function Final(policy: Config, s: System, steps: seq<Step>, ip: Address, delay: int, k: nat): System
    requires IsRun(policy, s, steps, ip, delay, k)
    decreases |steps|
  {
    if steps == [] then s else Final(policy, Apply(policy, s, steps[0], delay), steps[1..], ip, delay, k)
  }

  /** In every such run from an empty audit, every closed interval of the length holds at most bound login failures. */
  ghost predicate BoundsAddress(policy: Config, k: nat, delay: int, length: int, bound: int) {
    forall t: Tables, steps, ip :: t.audit == [] && IsRun(policy, System(t, []), steps, ip, delay, k) ==>
      Capped(LoginStamps(Final(policy, System(t, []), steps, ip, delay, k).tables.audit, ip), length, bound)
  }

  // ------------------------------------------------------------- the upper bound

  /** Failures on record and failures still to come. */
  ghost predicate Within(s: System, ip: Address, length: int, bound: int) {
    CappedTogether(LoginStamps(s.tables.audit, ip), FlightStamps(s.inFlight, ip), length, bound)
  }

  lemma {:induction false} FlightStampsConcat(a: seq<Request>, b: seq<Request>, ip: Address)
    ensures FlightStamps(a + b, ip) == FlightStamps(a, ip) + FlightStamps(b, ip)
  {
    if b == [] {
      assert a + b == a;
    } else {
      var n := |b| - 1;
      FlightStampsConcat(a, b[..n], ip);
      assert (a + b)[..|a| + n] == a + b[..n];
    }
  }

  lemma FlightStampsAppend(inFlight: seq<Request>, r: Request, ip: Address)
    ensures FlightStamps(inFlight + [r], ip) == FlightStamps(inFlight, ip) + OwnStamp(r, ip)
  {
    assert (inFlight + [r])[..|inFlight|] == inFlight;
  }

  function OwnStamp(r: Request, ip: Address): seq<int> {
    if r.input.ip == Some(ip) then [r.began] else []
  }

  lemma FlightParts(a: seq<Request>, r: Request, b: seq<Request>, ip: Address)
    ensures FlightStamps(a + [r] + b, ip) == FlightStamps(a, ip) + OwnStamp(r, ip) + FlightStamps(b, ip)
    ensures FlightStamps(a + b, ip) == FlightStamps(a, ip) + FlightStamps(b, ip)
  {
    FlightStampsConcat(a + [r], b, ip);
    FlightStampsConcat(a, b, ip);
    FlightStampsAppend(a, r, ip);
  }

  lemma CountParts(left: seq<int>, own: seq<int>, right: seq<int>, lo: int, hi: int)
    ensures CountIn(left + own + right, lo, hi) == CountIn(left + right, lo, hi) + CountIn(own, lo, hi)
  {
    CountInConcat(left + own, right, lo, hi);
    CountInConcat(left, own, lo, hi);
    CountInConcat(left, right, lo, hi);
  }

  /** A login that leaves the flight takes exactly its own stamp along. */
  lemma LeavingFlight(inFlight: seq<Request>, i: nat, ip: Address, x: int, length: int)
    requires i < |inFlight|
    ensures CountFrom(FlightStamps(inFlight, ip), x, length)
      == CountFrom(FlightStamps(Without(inFlight, i), ip), x, length) + CountFrom(OwnStamp(inFlight[i], ip), x, length)
  {
    var a, r, b := inFlight[..i], inFlight[i], inFlight[i + 1..];
    assert inFlight == a + [r] + b;
    FlightParts(a, r, b, ip);
    CountParts(FlightStamps(a, ip), OwnStamp(r, ip), FlightStamps(b, ip), x, x + length);
  }

  lemma AdmittedAudit(policy: Config, t: Tables, r: Request)
    ensures var after := Admitted(policy, t, r.input, r.began, r.now).0.audit;
      var actor := Known(t, r.input.email);
      var failed, locked := AuditEvent(actor, LoginFailed, r.input.ip, r.began), AuditEvent(actor, AccountLocked, r.input.ip, r.began);
      after == t.audit || after == t.audit + [failed] || after == t.audit + [failed] + [locked]
  {}

  /** A committing login records its own failure or none. */
  lemma AdmittedStamps(policy: Config, t: Tables, r: Request, ip: Address)
    ensures var after := LoginStamps(Admitted(policy, t, r.input, r.began, r.now).0.audit, ip);
      after == LoginStamps(t.audit, ip) || after == LoginStamps(t.audit, ip) + OwnStamp(r, ip)
  {
    var actor := Known(t, r.input.email);
    var failed := AuditEvent(actor, LoginFailed, r.input.ip, r.began);
    AdmittedAudit(policy, t, r);
    LoginStampsAppend(t.audit, failed, ip);
    LoginStampsAppend(t.audit + [failed], AuditEvent(actor, AccountLocked, r.input.ip, r.began), ip);
  }

  lemma RecordedAtCommit(policy: Config, t: Tables, r: Request, ip: Address, x: int, length: int)
    ensures CountFrom(LoginStamps(Admitted(policy, t, r.input, r.began, r.now).0.audit, ip), x, length)
      <= CountFrom(LoginStamps(t.audit, ip), x, length) + CountFrom(OwnStamp(r, ip), x, length)
  {
    AdmittedStamps(policy, t, r, ip);
    CountInConcat(LoginStamps(t.audit, ip), OwnStamp(r, ip), x, x + length);
  }

  lemma CommitKeepsWithin(policy: Config, s: System, i: nat, ip: Address, length: int, delay: int, bound: int)
    requires i < |s.inFlight| && Within(s, ip, length, bound)
    ensures Within(Apply(policy, s, Step.Commit(i), delay), ip, length, bound)
    ensures Within(s.(inFlight := Without(s.inFlight, i)), ip, length, bound)
  {
    var recorded, waiting := LoginStamps(s.tables.audit, ip), FlightStamps(s.inFlight, ip);
    var s' := Apply(policy, s, Step.Commit(i), delay);
    forall x ensures CountFrom(LoginStamps(s'.tables.audit, ip), x, length) + CountFrom(FlightStamps(s'.inFlight, ip), x, length) <= bound {
      assert CountFrom(recorded, x, length) + CountFrom(waiting, x, length) <= bound;
      LeavingFlight(s.inFlight, i, ip, x, length);
      RecordedAtCommit(policy, s.tables, s.inFlight[i], ip, x, length);
    }
    forall x ensures CountFrom(recorded, x, length) + CountFrom(FlightStamps(s'.inFlight, ip), x, length) <= bound {
      assert CountFrom(recorded, x, length) + CountFrom(waiting, x, length) <= bound;
      LeavingFlight(s.inFlight, i, ip, x, length);
    }
  }

  /** An admitted login counted fewer failures than the cap, and meets k - 1 others in flight. */
  lemma CountKeepsWithin(policy: Config, s: System, r: Request, ip: Address, length: nat, delay: int, k: nat)
    requires policy.Valid() && length + delay <= policy.failureWindow && 1 <= k
    requires Enabled(s, Count(r), delay) && !AddressIsLimited(policy, s.tables, r.input.ip, r.now)
    requires Within(s, ip, length, policy.ipMaxFailures + k - 1)
    requires |FlightStamps(s.inFlight + [r], ip)| <= k
    ensures Within(s.(inFlight := s.inFlight + [r]), ip, length, policy.ipMaxFailures + k - 1)
  {
    FlightStampsAppend(s.inFlight, r, ip);
    if r.input.ip == Some(ip) {
      LoginStampsAreCounted(s.tables.audit, ip, r.now - policy.failureWindow, r.began - length);
      AdmissionKeepsCap(LoginStamps(s.tables.audit, ip), FlightStamps(s.inFlight, ip), r.began, length, policy.ipMaxFailures, k - 1);
    }
  }

  lemma StepKeepsWithin(policy: Config, s: System, step: Step, ip: Address, length: nat, delay: int, k: nat)
    requires policy.Valid() && length + delay <= policy.failureWindow && 1 <= k
    requires Within(s, ip, length, policy.ipMaxFailures + k - 1) && Enabled(s, step, delay)
    requires AtMost(Apply(policy, s, step, delay), ip, k)
    ensures Within(Apply(policy, s, step, delay), ip, length, policy.ipMaxFailures + k - 1)
  {
    match step
    case Count(r) =>
      if !AddressIsLimited(policy, s.tables, r.input.ip, r.now) {
        CountKeepsWithin(policy, s, r, ip, length, delay, k);
      }
    case Commit(i) => CommitKeepsWithin(policy, s, i, ip, length, delay, policy.ipMaxFailures + k - 1);
    case Abort(i) => CommitKeepsWithin(policy, s, i, ip, length, delay, policy.ipMaxFailures + k - 1);
    case Append(e) => LoginStampsAppend(s.tables.audit, e, ip);
    case Administer(_, _) =>
  }

  lemma {:induction false} RunKeepsWithin(policy: Config, s: System, steps: seq<Step>, ip: Address, length: nat, delay: int, k: nat)
    requires policy.Valid() && length + delay <= policy.failureWindow && 1 <= k
    requires Within(s, ip, length, policy.ipMaxFailures + k - 1) && IsRun(policy, s, steps, ip, delay, k)
    ensures Within(Final(policy, s, steps, ip, delay, k), ip, length, policy.ipMaxFailures + k - 1)
    decreases |steps|
  {
    if steps != [] {
      StepKeepsWithin(policy, s, steps[0], ip, length, delay, k);
      RunKeepsWithin(policy, Apply(policy, s, steps[0], delay), steps[1..], ip, length, delay, k);
    }
  }

  // ------------------------------------------------------------ runs that attain it

  const GUESSED_FROM: Address := 0

  /** A login of an unknown email. */
  function Guess(began: int, now: int): Request {
    Request(Input("", Some(GUESSED_FROM), ""), began, now)
  }

  function Failure(began: int): AuditEvent {
    AuditEvent(None, LoginFailed, Some(GUESSED_FROM), began)
  }

  function AfterFailures(audit: seq<AuditEvent>, began: int, n: nat): seq<AuditEvent> {
    if n == 0 then audit else AfterFailures(audit, began, n - 1) + [Failure(began)]
  }

  /** After n failed guesses, with m more in flight. */
  function Guessed(t: Tables, g: Request, n: nat, m: nat): System {
    System(t.(audit := AfterFailures(t.audit, g.began, n)), Repeated(g, m))
  }

  lemma OneMoreRecorded(audit: seq<AuditEvent>, began: int, x: int, length: int)
    ensures CountFrom(LoginStamps(audit + [Failure(began)], GUESSED_FROM), x, length)
      == CountFrom(LoginStamps(audit, GUESSED_FROM), x, length) + if x <= began <= x + length then 1 else 0
  {
    LoginStampsAppend(audit, Failure(began), GUESSED_FROM);
    CountInAppend(LoginStamps(audit, GUESSED_FROM), began, x, x + length);
  }

  lemma OneMoreCounted(audit: seq<AuditEvent>, began: int, since: int)
    ensures FailuresOfAddress(audit + [Failure(began)], GUESSED_FROM, since)
      == FailuresOfAddress(audit, GUESSED_FROM, since) + if since <= began then 1 else 0
  {
    StampsOfAddressAppend(audit, Failure(began), GUESSED_FROM);
    CountSinceAppend(StampsOfAddress(audit, GUESSED_FROM), began, since);
  }

  lemma {:induction false} FailuresCounted(audit: seq<AuditEvent>, began: int, n: nat, x: int, length: int, since: int)
    ensures CountFrom(LoginStamps(AfterFailures(audit, began, n), GUESSED_FROM), x, length)
      == CountFrom(LoginStamps(audit, GUESSED_FROM), x, length) + if x <= began <= x + length then n else 0
    ensures FailuresOfAddress(AfterFailures(audit, began, n), GUESSED_FROM, since)
      == FailuresOfAddress(audit, GUESSED_FROM, since) + if since <= began then n else 0
  {
    if n != 0 {
      FailuresCounted(audit, began, n - 1, x, length, since);
      OneMoreRecorded(AfterFailures(audit, began, n - 1), began, x, length);
      OneMoreCounted(AfterFailures(audit, began, n - 1), began, since);
    }
  }

  /** Nothing on record that the guess's lookback still sees. */
  predicate Unseen(policy: Config, t: Tables, g: Request) {
    t.emails == map[] && FailuresOfAddress(t.audit, GUESSED_FROM, g.now - policy.failureWindow) == 0
  }

  lemma GuessIsAdmitted(policy: Config, t: Tables, g: Request, n: nat, m: nat)
    requires Unseen(policy, t, g) && n < policy.ipMaxFailures
    ensures !AddressIsLimited(policy, Guessed(t, g, n, m).tables, Some(GUESSED_FROM), g.now)
  {
    FailuresCounted(t.audit, g.began, n, 0, 0, g.now - policy.failureWindow);
  }

  lemma GuessFails(policy: Config, t: Tables, g: Request, n: nat, m: nat)
    requires t.emails == map[] && g == Guess(g.began, g.now)
    ensures Admitted(policy, Guessed(t, g, n, m).tables, g.input, g.began, g.now).0 == Guessed(t, g, n + 1, m).tables
  {}

  lemma {:induction false} FlightOfGuesses(g: Request, m: nat)
    requires g.input.ip == Some(GUESSED_FROM)
    ensures |FlightStamps(Repeated(g, m), GUESSED_FROM)| == m
  {
    if m != 0 {
      FlightOfGuesses(g, m - 1);
      FlightStampsAppend(Repeated(g, m - 1), g, GUESSED_FROM);
    }
  }

  lemma FirstOfGuesses(g: Request, m: nat)
    ensures |Repeated(g, m + 1)| == m + 1 && Repeated(g, m + 1)[0] == g && Without(Repeated(g, m + 1), 0) == Repeated(g, m)
  {
    RepeatedElements(g, m + 1);
    RepeatedElements(g, m);
  }

  /** One more step at the end of a run. */
  lemma {:induction false} Extend(policy: Config, s: System, steps: seq<Step>, step: Step, ip: Address, delay: int, k: nat)
    requires IsRun(policy, s, steps, ip, delay, k)
    requires var last := Final(policy, s, steps, ip, delay, k);
      Enabled(last, step, delay) && AtMost(Apply(policy, last, step, delay), ip, k)
    ensures IsRun(policy, s, steps + [step], ip, delay, k)
    ensures Final(policy, s, steps + [step], ip, delay, k) == Apply(policy, Final(policy, s, steps, ip, delay, k), step, delay)
    decreases |steps|
  {
    if steps != [] {
      Extend(policy, Apply(policy, s, steps[0], delay), steps[1..], step, ip, delay, k);
      assert (steps + [step])[1..] == steps[1..] + [step];
    } else {
      assert ([] + [step])[1..] == [];
    }
  }

  /** A run that ends in the given state. */
  ghost predicate Reaches(policy: Config, start: System, steps: seq<Step>, end: System, delay: int, k: nat) {
    IsRun(policy, start, steps, GUESSED_FROM, delay, k) && Final(policy, start, steps, GUESSED_FROM, delay, k) == end
  }

  lemma CountOne(policy: Config, start: System, steps: seq<Step>, t: Tables, g: Request, n: nat, m: nat, delay: int, k: nat)
    returns (more: seq<Step>)
    requires Unseen(policy, t, g) && n < policy.ipMaxFailures && m < k
    requires g == Guess(g.began, g.now) && g.began <= g.now <= g.began + delay
    requires Reaches(policy, start, steps, Guessed(t, g, n, m), delay, k)
    ensures Reaches(policy, start, more, Guessed(t, g, n, m + 1), delay, k)
  {
    GuessIsAdmitted(policy, t, g, n, m);
    FlightOfGuesses(g, m + 1);
    more := steps + [Count(g)];
    Extend(policy, start, steps, Count(g), GUESSED_FROM, delay, k);
  }

  lemma CommitOne(policy: Config, start: System, steps: seq<Step>, t: Tables, g: Request, n: nat, m: nat, delay: int, k: nat)
    returns (more: seq<Step>)
    requires t.emails == map[] && g == Guess(g.began, g.now) && m < k
    requires Reaches(policy, start, steps, Guessed(t, g, n, m + 1), delay, k)
    ensures Reaches(policy, start, more, Guessed(t, g, n + 1, m), delay, k)
  {
    FirstOfGuesses(g, m);
    GuessFails(policy, t, g, n, m + 1);
    FlightOfGuesses(g, m);
    more := steps + [Step.Commit(0)];
    Extend(policy, start, steps, Step.Commit(0), GUESSED_FROM, delay, k);
  }

  /** Guesses one after the other, as long as they stay below the cap. */
  lemma {:induction false} OneByOne(policy: Config, start: System, steps: seq<Step>, t: Tables, g: Request, n: nat, delay: int, k: nat)
    returns (more: seq<Step>)
    requires Unseen(policy, t, g) && n <= policy.ipMaxFailures && 1 <= k
    requires g == Guess(g.began, g.now) && g.began <= g.now <= g.began + delay
    requires Reaches(policy, start, steps, Guessed(t, g, 0, 0), delay, k)
    ensures Reaches(policy, start, more, Guessed(t, g, n, 0), delay, k)
  {
    more := steps;
    if n != 0 {
      more := OneByOne(policy, start, steps, t, g, n - 1, delay, k);
      more := CountOne(policy, start, more, t, g, n - 1, 0, delay, k);
      more := CommitOne(policy, start, more, t, g, n - 1, 0, delay, k);
    }
  }

  lemma {:induction false} CountAll(policy: Config, start: System, steps: seq<Step>, t: Tables, g: Request, n: nat, m: nat, delay: int, k: nat)
    returns (more: seq<Step>)
    requires Unseen(policy, t, g) && n < policy.ipMaxFailures && m <= k
    requires g == Guess(g.began, g.now) && g.began <= g.now <= g.began + delay
    requires Reaches(policy, start, steps, Guessed(t, g, n, 0), delay, k)
    ensures Reaches(policy, start, more, Guessed(t, g, n, m), delay, k)
  {
    more := steps;
    if m != 0 {
      more := CountAll(policy, start, steps, t, g, n, m - 1, delay, k);
      more := CountOne(policy, start, more, t, g, n, m - 1, delay, k);
    }
  }

  lemma {:induction false} CommitAll(policy: Config, start: System, steps: seq<Step>, t: Tables, g: Request, n: nat, m: nat, delay: int, k: nat)
    returns (more: seq<Step>)
    requires t.emails == map[] && g == Guess(g.began, g.now) && m <= k
    requires Reaches(policy, start, steps, Guessed(t, g, n, m), delay, k)
    ensures Reaches(policy, start, more, Guessed(t, g, n + m, 0), delay, k)
    decreases m
  {
    more := steps;
    if m != 0 {
      more := CommitOne(policy, start, steps, t, g, n, m - 1, delay, k);
      more := CommitAll(policy, start, more, t, g, n + 1, m - 1, delay, k);
    }
  }

  /** One below the cap, then k logins that all count before the first commits. */
  lemma Burst(policy: Config, start: System, steps: seq<Step>, t: Tables, g: Request, delay: int, k: nat) returns (more: seq<Step>)
    requires policy.Valid() && Unseen(policy, t, g) && 1 <= k
    requires g == Guess(g.began, g.now) && g.began <= g.now <= g.began + delay
    requires Reaches(policy, start, steps, Guessed(t, g, 0, 0), delay, k)
    ensures Reaches(policy, start, more, Guessed(t, g, policy.ipMaxFailures + k - 1, 0), delay, k)
  {
    var n := policy.ipMaxFailures - 1;
    more := OneByOne(policy, start, steps, t, g, n, delay, k);
    more := CountAll(policy, start, more, t, g, n, k, delay, k);
    more := CommitAll(policy, start, more, t, g, n, k, delay, k);
  }

  function Empty(): Tables {
    Tables(map[], map[], map[], [], [], [])
  }

  /** All at once: the bound is attained. */
  lemma BoundIsAttained(policy: Config, k: nat, delay: nat, length: nat) returns (steps: seq<Step>)
    requires policy.Valid() && 1 <= k
    ensures IsRun(policy, System(Empty(), []), steps, GUESSED_FROM, delay, k)
    ensures CountFrom(LoginStamps(Final(policy, System(Empty(), []), steps, GUESSED_FROM, delay, k).tables.audit, GUESSED_FROM), 0, length)
      == policy.ipMaxFailures + k - 1
  {
    var g := Guess(0, 0);
    steps := Burst(policy, System(Empty(), []), [], Empty(), g, delay, k);
    FailuresCounted([], 0, policy.ipMaxFailures + k - 1, 0, length, 0);
  }

  lemma EarlyFailure(policy: Config, early: Request, late: Request, length: nat)
    requires early == Guess(0, 0) && 0 < late.now - policy.failureWindow
    ensures var t := Guessed(Empty(), early, 1, 0).tables;
      && Unseen(policy, t, late) && Guessed(Empty(), early, 1, 0) == Guessed(t, late, 0, 0)
      && CountFrom(LoginStamps(t.audit, GUESSED_FROM), 0, length) == 1
  {
    FailuresCounted([], 0, 1, 0, length, late.now - policy.failureWindow);
  }

  /** A late reading misses a failure at the start of too long an interval. */
  lemma LateReadingExceeds(policy: Config, k: nat, delay: nat, length: nat) returns (steps: seq<Step>)
    requires policy.Valid() && 1 <= k && policy.failureWindow < length + delay
    ensures IsRun(policy, System(Empty(), []), steps, GUESSED_FROM, delay, k)
    ensures CountFrom(LoginStamps(Final(policy, System(Empty(), []), steps, GUESSED_FROM, delay, k).tables.audit, GUESSED_FROM), 0, length)
      == policy.ipMaxFailures + k
  {
    var early, late := Guess(0, 0), Guess(length, length + delay);
    steps := OneByOne(policy, System(Empty(), []), [], Empty(), early, 1, delay, k);
    var t := Guessed(Empty(), early, 1, 0).tables;
    EarlyFailure(policy, early, late, length);
    steps := Burst(policy, System(Empty(), []), steps, t, late, delay, k);
    FailuresCounted(t.audit, length, policy.ipMaxFailures + k - 1, 0, length, 0);
  }

  // ------------------------------------------------------------- main results

  /** With at most k logins of an address between counting and committing, and
      intervals no longer than the window less the delay, the cap is exceeded by
      at most k - 1, and no smaller bound holds. */
  lemma AddressBoundIsExact(policy: Config, k: nat, delay: nat, length: nat, bound: int)
    requires policy.Valid() && 1 <= k && length + delay <= policy.failureWindow
    ensures BoundsAddress(policy, k, delay, length, bound) <==> policy.ipMaxFailures + k - 1 <= bound
  {
    if policy.ipMaxFailures + k - 1 <= bound {
      forall t: Tables, steps, ip | t.audit == [] && IsRun(policy, System(t, []), steps, ip, delay, k)
        ensures Capped(LoginStamps(Final(policy, System(t, []), steps, ip, delay, k).tables.audit, ip), length, bound)
      {
        var last := Final(policy, System(t, []), steps, ip, delay, k);
        RunKeepsWithin(policy, System(t, []), steps, ip, length, delay, k);
        forall x ensures CountFrom(LoginStamps(last.tables.audit, ip), x, length) <= bound {
          assert CountFrom(LoginStamps(last.tables.audit, ip), x, length) + CountFrom(FlightStamps(last.inFlight, ip), x, length)
              <= policy.ipMaxFailures + k - 1;
        }
      }
    } else {
      var steps := BoundIsAttained(policy, k, delay, length);
      assert CountFrom(LoginStamps(Final(policy, System(Empty(), []), steps, GUESSED_FROM, delay, k).tables.audit, GUESSED_FROM), 0, length) > bound;
    }
  }

  /** The lengths the bound covers are exactly those the window covers less the delay. */
  lemma AddressWindowIsExact(policy: Config, k: nat, delay: nat, length: nat)
    requires policy.Valid() && 1 <= k
    ensures BoundsAddress(policy, k, delay, length, policy.ipMaxFailures + k - 1) <==> length + delay <= policy.failureWindow
  {
    if length + delay <= policy.failureWindow {
      AddressBoundIsExact(policy, k, delay, length, policy.ipMaxFailures + k - 1);
    } else {
      var steps := LateReadingExceeds(policy, k, delay, length);
      assert CountFrom(LoginStamps(Final(policy, System(Empty(), []), steps, GUESSED_FROM, delay, k).tables.audit, GUESSED_FROM), 0, length)
          > policy.ipMaxFailures + k - 1;
    }
  }

  /** The configured cap itself holds in every run exactly when logins of one address never overlap. */
  lemma CapHoldsIffLoginsDoNotOverlap(policy: Config, k: nat, delay: nat, length: nat)
    requires policy.Valid() && 1 <= k && length + delay <= policy.failureWindow
    ensures BoundsAddress(policy, k, delay, length, policy.ipMaxFailures) <==> k == 1
  {
    AddressBoundIsExact(policy, k, delay, length, policy.ipMaxFailures);
  }
}
