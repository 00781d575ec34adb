/** Resends of one challenge whose publishes may fail and whose restores may
    commit late: when does the stored code remain one that was delivered? */
module ResendDelivery {
  import opened HubTables
  import opened Mfa
  import Decimal

  /** 0 stands for the code of Issue; every resend gets the next number. */
  type CycleId = nat

  /** A committed resend whose publish has not finished, or failed and is not restored yet. */
  datatype Cycle = Cycle(
    code: CodeHash, sentAt: int,
    previousCode: CodeHash, previousSentAt: int,
    previousOwner: CycleId)

  /** codes: the code of every cycle so far; owner: whose code the row holds;
      delivered: whose publish succeeded; stranded: some compensation failed. */
  datatype State = State(
    row: Challenge,
    clock: int,
    codes: map<CycleId, CodeHash>,
    running: map<CycleId, Cycle>,
    owner: CycleId,
    delivered: set<CycleId>,
    next: CycleId,
    stranded: bool)

  datatype Step =
    | Tick(to: int)
    | Resend(code: CodeHash)
    | Published(published: CycleId)
    | Restore(failed: CycleId)
    | Strand(lost: CycleId)
    | Spend
    | Close

  predicate Enabled(s: State, step: Step) {
    match step
    case Tick(to) => s.clock <= to
    case Resend(_) => !s.row.used && s.clock < s.row.expiresAt && !TooSoon(s.row, s.clock)
    case Published(k) => k in s.running
    case Restore(k) => k in s.running
    case Strand(k) => k in s.running
    case Spend => true
    case Close => true
  }

  function Apply(s: State, step: Step): State
    requires Enabled(s, step)
  {
    match step
    case Tick(to) => s.(clock := to)
    case Resend(code) =>
      s.(row := Resent(s.row, code, s.clock),
         codes := s.codes[s.next := code],
         running := s.running[s.next := Cycle(code, s.clock, s.row.code, s.row.lastSentAt, s.owner)],
         owner := s.next, next := s.next + 1)
    case Published(k) => s.(running := s.running - {k}, delivered := s.delivered + {k})
    case Restore(k) =>
      var c := s.running[k];
      s.(row := Restored(s.row, c.code, c.sentAt, c.previousCode, c.previousSentAt),
         owner := if HoldsResend(s.row, c.code, c.sentAt) then c.previousOwner else s.owner,
         running := s.running - {k})
    case Strand(k) => s.(running := s.running - {k}, stranded := true)
    case Spend => s.(row := Spent(s.row))
    case Close => s.(row := Consumed(s.row))
  }

  ghost predicate IsRun(s: State, steps: seq<Step>)
    decreases |steps|
  {
    steps == [] || (Enabled(s, steps[0]) && IsRun(Apply(s, steps[0]), steps[1..]))
  }

  function Final(s: State, steps: seq<Step>): State
    requires IsRun(s, steps)
    decreases |steps|
  {
    if steps == [] then s else Final(Apply(s, steps[0]), steps[1..])
  }

  /** Just issued, and its token returned, so its first code was delivered. */
  function Start(user: UserId, token: Token, code: string, now: int): State {
    State(NewChallenge(user, token, code, now), now, map[0 := CodeHash(token, code)], map[], 0, {0}, 1, false)
  }

  // ---------------------------------------------- with no timing assumption

  /** Send times of resends strictly increase along what each one replaced. */
  ghost predicate Ordered(s: State) {
    && 1 <= s.next && s.owner < s.next && s.row.lastSentAt <= s.clock
    && (forall k :: k in s.running ==>
          && 1 <= k < s.next
          && s.running[k].previousSentAt + RESEND_INTERVAL <= s.running[k].sentAt <= s.row.lastSentAt
          && (s.owner == k <==> s.running[k].sentAt == s.row.lastSentAt)
          && (s.owner == k ==> s.row.code == s.running[k].code))
    && (forall j, k :: j in s.running && k in s.running && j < k ==>
          && s.running[j].sentAt <= s.running[k].previousSentAt
          && (s.running[k].previousOwner == j <==> s.running[j].sentAt == s.running[k].previousSentAt)
          && (s.running[k].previousOwner == j ==> s.running[k].previousCode == s.running[j].code))
    && (forall k :: k in s.running ==> s.running[k].previousOwner < k)
  }

  lemma ResendKeepsOrder(s: State, code: CodeHash)
    requires Ordered(s) && Enabled(s, Step.Resend(code))
    ensures Ordered(Apply(s, Step.Resend(code)))
  {}

  lemma RestoreKeepsOrder(s: State, k: CycleId)
    requires Ordered(s) && Enabled(s, Step.Restore(k))
    ensures Ordered(Apply(s, Step.Restore(k)))
  {}

  lemma StepKeepsOrder(s: State, step: Step)
    requires Ordered(s) && Enabled(s, step)
    ensures Ordered(Apply(s, step))
  {
    if step.Resend? {
      ResendKeepsOrder(s, step.code);
    } else if step.Restore? {
      RestoreKeepsOrder(s, step.failed);
    }
  }

  lemma {:induction false} RunKeepsOrder(s: State, steps: seq<Step>)
    requires Ordered(s) && IsRun(s, steps)
    ensures Ordered(Final(s, steps))
    decreases |steps|
  {
    if steps != [] {
      StepKeepsOrder(s, steps[0]);
      RunKeepsOrder(Apply(s, steps[0]), steps[1..]);
    }
  }

  /** The labels tell the truth about the stored codes. */
  ghost predicate Labelled(s: State) {
    && s.owner in s.codes && s.row.code == s.codes[s.owner] && s.delivered <= s.codes.Keys
    && (forall k :: k in s.codes ==> k < s.next)
    && (forall k :: k in s.running ==>
          && k in s.codes && s.running[k].code == s.codes[k]
          && s.running[k].previousOwner in s.codes && s.running[k].previousCode == s.codes[s.running[k].previousOwner])
  }

  lemma StepKeepsLabels(s: State, step: Step)
    requires Labelled(s) && Enabled(s, step)
    ensures Labelled(Apply(s, step))
  {}

  /** In every run the row holds exactly the code of the cycle that owns it. */
  lemma {:induction false} RowHoldsItsOwnersCode(s: State, steps: seq<Step>)
    requires Labelled(s) && IsRun(s, steps)
    ensures Labelled(Final(s, steps))
    decreases |steps|
  {
    if steps != [] {
      StepKeepsLabels(s, steps[0]);
      RowHoldsItsOwnersCode(Apply(s, steps[0]), steps[1..]);
    }
  }

  /** In every interleaving, whatever the delays, the compare-and-set of a
      failed resend succeeds exactly when the open row still holds that
      resend's own code, so it never clobbers a later one. */
  lemma RestoreHitsOnlyItsOwnCode(user: UserId, token: Token, code: string, now: int, steps: seq<Step>, k: CycleId)
    requires IsRun(Start(user, token, code, now), steps)
    requires k in Final(Start(user, token, code, now), steps).running
    ensures var s := Final(Start(user, token, code, now), steps);
      HoldsResend(s.row, s.running[k].code, s.running[k].sentAt) <==> s.owner == k && !s.row.used
  {
    RunKeepsOrder(Start(user, token, code, now), steps);
  }

  // --------------------------------------------- with bounded publish and restore

  /** Every cycle in progress is at most deadline old. */
  predicate InTime(s: State, deadline: int) {
    forall k :: k in s.running ==> s.clock <= s.running[k].sentAt + deadline
  }

  ghost predicate IsTimely(s: State, steps: seq<Step>, deadline: int)
    requires IsRun(s, steps)
    decreases |steps|
  {
    InTime(s, deadline) && (steps == [] || IsTimely(Apply(s, steps[0]), steps[1..], deadline))
  }

  /** The stored code is one whose publish succeeded. */
  ghost predicate RowIsDelivered(s: State) {
    exists d :: d in s.delivered && d in s.codes && s.row.code == s.codes[d]
  }

  /** Between cycles an open row holds a delivered code, unless a compensation failed. */
  ghost predicate HoldsDeliveredCode(s: State) {
    s.running == map[] && !s.row.used && !s.stranded ==> RowIsDelivered(s)
  }

  /** One cycle at a time, on top of a delivered code. */
  ghost predicate OneCycle(s: State) {
    !s.row.used && !s.stranded ==>
      && (s.running == map[] ==> s.owner in s.delivered)
      && (forall k :: k in s.running ==> s.owner == k && s.running[k].previousOwner in s.delivered)
  }

  lemma StepKeepsOneCycle(s: State, step: Step, deadline: int)
    requires Ordered(s) && OneCycle(s) && Enabled(s, step)
    requires InTime(s, deadline) && deadline < RESEND_INTERVAL
    ensures OneCycle(Apply(s, step))
  {
    var s' := Apply(s, step);
    match step
    case Resend(_) =>
      assert s.next in s'.running;
      if !s.stranded {
        assert s.running == map[];
      }
    case Published(k) => assert s.running - {k} == map[] || s.row.used || s.stranded;
    case Restore(k) => assert s.running - {k} == map[] || s.row.used || s.stranded;
    case _ =>
  }

  lemma {:induction false} TimelyRunHoldsDelivered(s: State, steps: seq<Step>, deadline: int)
    requires Ordered(s) && Labelled(s) && OneCycle(s) && IsRun(s, steps) && IsTimely(s, steps, deadline)
    requires deadline < RESEND_INTERVAL
    ensures HoldsDeliveredCode(Final(s, steps))
    decreases |steps|
  {
    if steps != [] {
      StepKeepsOrder(s, steps[0]);
      StepKeepsLabels(s, steps[0]);
      StepKeepsOneCycle(s, steps[0], deadline);
      TimelyRunHoldsDelivered(Apply(s, steps[0]), steps[1..], deadline);
    }
  }

  ghost predicate AlwaysHoldsDelivered(start: State, deadline: int) {
    forall steps :: IsRun(start, steps) && IsTimely(start, steps, deadline) ==> HoldsDeliveredCode(Final(start, steps))
  }

  lemma Prepend(s: State, step: Step, rest: seq<Step>, deadline: int)
    requires Enabled(s, step) && InTime(s, deadline)
    requires IsRun(Apply(s, step), rest) && IsTimely(Apply(s, step), rest, deadline)
    ensures IsRun(s, [step] + rest) && IsTimely(s, [step] + rest, deadline)
    ensures Final(s, [step] + rest) == Final(Apply(s, step), rest)
  {
    assert ([step] + rest)[1..] == rest;
  }

  /** Two well-formed codes that differ from a given one and from each other. */
  function OtherCode(code: string): string {
    if code == GenerateCode(0) then GenerateCode(1) else GenerateCode(0)
  }

  function ThirdCode(code: string): string {
    if code == GenerateCode(0) || code == GenerateCode(1) then GenerateCode(2)
    else GenerateCode(1)
  }

  lemma ThreeCodes(code: string)
    ensures WellFormedCode(OtherCode(code)) && WellFormedCode(ThirdCode(code))
    ensures OtherCode(code) != code && ThirdCode(code) != code && ThirdCode(code) != OtherCode(code)
  {
    assert Decimal.Power10(CODE_DIGITS) == 1_000_000;
    GeneratedCodesAreWellFormed(0, 1);
    GeneratedCodesAreWellFormed(0, 2);
    GeneratedCodesAreWellFormed(1, 2);
    GeneratedCodesAreWellFormed(2, 0);
  }

  /** When a cycle may outlast the resend interval, the row can keep a code
      nobody received: a second resend starts while the first is unpublished,
      then both fail, in order, and the open row holds the first resend's code. */
  lemma SlowCycleLosesDeliveredCode(user: UserId, token: Token, code: string, first: string, second: string, now: int, deadline: int)
    returns (steps: seq<Step>)
    requires RESEND_INTERVAL <= deadline && first != code && second != code && first != second
    ensures IsRun(Start(user, token, code, now), steps) && IsTimely(Start(user, token, code, now), steps, deadline)
    ensures var s := Final(Start(user, token, code, now), steps);
      && s.running == map[] && !s.row.used && !s.stranded
      && s.row.code == CodeHash(token, first) && s.delivered == {0} && !RowIsDelivered(s)
  {
    var s0 := Start(user, token, code, now);
    var wait, again := Tick(now + RESEND_INTERVAL), Tick(now + 2 * RESEND_INTERVAL);
    var one, two := Resend(CodeHash(token, first)), Resend(CodeHash(token, second));
    var s1 := Apply(s0, wait);
    var s2 := Apply(s1, one);
    var s3 := Apply(s2, again);
    var s4 := Apply(s3, two);
    var s5 := Apply(s4, Restore(1));
    var s6 := Apply(s5, Restore(2));
    assert s4.owner == 2 && s4.row.lastSentAt == now + 2 * RESEND_INTERVAL;
    assert s5.owner == 2 && s5.running.Keys == {2};
    assert s6.running == map[] && s6.delivered == {0} && s6.codes[0] == CodeHash(token, code);
    Prepend(s5, Restore(2), [], deadline);
    Prepend(s4, Restore(1), [Restore(2)] + [], deadline);
    steps := [Restore(1)] + ([Restore(2)] + []);
    Prepend(s3, two, steps, deadline);
    Prepend(s2, again, [two] + steps, deadline);
    steps := [again] + ([two] + steps);
    Prepend(s1, one, steps, deadline);
    Prepend(s0, wait, [one] + steps, deadline);
    steps := [wait] + ([one] + steps);
  }

  /** Exactly how fast a cycle must be, from its clock reading to the end of its
      restore, for every run of one challenge to leave a delivered code stored. */
  lemma DeliveryIsKeptIffCyclesAreShort(user: UserId, token: Token, code: string, now: int, deadline: int)
    ensures AlwaysHoldsDelivered(Start(user, token, code, now), deadline) <==> deadline < RESEND_INTERVAL
  {
    if deadline < RESEND_INTERVAL {
      forall steps | IsRun(Start(user, token, code, now), steps) && IsTimely(Start(user, token, code, now), steps, deadline)
        ensures HoldsDeliveredCode(Final(Start(user, token, code, now), steps))
      {
        TimelyRunHoldsDelivered(Start(user, token, code, now), steps, deadline);
      }
    } else {
      ThreeCodes(code);
      var steps := SlowCycleLosesDeliveredCode(user, token, code, OtherCode(code), ThirdCode(code), now, deadline);
      assert !HoldsDeliveredCode(Final(Start(user, token, code, now), steps));
    }
  }

  /** The broker waits five seconds for a confirm and the restore gets five more;
      nothing bounds the time from the clock reading to the commit before them. */
  const PUBLISH_TIMEOUT: int := 5 * SECOND
  const COMPENSATION_TIMEOUT: int := 5 * SECOND

  /** With the configured timeouts, delivery is kept exactly when every resend
      commits less than fifty seconds after it read the clock. */
  lemma ConfiguredTimeoutsLeaveTheCommit(user: UserId, token: Token, code: string, now: int, commit: int)
    ensures AlwaysHoldsDelivered(Start(user, token, code, now), commit + PUBLISH_TIMEOUT + COMPENSATION_TIMEOUT)
      <==> commit < 50 * SECOND
  {
    DeliveryIsKeptIffCyclesAreShort(user, token, code, now, commit + PUBLISH_TIMEOUT + COMPENSATION_TIMEOUT);
  }
}
