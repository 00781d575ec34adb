/** Sign-in over whole runs: any interleaving of issuing, publishing, its
    failures, verifying, resending, restoring, logging in and administering. */
module MfaRuns {
  import opened SlidingWindow
  import opened HubTables
  import opened Lockout
  import Login
  import opened Mfa

  /** What happened, for counting: the database keeps no link from a session to its challenge. */
  datatype Event =
    | Rejected(token: Token, user: UserId, at: int)
    | Accepted(token: Token, family: FamilyId)

  /** issued: tokens ever drawn; pending: committed, publish not finished;
      released: handed to the client. Nobody else knows a token. */
  datatype System = System(
    tables: Tables,
    clock: int,
    issued: set<Token>,
    pending: set<Token>,
    released: set<Token>,
    log: seq<Event>)

  datatype Step =
    | Tick(to: int)
    | Issue(user: UserId, token: Token, code: string, began: int, now: int)
    | Deliver(delivered: Token)
    | Cancel(undelivered: Token)
    | Strand(stranded: Token)
    | Verify(input: VerifyInput, family: FamilyId, hub: bool, verifyBegan: int)
    | Resend(resent: Token, newCode: string, resendBegan: int)
    | Restore(restored: Token, expected: CodeHash, sentAt: int, previous: CodeHash, previousSentAt: int)
    | LogIn(request: Login.Request)
    | Administer(target: UserId, account: Account)

  /** Issuance may use a clock reading from before it got its lock; the other
      transactions read the clock under their row lock. */
  ghost predicate Enabled(s: System, step: Step) {
    match step
    case Tick(to) => s.clock <= to
    case Issue(_, token, _, _, now) => token !in s.issued && now <= s.clock
    case Deliver(token) => token in s.pending
    case Cancel(token) => token in s.pending
    case Strand(token) => token in s.pending
    case Verify(input, family, _, _) =>
      && (input.token.Some? && input.token.value in s.tables.challenges ==> input.token.value in s.released)
      && (forall i :: 0 <= i < |s.tables.refreshTokens| ==> s.tables.refreshTokens[i].family != family)
    case Resend(token, _, _) => token in s.tables.challenges ==> token in s.released
    case Restore(_, _, _, _, _) => true
    case LogIn(_) => true
    case Administer(_, _) => true
  }

  function Apply(policy: Config, s: System, step: Step): System {
    var t := s.tables;
    match step
    case Tick(to) => s.(clock := to)
    case Issue(user, token, code, began, now) =>
      if !IssuanceOpen(t, user, now) then s
      else s.(tables := AfterIssue(t, user, token, code, began, now),
              issued := s.issued + {token}, pending := s.pending + {token})
    case Deliver(token) => s.(pending := s.pending - {token}, released := s.released + {token})
    case Cancel(token) =>
      s.(tables := t.(challenges := t.challenges - {token}), pending := s.pending - {token})
    case Strand(token) => s.(pending := s.pending - {token})
    case Verify(input, family, hub, began) =>
      if !WellFormed(input) || !Verifiable(t, input.token.value, s.clock) then s
      else
        var token := input.token.value;
        if Matches(t, input)
        then s.(tables := AfterSession(t, token, family, hub, input.ip, began), log := s.log + [Accepted(token, family)])
        else s.(tables := AfterRejection(policy, t, token, input.ip, began, s.clock).0,
                log := s.log + [Rejected(token, t.challenges[token].user, s.clock)])
    case Resend(token, code, began) =>
      if !Resendable(t, token, s.clock) || TooSoon(t.challenges[token], s.clock) then s
      else s.(tables := AfterResend(t, token, code, began, s.clock))
    case Restore(token, expected, sentAt, previous, previousSentAt) =>
      if token !in t.challenges then s
      else s.(tables := t.(challenges :=
                t.challenges[token := Restored(t.challenges[token], expected, sentAt, previous, previousSentAt)]))
    case LogIn(r) => s.(tables := Login.Authenticated(policy, t, r.input, r.began, r.now).0)
    case Administer(user, account) => s.(tables := t.(accounts := t.accounts[user := account]))
  }

  ghost predicate IsRun(policy: Config, s: System, steps: seq<Step>)
    decreases |steps|
  {
    steps == [] || (Enabled(s, steps[0]) && IsRun(policy, Apply(policy, s, steps[0]), steps[1..]))
  }

  function Final(policy: Config, s: System, steps: seq<Step>): System
    decreases |steps|
  {
    if steps == [] then s else Final(policy, Apply(policy, s, steps[0]), steps[1..])
  }

  function Start(emails: map<string, UserId>, accounts: map<UserId, Account>, clock: int): System {
    System(Tables(emails, accounts, map[], [], [], []), clock, {}, {}, {}, [])
  }

  // ---------------------------------------------------------------- counting

  function Rejections(log: seq<Event>, token: Token): nat {
    if log == [] then 0
    else Rejections(log[..|log| - 1], token)
         + var e := log[|log| - 1]; if e.Rejected? && e.token == token then 1 else 0
  }

  /** Wrong codes of one account compared between lo and hi, both included. */
  function RejectionsBetween(log: seq<Event>, user: UserId, lo: int, hi: int): nat {
    if log == [] then 0
    else RejectionsBetween(log[..|log| - 1], user, lo, hi)
         + var e := log[|log| - 1]; if e.Rejected? && e.user == user && lo <= e.at <= hi then 1 else 0
  }

  /** The consumed challenges, in order. */
  function ConsumedTokens(log: seq<Event>): seq<Token> {
    if log == [] then []
    else
      var e := log[|log| - 1];
      if e.Accepted? then ConsumedTokens(log[..|log| - 1]) + [e.token] else ConsumedTokens(log[..|log| - 1])
  }

  function OpenedFamilies(log: seq<Event>): seq<FamilyId> {
    if log == [] then []
    else
      var e := log[|log| - 1];
      if e.Accepted? then OpenedFamilies(log[..|log| - 1]) + [e.family] else OpenedFamilies(log[..|log| - 1])
  }

  function Families(sessions: seq<Session>): (r: seq<FamilyId>)
    ensures |r| == |sessions|
    ensures forall i :: 0 <= i < |r| ==> r[i] == sessions[i].family
  {
    if sessions == [] then [] else Families(sessions[..|sessions| - 1]) + [sessions[|sessions| - 1].family]
  }

  ghost predicate Distinct<T(!new)>(s: seq<T>) {
    forall i, j :: 0 <= i < j < |s| ==> s[i] != s[j]
  }

  lemma LogAppend(log: seq<Event>, e: Event, token: Token)
    ensures Rejections(log + [e], token) == Rejections(log, token) + if e.Rejected? && e.token == token then 1 else 0
    ensures ConsumedTokens(log + [e]) == if e.Accepted? then ConsumedTokens(log) + [e.token] else ConsumedTokens(log)
    ensures OpenedFamilies(log + [e]) == if e.Accepted? then OpenedFamilies(log) + [e.family] else OpenedFamilies(log)
  {
    assert (log + [e])[..|log|] == log;
  }

  // -------------------------------------------------------------- invariants

  function CreatedBetween(challenges: map<Token, Challenge>, user: UserId, lo: int, hi: int): set<Token> {
    set t | t in challenges && challenges[t].user == user && lo <= challenges[t].createdAt <= hi
  }

  function CreatedInWindow(challenges: map<Token, Challenge>, user: UserId, from: int): set<Token> {
    CreatedBetween(challenges, user, from, from + ISSUANCE_WINDOW)
  }

  /** No window of IssuanceWindow, wherever it starts, holds more rows of an account than the cap. */
  ghost predicate IssuanceCapped(challenges: map<Token, Challenge>) {
    forall user, x :: |CreatedInWindow(challenges, user, x)| <= MAX_ISSUANCES_PER_WINDOW
  }

  ghost predicate OneOpenChallenge(challenges: map<Token, Challenge>) {
    forall a, b ::
      (&& a in challenges && b in challenges && challenges[a].user == challenges[b].user
       && !challenges[a].used && !challenges[b].used) ==> a == b
  }

  predicate RowIsSound(c: Challenge, clock: int, rejections: nat) {
    && c.expiresAt == c.createdAt + CHALLENGE_TTL
    && c.createdAt <= clock
    && c.attemptsLeft + rejections == MAX_ATTEMPTS
    && (c.attemptsLeft == 0 ==> c.used)
  }

  ghost predicate RowsAreSound(s: System) {
    && s.tables.challenges.Keys <= s.issued
    && (forall t :: t in s.tables.challenges ==> RowIsSound(s.tables.challenges[t], s.clock, Rejections(s.log, t)))
    && (forall t :: t !in s.issued ==> Rejections(s.log, t) == 0)
  }

  /** A released token keeps its row for ever: only unreleased challenges are deleted. */
  ghost predicate ReleasedKeepRows(s: System) {
    s.released !! s.pending && s.released + s.pending <= s.tables.challenges.Keys
  }

  predicate EventIsSound(s: System, e: Event) {
    && e.token in s.released && e.token in s.tables.challenges
    && var c := s.tables.challenges[e.token];
       match e
       case Rejected(_, user, at) => c.user == user && c.createdAt <= at < c.expiresAt
       case Accepted(_, _) => c.used
  }

  ghost predicate LogIsSound(s: System) {
    forall i :: 0 <= i < |s.log| ==> EventIsSound(s, s.log[i])
  }

  ghost predicate SessionsConserved(s: System) {
    && OpenedFamilies(s.log) == Families(s.tables.refreshTokens)
    && Actions(s.tables.audit, LoginSucceeded) == |s.tables.refreshTokens|
    && |ConsumedTokens(s.log)| == |s.tables.refreshTokens|
    && Distinct(ConsumedTokens(s.log)) && Distinct(OpenedFamilies(s.log))
    && (forall i :: 0 <= i < |ConsumedTokens(s.log)| ==>
          var t := ConsumedTokens(s.log)[i]; t in s.tables.challenges && s.tables.challenges[t].used)
  }

  ghost predicate Inv(s: System) {
    && RowsAreSound(s) && ReleasedKeepRows(s) && LogIsSound(s)
    && OneOpenChallenge(s.tables.challenges) && IssuanceCapped(s.tables.challenges)
    && SessionsConserved(s)
  }

  // ----------------------------------------- steps that keep rows in their place

  /** The same rows, possibly with other codes, fewer attempts, or closed. */
  ghost predicate SameRows(before: map<Token, Challenge>, after: map<Token, Challenge>) {
    && before.Keys == after.Keys
    && forall t :: t in before ==>
         && after[t].user == before[t].user
         && after[t].createdAt == before[t].createdAt
         && after[t].expiresAt == before[t].expiresAt
         && (before[t].used ==> after[t].used)
  }

  lemma SameRowsKeepLimits(before: map<Token, Challenge>, after: map<Token, Challenge>)
    requires SameRows(before, after)
    requires OneOpenChallenge(before) && IssuanceCapped(before)
    ensures OneOpenChallenge(after) && IssuanceCapped(after)
  {
    forall user, x ensures |CreatedInWindow(after, user, x)| <= MAX_ISSUANCES_PER_WINDOW {
      assert CreatedInWindow(after, user, x) == CreatedInWindow(before, user, x);
    }
  }

  /** Admitting one more row keeps the window that starts at from within the cap. */
  lemma IssueKeepsWindow(t: Tables, user: UserId, token: Token, row: Challenge, u: UserId, from: int)
    requires IssuanceOpen(t, user, row.createdAt) && token !in t.challenges && row.user == user
    requires |CreatedInWindow(t.challenges, u, from)| <= MAX_ISSUANCES_PER_WINDOW
    ensures |CreatedInWindow(Superseded(t.challenges, user)[token := row], u, from)| <= MAX_ISSUANCES_PER_WINDOW
  {
    var after := Superseded(t.challenges, user)[token := row];
    var earlier := CreatedInWindow(t.challenges, u, from);
    if u == user && from <= row.createdAt <= from + ISSUANCE_WINDOW {
      assert CreatedInWindow(after, u, from) == earlier + {token};
      var counted := IssuedSince(t.challenges, user, row.createdAt - ISSUANCE_WINDOW);
      assert earlier <= counted;
      SubsetIsNoLarger(earlier, counted);
    } else {
      assert CreatedInWindow(after, u, from) == earlier;
    }
  }

  lemma IssueKeepsLimits(t: Tables, user: UserId, token: Token, code: string, began: int, now: int)
    requires IssuanceOpen(t, user, now) && token !in t.challenges
    requires OneOpenChallenge(t.challenges) && IssuanceCapped(t.challenges)
    ensures var after := AfterIssue(t, user, token, code, began, now).challenges;
      OneOpenChallenge(after) && IssuanceCapped(after)
  {
    var row := NewChallenge(user, token, code, now);
    var after := Superseded(t.challenges, user)[token := row];
    forall u, x ensures |CreatedInWindow(after, u, x)| <= MAX_ISSUANCES_PER_WINDOW {
      assert |CreatedInWindow(t.challenges, u, x)| <= MAX_ISSUANCES_PER_WINDOW;
      IssueKeepsWindow(t, user, token, row, u, x);
    }
  }

  lemma {:induction false} SubsetIsNoLarger<T>(small: set<T>, large: set<T>)
    requires small <= large
    ensures |small| <= |large|
  {
    if small != {} {
      var x :| x in small;
      SubsetIsNoLarger(small - {x}, large - {x});
    }
  }

  lemma DeletionKeepsLimits(before: map<Token, Challenge>, token: Token)
    requires OneOpenChallenge(before) && IssuanceCapped(before)
    ensures OneOpenChallenge(before - {token}) && IssuanceCapped(before - {token})
  {
    var after := before - {token};
    forall user, x ensures |CreatedInWindow(after, user, x)| <= MAX_ISSUANCES_PER_WINDOW {
      assert |CreatedInWindow(before, user, x)| <= MAX_ISSUANCES_PER_WINDOW;
      SubsetIsNoLarger(CreatedInWindow(after, user, x), CreatedInWindow(before, user, x));
    }
  }

  /** Logging in and administering touch neither challenges nor sessions. */
  lemma LoginTouchesNoSession(policy: Config, t: Tables, r: Login.Request)
    ensures var after := Login.Authenticated(policy, t, r.input, r.began, r.now).0;
      && after.challenges == t.challenges && after.refreshTokens == t.refreshTokens
      && Actions(after.audit, LoginSucceeded) == Actions(t.audit, LoginSucceeded)
  {
    var actor := Login.Known(t, r.input.email);
    var failed := AuditEvent(actor, LoginFailed, r.input.ip, r.began);
    ActionsAppend(t.audit, failed, LoginSucceeded);
    ActionsAppend(t.audit + [failed], AuditEvent(actor, AccountLocked, r.input.ip, r.began), LoginSucceeded);
  }

  // --------------------------------------------------- every step keeps them all

  /** Steps that add no event to the log and leave released rows in place. */
  lemma QuietStep(s: System, s': System)
    requires Inv(s)
    requires s'.log == s.log && s'.clock >= s.clock
    requires s.issued <= s'.issued && s'.released !! s'.pending
    requires s.released <= s'.released && s'.released + s'.pending <= s'.tables.challenges.Keys <= s'.issued
    requires s'.tables.refreshTokens == s.tables.refreshTokens
    requires Actions(s'.tables.audit, LoginSucceeded) == Actions(s.tables.audit, LoginSucceeded)
    requires OneOpenChallenge(s'.tables.challenges) && IssuanceCapped(s'.tables.challenges)
    requires forall t :: t in s'.tables.challenges ==>
      RowIsSound(s'.tables.challenges[t], s'.clock, Rejections(s.log, t))
    requires forall t :: t in s.released ==>
      && s.tables.challenges[t].user == s'.tables.challenges[t].user
      && s.tables.challenges[t].createdAt == s'.tables.challenges[t].createdAt
      && s.tables.challenges[t].expiresAt == s'.tables.challenges[t].expiresAt
      && (s.tables.challenges[t].used ==> s'.tables.challenges[t].used)
    ensures Inv(s')
  {
    forall i | 0 <= i < |s.log| ensures EventIsSound(s', s.log[i]) {
      assert EventIsSound(s, s.log[i]);
    }
    ConsumedAreReleased(s);
  }

  lemma {:induction false} ConsumedTokenIsLogged(log: seq<Event>, i: nat)
    requires i < |ConsumedTokens(log)|
    ensures exists k :: 0 <= k < |log| && log[k].Accepted? && log[k].token == ConsumedTokens(log)[i]
  {
    var n := |log| - 1;
    if log[n].Accepted? && i == |ConsumedTokens(log)| - 1 {
      assert log[n].token == ConsumedTokens(log)[i];
    } else {
      ConsumedTokenIsLogged(log[..n], i);
      var k :| 0 <= k < n && log[..n][k].Accepted? && log[..n][k].token == ConsumedTokens(log[..n])[i];
      assert log[k].Accepted? && log[k].token == ConsumedTokens(log)[i];
    }
  }

  lemma ConsumedAreReleased(s: System)
    requires LogIsSound(s)
    ensures forall i :: 0 <= i < |ConsumedTokens(s.log)| ==> ConsumedTokens(s.log)[i] in s.released
  {
    forall i | 0 <= i < |ConsumedTokens(s.log)| ensures ConsumedTokens(s.log)[i] in s.released {
      ConsumedTokenIsLogged(s.log, i);
      var k :| 0 <= k < |s.log| && s.log[k].Accepted? && s.log[k].token == ConsumedTokens(s.log)[i];
      assert EventIsSound(s, s.log[k]);
    }
  }

  /** Every earlier row keeps its place, and the new one starts with every attempt left. */
  lemma IssueKeepsRows(s: System, user: UserId, token: Token, code: string, now: int)
    requires RowsAreSound(s) && token !in s.issued && now <= s.clock
    ensures var after := Superseded(s.tables.challenges, user)[token := NewChallenge(user, token, code, now)];
      && after.Keys == s.tables.challenges.Keys + {token}
      && (forall t :: t in after ==> RowIsSound(after[t], s.clock, Rejections(s.log, t)))
      && SameRows(s.tables.challenges, after - {token})
  {}

  lemma IssueStep(policy: Config, s: System, step: Step)
    requires Inv(s) && step.Issue? && Enabled(s, step)
    ensures Inv(Apply(policy, s, step))
  {
    var t := s.tables;
    if IssuanceOpen(t, step.user, step.now) {
      IssueKeepsRows(s, step.user, step.token, step.code, step.now);
      IssueKeepsLimits(t, step.user, step.token, step.code, step.began, step.now);
      ActionsAppend(t.audit, AuditEvent(Some(step.user), MfaChallengeIssued, None, step.began), LoginSucceeded);
      QuietStep(s, Apply(policy, s, step));
    }
  }

  lemma PublishStep(policy: Config, s: System, step: Step)
    requires Inv(s) && Enabled(s, step)
    requires step.Deliver? || step.Cancel? || step.Strand?
    ensures Inv(Apply(policy, s, step))
  {
    if step.Cancel? {
      DeletionKeepsLimits(s.tables.challenges, step.undelivered);
    }
    QuietStep(s, Apply(policy, s, step));
  }

  /** Rewriting one row, without reopening or moving it, keeps the invariant. */
  lemma QuietRowStep(s: System, s': System, token: Token, row: Challenge)
    requires Inv(s) && token in s.tables.challenges
    requires s'.log == s.log && s'.clock == s.clock
    requires s'.issued == s.issued && s'.pending == s.pending && s'.released == s.released
    requires s'.tables.challenges == s.tables.challenges[token := row]
    requires s'.tables.refreshTokens == s.tables.refreshTokens
    requires Actions(s'.tables.audit, LoginSucceeded) == Actions(s.tables.audit, LoginSucceeded)
    requires var c := s.tables.challenges[token];
      && row.user == c.user && row.createdAt == c.createdAt && row.expiresAt == c.expiresAt
      && row.attemptsLeft == c.attemptsLeft && row.used == c.used
    ensures Inv(s')
  {
    assert SameRows(s.tables.challenges, s'.tables.challenges);
    SameRowsKeepLimits(s.tables.challenges, s'.tables.challenges);
    QuietStep(s, s');
  }

  lemma ResendStep(policy: Config, s: System, step: Step)
    requires Inv(s) && Enabled(s, step) && step.Resend?
    ensures Inv(Apply(policy, s, step))
  {
    var t, s', token := s.tables, Apply(policy, s, step), step.resent;
    if s' != s {
      ActionsAppend(t.audit, AuditEvent(Some(t.challenges[token].user), MfaCodeResent, None, step.resendBegan), LoginSucceeded);
      QuietRowStep(s, s', token, Resent(t.challenges[token], CodeHash(token, step.newCode), s.clock));
    }
  }

  lemma RestoreStep(policy: Config, s: System, step: Step)
    requires Inv(s) && Enabled(s, step) && step.Restore?
    ensures Inv(Apply(policy, s, step))
  {
    var t, s', token := s.tables, Apply(policy, s, step), step.restored;
    if s' != s {
      QuietRowStep(s, s', token,
                   Restored(t.challenges[token], step.expected, step.sentAt, step.previous, step.previousSentAt));
    }
  }

  lemma AccountStep(policy: Config, s: System, step: Step)
    requires Inv(s) && Enabled(s, step)
    requires step.LogIn? || step.Administer? || step.Tick?
    ensures Inv(Apply(policy, s, step))
  {
    if step.LogIn? {
      LoginTouchesNoSession(policy, s.tables, step.request);
    }
    QuietStep(s, Apply(policy, s, step));
  }

  // ------------------------------------------------------------ verification

  lemma EventsStaySound(s: System, s': System, e: Event)
    requires LogIsSound(s) && EventIsSound(s', e)
    requires s'.released == s.released && SameRows(s.tables.challenges, s'.tables.challenges)
    requires s'.log == s.log + [e]
    ensures LogIsSound(s')
  {
    forall i | 0 <= i < |s'.log| ensures EventIsSound(s', s'.log[i]) {
      if i < |s.log| {
        assert EventIsSound(s, s.log[i]);
      }
    }
  }

  lemma RejectStep(policy: Config, s: System, token: Token, ip: Option<Address>, began: int)
    requires Inv(s) && token in s.released && Verifiable(s.tables, token, s.clock)
    ensures var user := s.tables.challenges[token].user;
      Inv(s.(tables := AfterRejection(policy, s.tables, token, ip, began, s.clock).0,
             log := s.log + [Rejected(token, user, s.clock)]))
  {
    var t := s.tables;
    var e := Rejected(token, t.challenges[token].user, s.clock);
    var after := AfterRejection(policy, t, token, ip, began, s.clock).0;
    RejectionSpendsOneAttempt(policy, t, token, ip, began, s.clock);
    RejectedKeepsInv(s, s.(tables := after, log := s.log + [e]), token, e);
  }

  lemma RejectedKeepsInv(s: System, s': System, token: Token, e: Event)
    requires Inv(s) && token in s.released && Verifiable(s.tables, token, s.clock)
    requires e == Rejected(token, s.tables.challenges[token].user, s.clock)
    requires s' == s.(tables := s'.tables, log := s.log + [e])
    requires s'.tables.challenges == s.tables.challenges[token := Spent(s.tables.challenges[token])]
    requires s'.tables.refreshTokens == s.tables.refreshTokens
    requires Actions(s'.tables.audit, LoginSucceeded) == Actions(s.tables.audit, LoginSucceeded)
    ensures Inv(s')
  {
    SameRowsKeepLimits(s.tables.challenges, s'.tables.challenges);
    forall k ensures Rejections(s'.log, k) == Rejections(s.log, k) + if k == token then 1 else 0 {
      LogAppend(s.log, e, k);
    }
    LogAppend(s.log, e, token);
    EventsStaySound(s, s', e);
  }

  lemma AcceptStep(s: System, token: Token, family: FamilyId, hub: bool, ip: Option<Address>, began: int)
    requires Inv(s) && token in s.released && Verifiable(s.tables, token, s.clock)
    requires forall i :: 0 <= i < |s.tables.refreshTokens| ==> s.tables.refreshTokens[i].family != family
    ensures Inv(s.(tables := AfterSession(s.tables, token, family, hub, ip, began), log := s.log + [Accepted(token, family)]))
  {
    var after := AfterSession(s.tables, token, family, hub, ip, began);
    SessionConsumesChallenge(s.tables, token, family, hub, ip, began, s.clock);
    AcceptedKeepsInv(s, s.(tables := after, log := s.log + [Accepted(token, family)]), token, family);
  }

  lemma FamiliesAppend(sessions: seq<Session>, session: Session)
    ensures Families(sessions + [session]) == Families(sessions) + [session.family]
  {
    assert (sessions + [session])[..|sessions|] == sessions;
  }

  /** The row just consumed joins the consumed ones, and its family is a new one. */
  lemma AcceptedKeepsSessions(s: System, s': System, token: Token, family: FamilyId)
    requires SessionsConserved(s) && token in s.tables.challenges && !s.tables.challenges[token].used
    requires forall i :: 0 <= i < |s.tables.refreshTokens| ==> s.tables.refreshTokens[i].family != family
    requires s'.log == s.log + [Accepted(token, family)]
    requires s'.tables.challenges == s.tables.challenges[token := Consumed(s.tables.challenges[token])]
    requires s'.tables.refreshTokens == s.tables.refreshTokens + [Session(s.tables.challenges[token].user, family)]
    requires Actions(s'.tables.audit, LoginSucceeded) == Actions(s.tables.audit, LoginSucceeded) + 1
    ensures SessionsConserved(s')
  {
    LogAppend(s.log, Accepted(token, family), token);
    FamiliesAppend(s.tables.refreshTokens, Session(s.tables.challenges[token].user, family));
  }

  lemma AcceptedKeepsInv(s: System, s': System, token: Token, family: FamilyId)
    requires Inv(s) && token in s.released && Verifiable(s.tables, token, s.clock)
    requires forall i :: 0 <= i < |s.tables.refreshTokens| ==> s.tables.refreshTokens[i].family != family
    requires s' == s.(tables := s'.tables, log := s.log + [Accepted(token, family)])
    requires s'.tables.challenges == s.tables.challenges[token := Consumed(s.tables.challenges[token])]
    requires s'.tables.refreshTokens == s.tables.refreshTokens + [Session(s.tables.challenges[token].user, family)]
    requires Actions(s'.tables.audit, LoginSucceeded) == Actions(s.tables.audit, LoginSucceeded) + 1
    ensures Inv(s')
  {
    SameRowsKeepLimits(s.tables.challenges, s'.tables.challenges);
    forall k ensures Rejections(s'.log, k) == Rejections(s.log, k) {
      LogAppend(s.log, Accepted(token, family), k);
    }
    EventsStaySound(s, s', Accepted(token, family));
    AcceptedKeepsSessions(s, s', token, family);
  }

  lemma StepKeepsInv(policy: Config, s: System, step: Step)
    requires Inv(s) && Enabled(s, step)
    ensures Inv(Apply(policy, s, step))
  {
    match step
    case Tick(_) => AccountStep(policy, s, step);
    case LogIn(_) => AccountStep(policy, s, step);
    case Administer(_, _) => AccountStep(policy, s, step);
    case Issue(_, _, _, _, _) => IssueStep(policy, s, step);
    case Deliver(_) => PublishStep(policy, s, step);
    case Cancel(_) => PublishStep(policy, s, step);
    case Strand(_) => PublishStep(policy, s, step);
    case Resend(_, _, _) => ResendStep(policy, s, step);
    case Restore(_, _, _, _, _) => RestoreStep(policy, s, step);
    case Verify(input, family, hub, began) =>
      if WellFormed(input) && Verifiable(s.tables, input.token.value, s.clock) {
        if Matches(s.tables, input) {
          AcceptStep(s, input.token.value, family, hub, input.ip, began);
        } else {
          RejectStep(policy, s, input.token.value, input.ip, began);
        }
      }
  }

  lemma {:induction false} RunKeepsInv(policy: Config, s: System, steps: seq<Step>)
    requires Inv(s) && IsRun(policy, s, steps)
    ensures Inv(Final(policy, s, steps))
    decreases |steps|
  {
    if steps != [] {
      StepKeepsInv(policy, s, steps[0]);
      RunKeepsInv(policy, Apply(policy, s, steps[0]), steps[1..]);
    }
  }

  lemma StartIsSound(emails: map<string, UserId>, accounts: map<UserId, Account>, clock: int)
    ensures Inv(Start(emails, accounts, clock))
  {
    var s := Start(emails, accounts, clock);
    forall user, x ensures |CreatedInWindow(s.tables.challenges, user, x)| <= MAX_ISSUANCES_PER_WINDOW {
      assert CreatedInWindow(s.tables.challenges, user, x) == {};
    }
  }

  // -------------------------------------------------- what holds in every run

  /** However late clock readings are used and in whatever order commits land,
      no window of IssuanceWindow holds more than the cap of an account's rows,
      and an account has at most one unused challenge. */
  lemma IssuanceIsCapped(policy: Config, emails: map<string, UserId>, accounts: map<UserId, Account>, clock: int, steps: seq<Step>)
    requires IsRun(policy, Start(emails, accounts, clock), steps)
    ensures var rows := Final(policy, Start(emails, accounts, clock), steps).tables.challenges;
      && (forall user, x :: |CreatedInWindow(rows, user, x)| <= MAX_ISSUANCES_PER_WINDOW)
      && OneOpenChallenge(rows)
  {
    StartIsSound(emails, accounts, clock);
    RunKeepsInv(policy, Start(emails, accounts, clock), steps);
  }

  /** However many resends and restores happen, a challenge's attempts left and
      its committed rejections always add up to MaxAttempts, and it is closed when none is left. */
  lemma AttemptsAreConserved(policy: Config, emails: map<string, UserId>, accounts: map<UserId, Account>, clock: int, steps: seq<Step>, token: Token)
    requires IsRun(policy, Start(emails, accounts, clock), steps)
    requires token in Final(policy, Start(emails, accounts, clock), steps).tables.challenges
    ensures var s := Final(policy, Start(emails, accounts, clock), steps);
      && s.tables.challenges[token].attemptsLeft + Rejections(s.log, token) == MAX_ATTEMPTS
      && (s.tables.challenges[token].attemptsLeft == 0 ==> s.tables.challenges[token].used)
  {
    StartIsSound(emails, accounts, clock);
    RunKeepsInv(policy, Start(emails, accounts, clock), steps);
  }

  /** Refresh families, login_succeeded audits and consumed challenges are equal
      in number; no challenge and no family serves twice, and a consumed challenge stays used. */
  lemma SessionsMatchConsumedChallenges(policy: Config, emails: map<string, UserId>, accounts: map<UserId, Account>, clock: int, steps: seq<Step>)
    requires IsRun(policy, Start(emails, accounts, clock), steps)
    ensures var s := Final(policy, Start(emails, accounts, clock), steps);
      && |s.tables.refreshTokens| == Actions(s.tables.audit, LoginSucceeded) == |ConsumedTokens(s.log)|
      && Distinct(Families(s.tables.refreshTokens)) && Distinct(ConsumedTokens(s.log))
      && (forall i :: 0 <= i < |ConsumedTokens(s.log)| ==>
            ConsumedTokens(s.log)[i] in s.tables.challenges && s.tables.challenges[ConsumedTokens(s.log)[i]].used)
  {
    StartIsSound(emails, accounts, clock);
    RunKeepsInv(policy, Start(emails, accounts, clock), steps);
  }

  // ---------------------------------------------------------- the guess budget

  /** Rejections of any of these tokens. */
  function RejectionsOver(log: seq<Event>, tokens: set<Token>): nat {
    if log == [] then 0
    else RejectionsOver(log[..|log| - 1], tokens)
         + var e := log[|log| - 1]; if e.Rejected? && e.token in tokens then 1 else 0
  }

  lemma {:induction false} RejectionsOverSplit(log: seq<Event>, tokens: set<Token>, token: Token)
    requires token in tokens
    ensures RejectionsOver(log, tokens) == RejectionsOver(log, tokens - {token}) + Rejections(log, token)
  {
    if log != [] {
      RejectionsOverSplit(log[..|log| - 1], tokens, token);
    }
  }

  lemma {:induction false} NoTokensNoRejections(log: seq<Event>)
    ensures RejectionsOver(log, {}) == 0
  {
    if log != [] {
      NoTokensNoRejections(log[..|log| - 1]);
    }
  }

  lemma {:induction false} RejectionsOverBound(log: seq<Event>, tokens: set<Token>)
    requires forall t :: t in tokens ==> Rejections(log, t) <= MAX_ATTEMPTS
    ensures RejectionsOver(log, tokens) <= MAX_ATTEMPTS * |tokens|
  {
    if tokens == {} {
      NoTokensNoRejections(log);
    } else {
      var t :| t in tokens;
      RejectionsOverSplit(log, tokens, t);
      RejectionsOverBound(log, tokens - {t});
    }
  }

  lemma {:induction false} BetweenIsOver(log: seq<Event>, tokens: set<Token>, user: UserId, lo: int, hi: int)
    requires forall i :: 0 <= i < |log| && log[i].Rejected? && log[i].user == user && lo <= log[i].at <= hi ==>
      log[i].token in tokens
    ensures RejectionsBetween(log, user, lo, hi) <= RejectionsOver(log, tokens)
  {
    if log != [] {
      BetweenIsOver(log[..|log| - 1], tokens, user, lo, hi);
    }
  }

  lemma DisjointSizes<T>(a: set<T>, b: set<T>)
    requires a !! b
    ensures |a + b| == |a| + |b|
  {}

  /** A long interval of creation times is covered by windows that hold the cap each. */
  lemma {:induction false} RowsInLongInterval(challenges: map<Token, Challenge>, user: UserId, lo: int, span: nat)
    requires IssuanceCapped(challenges)
    ensures |CreatedBetween(challenges, user, lo, lo + span - 1)|
         <= MAX_ISSUANCES_PER_WINDOW * Windows(span, ISSUANCE_WINDOW + 1)
    decreases span
  {
    var width := ISSUANCE_WINDOW + 1;
    WindowsStep(span, width);
    var rows := CreatedBetween(challenges, user, lo, lo + span - 1);
    var head := CreatedInWindow(challenges, user, lo);
    assert |head| <= MAX_ISSUANCES_PER_WINDOW;
    if span == 0 {
      assert rows == {};
    } else if span <= width {
      SubsetIsNoLarger(rows, head);
    } else {
      var tail := CreatedBetween(challenges, user, lo + width, lo + span - 1);
      assert rows == head + tail;
      DisjointSizes(head, tail);
      assert lo + span - 1 == (lo + width) + (span - width) - 1;
      RowsInLongInterval(challenges, user, lo + width, span - width);
    }
  }

  /** Wrong codes compared for one account during any interval, in closed form:
      MaxAttempts for each challenge that can be open in it, and as many of
      those as the issuance cap allows in the interval extended by one lifetime. */
  lemma GuessBudget(policy: Config, emails: map<string, UserId>, accounts: map<UserId, Account>, clock: int, steps: seq<Step>,
                    user: UserId, lo: int, length: nat)
    requires IsRun(policy, Start(emails, accounts, clock), steps) && 0 < length
    ensures RejectionsBetween(Final(policy, Start(emails, accounts, clock), steps).log, user, lo, lo + length - 1)
         <= MAX_ATTEMPTS * (MAX_ISSUANCES_PER_WINDOW * Windows(length + CHALLENGE_TTL - 1, ISSUANCE_WINDOW + 1))
  {
    StartIsSound(emails, accounts, clock);
    RunKeepsInv(policy, Start(emails, accounts, clock), steps);
    var s := Final(policy, Start(emails, accounts, clock), steps);
    var rows := CreatedBetween(s.tables.challenges, user, lo - CHALLENGE_TTL + 1, lo + length - 1);
    var hi := lo + length - 1;
    forall i | 0 <= i < |s.log| && s.log[i].Rejected? && s.log[i].user == user && lo <= s.log[i].at <= hi
      ensures s.log[i].token in rows
    {
      assert EventIsSound(s, s.log[i]);
      assert RowIsSound(s.tables.challenges[s.log[i].token], s.clock, Rejections(s.log, s.log[i].token));
    }
    BetweenIsOver(s.log, rows, user, lo, hi);
    forall t | t in rows ensures Rejections(s.log, t) <= MAX_ATTEMPTS {
      assert RowIsSound(s.tables.challenges[t], s.clock, Rejections(s.log, t));
    }
    RejectionsOverBound(s.log, rows);
    var span := length + CHALLENGE_TTL - 1;
    assert hi == (lo - CHALLENGE_TTL + 1) + span - 1;
    RowsInLongInterval(s.tables.challenges, user, lo - CHALLENGE_TTL + 1, span);
  }
}
