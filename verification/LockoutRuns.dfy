/** The lockout bound over whole sign-in runs: whatever mixes of passwords,
    codes, resends and other accounts' changes happen around it. */
module LockoutRuns {
  import opened SlidingWindow
  import opened HubTables
  import opened Lockout
  import Login
  import Mfa
  import opened MfaRuns

  /** The transactions of one account begin, read the clock and take its row
      lock in that order, within delay; nobody administers the account. */
  predicate IsPrompt(s: System, step: MfaRuns.Step, user: UserId, delay: int) {
    match step
    case LogIn(r) => Login.Known(s.tables, r.input.email) == Some(user) ==> r.began <= r.now <= s.clock <= r.began + delay
    case Verify(input, _, _, began) =>
      input.token.Some? && input.token.value in s.tables.challenges && s.tables.challenges[input.token.value].user == user ==>
        began <= s.clock <= began + delay
    case Administer(target, _) => target != user
    case _ => true
  }

  ghost predicate PromptRun(policy: Config, s: System, steps: seq<MfaRuns.Step>, user: UserId, delay: int)
    decreases |steps|
  {
    steps == [] || (IsPrompt(s, steps[0], user, delay) && PromptRun(policy, MfaRuns.Apply(policy, s, steps[0]), steps[1..], user, delay))
  }

  /** The tables show of the account exactly what a timely run of attempts leaves. */
  ghost predicate Follows(policy: Config, s: System, user: UserId, delay: int, run: seq<Attempt>) {
    && user in s.tables.accounts && LastReset(s.tables.audit, user) == None
    && AccountOf(s.tables, user) == After(policy, run)
    && Timely(run, delay) && forall i :: 0 <= i < |run| ==> run[i].locked <= s.clock
  }

  lemma NoResetAppend(audit: seq<AuditEvent>, e: AuditEvent, user: UserId)
    requires e.action != PasswordResetCompleted
    ensures LastReset(audit + [e], user) == LastReset(audit, user)
  {
    assert (audit + [e])[..|audit|] == audit;
  }

  /** An audit entry that is no failure of the account changes nothing of it. */
  lemma Irrelevant(audit: seq<AuditEvent>, e: AuditEvent, user: UserId)
    requires e.action != PasswordResetCompleted && (e.actor != Some(user) || !IsFailure(e.action))
    ensures Failures(audit + [e], user) == Failures(audit, user) && LastReset(audit + [e], user) == LastReset(audit, user)
  {
    FailuresAppend(audit, e, user);
    NoResetAppend(audit, e, user);
  }

  lemma JudgeKeepsResets(policy: Config, t: Tables, user: UserId, ip: Option<Address>, at: int, now: int, other: UserId)
    ensures LastReset(Judge(policy, t, user, ip, at, now).0.audit, other) == LastReset(t.audit, other)
    ensures other != user && other in t.accounts ==>
      var judged := Judge(policy, t, user, ip, at, now).0;
      other in judged.accounts && AccountOf(judged, other) == AccountOf(t, other)
  {
    NoResetAppend(t.audit, AuditEvent(Some(user), AccountLocked, ip, at), other);
    if other != user {
      Irrelevant(t.audit, AuditEvent(Some(user), AccountLocked, ip, at), other);
    }
  }

  lemma LoginKeepsResets(policy: Config, t: Tables, r: Login.Request, user: UserId)
    ensures LastReset(Login.Authenticated(policy, t, r.input, r.began, r.now).0.audit, user) == LastReset(t.audit, user)
  {
    var actor := Login.Known(t, r.input.email);
    var failed := AuditEvent(actor, LoginFailed, r.input.ip, r.began);
    NoResetAppend(t.audit, failed, user);
    NoResetAppend(t.audit + [failed], AuditEvent(actor, AccountLocked, r.input.ip, r.began), user);
  }

  lemma RejectionKeepsOthers(policy: Config, t: Tables, token: Token, ip: Option<Address>, began: int, now: int, user: UserId)
    requires token in t.challenges && user in t.accounts
    ensures var after := Mfa.AfterRejection(policy, t, token, ip, began, now).0;
      && LastReset(after.audit, user) == LastReset(t.audit, user)
      && (t.challenges[token].user != user ==> user in after.accounts && AccountOf(after, user) == AccountOf(t, user))
  {
    var guesser := t.challenges[token].user;
    var spent := Spent(t.challenges[token]);
    var rejected, exhausted := AuditEvent(Some(guesser), MfaCodeRejected, ip, began), AuditEvent(Some(guesser), MfaChallengeExhausted, ip, began);
    var audited := t.audit + [rejected];
    var recorded := t.(challenges := t.challenges[token := spent], audit := if spent.attemptsLeft == 0 then audited + [exhausted] else audited);
    NoResetAppend(t.audit, rejected, user);
    NoResetAppend(audited, exhausted, user);
    if guesser != user {
      Irrelevant(t.audit, rejected, user);
      Irrelevant(audited, exhausted, user);
    }
    JudgeKeepsResets(policy, recorded, guesser, ip, began, now, user);
  }

  lemma SessionKeepsAccount(t: Tables, token: Token, family: FamilyId, hub: bool, ip: Option<Address>, began: int, user: UserId)
    requires token in t.challenges && user in t.accounts
    ensures var after := Mfa.AfterSession(t, token, family, hub, ip, began);
      && LastReset(after.audit, user) == LastReset(t.audit, user)
      && user in after.accounts && AccountOf(after, user) == AccountOf(t, user)
  {
    var owner := t.challenges[token].user;
    var accepted, succeeded := AuditEvent(Some(owner), MfaCodeAccepted, ip, began), AuditEvent(Some(owner), LoginSucceeded, ip, began);
    assert t.audit + [accepted, succeeded] == (t.audit + [accepted]) + [succeeded];
    Irrelevant(t.audit, accepted, user);
    Irrelevant(t.audit + [accepted], succeeded, user);
  }

  /** When the row lock is taken does not matter to what the attempt does. */
  lemma AfterOneMore(policy: Config, run: seq<Attempt>, t: Attempt, locked: int)
    ensures After(policy, run + [t.(locked := locked)]) == Next(policy, After(policy, run), t)
  {
    AfterAppend(policy, run, t.(locked := locked));
    SameWheneverLocked(policy, After(policy, run), t, locked);
  }

  lemma SameWheneverLocked(policy: Config, a: AccountState, t: Attempt, locked: int)
    ensures Next(policy, a, t.(locked := locked)) == Next(policy, a, t)
  {}

  lemma LockedByNow(run: seq<Attempt>, t: Attempt, delay: int, clock: int)
    requires Timely(run, delay) && forall i :: 0 <= i < |run| ==> run[i].locked <= clock
    requires t.began <= t.reading <= clock <= t.began + delay
    ensures var more := run + [t.(locked := clock)];
      Timely(more, delay) && forall i :: 0 <= i < |more| ==> more[i].locked <= clock
  {
    AppendIsTimely(run, t.(locked := clock), delay, clock);
  }

  /** One more attempt of the account, made now. */
  lemma AttemptFollows(policy: Config, s: System, s': System, user: UserId, delay: int, run: seq<Attempt>, t: Attempt)
    requires Follows(policy, s, user, delay, run) && s'.clock == s.clock
    requires t.began <= t.reading <= s.clock <= t.began + delay
    requires user in s'.tables.accounts && LastReset(s'.tables.audit, user) == None
    requires AccountOf(s'.tables, user) == Next(policy, AccountOf(s.tables, user), t)
    ensures Follows(policy, s', user, delay, run + [t.(locked := s.clock)])
  {
    LockedByNow(run, t, delay, s.clock);
    AfterOneMore(policy, run, t, s.clock);
  }

  lemma LogInFollows(policy: Config, s: System, r: Login.Request, user: UserId, delay: int, run: seq<Attempt>) returns (run': seq<Attempt>)
    requires policy.Valid() && Follows(policy, s, user, delay, run) && IsPrompt(s, LogIn(r), user, delay)
    ensures Follows(policy, MfaRuns.Apply(policy, s, LogIn(r)), user, delay, run')
  {
    var t := s.tables;
    LoginKeepsResets(policy, t, r, user);
    run' := run;
    if Login.Known(t, r.input.email) != Some(user) {
      Login.LoginLeavesOthersAlone(policy, t, r.input, r.began, r.now, user);
    } else if !Login.AddressIsLimited(policy, t, r.input.ip, r.now) {
      Login.LoginIsAPasswordAttempt(policy, t, r.input, r.began, r.now);
      var attempt := Attempt(Password, r.began, r.now, r.now, Login.PasswordMatches(t.accounts[user], r.input));
      AttemptFollows(policy, s, MfaRuns.Apply(policy, s, LogIn(r)), user, delay, run, attempt);
      run' := run + [attempt.(locked := s.clock)];
    }
  }

  lemma RejectFollows(policy: Config, s: System, s': System, token: Token, ip: Option<Address>, began: int, user: UserId, delay: int, run: seq<Attempt>)
    returns (run': seq<Attempt>)
    requires policy.Valid() && Follows(policy, s, user, delay, run) && Mfa.Verifiable(s.tables, token, s.clock)
    requires s.tables.challenges[token].user == user ==> began <= s.clock <= began + delay
    requires s'.clock == s.clock && s'.tables == Mfa.AfterRejection(policy, s.tables, token, ip, began, s.clock).0
    ensures Follows(policy, s', user, delay, run')
  {
    RejectionKeepsOthers(policy, s.tables, token, ip, began, s.clock, user);
    run' := run;
    if s.tables.challenges[token].user == user {
      Mfa.RejectionIsACodeAttempt(policy, s.tables, token, ip, began, s.clock);
      var attempt := Attempt(Code, began, s.clock, s.clock, false);
      AttemptFollows(policy, s, s', user, delay, run, attempt);
      run' := run + [attempt.(locked := s.clock)];
    }
  }

  lemma StepFollows(policy: Config, s: System, step: MfaRuns.Step, user: UserId, delay: int, run: seq<Attempt>) returns (run': seq<Attempt>)
    requires policy.Valid() && Follows(policy, s, user, delay, run)
    requires MfaRuns.Enabled(s, step) && IsPrompt(s, step, user, delay)
    ensures Follows(policy, MfaRuns.Apply(policy, s, step), user, delay, run')
  {
    var t := s.tables;
    run' := run;
    if step.LogIn? {
      run' := LogInFollows(policy, s, step.request, user, delay, run);
    } else if step.Verify? {
      if Mfa.WellFormed(step.input) && Mfa.Verifiable(t, step.input.token.value, s.clock) {
        var token := step.input.token.value;
        if Mfa.Matches(t, step.input) {
          SessionKeepsAccount(t, token, step.family, step.hub, step.input.ip, step.verifyBegan, user);
        } else {
          run' := RejectFollows(policy, s, MfaRuns.Apply(policy, s, step), token, step.input.ip, step.verifyBegan, user, delay, run);
        }
      }
    } else if step.Issue? {
      Irrelevant(t.audit, AuditEvent(Some(step.user), MfaChallengeIssued, None, step.began), user);
    } else if step.Resend? && step.resent in t.challenges {
      Irrelevant(t.audit, AuditEvent(Some(t.challenges[step.resent].user), MfaCodeResent, None, step.resendBegan), user);
    }
  }

  lemma {:induction false} RunFollows(policy: Config, s: System, steps: seq<MfaRuns.Step>, user: UserId, delay: int, run: seq<Attempt>)
    returns (run': seq<Attempt>)
    requires policy.Valid() && Follows(policy, s, user, delay, run)
    requires MfaRuns.IsRun(policy, s, steps) && PromptRun(policy, s, steps, user, delay)
    ensures Follows(policy, MfaRuns.Final(policy, s, steps), user, delay, run')
    decreases |steps|
  {
    run' := run;
    if steps != [] {
      run' := StepFollows(policy, s, steps[0], user, delay, run);
      run' := RunFollows(policy, MfaRuns.Apply(policy, s, steps[0]), steps[1..], user, delay, run');
    }
  }

  /** Over every sign-in run of any number of accounts: an active account that
      is unlocked only by expiry never collects more than accountMaxFailures
      failures in any closed interval of a length the policy bounds, whichever
      of the two steps recorded them. */
  lemma FailuresAreBoundedInEveryRun(policy: Config, emails: map<string, UserId>, accounts: map<UserId, Account>, clock: int,
                                     steps: seq<MfaRuns.Step>, user: UserId, delay: nat, length: nat)
    requires policy.Valid() && LongEnough(policy, delay, length)
    requires user in accounts && accounts[user].status == Active && accounts[user].lockedUntil == None
    requires MfaRuns.IsRun(policy, MfaRuns.Start(emails, accounts, clock), steps)
    requires PromptRun(policy, MfaRuns.Start(emails, accounts, clock), steps, user, delay)
    ensures Capped(Failures(MfaRuns.Final(policy, MfaRuns.Start(emails, accounts, clock), steps).tables.audit, user),
                   length, policy.accountMaxFailures)
  {
    var run := RunFollows(policy, MfaRuns.Start(emails, accounts, clock), steps, user, delay, []);
    LockoutBoundIsExact(policy, delay, length);
  }
}
