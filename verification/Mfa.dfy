/** The emailed second factor: issuing, verifying and resending one-time codes.
    Each service call runs one transaction and publishes after the commit; a
    failed publish is undone by a second, compensating transaction. */
module Mfa {
  import opened SlidingWindow
  import opened HubTables
  import opened HubDatabase
  import opened Lockout
  import Decimal

  const CHALLENGE_TTL: int := 5 * MINUTE
  const MAX_ATTEMPTS: nat := 5
  const RESEND_INTERVAL: int := MINUTE
  const ISSUANCE_WINDOW: int := 15 * MINUTE
  const MAX_ISSUANCES_PER_WINDOW: nat := 5
  const CODE_DIGITS: nat := 6

  // ------------------------------------------------------------------- codes

  predicate WellFormedCode(code: string) {
    |code| == CODE_DIGITS && Decimal.AllDigits(code)
  }

  /** generateCode: a number below 10^6 written with six digits. */
  function GenerateCode(draw: nat): string {
    Decimal.Pad(Decimal.Print(draw), CODE_DIGITS)
  }

  /** Every drawn code is accepted by the input check, and different draws give different codes. */
  lemma GeneratedCodesAreWellFormed(draw: nat, other: nat)
    requires draw < Decimal.Power10(CODE_DIGITS) && other < Decimal.Power10(CODE_DIGITS)
    ensures WellFormedCode(GenerateCode(draw))
    ensures GenerateCode(draw) == GenerateCode(other) ==> draw == other
  {
    Decimal.PrintWidth(draw, CODE_DIGITS);
    Decimal.ParsePad(draw, CODE_DIGITS);
    Decimal.ParsePad(other, CODE_DIGITS);
  }

  // ------------------------------------------------ what transactions leave behind

  /** The account received fewer challenges than the cap in the window before now. */
  predicate IssuanceOpen(t: Tables, user: UserId, now: int) {
    |IssuedSince(t.challenges, user, now - ISSUANCE_WINDOW)| < MAX_ISSUANCES_PER_WINDOW
  }

  function NewChallenge(user: UserId, token: Token, code: string, now: int): Challenge {
    Challenge(user, CodeHash(token, code), now, now, now + CHALLENGE_TTL, MAX_ATTEMPTS, false)
  }

  function AfterIssue(t: Tables, user: UserId, token: Token, code: string, began: int, now: int): Tables {
    t.(challenges := Superseded(t.challenges, user)[token := NewChallenge(user, token, code, now)],
       audit := t.audit + [AuditEvent(Some(user), MfaChallengeIssued, None, began)])
  }

  /** Issue whose publish failed and whose row was deleted again. */
  function AfterUndelivered(t: Tables, user: UserId, token: Token, code: string, began: int, now: int): Tables {
    var issued := AfterIssue(t, user, token, code, began, now);
    issued.(challenges := issued.challenges - {token})
  }

  predicate ActiveAccount(t: Tables, user: UserId) {
    user in t.accounts && t.accounts[user].status == Active
  }

  predicate Verifiable(t: Tables, token: Token, now: int) {
    && token in t.challenges
    && var c := t.challenges[token];
       !c.used && now < c.expiresAt && 0 < c.attemptsLeft && ActiveAccount(t, c.user)
  }

  function AfterRejection(policy: Config, t: Tables, token: Token, ip: Option<Address>, began: int, now: int): (Tables, Outcome)
    requires token in t.challenges
  {
    var user := t.challenges[token].user;
    var spent := Spent(t.challenges[token]);
    var audited := t.audit + [AuditEvent(Some(user), MfaCodeRejected, ip, began)];
    var recorded := t.(
      challenges := t.challenges[token := spent],
      audit := if spent.attemptsLeft == 0
               then audited + [AuditEvent(Some(user), MfaChallengeExhausted, ip, began)]
               else audited);
    Judge(policy, recorded, user, ip, began, now)
  }

  function AfterSession(t: Tables, token: Token, family: FamilyId, hub: bool, ip: Option<Address>, began: int): Tables
    requires token in t.challenges
  {
    var user := t.challenges[token].user;
    var session := Session(user, family);
    t.(challenges := t.challenges[token := Consumed(t.challenges[token])],
       refreshTokens := t.refreshTokens + [session],
       hubSessions := if hub then t.hubSessions + [session] else t.hubSessions,
       accounts := if user in t.accounts
                   then t.accounts[user := t.accounts[user].(lastLoginAt := Some(began))] else t.accounts,
       audit := t.audit + [AuditEvent(Some(user), MfaCodeAccepted, ip, began),
                           AuditEvent(Some(user), LoginSucceeded, ip, began)])
  }

  predicate Resendable(t: Tables, token: Token, now: int) {
    && token in t.challenges
    && var c := t.challenges[token];
       !c.used && now < c.expiresAt && ActiveAccount(t, c.user)
  }

  predicate TooSoon(c: Challenge, now: int) {
    now - c.lastSentAt < RESEND_INTERVAL
  }

  function AfterResend(t: Tables, token: Token, code: string, began: int, now: int): Tables
    requires token in t.challenges
  {
    t.(challenges := t.challenges[token := Resent(t.challenges[token], CodeHash(token, code), now)],
       audit := t.audit + [AuditEvent(Some(t.challenges[token].user), MfaCodeResent, None, began)])
  }

  // ------------------------------------------------------ truthful outcomes

  function Actions(audit: seq<AuditEvent>, action: Action): nat {
    if audit == [] then 0
    else Actions(audit[..|audit| - 1], action) + if audit[|audit| - 1].action == action then 1 else 0
  }

  lemma ActionsAppend(audit: seq<AuditEvent>, e: AuditEvent, action: Action)
    ensures Actions(audit + [e], action) == Actions(audit, action) + if e.action == action then 1 else 0
  {
    assert (audit + [e])[..|audit|] == audit;
  }

  lemma JudgeActions(policy: Config, t: Tables, user: UserId, ip: Option<Address>, began: int, now: int, action: Action)
    requires action != AccountLocked
    ensures var judged := Judge(policy, t, user, ip, began, now).0;
      Actions(judged.audit, action) == Actions(t.audit, action)
      && judged.challenges == t.challenges && judged.refreshTokens == t.refreshTokens && judged.hubSessions == t.hubSessions
  {
    ActionsAppend(t.audit, AuditEvent(Some(user), AccountLocked, ip, began), action);
  }

  /** A rejected code spends exactly one attempt of exactly that challenge,
      closes it exactly when none is left, audits one rejection, and opens no session. */
  lemma RejectionSpendsOneAttempt(policy: Config, t: Tables, token: Token, ip: Option<Address>, began: int, now: int)
    requires Verifiable(t, token, now)
    ensures var after := AfterRejection(policy, t, token, ip, began, now).0;
      && after.challenges.Keys == t.challenges.Keys
      && after.challenges[token].attemptsLeft == t.challenges[token].attemptsLeft - 1
      && (after.challenges[token].used <==> after.challenges[token].attemptsLeft == 0)
      && (forall k :: k in t.challenges && k != token ==> after.challenges[k] == t.challenges[k])
      && Actions(after.audit, MfaCodeRejected) == Actions(t.audit, MfaCodeRejected) + 1
      && Actions(after.audit, LoginSucceeded) == Actions(t.audit, LoginSucceeded)
      && after.refreshTokens == t.refreshTokens && after.hubSessions == t.hubSessions
  {
    var user := t.challenges[token].user;
    var spent := Spent(t.challenges[token]);
    var rejected := AuditEvent(Some(user), MfaCodeRejected, ip, began);
    var exhausted := AuditEvent(Some(user), MfaChallengeExhausted, ip, began);
    var audited := t.audit + [rejected];
    var recorded := t.(challenges := t.challenges[token := spent],
                       audit := if spent.attemptsLeft == 0 then audited + [exhausted] else audited);
    forall action | action == MfaCodeRejected || action == LoginSucceeded
      ensures Actions(recorded.audit, action) == Actions(t.audit, action) + if action == MfaCodeRejected then 1 else 0
    {
      ActionsAppend(t.audit, rejected, action);
      ActionsAppend(audited, exhausted, action);
    }
    JudgeActions(policy, recorded, user, ip, began, now, MfaCodeRejected);
    JudgeActions(policy, recorded, user, ip, began, now, LoginSucceeded);
  }

  /** A rejected code is one Code attempt of the account machine, so guessing
      codes and guessing passwords share one exact lockout bound. */
  lemma RejectionIsACodeAttempt(policy: Config, t: Tables, token: Token, ip: Option<Address>, began: int, now: int)
    requires policy.Valid() && Verifiable(t, token, now)
    requires ResetBefore(t.audit, t.challenges[token].user, began)
    ensures var user := t.challenges[token].user;
      var after := AfterRejection(policy, t, token, ip, began, now).0;
      user in after.accounts
      && AccountOf(after, user) == Next(policy, AccountOf(t, user), Attempt(Code, began, now, now, false))
  {
    var user := t.challenges[token].user;
    var rejected := AuditEvent(Some(user), MfaCodeRejected, ip, began);
    var exhausted := AuditEvent(Some(user), MfaChallengeExhausted, ip, began);
    var spent := Spent(t.challenges[token]);
    var audited := t.audit + [rejected];
    var recorded := t.(challenges := t.challenges[token := spent],
                       audit := if spent.attemptsLeft == 0 then audited + [exhausted] else audited);
    var a := AccountOf(t, user);
    assert Failures(audited, user) == a.failures + [began] by {
      FailuresAppend(t.audit, rejected, user);
    }
    assert Failures(audited + [exhausted], user) == a.failures + [began] by {
      FailuresAppend(audited, exhausted, user);
    }
    assert AccountOf(recorded, user) == a.(failures := a.failures + [began]);
    JudgeIsRecording(policy, recorded, user, a, ip, began, now);
    assert AfterRejection(policy, t, token, ip, began, now) == Judge(policy, recorded, user, ip, began, now);
  }

  predicate HasOpenChallenge(challenges: map<Token, Challenge>, user: UserId) {
    exists t :: t in challenges && challenges[t].user == user && !challenges[t].used
  }

  /** An undelivered issue leaves the challenges as before the call exactly when
      the account had none open. */
  lemma UndeliveredIssueIsUndoneIffNoneOpen(t: Tables, user: UserId, token: Token, code: string, began: int, now: int)
    requires token !in t.challenges
    ensures AfterUndelivered(t, user, token, code, began, now).challenges == t.challenges <==> !HasOpenChallenge(t.challenges, user)
  {
    var left := AfterUndelivered(t, user, token, code, began, now).challenges;
    assert left == Superseded(t.challenges, user);
    if k :| k in t.challenges && t.challenges[k].user == user && !t.challenges[k].used {
      assert left[k] != t.challenges[k];
    } else {
      assert forall k :: k in t.challenges && t.challenges[k].user == user ==> t.challenges[k].(used := true) == t.challenges[k];
    }
  }

  /** After an undelivered issue, exactly the codes of other accounts can still be verified. */
  lemma UndeliveredIssueCostsTheOpenCode(t: Tables, user: UserId, token: Token, code: string, began: int, now: int, earlier: Token, later: int)
    requires token !in t.challenges && earlier in t.challenges
    ensures Verifiable(AfterUndelivered(t, user, token, code, began, now), earlier, later)
      <==> Verifiable(t, earlier, later) && t.challenges[earlier].user != user
  {
    assert earlier in Superseded(t.challenges, user);
  }

  /** A session consumes its challenge for good, so no later verification or resend can use it. */
  lemma SessionConsumesChallenge(t: Tables, token: Token, family: FamilyId, hub: bool, ip: Option<Address>, began: int, later: int)
    requires token in t.challenges
    ensures var after := AfterSession(t, token, family, hub, ip, began);
      && !Verifiable(after, token, later) && !Resendable(after, token, later)
      && |after.refreshTokens| == |t.refreshTokens| + 1
      && Actions(after.audit, LoginSucceeded) == Actions(t.audit, LoginSucceeded) + 1
      && Actions(after.audit, MfaCodeRejected) == Actions(t.audit, MfaCodeRejected)
  {
    var user := t.challenges[token].user;
    var accepted, succeeded := AuditEvent(Some(user), MfaCodeAccepted, ip, began), AuditEvent(Some(user), LoginSucceeded, ip, began);
    assert t.audit + [accepted, succeeded] == (t.audit + [accepted]) + [succeeded];
    forall action | action == MfaCodeRejected || action == LoginSucceeded
      ensures Actions(t.audit + [accepted, succeeded], action)
           == Actions(t.audit, action) + if action == LoginSucceeded then 1 else 0
    {
      ActionsAppend(t.audit, accepted, action);
      ActionsAppend(t.audit + [accepted], succeeded, action);
    }
  }

  // ------------------------------------------------------------- the service

  /** Token is None when its text does not decode as base64url. */
  datatype VerifyInput = VerifyInput(token: Option<Token>, code: string, ip: Option<Address>)

  datatype VerifyResult =
    | SessionOpened(user: UserId, family: FamilyId)
    | CodeInvalid(lock: Outcome, lockPublished: bool)
    | VerifyChallengeInvalid
    | VerifyFailed

  datatype IssueResult =
    | Issued(token: Token)
    | IssuanceLimited
    | IssueUndelivered
    | IssueStranded
    | IssueFailed

  datatype ResendResult =
    | ResendDone
    | ResendChallengeInvalid
    | ResendTooSoon
    | ResendUndelivered
    | ResendStranded
    | ResendFailed

  predicate WellFormed(input: VerifyInput) {
    input.token.Some? && WellFormedCode(input.code)
  }

  predicate Matches(t: Tables, input: VerifyInput)
    requires input.token.Some? && input.token.value in t.challenges
  {
    t.challenges[input.token.value].code == CodeHash(input.token.value, input.code)
  }

  /** One call of Issue: what it draws, when it reads the clock, and what goes wrong. */
  datatype IssueRun = IssueRun(token: Token, code: string, began: int, now: int, faults: set<Call>, published: bool, undoFaults: set<Call>)

  /** Every answer of Issue with the tables it leaves. */
  predicate Issues(t: Tables, after: Tables, user: UserId, run: IssueRun, result: IssueResult) {
    match result
    case IssueFailed => after == t && run.faults != {}
    case IssuanceLimited => after == t && !IssuanceOpen(t, user, run.now)
    case Issued(token) =>
      token == run.token && run.published && IssuanceOpen(t, user, run.now)
      && after == AfterIssue(t, user, run.token, run.code, run.began, run.now)
    case IssueUndelivered =>
      !run.published && IssuanceOpen(t, user, run.now)
      && after == AfterUndelivered(t, user, run.token, run.code, run.began, run.now)
      && after.challenges == Superseded(t.challenges, user)
    case IssueStranded =>
      !run.published && run.undoFaults != {} && IssuanceOpen(t, user, run.now)
      && after == AfterIssue(t, user, run.token, run.code, run.began, run.now)
  }

  class Service {
    const db: Database
    const policy: Config
    const hubSessions: bool

    constructor (db: Database, policy: Config, hubSessions: bool)
      ensures this.db == db && this.policy == policy && this.hubSessions == hubSessions
    {
      this.db, this.policy, this.hubSessions := db, policy, hubSessions;
    }

    // -------------------------------------------------------------- verify

    /** For well-formed input a session means exactly that commit, an invalid
        code exactly one rejection, and any other answer an unchanged database,
        whichever call fails and whether or not the lock event is published. */
    method Verify(input: VerifyInput, family: FamilyId, began: int, now: int, faults: set<Call>, published: bool)
      returns (result: VerifyResult)
      requires policy.Valid()
      modifies db
      ensures result.VerifyFailed? ==> db.Contents() == old(db.Contents()) && faults != {}
      ensures result.VerifyChallengeInvalid? ==>
                && db.Contents() == old(db.Contents())
                && (input.token.None? || !Verifiable(old(db.Contents()), input.token.value, now))
      ensures result.CodeInvalid? && !WellFormed(input) ==> db.Contents() == old(db.Contents())
      ensures result.CodeInvalid? && WellFormed(input) ==>
                && Verifiable(old(db.Contents()), input.token.value, now)
                && !Matches(old(db.Contents()), input)
                && (db.Contents(), result.lock)
                   == AfterRejection(policy, old(db.Contents()), input.token.value, input.ip, began, now)
      ensures result.SessionOpened? ==>
                && WellFormed(input) && result.family == family
                && Verifiable(old(db.Contents()), input.token.value, now)
                && Matches(old(db.Contents()), input)
                && result.user == old(db.Contents()).challenges[input.token.value].user
                && db.Contents() == AfterSession(old(db.Contents()), input.token.value, family, hubSessions, input.ip, began)
    {
      if input.token.None? {
        return VerifyChallengeInvalid;
      }
      if !WellFormedCode(input.code) {
        return CodeInvalid(Unlocked, true);
      }
      var saved := db.Contents();
      result := VerifyChallenge(input.token.value, input, family, began, now, faults);
      if Commit in faults && (result.SessionOpened? || result.CodeInvalid?) {
        result := VerifyFailed;
      }
      if result.VerifyFailed? {
        db.Rollback(saved);
      } else if result.CodeInvalid? {
        result := CodeInvalid(result.lock, result.lock.Unlocked? || published);
      }
    }

    method VerifyChallenge(token: Token, input: VerifyInput, family: FamilyId, began: int, now: int, faults: set<Call>)
      returns (result: VerifyResult)
      requires policy.Valid() && input.token == Some(token)
      modifies db
      ensures result.VerifyFailed? ==> faults != {}
      ensures result.VerifyChallengeInvalid? ==>
                db.Contents() == old(db.Contents()) && !Verifiable(old(db.Contents()), token, now)
      ensures result.CodeInvalid? || result.SessionOpened? ==> Verifiable(old(db.Contents()), token, now)
      ensures result.CodeInvalid? ==>
                && !Matches(old(db.Contents()), input)
                && (db.Contents(), result.lock) == AfterRejection(policy, old(db.Contents()), token, input.ip, began, now)
      ensures result.SessionOpened? ==>
                && Matches(old(db.Contents()), input)
                && result == SessionOpened(old(db.Contents()).challenges[token].user, family)
                && db.Contents() == AfterSession(old(db.Contents()), token, family, hubSessions, input.ip, began)
    {
      if GetChallenge in faults {
        return VerifyFailed;
      }
      if token !in db.challenges || db.challenges[token].user !in db.accounts {
        return VerifyChallengeInvalid;
      }
      var challenge := db.challenges[token];
      if challenge.used || now >= challenge.expiresAt || challenge.attemptsLeft <= 0 {
        return VerifyChallengeInvalid;
      }
      if db.accounts[challenge.user].status != Active {
        return VerifyChallengeInvalid;
      }
      if challenge.code != CodeHash(token, input.code) {
        result := RejectCode(token, input.ip, began, now, faults);
        return;
      }
      var ok := IssueSession(token, family, input.ip, began, faults);
      return if ok then SessionOpened(challenge.user, family) else VerifyFailed;
    }

    method RejectCode(token: Token, ip: Option<Address>, began: int, now: int, faults: set<Call>)
      returns (result: VerifyResult)
      requires policy.Valid() && Verifiable(db.Contents(), token, now)
      modifies db
      ensures result.VerifyFailed? || result.CodeInvalid?
      ensures result.VerifyFailed? ==> faults != {}
      ensures result.CodeInvalid? ==>
                (db.Contents(), result.lock) == AfterRejection(policy, old(db.Contents()), token, ip, began, now)
    {
      var user := db.challenges[token].user;
      var ok, remaining := db.Reject(token, faults);
      if !ok {
        return VerifyFailed;
      }
      ok := db.InsertAuditEvent(AuditEvent(Some(user), MfaCodeRejected, ip, began), faults);
      if !ok {
        return VerifyFailed;
      }
      if remaining == 0 {
        ok := db.InsertAuditEvent(AuditEvent(Some(user), MfaChallengeExhausted, ip, began), faults);
        if !ok {
          return VerifyFailed;
        }
      }
      var outcome := EvaluateAccount(policy, db, user, now, faults);
      if outcome.None? {
        return VerifyFailed;
      }
      if outcome.value.NowLocked? {
        ok := db.InsertAuditEvent(AuditEvent(Some(user), AccountLocked, ip, began), faults);
        if !ok {
          return VerifyFailed;
        }
      }
      return CodeInvalid(outcome.value, true);
    }

    method IssueSession(token: Token, family: FamilyId, ip: Option<Address>, began: int, faults: set<Call>)
      returns (ok: bool)
      requires token in db.challenges && !db.challenges[token].used
      modifies db
      ensures !ok ==> faults != {}
      ensures ok ==> db.Contents() == AfterSession(old(db.Contents()), token, family, hubSessions, ip, began)
    {
      var user := db.challenges[token].user;
      ok := db.Consume(token, faults);
      if !ok || ListRoles in faults || IssueToken in faults || ReadRandom in faults {
        return false;
      }
      ok := db.InsertRefreshToken(Session(user, family), faults);
      if !ok {
        return false;
      }
      if hubSessions {
        if ReadHubRandom in faults {
          return false;
        }
        ok := db.InsertHubSession(Session(user, family), faults);
        if !ok {
          return false;
        }
      }
      ok := db.SetLastLogin(user, began, faults);
      if !ok {
        return false;
      }
      ok := db.InsertAuditEvent(AuditEvent(Some(user), MfaCodeAccepted, ip, began), faults);
      if !ok {
        return false;
      }
      ok := db.InsertAuditEvent(AuditEvent(Some(user), LoginSucceeded, ip, began), faults);
    }

    // --------------------------------------------------------------- issue

    /** Issue without interleaving: an undelivered challenge is removed again,
        but the challenges it replaced stay superseded. */
    method Issue(user: UserId, run: IssueRun) returns (result: IssueResult)
      requires run.token !in db.challenges
      modifies db
      ensures Issues(old(db.Contents()), db.Contents(), user, run, result)
    {
      if ReadRandom in run.faults || DrawCode in run.faults {
        return IssueFailed;
      }
      var saved := db.Contents();
      result := StoreChallenge(user, run.token, run.code, run.began, run.now, run.faults);
      if result.Issued? && Commit in run.faults {
        result := IssueFailed;
      }
      if result.IssueFailed? {
        db.Rollback(saved);
        return;
      }
      if result.Issued? && !run.published {
        result := CancelUndelivered(run.token, run.undoFaults);
      }
    }

    method StoreChallenge(user: UserId, token: Token, code: string, began: int, now: int, faults: set<Call>)
      returns (result: IssueResult)
      requires token !in db.challenges
      modifies db
      ensures result.IssueFailed? || result.IssuanceLimited? || result == Issued(token)
      ensures result.IssueFailed? ==> faults != {}
      ensures result.IssuanceLimited? ==>
                db.Contents() == old(db.Contents()) && !IssuanceOpen(old(db.Contents()), user, now)
      ensures result.Issued? ==>
                && IssuanceOpen(old(db.Contents()), user, now)
                && db.Contents() == AfterIssue(old(db.Contents()), user, token, code, began, now)
    {
      if LockIssuance in faults || CountChallenges in faults {
        return IssueFailed;
      }
      var issued := |IssuedSince(db.challenges, user, now - ISSUANCE_WINDOW)|;
      if issued >= MAX_ISSUANCES_PER_WINDOW {
        return IssuanceLimited;
      }
      var ok := db.SupersedeOpenChallenges(user, faults);
      if !ok {
        return IssueFailed;
      }
      ok := db.InsertChallenge(token, NewChallenge(user, token, code, now), faults);
      if !ok {
        return IssueFailed;
      }
      ok := db.InsertAuditEvent(AuditEvent(Some(user), MfaChallengeIssued, None, began), faults);
      return if ok then Issued(token) else IssueFailed;
    }

    /** The compensating transaction of Issue, bounded by its own timeout. */
    method CancelUndelivered(token: Token, faults: set<Call>) returns (result: IssueResult)
      modifies db`challenges
      ensures result.IssueUndelivered? ==> db.challenges == old(db.challenges) - {token}
      ensures !result.IssueUndelivered? ==>
                result.IssueStranded? && faults != {} && db.challenges == old(db.challenges)
    {
      if Commit in faults {
        return IssueStranded;
      }
      var ok := db.RemoveChallenge(token, faults);
      return if ok then IssueUndelivered else IssueStranded;
    }

    // -------------------------------------------------------------- resend

    /** Resend without interleaving: an undelivered resend leaves every
        challenge exactly as it was before the call. */
    method Resend(token: Option<Token>, code: string, began: int, now: int, faults: set<Call>,
                  published: bool, undoFaults: set<Call>)
      returns (result: ResendResult)
      modifies db
      ensures result.ResendFailed? ==> db.Contents() == old(db.Contents()) && faults != {}
      ensures result.ResendChallengeInvalid? ==>
                && db.Contents() == old(db.Contents())
                && (token.None? || !Resendable(old(db.Contents()), token.value, now))
      ensures !result.ResendFailed? && !result.ResendChallengeInvalid? ==>
                token.Some? && Resendable(old(db.Contents()), token.value, now)
      ensures result.ResendTooSoon? ==>
                db.Contents() == old(db.Contents()) && TooSoon(old(db.challenges)[token.value], now)
      ensures result.ResendDone? ==>
                && published && !TooSoon(old(db.challenges)[token.value], now)
                && db.Contents() == AfterResend(old(db.Contents()), token.value, code, began, now)
      ensures result.ResendUndelivered? ==>
                && !published && db.challenges == old(db.challenges)
                && db.Contents() == AfterResend(old(db.Contents()), token.value, code, began, now).(challenges := db.challenges)
      ensures result.ResendStranded? ==>
                !published && undoFaults != {}
                && db.Contents() == AfterResend(old(db.Contents()), token.value, code, began, now)
    {
      if token.None? {
        return ResendChallengeInvalid;
      }
      var saved := db.Contents();
      result := StoreResend(token.value, code, began, now, faults);
      if result.ResendDone? && Commit in faults {
        result := ResendFailed;
      }
      if result.ResendFailed? {
        db.Rollback(saved);
        return;
      }
      if result.ResendDone? && !published {
        var previous := saved.challenges[token.value];
        result := RestoreUndelivered(token.value, CodeHash(token.value, code), now, previous.code, previous.lastSentAt, undoFaults);
      }
    }

    method StoreResend(token: Token, code: string, began: int, now: int, faults: set<Call>) returns (result: ResendResult)
      modifies db
      ensures !result.ResendUndelivered? && !result.ResendStranded?
      ensures result.ResendFailed? ==> faults != {}
      ensures result.ResendChallengeInvalid? ==>
                db.Contents() == old(db.Contents()) && !Resendable(old(db.Contents()), token, now)
      ensures result.ResendTooSoon? || result.ResendDone? ==>
                && Resendable(old(db.Contents()), token, now)
                && result.ResendTooSoon? == TooSoon(old(db.challenges)[token], now)
                && db.Contents() == if result.ResendTooSoon? then old(db.Contents())
                                    else AfterResend(old(db.Contents()), token, code, began, now)
    {
      if GetChallenge in faults {
        return ResendFailed;
      }
      if token !in db.challenges || db.challenges[token].user !in db.accounts {
        return ResendChallengeInvalid;
      }
      var challenge := db.challenges[token];
      if challenge.used || now >= challenge.expiresAt || db.accounts[challenge.user].status != Active {
        return ResendChallengeInvalid;
      }
      if now - challenge.lastSentAt < RESEND_INTERVAL {
        return ResendTooSoon;
      }
      if DrawCode in faults {
        return ResendFailed;
      }
      var ok := db.StoreResend(token, CodeHash(token, code), now, faults);
      if !ok {
        return ResendFailed;
      }
      ok := db.InsertAuditEvent(AuditEvent(Some(challenge.user), MfaCodeResent, None, began), faults);
      return if ok then ResendDone else ResendFailed;
    }

    /** The compensating transaction of Resend. */
    method RestoreUndelivered(token: Token, code: CodeHash, sentAt: int, previousCode: CodeHash, previousSentAt: int,
                              faults: set<Call>)
      returns (result: ResendResult)
      modifies db`challenges
      ensures result.ResendUndelivered? ==>
                db.challenges ==
                if token in old(db.challenges)
                then old(db.challenges)[token := Restored(old(db.challenges)[token], code, sentAt, previousCode, previousSentAt)]
                else old(db.challenges)
      ensures !result.ResendUndelivered? ==>
                result.ResendStranded? && faults != {} && db.challenges == old(db.challenges)
    {
      if Commit in faults {
        return ResendStranded;
      }
      var ok := db.RestoreResendRow(token, code, sentAt, previousCode, previousSentAt, faults);
      return if ok then ResendUndelivered else ResendStranded;
    }
  }
}
