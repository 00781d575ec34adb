/** The password step of sign-in: one transaction that checks the address and
    account limits, records failures and locks or releases the account, then
    the emailed code. */
module Login {
  import opened SlidingWindow
  import opened HubTables
  import opened HubDatabase
  import opened Lockout
  import Mfa

  datatype Input = Input(email: string, ip: Option<Address>, password: string)

  /** One login: when its transaction began and which clock reading it uses. */
  datatype Request = Request(input: Input, began: int, now: int)

  datatype Result =
    | ChallengeDue(user: UserId)
    | InvalidCredentials(lock: Outcome)
    | AccountLockedOut
    | AddressLimited
    | Failed

  /** lockPublished is false when the lock event of this rejection could not be published. */
  datatype SignIn =
    | ChallengeSent(token: Token)
    | Rejected(reason: Result, lockPublished: bool)
    | NotIssued(issue: Mfa.IssueResult)
    | SignInFailed

  predicate AddressIsLimited(policy: Config, t: Tables, ip: Option<Address>, now: int) {
    ip.Some? && policy.ipMaxFailures <= FailuresOfAddress(t.audit, ip.value, now - policy.failureWindow)
  }

  function Known(t: Tables, email: string): Option<UserId> {
    if email in t.emails && t.emails[email] in t.accounts then Some(t.emails[email]) else None
  }

  predicate StillLocked(a: Account, now: int) {
    a.status == Locked && (a.lockedUntil.None? || now < a.lockedUntil.value)
  }

  predicate PasswordMatches(a: Account, input: Input) {
    a.password.password == input.password
  }

  /** The transaction past the address limit. */
  function Admitted(policy: Config, t: Tables, input: Input, began: int, now: int): (Tables, Result) {
    var failure := (actor: Option<UserId>) => AuditEvent(actor, LoginFailed, input.ip, began);
    match Known(t, input.email)
    case None => (t.(audit := t.audit + [failure(None)]), InvalidCredentials(Unlocked))
    case Some(user) =>
      if StillLocked(t.accounts[user], now) then (t, AccountLockedOut)
      else
        var released := t.(accounts := WithoutLock(t.accounts, user));
        if PasswordMatches(t.accounts[user], input) && released.accounts[user].status == Active
        then (released.(accounts := Rehashed(released.accounts, user)), ChallengeDue(user))
        else
          var recorded := released.(audit := released.audit + [failure(Some(user))]);
          if recorded.accounts[user].status != Active then (recorded, InvalidCredentials(Unlocked))
          else
            var (judged, outcome) := Judge(policy, recorded, user, input.ip, began, now);
            (judged, InvalidCredentials(outcome))
  }

  /** What a transaction that meets no fault leaves behind and reports. */
  function Authenticated(policy: Config, t: Tables, input: Input, began: int, now: int): (Tables, Result) {
    if AddressIsLimited(policy, t, input.ip, now) then (t, AddressLimited) else Admitted(policy, t, input, began, now)
  }

  // -------------------------------------- the login step as a step of one account

  /** A login on a known account, past the address limit, is one Password
      attempt of the account machine, so its exact bound holds for it. */
  lemma LoginIsAPasswordAttempt(policy: Config, t: Tables, input: Input, began: int, now: int)
    requires policy.Valid() && Known(t, input.email).Some?
    requires ResetBefore(t.audit, Known(t, input.email).value, began)
    ensures var user := Known(t, input.email).value;
      var after := Admitted(policy, t, input, began, now).0;
      && user in after.accounts
      && AccountOf(after, user)
         == Next(policy, AccountOf(t, user), Attempt(Password, began, now, now, PasswordMatches(t.accounts[user], input)))
  {
    var user := Known(t, input.email).value;
    if !StillLocked(t.accounts[user], now) {
      var failed := AuditEvent(Some(user), LoginFailed, input.ip, began);
      var released := t.(accounts := WithoutLock(t.accounts, user));
      var a := AccountOf(released, user);
      assert a == ReleaseExpired(AccountOf(t, user), now);
      if PasswordMatches(t.accounts[user], input) && a.status == Active {
      } else if a.status == Active {
        FailuresAppend(t.audit, failed, user);
        JudgeIsRecording(policy, released.(audit := t.audit + [failed]), user, a, input.ip, began, now);
      } else {
        FailuresAppend(t.audit, failed, user);
        assert RecordFailure(policy, a, began, now) == a.(failures := a.failures + [began]);
      }
    }
  }

  /** No login changes another account or another account's failures. */
  lemma LoginLeavesOthersAlone(policy: Config, t: Tables, input: Input, began: int, now: int, other: UserId)
    requires policy.Valid() && other in t.accounts && Known(t, input.email) != Some(other)
    ensures var after := Authenticated(policy, t, input, began, now).0;
      other in after.accounts && AccountOf(after, other) == AccountOf(t, other)
  {
    var actor := Known(t, input.email);
    var failed := AuditEvent(actor, LoginFailed, input.ip, began);
    var locked := AuditEvent(actor, AccountLocked, input.ip, began);
    FailuresAppend(t.audit, failed, other);
    FailuresAppend(t.audit + [failed], locked, other);
  }

  class Service {
    const db: Database
    const policy: Config
    const mfa: Mfa.Service

    constructor (db: Database, policy: Config, mfa: Mfa.Service)
      ensures this.db == db && this.policy == policy && this.mfa == mfa
    {
      this.db, this.policy, this.mfa := db, policy, mfa;
    }

    /** The whole login: the transaction, then the lock event of a rejection or
        the challenge of an accepted password. */
    method Login(input: Input, began: int, now: int, faults: set<Call>, lockPublished: bool, run: Mfa.IssueRun) returns (result: SignIn)
      requires policy.Valid() && mfa.db == db && run.token !in db.challenges
      modifies db
      ensures result.SignInFailed? ==> db.Contents() == old(db.Contents()) && faults != {}
      ensures result.Rejected? ==>
                && !result.reason.ChallengeDue? && result.reason != Failed
                && (db.Contents(), result.reason) == Authenticated(policy, old(db.Contents()), input, began, now)
                && (result.lockPublished <==> (result.reason.InvalidCredentials? && result.reason.lock.NowLocked? ==> lockPublished))
      ensures result.ChallengeSent? || result.NotIssued? ==>
                var (t, checked) := Authenticated(policy, old(db.Contents()), input, began, now);
                && checked.ChallengeDue? && (result.NotIssued? ==> !result.issue.Issued?)
                && Mfa.Issues(t, db.Contents(), checked.user, run, if result.ChallengeSent? then Mfa.Issued(result.token) else result.issue)
    {
      var checked := WithinLoginTransaction(input, began, now, faults);
      match checked
      case Failed =>
        result := SignInFailed;
      case InvalidCredentials(lock) =>
        result := Rejected(checked, lock.Unlocked? || lockPublished);
      case AccountLockedOut =>
        result := Rejected(checked, true);
      case AddressLimited =>
        result := Rejected(checked, true);
      case ChallengeDue(user) =>
        assert db.challenges == old(db.challenges);
        var issued := mfa.Issue(user, run);
        result := if issued.Issued? then ChallengeSent(issued.token) else NotIssued(issued);
    }

    /** One login transaction. Whatever call fails, the database is as before. */
    method WithinLoginTransaction(input: Input, began: int, now: int, faults: set<Call>) returns (result: Result)
      requires policy.Valid()
      modifies db
      ensures result == Failed ==> db.Contents() == old(db.Contents()) && faults != {}
      ensures result != Failed ==>
                (db.Contents(), result) == Authenticated(policy, old(db.Contents()), input, began, now)
    {
      var saved := db.Contents();
      result := Authenticate(input, began, now, faults);
      if Commit in faults {
        result := Failed;
      }
      if result == Failed {
        db.Rollback(saved);
      }
    }

    method Authenticate(input: Input, began: int, now: int, faults: set<Call>) returns (result: Result)
      requires policy.Valid()
      modifies db
      ensures result == Failed ==> faults != {}
      ensures result != Failed ==>
                (db.Contents(), result) == Authenticated(policy, old(db.Contents()), input, began, now)
    {
      if input.ip.Some? {
        if CountByIp in faults {
          return Failed;
        }
        var failures := FailuresOfAddress(db.audit, input.ip.value, now - policy.failureWindow);
        if failures >= policy.ipMaxFailures {
          return AddressLimited;
        }
      }
      if GetLoginUser in faults {
        return Failed;
      }
      if input.email !in db.emails || db.emails[input.email] !in db.accounts {
        if VerifyPassword in faults {
          return Failed;
        }
        var recorded := db.InsertAuditEvent(AuditEvent(None, LoginFailed, input.ip, began), faults);
        return if recorded then InvalidCredentials(Unlocked) else Failed;
      }
      result := AuthenticateKnownUser(db.emails[input.email], input, began, now, faults);
    }

    method AuthenticateKnownUser(user: UserId, input: Input, began: int, now: int, faults: set<Call>) returns (result: Result)
      requires policy.Valid() && Known(db.Contents(), input.email) == Some(user)
      modifies db
      ensures result == Failed ==> faults != {}
      ensures result != Failed ==> (db.Contents(), result) == Admitted(policy, old(db.Contents()), input, began, now)
    {
      var locked, resolved := ResolveLock(user, now, faults);
      if !resolved {
        return Failed;
      }
      if locked {
        return AccountLockedOut;
      }
      if VerifyPassword in faults {
        return Failed;
      }
      if !PasswordMatches(db.accounts[user], input) || db.accounts[user].status != Active {
        result := RejectKnownUser(user, input, began, now, faults);
        return;
      }
      var ok := RehashIfNeeded(user, input.password, faults);
      return if ok then ChallengeDue(user) else Failed;
    }

    /** An outdated hash is replaced by one of the password just verified. */
    method RehashIfNeeded(user: UserId, password: string, faults: set<Call>) returns (ok: bool)
      requires user in db.accounts && db.accounts[user].password.password == password
      modifies db`accounts
      ensures !ok ==> faults != {}
      ensures ok ==> db.accounts == Rehashed(old(db.accounts), user)
    {
      if !db.accounts[user].password.outdated {
        return true;
      }
      if HashPassword in faults {
        return false;
      }
      ok := db.UpdatePasswordHash(user, PasswordHash(password, false), faults);
    }

    /** Releases an expired lock; a lock without an end stays. */
    method ResolveLock(user: UserId, now: int, faults: set<Call>) returns (locked: bool, ok: bool)
      requires user in db.accounts
      modifies db`accounts
      ensures !ok ==> faults != {}
      ensures ok ==> locked == StillLocked(old(db.accounts)[user], now)
      ensures ok ==> db.accounts == if locked then old(db.accounts) else WithoutLock(old(db.accounts), user)
      ensures user in db.accounts
    {
      var account := db.accounts[user];
      if account.status != Locked {
        return false, true;
      }
      if account.lockedUntil.None? || now < account.lockedUntil.value {
        return true, true;
      }
      ok := db.UnlockLoginUser(user, faults);
      locked := false;
    }

    method RejectKnownUser(user: UserId, input: Input, began: int, now: int, faults: set<Call>) returns (result: Result)
      requires policy.Valid() && user in db.accounts
      modifies db
      ensures result == Failed ==> faults != {}
      ensures result != Failed ==>
                var t := old(db.Contents());
                var recorded := t.(audit := t.audit + [AuditEvent(Some(user), LoginFailed, input.ip, began)]);
                && result.InvalidCredentials?
                && (db.Contents(), result.lock) ==
                   if t.accounts[user].status != Active then (recorded, Unlocked)
                   else Judge(policy, recorded, user, input.ip, began, now)
    {
      var ok := db.InsertAuditEvent(AuditEvent(Some(user), LoginFailed, input.ip, began), faults);
      if !ok {
        return Failed;
      }
      if db.accounts[user].status != Active {
        return InvalidCredentials(Unlocked);
      }
      var outcome := EvaluateAccount(policy, db, user, now, faults);
      if outcome.None? {
        return Failed;
      }
      if outcome.value.NowLocked? {
        ok := db.InsertAuditEvent(AuditEvent(Some(user), AccountLocked, input.ip, began), faults);
        if !ok {
          return Failed;
        }
      }
      return InvalidCredentials(outcome.value);
    }
  }
}
