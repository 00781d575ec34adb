/** The tables the sign-in services share, with the meaning each SQL statement
    gives to them (db/queries). Times are integers in microseconds, the
    resolution of timestamptz. */
module HubTables {
  import opened SlidingWindow

  const SECOND: int := 1_000_000
  const MINUTE: int := 60 * SECOND

  datatype Option<+T> = None | Some(value: T)

  type UserId = nat
  type Address = nat
  /** Raw random tokens; SHA-256 is taken to be injective, so a token stands for its hash. */
  type Token = nat
  type FamilyId = nat

  datatype Status = Pending | Active | Locked | Disabled

  /** A salted hash is known by the one password it verifies; outdated when its parameters are. */
  datatype PasswordHash = PasswordHash(password: string, outdated: bool)

  datatype Account = Account(status: Status, lockedUntil: Option<int>, lastLoginAt: Option<int>, password: PasswordHash)

  /** HMAC of a code keyed with the challenge token: injective in both parts. */
  datatype CodeHash = CodeHash(key: Token, code: string)

  /** One mfa_challenges row; its id and its token are both unique and stand for each other. */
  datatype Challenge = Challenge(
    user: UserId,
    code: CodeHash,
    createdAt: int,
    lastSentAt: int,
    expiresAt: int,
    attemptsLeft: nat,
    used: bool)

  datatype Session = Session(user: UserId, family: FamilyId)

  datatype Action =
    | LoginFailed
    | LoginSucceeded
    | MfaChallengeIssued
    | MfaCodeResent
    | MfaCodeRejected
    | MfaChallengeExhausted
    | MfaCodeAccepted
    | AccountLocked
    | PasswordResetCompleted

  /** The created_at column is the time the transaction began. */
  datatype AuditEvent = AuditEvent(actor: Option<UserId>, action: Action, ip: Option<Address>, at: int)

  datatype Tables = Tables(
    emails: map<string, UserId>,
    accounts: map<UserId, Account>,
    challenges: map<Token, Challenge>,
    refreshTokens: seq<Session>,
    hubSessions: seq<Session>,
    audit: seq<AuditEvent>)

  /** Everything a transaction calls that may fail. */
  datatype Call =
    | CountByIp | GetLoginUser | UnlockUser | VerifyPassword | HashPassword | UpdateHash
    | CountByAccount | LockUser
    | LockIssuance | CountChallenges | Supersede | CreateChallenge | DeleteChallenge
    | GetChallenge | ConsumeChallenge | RejectChallenge | ResendChallenge | RestoreResend
    | ListRoles | IssueToken | ReadRandom | ReadHubRandom | DrawCode
    | CreateRefreshToken | CreateHubSession | UpdateLastLogin
    | InsertAudit(action: Action)
    | Commit

  // --------------------------------------------------------------- audit_log

  predicate IsFailure(action: Action) {
    action == LoginFailed || action == MfaCodeRejected
  }

  /** The latest completed password reset of the account, if any. */
  function LastReset(audit: seq<AuditEvent>, user: UserId): Option<int> {
    if audit == [] then None
    else
      var earlier := LastReset(audit[..|audit| - 1], user);
      var e := audit[|audit| - 1];
      if e.actor == Some(user) && e.action == PasswordResetCompleted
         && (earlier.None? || earlier.value < e.at) then Some(e.at)
      else earlier
  }

  predicate CountsAgainst(e: AuditEvent, user: UserId, reset: Option<int>) {
    e.actor == Some(user) && IsFailure(e.action) && (reset.None? || reset.value < e.at)
  }

  /** The times of the failures that count against the account. */
  function FailureStamps(audit: seq<AuditEvent>, user: UserId, reset: Option<int>): seq<int> {
    if audit == [] then []
    else
      var e := audit[|audit| - 1];
      var earlier := FailureStamps(audit[..|audit| - 1], user, reset);
      if CountsAgainst(e, user, reset) then earlier + [e.at] else earlier
  }

  function Failures(audit: seq<AuditEvent>, user: UserId): seq<int> {
    FailureStamps(audit, user, LastReset(audit, user))
  }

  /** CountLoginFailuresByAccount. */
  function FailuresOfAccount(audit: seq<AuditEvent>, user: UserId, since: int): nat {
    CountSince(Failures(audit, user), since)
  }

  function StampsOfAddress(audit: seq<AuditEvent>, ip: Address): seq<int> {
    if audit == [] then []
    else
      var e := audit[|audit| - 1];
      var earlier := StampsOfAddress(audit[..|audit| - 1], ip);
      if e.ip == Some(ip) && IsFailure(e.action) then earlier + [e.at] else earlier
  }

  /** CountLoginFailuresByIP. */
  function FailuresOfAddress(audit: seq<AuditEvent>, ip: Address, since: int): nat {
    CountSince(StampsOfAddress(audit, ip), since)
  }

  lemma StampsOfAddressAppend(audit: seq<AuditEvent>, e: AuditEvent, ip: Address)
    ensures StampsOfAddress(audit + [e], ip)
         == if e.ip == Some(ip) && IsFailure(e.action) then StampsOfAddress(audit, ip) + [e.at] else StampsOfAddress(audit, ip)
  {
    assert (audit + [e])[..|audit|] == audit;
  }

  lemma FailuresAppend(audit: seq<AuditEvent>, e: AuditEvent, user: UserId)
    requires e.action != PasswordResetCompleted
    ensures Failures(audit + [e], user)
         == if CountsAgainst(e, user, LastReset(audit, user)) then Failures(audit, user) + [e.at]
            else Failures(audit, user)
  {
    assert (audit + [e])[..|audit|] == audit;
    assert LastReset(audit + [e], user) == LastReset(audit, user);
  }

  // ------------------------------------------------------------------- users

  /** LockLoginUser: an active account is locked until the given time, any other is left as it is. */
  function WithLock(accounts: map<UserId, Account>, user: UserId, until: int): map<UserId, Account> {
    if user in accounts && accounts[user].status == Active
    then accounts[user := accounts[user].(status := Locked, lockedUntil := Some(until))]
    else accounts
  }

  /** UnlockLoginUser: a locked account becomes active, without a lock end. */
  function WithoutLock(accounts: map<UserId, Account>, user: UserId): map<UserId, Account> {
    if user in accounts && accounts[user].status == Locked
    then accounts[user := accounts[user].(status := Active, lockedUntil := None)]
    else accounts
  }

  /** An outdated hash of the password just verified is replaced by a present one. */
  function Rehashed(accounts: map<UserId, Account>, user: UserId): map<UserId, Account> {
    if user in accounts && accounts[user].password.outdated
    then accounts[user := accounts[user].(password := PasswordHash(accounts[user].password.password, false))]
    else accounts
  }

  // ---------------------------------------------------------- mfa_challenges

  /** CountMfaChallengesSince, as the rows it counts: those of the account created from then on. */
  function IssuedSince(challenges: map<Token, Challenge>, user: UserId, since: int): set<Token> {
    set t | t in challenges && challenges[t].user == user && since <= challenges[t].createdAt
  }

  /** SupersedeOpenMfaChallenges: every challenge of the account is used from now on. */
  function Superseded(challenges: map<Token, Challenge>, user: UserId): map<Token, Challenge> {
    map t | t in challenges ::
      if challenges[t].user == user then challenges[t].(used := true) else challenges[t]
  }

  /** ConsumeMfaChallenge: the challenge is used, if it was not already. */
  function Consumed(c: Challenge): Challenge {
    c.(used := true)
  }

  /** RejectMfaChallenge: one attempt fewer, and used once none is left. */
  function Spent(c: Challenge): Challenge {
    if c.used || c.attemptsLeft == 0 then c
    else c.(attemptsLeft := c.attemptsLeft - 1, used := c.attemptsLeft == 1)
  }

  /** ResendMfaChallenge: only an open challenge takes the new code and send time. */
  function Resent(c: Challenge, code: CodeHash, sentAt: int): Challenge {
    if c.used then c else c.(code := code, lastSentAt := sentAt)
  }

  /** RestoreMfaChallengeAfterFailedResend: only while the row still holds exactly what the resend wrote. */
  predicate HoldsResend(c: Challenge, code: CodeHash, sentAt: int) {
    c.code == code && c.lastSentAt == sentAt && !c.used
  }

  function Restored(c: Challenge, code: CodeHash, sentAt: int, previousCode: CodeHash, previousSentAt: int): Challenge {
    if HoldsResend(c, code, sentAt) then c.(code := previousCode, lastSentAt := previousSentAt) else c
  }
}
