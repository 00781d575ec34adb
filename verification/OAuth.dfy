/** Authorization codes with PKCE (RFC 6749 section 4.1, RFC 7636): issued after
    an access check, exchanged at most once, for the party they are bound to. */
module OAuth {
  import opened HubTables

  type Org = nat
  /** A raw random code; its hash is injective, so the row is keyed by the code. */
  type Code = nat

  const CODE_TTL: int := MINUTE
  const PKCE_MIN_LENGTH: nat := 43
  const PKCE_MAX_LENGTH: nat := 128

  /** The S256 challenge of a verifier, or any other text. SHA-256 and base64url are injective. */
  datatype CodeChallenge = S256(verifier: string) | OtherText(text: string)

  datatype Client = Client(redirectUri: string, org: Org)

  /** Companies of users and applications, and the application roles users hold. */
  datatype Directory = Directory(
    userOrg: map<UserId, Org>,
    applications: map<string, Client>,
    roles: map<(UserId, string), set<string>>,
    permissions: map<string, map<string, set<string>>>)

  datatype StoredCode = StoredCode(
    user: UserId, client: string, redirectUri: string,
    challenge: CodeChallenge, expiresAt: int, used: bool)

  datatype Rejection = OrganizationMismatch | NoApplicationRole
  datatype OAuthAction = AuthorizationRejected(reason: Rejection) | CodeIssued | CodeExchanged | CodeReused
  datatype OAuthAudit = OAuthAudit(actor: UserId, action: OAuthAction)

  datatype OAuthTables = OAuthTables(directory: Directory, codes: map<Code, StoredCode>, audit: seq<OAuthAudit>)

  datatype OAuthCall =
    | GetAccess | ReadCode | CreateCode | GetCode | GetOwner | MarkUsed
    | ListApplicationRoles | ListPermissions | AuditCall(action: OAuthAction) | CommitCall

  datatype AuthorizeInput = AuthorizeInput(
    client: string, redirectUri: string, responseType: string, state: string,
    challenge: CodeChallenge, challengeMethod: string)

  datatype AuthorizeResult =
    | Authorized(code: Code, expiresAt: int)
    | InvalidClient | InvalidRequest
    | Refused(reason: Rejection)
    | AuthorizeFailed

  /** Code is None when its text is empty or does not decode. */
  datatype ExchangeInput = ExchangeInput(code: Option<Code>, client: string, redirectUri: string, verifier: string)

  datatype ExchangeResult =
    | Exchanged(user: UserId, client: string, roles: set<string>, permissions: set<string>)
    | CodeInvalid
    | ExchangeFailed

  // ----------------------------------------------------------- pure checks

  predicate PkceChar(c: char, extra: string) {
    'A' <= c <= 'Z' || 'a' <= c <= 'z' || '0' <= c <= '9' || c in extra
  }

  predicate ValidPkce(text: string, extra: string) {
    PKCE_MIN_LENGTH <= |text| <= PKCE_MAX_LENGTH && forall i :: 0 <= i < |text| ==> PkceChar(text[i], extra)
  }

  predicate ValidChallenge(challenge: CodeChallenge) {
    challenge.S256? || ValidPkce(challenge.text, "-_")
  }

  predicate ValidVerifier(verifier: string) {
    ValidPkce(verifier, "-._~")
  }

  predicate TrustedClient(clients: map<string, Client>, client: string, redirectUri: string) {
    client in clients && redirectUri == clients[client].redirectUri
  }

  predicate ValidRequest(input: AuthorizeInput) {
    input.responseType == "code" && input.state != "" && ValidChallenge(input.challenge) && input.challengeMethod == "S256"
  }

  predicate SameOrg(d: Directory, user: UserId, client: string) {
    user in d.userOrg && client in d.applications && d.userOrg[user] == d.applications[client].org
  }

  function RolesOf(d: Directory, user: UserId, client: string): set<string> {
    if (user, client) in d.roles then d.roles[(user, client)] else {}
  }

  function PermissionsOf(d: Directory, roles: set<string>, client: string): set<string> {
    if client !in d.permissions then {}
    else set r, p | r in roles && r in d.permissions[client] && p in d.permissions[client][r] :: p
  }

  /** The user holds a role of the application, in the application's own company. */
  predicate Entitled(d: Directory, user: UserId, client: string) {
    SameOrg(d, user, client) && RolesOf(d, user, client) != {}
  }

  // ------------------------------------------------------ exchange, as a function

  predicate ValidExchange(clients: map<string, Client>, input: ExchangeInput) {
    TrustedClient(clients, input.client, input.redirectUri) && input.code.Some? && input.verifier != ""
  }

  predicate Live(codes: map<Code, StoredCode>, code: Code, now: int) {
    code in codes && !codes[code].used && now < codes[code].expiresAt
  }

  /** The presented client, redirect URI and verifier are those the code is bound to. */
  predicate BoundTo(c: StoredCode, input: ExchangeInput) {
    c.client == input.client && c.redirectUri == input.redirectUri && c.challenge == S256(input.verifier)
  }

  function Exchange(clients: map<string, Client>, t: OAuthTables, input: ExchangeInput, now: int): (OAuthTables, ExchangeResult) {
    if !ValidExchange(clients, input) then (t, CodeInvalid)
    else
      var code := input.code.value;
      if Live(t.codes, code, now) then
        var c := t.codes[code];
        if !BoundTo(c, input) then (t, CodeInvalid)
        else
          var roles := RolesOf(t.directory, c.user, input.client);
          (t.(codes := t.codes[code := c.(used := true)], audit := t.audit + [OAuthAudit(c.user, CodeExchanged)]),
           Exchanged(c.user, input.client, roles, PermissionsOf(t.directory, roles, input.client)))
      else if code in t.codes && t.codes[code].used then
        (t.(audit := t.audit + [OAuthAudit(t.codes[code].user, CodeReused)]), CodeInvalid)
      else (t, CodeInvalid)
  }

  /** PurgeAuthorizationCodes. */
  function Purged(codes: map<Code, StoredCode>, now: int): map<Code, StoredCode> {
    map k | k in codes && now < codes[k].expiresAt && !codes[k].used :: codes[k]
  }

  /** A code is burnt exactly by an attempt that yields a result: whatever else
      is tried first, the rightful exchange still succeeds, with the same result. */
  lemma OnlySuccessBurnsCode(clients: map<string, Client>, t: OAuthTables, other: ExchangeInput, earlier: int,
                             right: ExchangeInput, now: int)
    requires Exchange(clients, t, right, now).1.Exchanged?
    ensures var (after, outcome) := Exchange(clients, t, other, earlier);
      && (outcome.Exchanged? && other.code == right.code ==>
            Exchange(clients, after, right, now).1 == CodeInvalid
            && Exchange(clients, after, right, now).0.audit
               == after.audit + [OAuthAudit(t.codes[right.code.value].user, CodeReused)])
      && (!(outcome.Exchanged? && other.code == right.code) ==>
            Exchange(clients, after, right, now).1 == Exchange(clients, t, right, now).1)
  {}

  // ------------------------------------------------------------- the service

  class OAuthService {
    const clients: map<string, Client>
    var directory: Directory
    var codes: map<Code, StoredCode>
    var audit: seq<OAuthAudit>

    constructor (clients: map<string, Client>, directory: Directory)
      ensures this.clients == clients && Contents() == OAuthTables(directory, map[], [])
    {
      this.clients, this.directory := clients, directory;
      codes, audit := map[], [];
    }

    function Contents(): OAuthTables
      reads this
    {
      OAuthTables(directory, codes, audit)
    }

    method InsertAuditEvent(event: OAuthAudit, faults: set<OAuthCall>) returns (ok: bool)
      modifies this`audit
      ensures ok == (AuditCall(event.action) !in faults)
      ensures audit == if ok then old(audit) + [event] else old(audit)
    {
      ok := AuditCall(event.action) !in faults;
      if ok {
        audit := audit + [event];
      }
    }

    /** Refuses, with an audit event, a user of another company or without a role. */
    method CheckAccess(user: UserId, client: string, faults: set<OAuthCall>) returns (refusal: Option<Rejection>, ok: bool)
      modifies this`audit
      ensures !ok ==> audit == old(audit) && (faults != {} || user !in directory.userOrg || client !in directory.applications)
      ensures ok && user in directory.userOrg && client in directory.applications ==>
                (refusal.None? <==> Entitled(directory, user, client))
      ensures ok && refusal.None? ==> Entitled(directory, user, client) && audit == old(audit)
      ensures ok && refusal.Some? ==>
                && (refusal.value == OrganizationMismatch <==> !SameOrg(directory, user, client))
                && audit == old(audit) + [OAuthAudit(user, AuthorizationRejected(refusal.value))]
    {
      // No row when the user or the application is unknown: an error, not a refusal.
      if GetAccess in faults || user !in directory.userOrg || client !in directory.applications {
        return None, false;
      }
      var reason := OrganizationMismatch;
      if directory.userOrg[user] == directory.applications[client].org {
        if RolesOf(directory, user, client) != {} {
          return None, true;
        }
        reason := NoApplicationRole;
      }
      ok := InsertAuditEvent(OAuthAudit(user, AuthorizationRejected(reason)), faults);
      return Some(reason), ok;
    }

    /** Authorize is not one transaction: a code whose audit fails stays stored, but is never returned. */
    method Authorize(user: UserId, input: AuthorizeInput, drawn: Code, now: int, faults: set<OAuthCall>)
      returns (result: AuthorizeResult)
      requires drawn !in codes
      modifies this`codes, this`audit
      ensures result.InvalidClient? ==>
                && Contents() == old(Contents())
                && (TrustedClient(clients, input.client, input.redirectUri) ==>
                      input.client in directory.applications && directory.applications[input.client].redirectUri != input.redirectUri)
      ensures result.InvalidRequest? ==> Contents() == old(Contents()) && !ValidRequest(input)
      ensures result.AuthorizeFailed? ==> faults != {} || user !in directory.userOrg || input.client !in directory.applications
      ensures result.Refused? ==>
                && !Entitled(directory, user, input.client) && codes == old(codes)
                && audit == old(audit) + [OAuthAudit(user, AuthorizationRejected(result.reason))]
      ensures codes != old(codes) ==>
                && TrustedClient(clients, input.client, input.redirectUri) && ValidRequest(input)
                && Entitled(directory, user, input.client)
                && codes == old(codes)[drawn := StoredCode(user, input.client, input.redirectUri, input.challenge, now + CODE_TTL, false)]
      ensures result.Authorized? ==>
                && result == Authorized(drawn, now + CODE_TTL) && drawn in codes
                && audit == old(audit) + [OAuthAudit(user, CodeIssued)]
    {
      if !TrustedClient(clients, input.client, input.redirectUri) {
        return InvalidClient;
      }
      if !ValidRequest(input) {
        return InvalidRequest;
      }
      var client := clients[input.client];
      var refusal, ok := CheckAccess(user, input.client, faults);
      if !ok {
        return AuthorizeFailed;
      }
      if refusal.Some? {
        return Refused(refusal.value);
      }
      if ReadCode in faults || CreateCode in faults {
        return AuthorizeFailed;
      }
      // The code is inserted only while the application still has this redirect URI.
      if directory.applications[input.client].redirectUri != client.redirectUri {
        return InvalidClient;
      }
      codes := codes[drawn := StoredCode(user, input.client, client.redirectUri, input.challenge, now + CODE_TTL, false)];
      ok := InsertAuditEvent(OAuthAudit(user, CodeIssued), faults);
      return if ok then Authorized(drawn, now + CODE_TTL) else AuthorizeFailed;
    }

    /** One transaction: an infrastructure failure leaves the code available. */
    method ExchangeCode(input: ExchangeInput, now: int, faults: set<OAuthCall>) returns (result: ExchangeResult)
      modifies this`codes, this`audit
      ensures result.ExchangeFailed? ==> Contents() == old(Contents()) && faults != {}
      ensures !result.ExchangeFailed? ==> (Contents(), result) == Exchange(clients, old(Contents()), input, now)
    {
      if !TrustedClient(clients, input.client, input.redirectUri) || input.code.None? || input.verifier == "" {
        return CodeInvalid;
      }
      var savedCodes, savedAudit := codes, audit;
      result := ExchangeWithinTransaction(input.code.value, input, now, faults);
      if CommitCall in faults {
        result := ExchangeFailed;
      }
      if result.ExchangeFailed? {
        codes, audit := savedCodes, savedAudit;
      }
    }

    method ExchangeWithinTransaction(code: Code, input: ExchangeInput, now: int, faults: set<OAuthCall>)
      returns (result: ExchangeResult)
      requires ValidExchange(clients, input) && input.code == Some(code)
      modifies this`codes, this`audit
      ensures result.ExchangeFailed? ==> faults != {}
      ensures !result.ExchangeFailed? ==> (Contents(), result) == Exchange(clients, old(Contents()), input, now)
    {
      if GetCode in faults {
        return ExchangeFailed;
      }
      if code !in codes || codes[code].used || codes[code].expiresAt <= now {
        if GetOwner in faults {
          return ExchangeFailed;
        }
        if code in codes && codes[code].used {
          var ok := InsertAuditEvent(OAuthAudit(codes[code].user, CodeReused), faults);
          return if ok then CodeInvalid else ExchangeFailed;
        }
        return CodeInvalid;
      }
      var row := codes[code];
      if row.client != input.client || row.redirectUri != input.redirectUri || row.challenge != S256(input.verifier) {
        return CodeInvalid;
      }
      if MarkUsed in faults {
        return ExchangeFailed;
      }
      codes := codes[code := row.(used := true)];
      if ListApplicationRoles in faults {
        return ExchangeFailed;
      }
      var roles := RolesOf(directory, row.user, input.client);
      var ok := InsertAuditEvent(OAuthAudit(row.user, CodeExchanged), faults);
      if !ok || ListPermissions in faults {
        return ExchangeFailed;
      }
      return Exchanged(row.user, input.client, roles, PermissionsOf(directory, roles, input.client));
    }
  }

  // --------------------------------------------------------------- whole runs

  /** An access check that passed, with the directory it read. */
  datatype Grant = Grant(user: UserId, input: AuthorizeInput, seen: Directory)

  /** A code handed out under a grant at a given clock reading. */
  datatype Issue = Issue(code: Code, grant: Grant, at: int)

  /** A result that was returned, and the attempt that got it. */
  datatype Yield = Yield(input: ExchangeInput, user: UserId, at: int)

  datatype System = System(
    clients: map<string, Client>, tables: OAuthTables, clock: int,
    grants: set<Grant>, issues: seq<Issue>, results: seq<Yield>)

  /** Access check and insertion are separate statements; the directory may change in between. */
  datatype Step =
    | Tick(to: int)
    | ChangeDirectory(directory: Directory)
    | Check(user: UserId, request: AuthorizeInput)
    | Insert(grant: Grant, code: Code, now: int)
    | Attempt(attempt: ExchangeInput, reading: int)
    | Purge

  ghost predicate Enabled(s: System, step: Step) {
    match step
    case Tick(to) => s.clock <= to
    case ChangeDirectory(_) => true
    case Check(user, input) =>
      TrustedClient(s.clients, input.client, input.redirectUri) && ValidRequest(input)
      && Entitled(s.tables.directory, user, input.client)
    case Insert(grant, code, now) =>
      grant in s.grants && now <= s.clock && forall i :: 0 <= i < |s.issues| ==> s.issues[i].code != code
    case Attempt(_, reading) => reading <= s.clock
    case Purge => true
  }

  function Row(issue: Issue): StoredCode {
    StoredCode(issue.grant.user, issue.grant.input.client, issue.grant.input.redirectUri,
               issue.grant.input.challenge, issue.at + CODE_TTL, false)
  }

  function Apply(s: System, step: Step): System {
    match step
    case Tick(to) => s.(clock := to)
    case ChangeDirectory(d) => s.(tables := s.tables.(directory := d))
    case Check(user, input) => s.(grants := s.grants + {Grant(user, input, s.tables.directory)})
    case Insert(grant, code, now) =>
      var issue := Issue(code, grant, now);
      s.(tables := s.tables.(codes := s.tables.codes[code := Row(issue)]), issues := s.issues + [issue])
    case Attempt(input, reading) =>
      var (after, result) := Exchange(s.clients, s.tables, input, reading);
      s.(tables := after,
         results := if result.Exchanged? then s.results + [Yield(input, result.user, reading)] else s.results)
    case Purge => s.(tables := s.tables.(codes := Purged(s.tables.codes, s.clock)))
  }

  ghost predicate IsRun(s: System, steps: seq<Step>)
    decreases |steps|
  {
    steps == [] || (Enabled(s, steps[0]) && IsRun(Apply(s, steps[0]), steps[1..]))
  }

  function Final(s: System, steps: seq<Step>): System
    decreases |steps|
  {
    if steps == [] then s else Final(Apply(s, steps[0]), steps[1..])
  }

  function Start(clients: map<string, Client>, directory: Directory, clock: int): System {
    System(clients, OAuthTables(directory, map[], []), clock, {}, [], [])
  }

  /** A result is rightful: for the user, client, redirect URI and verifier the
      code was issued for, within sixty seconds of the reading it was issued at. */
  predicate Rightful(y: Yield, issue: Issue) {
    && y.input.code == Some(issue.code) && y.user == issue.grant.user
    && y.at < issue.at + CODE_TTL
    && y.input.client == issue.grant.input.client
    && y.input.redirectUri == issue.grant.input.redirectUri
    && S256(y.input.verifier) == issue.grant.input.challenge
  }

  /** The row was inserted by one of these issues. */
  ghost predicate IssuedAs(issues: seq<Issue>, code: Code, row: StoredCode) {
    exists i :: 0 <= i < |issues| && issues[i].code == code && row.(used := false) == Row(issues[i])
  }

  ghost predicate WasIssued(issues: seq<Issue>, code: Code) {
    exists i :: 0 <= i < |issues| && issues[i].code == code
  }

  ghost predicate HasRightfulIssue(issues: seq<Issue>, y: Yield) {
    exists i :: 0 <= i < |issues| && Rightful(y, issues[i])
  }

  ghost predicate IssuesAreEntitled(s: System) {
    && (forall g :: g in s.grants ==> Entitled(g.seen, g.user, g.input.client))
    && (forall i :: 0 <= i < |s.issues| ==> s.issues[i].grant in s.grants)
  }

  ghost predicate CodesAreIssued(s: System) {
    forall k :: k in s.tables.codes ==> IssuedAs(s.issues, k, s.tables.codes[k])
  }

  ghost predicate ResultsAreRightful(s: System) {
    forall y :: 0 <= y < |s.results| ==> HasRightfulIssue(s.issues, s.results[y])
  }

  /** A code that gave its result is issued, and gone or marked used. */
  ghost predicate ResultsAreSpent(s: System) {
    forall y :: 0 <= y < |s.results| ==>
      && s.results[y].input.code.Some?
      && var code := s.results[y].input.code.value;
         && WasIssued(s.issues, code)
         && (code in s.tables.codes ==> s.tables.codes[code].used)
  }

  ghost predicate OneResultPerCode(s: System) {
    forall i, j :: 0 <= i < j < |s.results| ==> s.results[i].input.code != s.results[j].input.code
  }

  ghost predicate Inv(s: System) {
    IssuesAreEntitled(s) && CodesAreIssued(s) && ResultsAreRightful(s) && ResultsAreSpent(s) && OneResultPerCode(s)
  }

  /** Issues are only added, so what was issued stays issued. */
  lemma IssuesGrow(issues: seq<Issue>, issue: Issue, code: Code, row: StoredCode, y: Yield)
    ensures IssuedAs(issues, code, row) ==> IssuedAs(issues + [issue], code, row)
    ensures WasIssued(issues, code) ==> WasIssued(issues + [issue], code)
    ensures HasRightfulIssue(issues, y) ==> HasRightfulIssue(issues + [issue], y)
  {
    var more := issues + [issue];
    assert forall i :: 0 <= i < |issues| ==> more[i] == issues[i];
    if IssuedAs(issues, code, row) {
      var i :| 0 <= i < |issues| && issues[i].code == code && row.(used := false) == Row(issues[i]);
      assert more[i] == issues[i];
    }
    if WasIssued(issues, code) {
      var i :| 0 <= i < |issues| && issues[i].code == code;
      assert more[i] == issues[i];
    }
    if HasRightfulIssue(issues, y) {
      var i :| 0 <= i < |issues| && Rightful(y, issues[i]);
      assert more[i] == issues[i];
    }
  }

  lemma InsertKeepsInv(s: System, s': System, issue: Issue)
    requires Inv(s) && issue.grant in s.grants && !WasIssued(s.issues, issue.code)
    requires s'.issues == s.issues + [issue] && s'.grants == s.grants && s'.results == s.results
    requires s'.tables.codes == s.tables.codes[issue.code := Row(issue)]
    ensures Inv(s')
  {
    var anyYield := Yield(ExchangeInput(None, "", "", ""), 0, 0);
    assert CodesAreIssued(s') by {
      assert s'.issues[|s.issues|] == issue;
      assert IssuedAs(s'.issues, issue.code, Row(issue));
      forall k | k in s'.tables.codes ensures IssuedAs(s'.issues, k, s'.tables.codes[k]) {
        if k != issue.code {
          IssuesGrow(s.issues, issue, k, s.tables.codes[k], anyYield);
        }
      }
    }
    forall y | 0 <= y < |s.results|
      ensures HasRightfulIssue(s'.issues, s.results[y])
      ensures WasIssued(s'.issues, s.results[y].input.code.value)
    {
      IssuesGrow(s.issues, issue, s.results[y].input.code.value, Row(issue), s.results[y]);
    }
  }

  lemma MarkingUsedKeepsIssued(s: System, s': System, code: Code)
    requires CodesAreIssued(s) && code in s.tables.codes
    requires s'.issues == s.issues && s'.tables.codes == s.tables.codes[code := s.tables.codes[code].(used := true)]
    ensures CodesAreIssued(s')
  {
    forall k | k in s'.tables.codes ensures IssuedAs(s'.issues, k, s'.tables.codes[k]) {
      assert IssuedAs(s.issues, k, s.tables.codes[k]);
      UsedIsStillIssued(s.issues, k, s.tables.codes[k]);
    }
  }

  lemma LiveCodeGaveNoResult(s: System, s': System, y: Yield, code: Code)
    requires ResultsAreSpent(s) && OneResultPerCode(s) && code in s.tables.codes && !s.tables.codes[code].used
    requires s'.issues == s.issues && s'.results == s.results + [y] && y.input.code == Some(code) && WasIssued(s.issues, code)
    requires s'.tables.codes == s.tables.codes[code := s.tables.codes[code].(used := true)]
    ensures ResultsAreSpent(s') && OneResultPerCode(s')
  {}

  /** One more result: a live code is marked used, and nothing else moves. */
  lemma SuccessKeepsInv(s: System, s': System, y: Yield, code: Code, i: nat)
    requires Inv(s) && code in s.tables.codes && !s.tables.codes[code].used
    requires s'.issues == s.issues && s'.grants == s.grants && s'.results == s.results + [y]
    requires s'.tables.codes == s.tables.codes[code := s.tables.codes[code].(used := true)]
    requires i < |s.issues| && s.issues[i].code == code && y.input.code == Some(code) && Rightful(y, s.issues[i])
    ensures Inv(s')
  {
    MarkingUsedKeepsIssued(s, s', code);
    assert WasIssued(s.issues, code) && HasRightfulIssue(s.issues, y);
    LiveCodeGaveNoResult(s, s', y, code);
  }

  lemma UsedIsStillIssued(issues: seq<Issue>, code: Code, row: StoredCode)
    requires IssuedAs(issues, code, row)
    ensures IssuedAs(issues, code, row.(used := true))
  {
    var i :| 0 <= i < |issues| && issues[i].code == code && row.(used := false) == Row(issues[i]);
    assert row.(used := true).(used := false) == Row(issues[i]);
  }

  /** A successful exchange is rightful for the issue its code came from. */
  lemma SuccessIsRightful(s: System, input: ExchangeInput, reading: int, i: nat)
    requires Exchange(s.clients, s.tables, input, reading).1.Exchanged?
    requires i < |s.issues| && s.issues[i].code == input.code.value
    requires s.tables.codes[input.code.value].(used := false) == Row(s.issues[i])
    ensures Rightful(Yield(input, s.tables.codes[input.code.value].user, reading), s.issues[i])
  {}

  lemma AttemptKeepsInv(s: System, s': System, input: ExchangeInput, reading: int)
    requires Inv(s) && s' == Apply(s, Attempt(input, reading))
    ensures Inv(s')
  {
    if Exchange(s.clients, s.tables, input, reading).1.Exchanged? {
      var code := input.code.value;
      assert IssuedAs(s.issues, code, s.tables.codes[code]);
      var i :| 0 <= i < |s.issues| && s.issues[i].code == code && s.tables.codes[code].(used := false) == Row(s.issues[i]);
      SuccessIsRightful(s, input, reading, i);
      SuccessKeepsInv(s, s', Yield(input, s.tables.codes[code].user, reading), code, i);
    }
  }

  lemma StepKeepsInv(s: System, step: Step)
    requires Inv(s) && Enabled(s, step)
    ensures Inv(Apply(s, step))
  {
    match step
    case Insert(grant, code, now) => InsertKeepsInv(s, Apply(s, step), Issue(code, grant, now));
    case Attempt(input, reading) => AttemptKeepsInv(s, Apply(s, step), input, reading);
    case _ =>
  }

  lemma {:induction false} RunKeepsInv(s: System, steps: seq<Step>)
    requires Inv(s) && IsRun(s, steps)
    ensures Inv(Final(s, steps))
    decreases |steps|
  {
    if steps != [] {
      StepKeepsInv(s, steps[0]);
      RunKeepsInv(Apply(s, steps[0]), steps[1..]);
    }
  }

  /** Over every run of checks, insertions, attempts, directory changes and
      purges: each code yields at most one result, and every result is rightful. */
  lemma EachCodeYieldsAtMostOnce(clients: map<string, Client>, directory: Directory, clock: int, steps: seq<Step>)
    requires IsRun(Start(clients, directory, clock), steps)
    ensures var s := Final(Start(clients, directory, clock), steps);
      && OneResultPerCode(s)
      && (forall y :: 0 <= y < |s.results| ==> HasRightfulIssue(s.issues, s.results[y]))
      && (forall i :: 0 <= i < |s.issues| ==>
            Entitled(s.issues[i].grant.seen, s.issues[i].grant.user, s.issues[i].grant.input.client))
  {
    RunKeepsInv(Start(clients, directory, clock), steps);
  }
}
