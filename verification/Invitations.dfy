/** Invitations: employee creation, resend and acceptance, and the bootstrap
    administrator across restarts whose publish and withdrawal may fail. */
module Invitations {
  import opened HubTables
  import opened RoleLists
  import opened Admin

  const INVITATION_TTL: int := 24 * 60 * MINUTE
  /** The operator's own organization, home of the bootstrap administrator. */
  const HUB_ORGANIZATION: Org := 0

  datatype Invitation = Invitation(user: UserId, expiresAt: int, used: bool)

  datatype InvitationAction = BootstrapCreated | BootstrapReissued | InvitationResent | InvitationAccepted
  datatype InvitationAudit = InvitationAudit(actor: Option<UserId>, action: InvitationAction, resource: UserId)

  datatype Accounts = Accounts(directory: Directory, tokens: map<Token, Invitation>, log: seq<InvitationAudit>)

  datatype Outcome =
    | BootstrapDisabled | AdminExists | EmailConflict | InvitationPending
    | Created(user: UserId) | Reissued(user: UserId)
    | Undelivered(user: UserId) | UndeliveredLive(user: UserId)
    | BootstrapFailed

  /** parses: the email is exactly one address of RFC 5322, as net/mail reads it; no organization when its id is nil. */
  datatype NewEmployee = NewEmployee(email: string, parses: bool, displayName: string, organization: Option<Org>, roles: seq<string>)
  datatype Field = EmailField | DisplayNameField | OrganizationField | RolesField

  /** The token as the invitee sends it: it may be white space, or no base64url text. */
  datatype SentToken = BlankToken | UndecodableToken | SentToken(token: Token)

  datatype HireResult = Employed | InvalidField(field: Field) | UnknownRole | EmailExists | UnknownOrganization | CrossOrganization | HireFailed
  datatype ResendResult = ResentOk | NotFound | AccountNotPending | ResendFailed
  datatype AcceptResult = Accepted | MissingToken | PasswordLength | TokenInvalid | AcceptFailed

  const PASSWORD_MIN: nat := 12
  const PASSWORD_MAX: nat := 128

  datatype InvitationCall =
    | LockBootstrap | FindAdmin | FindUser | FindRoles | FindLiveToken | InvalidateTokens | CreateToken | ConsumeToken
    | InsertUser | InsertRole | InsertAudit(action: InvitationAction) | HashPassword | Publish | CommitInvitation

  // ------------------------------------------------------------ statements

  predicate IsLive(i: Invitation, now: int) {
    !i.used && now < i.expiresAt
  }

  predicate HasLiveToken(tokens: map<Token, Invitation>, user: UserId, now: int) {
    exists k :: k in tokens && tokens[k].user == user && IsLive(tokens[k], now)
  }

  /** InvalidateInvitationTokens. */
  function Invalidated(tokens: map<Token, Invitation>, user: UserId): map<Token, Invitation> {
    map k | k in tokens :: if tokens[k].user == user then tokens[k].(used := true) else tokens[k]
  }

  function Invited(tokens: map<Token, Invitation>, user: UserId, token: Token, now: int): map<Token, Invitation> {
    tokens[token := Invitation(user, now + INVITATION_TTL, false)]
  }

  predicate IsPending(d: Directory, user: UserId) {
    user in d.users && d.users[user].status == Pending
  }

  predicate IsNonPendingAdmin(d: Directory, user: UserId) {
    user in d.users && d.users[user].status != Pending && "admin" in Admin.RolesOf(d, user)
  }

  predicate NonPendingAdminExists(d: Directory) {
    exists u :: u in d.users && IsNonPendingAdmin(d, u)
  }

  predicate HasEmail(d: Directory, user: UserId, email: string) {
    user in d.users && d.users[user].email == email
  }

  predicate EmailTaken(d: Directory, email: string) {
    exists u :: u in d.users && HasEmail(d, u, email)
  }

  /** existing is the account holding the email, if there is one. */
  predicate IsAccountOf(d: Directory, email: string, existing: Option<UserId>) {
    if existing.Some? then HasEmail(d, existing.value, email) else !EmailTaken(d, email)
  }

  /** Unicode white space. */
  predicate IsSpace(c: char) {
    c in " \t\n\r\U{0B}\U{0C}\U{85}\U{A0}\U{1680}\U{2028}\U{2029}\U{202F}\U{205F}\U{3000}" || '\U{2000}' <= c <= '\U{200A}'
  }

  predicate Blank(email: string) {
    forall i :: 0 <= i < |email| ==> IsSpace(email[i])
  }

  // -------------------------------------------- transactions, as functions

  function BootstrapRoles(): map<string, Option<UserId>> {
    map["user" := None, "admin" := None]
  }

  function AfterBootstrap(t: Accounts, email: string, id: UserId, token: Token, now: int): Accounts {
    Accounts(t.directory.(users := t.directory.users[id := User(email, Pending, HUB_ORGANIZATION, None)],
                          grants := t.directory.grants[id := BootstrapRoles()]),
             Invited(t.tokens, id, token, now),
             t.log + [InvitationAudit(None, BootstrapCreated, id)])
  }

  function AfterReissue(t: Accounts, actor: Option<UserId>, action: InvitationAction, user: UserId, token: Token, now: int): Accounts {
    t.(tokens := Invited(Invalidated(t.tokens, user), user, token, now), log := t.log + [InvitationAudit(actor, action, user)])
  }

  /** The decision taken under the bootstrap lock; existing is the account holding the email, if any. */
  function Ensure(t: Accounts, email: string, existing: Option<UserId>, id: UserId, token: Token, now: int): (Accounts, Outcome)
    requires existing.Some? ==> HasEmail(t.directory, existing.value, email)
  {
    if Blank(email) then (t, BootstrapDisabled)
    else if NonPendingAdminExists(t.directory) then (t, AdminExists)
    else
      match existing
      case None =>
        if HUB_ORGANIZATION !in t.directory.organizations then (t, BootstrapFailed)
        else (AfterBootstrap(t, email, id, token, now), Created(id))
      case Some(user) =>
        if !IsPending(t.directory, user) || "admin" !in Admin.RolesOf(t.directory, user) then (t, EmailConflict)
        else if HasLiveToken(t.tokens, user, now) then (t, InvitationPending)
        else (AfterReissue(t, None, BootstrapReissued, user, token, now), Reissued(user))
  }

  /** What a start leaves once its invitation is published or not, and if not, withdrawn or not. */
  function AfterPublish(t: Accounts, outcome: Outcome, published: bool, withdrawn: bool): (Accounts, Outcome) {
    if !(outcome.Created? || outcome.Reissued?) || published then (t, outcome)
    else if withdrawn then (t.(tokens := Invalidated(t.tokens, outcome.user)), Undelivered(outcome.user))
    else (t, UndeliveredLive(outcome.user))
  }

  /** The first field that is not acceptable, before any transaction. */
  function FirstInvalid(e: NewEmployee): Option<Field> {
    if |e.email| == 0 || 254 < |e.email| || !e.parses || '@' !in e.email then Some(EmailField)
    else if |e.displayName| < 1 || 100 < |e.displayName| then Some(DisplayNameField)
    else if e.organization.None? then Some(OrganizationField)
    else if e.roles == [] then Some(RolesField)
    else None
  }

  /** Creation of an employee account with its invitation; only the refusal of
      another company's role is kept, as an audit entry. */
  function Hired(catalogue: Catalogue, t: Accounts, actor: UserId, id: UserId, e: NewEmployee, token: Token, now: int): (Accounts, HireResult) {
    match FirstInvalid(e)
    case Some(field) => (t, InvalidField(field))
    case None =>
      if !({"user"} + Elements(e.roles) <= catalogue.Keys) then (t, UnknownRole)
      else if EmailTaken(t.directory, e.email) then (t, EmailExists)
      else if e.organization.value !in t.directory.organizations then (t, UnknownOrganization)
      else
        match Employ(catalogue, t.directory, actor, id, e.email, e.organization.value, e.roles)
        case None => (t.(directory := Audited(t.directory, actor, RoleAssignmentRejected(true), e.organization.value)), CrossOrganization)
        case Some(d) => (t.(directory := d, tokens := Invited(t.tokens, id, token, now)), Employed)
  }

  /** In the order the transaction meets them. */
  function Refusal(catalogue: Catalogue, d: Directory, email: string, org: Org, roles: set<string>): HireResult {
    if !(roles <= catalogue.Keys) then UnknownRole
    else if EmailTaken(d, email) then EmailExists
    else if org !in d.organizations then UnknownOrganization
    else if CrossesOrganizations(catalogue, org, roles) then CrossOrganization
    else Employed
  }

  function Reinvited(t: Accounts, actor: UserId, user: UserId, token: Token, now: int): (Accounts, ResendResult) {
    if user !in t.directory.users then (t, NotFound)
    else if t.directory.users[user].status != Pending then (t, AccountNotPending)
    else (AfterReissue(t, Some(actor), InvitationResent, user, token, now), ResentOk)
  }

  predicate Acceptable(t: Accounts, token: Token, now: int) {
    token in t.tokens && IsLive(t.tokens[token], now) && IsPending(t.directory, t.tokens[token].user)
  }

  /** ConsumeInvitationToken: the token is used and its account activated in one statement. */
  function AfterAcceptance(t: Accounts, token: Token): Accounts
    requires token in t.tokens && t.tokens[token].user in t.directory.users
  {
    var user := t.tokens[token].user;
    Accounts(t.directory.(users := t.directory.users[user := t.directory.users[user].(status := Active)]),
             t.tokens[token := t.tokens[token].(used := true)],
             t.log + [InvitationAudit(Some(user), InvitationAccepted, user)])
  }

  /** What the invitee is answered, and what the acceptance leaves. */
  function AcceptedOrRefused(t: Accounts, sent: SentToken, password: string, now: int): (Accounts, AcceptResult) {
    if sent.BlankToken? then (t, MissingToken)
    else if |password| < PASSWORD_MIN || PASSWORD_MAX < |password| then (t, PasswordLength)
    else if sent.UndecodableToken? || !Acceptable(t, sent.token, now) then (t, TokenInvalid)
    else (AfterAcceptance(t, sent.token), Accepted)
  }

  // --------------------------------------------------------------- whole runs

  datatype System = System(tables: Accounts, clock: int, drawn: set<Token>)

  /** A publish inside a transaction that fails leaves no step; a bootstrap
      publish that fails leaves a withdrawal step, or nothing if that fails too. */
  datatype Step =
    | Tick(to: int)
    | Start(email: string, existing: Option<UserId>, id: UserId, token: Token)
    | Withdraw(user: UserId)
    | Hire(actor: UserId, id: UserId, employee: NewEmployee, token: Token)
    | ResendInvitation(actor: UserId, user: UserId, token: Token)
    | Accept(accepted: Token)
    | Administer(input: UpdateInput)

  ghost predicate Enabled(s: System, step: Step) {
    var d := s.tables.directory;
    match step
    case Tick(to) => s.clock <= to
    case Start(email, existing, id, token) =>
      && token !in s.drawn && id !in d.users
      && IsAccountOf(d, email, existing)
    case Withdraw(_) => true
    case Hire(actor, id, _, token) => token !in s.drawn && id !in d.users && actor != id
    case ResendInvitation(_, _, token) => token !in s.drawn
    case Accept(_) => true
    case Administer(_) => true
  }

  function Apply(catalogue: Catalogue, s: System, step: Step): System
    requires step.Start? && step.existing.Some? ==> HasEmail(s.tables.directory, step.existing.value, step.email)
  {
    var t := s.tables;
    match step
    case Tick(to) => s.(clock := to)
    case Start(email, existing, id, token) =>
      s.(tables := Ensure(t, email, existing, id, token, s.clock).0, drawn := s.drawn + {token})
    case Withdraw(user) => s.(tables := t.(tokens := Invalidated(t.tokens, user)))
    case Hire(actor, id, employee, token) =>
      s.(tables := Hired(catalogue, t, actor, id, employee, token, s.clock).0, drawn := s.drawn + {token})
    case ResendInvitation(actor, user, token) =>
      s.(tables := Reinvited(t, actor, user, token, s.clock).0, drawn := s.drawn + {token})
    case Accept(token) =>
      if Acceptable(t, token, s.clock) then s.(tables := AfterAcceptance(t, token)) else s
    case Administer(input) => s.(tables := t.(directory := Update(catalogue, t.directory, input).0))
  }

  ghost predicate IsRun(catalogue: Catalogue, s: System, steps: seq<Step>)
    decreases |steps|
  {
    steps == [] || (Enabled(s, steps[0]) && IsRun(catalogue, Apply(catalogue, s, steps[0]), steps[1..]))
  }

  function Final(catalogue: Catalogue, s: System, steps: seq<Step>): System
    requires IsRun(catalogue, s, steps)
    decreases |steps|
  {
    if steps == [] then s else Final(catalogue, Apply(catalogue, s, steps[0]), steps[1..])
  }

  ghost predicate EmailsAreUnique(d: Directory) {
    forall u, v :: u in d.users && v in d.users && d.users[u].email == d.users[v].email ==> u == v
  }

  /** Not even an expired second token stays unused. */
  ghost predicate OneOpenToken(tokens: map<Token, Invitation>) {
    forall a, b :: a in tokens && b in tokens && tokens[a].user == tokens[b].user && !tokens[a].used && !tokens[b].used ==> a == b
  }

  ghost predicate TokensAreKnown(s: System) {
    s.tables.tokens.Keys <= s.drawn && forall k :: k in s.tables.tokens ==> s.tables.tokens[k].user in s.tables.directory.users
  }

  ghost predicate Inv(s: System) {
    EmailsAreUnique(s.tables.directory) && OneOpenToken(s.tables.tokens) && TokensAreKnown(s)
  }

  ghost predicate NothingOpen(tokens: map<Token, Invitation>, user: UserId) {
    forall k :: k in tokens && tokens[k].user == user ==> tokens[k].used
  }

  lemma InvitingKeepsOne(tokens: map<Token, Invitation>, user: UserId, token: Token, now: int)
    requires OneOpenToken(tokens) && NothingOpen(tokens, user)
    ensures OneOpenToken(Invited(tokens, user, token, now))
  {}

  lemma InvalidatingKeepsOne(tokens: map<Token, Invitation>, user: UserId)
    requires OneOpenToken(tokens)
    ensures OneOpenToken(Invalidated(tokens, user)) && NothingOpen(Invalidated(tokens, user), user)
  {}

  lemma NewAccountKeepsEmailsUnique(d: Directory, after: Directory, id: UserId, user: User)
    requires EmailsAreUnique(d) && id !in d.users && !EmailTaken(d, user.email)
    requires after.users == d.users[id := user]
    ensures EmailsAreUnique(after)
  {
    assert forall u :: u in d.users ==> !HasEmail(d, u, user.email);
  }

  lemma ReissueKeepsInv(s: System, actor: Option<UserId>, action: InvitationAction, user: UserId, token: Token)
    requires Inv(s) && user in s.tables.directory.users
    ensures Inv(s.(tables := AfterReissue(s.tables, actor, action, user, token, s.clock), drawn := s.drawn + {token}))
  {
    InvalidatingKeepsOne(s.tables.tokens, user);
    InvitingKeepsOne(Invalidated(s.tables.tokens, user), user, token, s.clock);
  }

  lemma NewAccountKeepsInv(s: System, after: Accounts, id: UserId, user: User, token: Token)
    requires Inv(s) && id !in s.tables.directory.users && !EmailTaken(s.tables.directory, user.email)
    requires after.directory.users == s.tables.directory.users[id := user]
    requires after.tokens == Invited(s.tables.tokens, id, token, s.clock)
    ensures Inv(s.(tables := after, drawn := s.drawn + {token}))
  {
    NewAccountKeepsEmailsUnique(s.tables.directory, after.directory, id, user);
    InvitingKeepsOne(s.tables.tokens, id, token, s.clock);
  }

  lemma CreatedIsNew(t: Accounts, email: string, existing: Option<UserId>, id: UserId, token: Token, now: int)
    requires IsAccountOf(t.directory, email, existing) && Ensure(t, email, existing, id, token, now).1.Created?
    ensures !EmailTaken(t.directory, email) && Ensure(t, email, existing, id, token, now).0 == AfterBootstrap(t, email, id, token, now)
  {}

  lemma ReissuedIsKnown(t: Accounts, email: string, existing: Option<UserId>, id: UserId, token: Token, now: int)
    requires IsAccountOf(t.directory, email, existing) && Ensure(t, email, existing, id, token, now).1.Reissued?
    ensures existing.Some? && existing.value in t.directory.users
    ensures Ensure(t, email, existing, id, token, now).0 == AfterReissue(t, None, BootstrapReissued, existing.value, token, now)
  {}

  lemma StartKeepsInv(catalogue: Catalogue, s: System, step: Step)
    requires Inv(s) && Enabled(s, step) && step.Start?
    ensures Inv(Apply(catalogue, s, step))
  {
    var t := s.tables;
    var outcome := Ensure(t, step.email, step.existing, step.id, step.token, s.clock).1;
    if outcome.Created? {
      CreatedIsNew(t, step.email, step.existing, step.id, step.token, s.clock);
      NewAccountKeepsInv(s, AfterBootstrap(t, step.email, step.id, step.token, s.clock), step.id,
                         User(step.email, Pending, HUB_ORGANIZATION, None), step.token);
    } else if outcome.Reissued? {
      ReissuedIsKnown(t, step.email, step.existing, step.id, step.token, s.clock);
      ReissueKeepsInv(s, None, BootstrapReissued, step.existing.value, step.token);
    }
  }

  lemma AcceptKeepsInv(s: System, token: Token)
    requires Inv(s) && Acceptable(s.tables, token, s.clock)
    ensures Inv(s.(tables := AfterAcceptance(s.tables, token)))
  {}

  lemma AdministerKeepsInv(catalogue: Catalogue, s: System, input: UpdateInput)
    requires Inv(s)
    ensures Inv(s.(tables := s.tables.(directory := Update(catalogue, s.tables.directory, input).0)))
  {
    var d := s.tables.directory;
    if Accepts(catalogue, d, input, |ActiveAdmins(d)|) {
      AcceptedIsWritten(catalogue, d, input, |ActiveAdmins(d)|);
    } else {
      RefusedIsUnwritten(catalogue, d, input, |ActiveAdmins(d)|);
    }
  }

  lemma StepKeepsInv(catalogue: Catalogue, s: System, step: Step)
    requires Inv(s) && Enabled(s, step)
    ensures Inv(Apply(catalogue, s, step))
  {
    var t := s.tables;
    match step
    case Tick(_) =>
    case Start(_, _, _, _) => StartKeepsInv(catalogue, s, step);
    case Withdraw(user) => InvalidatingKeepsOne(t.tokens, user);
    case Hire(actor, id, e, token) =>
      var (after, result) := Hired(catalogue, t, actor, id, e, token, s.clock);
      if result.Employed? {
        NewAccountKeepsInv(s, after, id, User(e.email, Pending, e.organization.value, None), token);
      }
    case ResendInvitation(actor, user, token) =>
      if IsPending(t.directory, user) {
        ReissueKeepsInv(s, Some(actor), InvitationResent, user, token);
      }
    case Accept(token) =>
      if Acceptable(t, token, s.clock) {
        AcceptKeepsInv(s, token);
      }
    case Administer(input) => AdministerKeepsInv(catalogue, s, input);
  }

  /** Over every run each account has at most one invitation that is not used
      up, and no email has two accounts. */
  lemma {:induction false} OneInvitationPerAccount(catalogue: Catalogue, s: System, steps: seq<Step>)
    requires Inv(s) && IsRun(catalogue, s, steps)
    ensures Inv(Final(catalogue, s, steps))
    decreases |steps|
  {
    if steps != [] {
      StepKeepsInv(catalogue, s, steps[0]);
      OneInvitationPerAccount(catalogue, Apply(catalogue, s, steps[0]), steps[1..]);
    }
  }

  /** An update that leaves no administrator but pending ones: the only other one,
      locked or disabled, loses the role or is set to pending. */
  predicate Reopens(catalogue: Catalogue, d: Directory, input: UpdateInput) {
    && Accepts(catalogue, d, input, |ActiveAdmins(d)|)
    && (forall u :: u in d.users && IsNonPendingAdmin(d, u) ==> u == input.target)
    && d.users[input.target].status != Active
    && (NewStatus(d, input) == Pending || "admin" !in NewRoles(d, input))
  }

  lemma OnlyAdminIsNotRemoved(catalogue: Catalogue, d: Directory, input: UpdateInput)
    requires Accepts(catalogue, d, input, |ActiveAdmins(d)|) && IsActiveAdmin(d, input.target)
    requires forall u :: u in d.users && IsNonPendingAdmin(d, u) ==> u == input.target
    ensures NewStatus(d, input) != Pending && "admin" in NewRoles(d, input)
  {
    assert ActiveAdmins(d) == {input.target};
  }

  /** Account administration closes the bootstrap's way back exactly unless it
      makes such an update; the source's decision is on any non-pending administrator. */
  lemma UpdateReopensIff(catalogue: Catalogue, d: Directory, input: UpdateInput)
    requires NonPendingAdminExists(d)
    ensures !NonPendingAdminExists(Update(catalogue, d, input).0) <==> Reopens(catalogue, d, input)
  {
    var admins := |ActiveAdmins(d)|;
    var after := Update(catalogue, d, input).0;
    if !Accepts(catalogue, d, input, admins) {
      RefusedIsUnwritten(catalogue, d, input, admins);
      var u :| u in d.users && IsNonPendingAdmin(d, u);
      assert IsNonPendingAdmin(after, u);
    } else {
      AcceptedIsWritten(catalogue, d, input, admins);
      OthersKeepRoles(catalogue, d, input, admins);
      assert forall u :: u != input.target ==> (IsNonPendingAdmin(after, u) <==> IsNonPendingAdmin(d, u));
      assert IsNonPendingAdmin(after, input.target) <==> NewStatus(d, input) != Pending && "admin" in NewRoles(d, input);
      if u :| u in d.users && IsNonPendingAdmin(d, u) && u != input.target {
        assert IsNonPendingAdmin(after, u);
      } else if IsActiveAdmin(d, input.target) {
        OnlyAdminIsNotRemoved(catalogue, d, input);
      }
    }
  }

  /** Right after an update, a start with an unused email creates a bootstrap
      account exactly when the update was such a one. */
  lemma StartCreatesAgainIff(catalogue: Catalogue, t: Accounts, input: UpdateInput, email: string, id: UserId, token: Token, now: int)
    requires NonPendingAdminExists(t.directory) && HUB_ORGANIZATION in t.directory.organizations
    requires !Blank(email) && !EmailTaken(t.directory, email)
    ensures var updated := t.(directory := Update(catalogue, t.directory, input).0);
      Ensure(updated, email, None, id, token, now).1 == if Reopens(catalogue, t.directory, input) then Created(id) else AdminExists
  {
    UpdateReopensIff(catalogue, t.directory, input);
    if Accepts(catalogue, t.directory, input, |ActiveAdmins(t.directory)|) {
      AcceptedIsWritten(catalogue, t.directory, input, |ActiveAdmins(t.directory)|);
    } else {
      RefusedIsUnwritten(catalogue, t.directory, input, |ActiveAdmins(t.directory)|);
    }
  }

  /** No update of the run reopens. */
  ghost predicate NeverReopens(catalogue: Catalogue, s: System, steps: seq<Step>)
    requires IsRun(catalogue, s, steps)
    decreases |steps|
  {
    steps == [] ||
    (&& (steps[0].Administer? ==> !Reopens(catalogue, s.tables.directory, steps[0].input))
     && NeverReopens(catalogue, Apply(catalogue, s, steps[0]), steps[1..]))
  }

  /** Steps other than an update keep every administrator beyond pending. */
  lemma OtherStepsKeepAdmins(catalogue: Catalogue, s: System, step: Step, u: UserId)
    requires Enabled(s, step) && !step.Administer? && IsNonPendingAdmin(s.tables.directory, u)
    ensures var d, d' := s.tables.directory, Apply(catalogue, s, step).tables.directory;
      IsNonPendingAdmin(d', u) && (IsActiveAdmin(d, u) ==> IsActiveAdmin(d', u))
  {}

  lemma StepKeepsNonPendingAdmin(catalogue: Catalogue, s: System, step: Step)
    requires Enabled(s, step) && NonPendingAdminExists(s.tables.directory)
    requires step.Administer? ==> !Reopens(catalogue, s.tables.directory, step.input)
    ensures NonPendingAdminExists(Apply(catalogue, s, step).tables.directory)
  {
    if step.Administer? {
      UpdateReopensIff(catalogue, s.tables.directory, step.input);
    } else {
      var u :| u in s.tables.directory.users && IsNonPendingAdmin(s.tables.directory, u);
      OtherStepsKeepAdmins(catalogue, s, step, u);
    }
  }

  /** Once an administrator beyond a pending one exists, no later start of any
      run creates or reissues a bootstrap account, unless an update reopens. */
  lemma {:induction false} NoBootstrapOnceAdminExists(catalogue: Catalogue, s: System, steps: seq<Step>,
      email: string, existing: Option<UserId>, id: UserId, token: Token)
    requires NonPendingAdminExists(s.tables.directory) && IsRun(catalogue, s, steps) && NeverReopens(catalogue, s, steps)
    requires Enabled(Final(catalogue, s, steps), Start(email, existing, id, token))
    ensures var last := Final(catalogue, s, steps);
      Ensure(last.tables, email, existing, id, token, last.clock) == (last.tables, if Blank(email) then BootstrapDisabled else AdminExists)
    decreases |steps|
  {
    if steps != [] {
      StepKeepsNonPendingAdmin(catalogue, s, steps[0]);
      NoBootstrapOnceAdminExists(catalogue, Apply(catalogue, s, steps[0]), steps[1..], email, existing, id, token);
    }
  }

  lemma StepKeepsActiveAdmin(catalogue: Catalogue, s: System, step: Step)
    requires Enabled(s, step) && ActiveAdmins(s.tables.directory) != {}
    ensures ActiveAdmins(Apply(catalogue, s, step).tables.directory) != {}
  {
    var d, d' := s.tables.directory, Apply(catalogue, s, step).tables.directory;
    if step.Administer? {
      UpdateKeepsAnAdmin(catalogue, d, step.input);
    } else {
      var u :| u in ActiveAdmins(d);
      OtherStepsKeepAdmins(catalogue, s, step, u);
      assert u in ActiveAdmins(d');
    }
  }

  /** While an administrator is active no update of any run reopens. */
  lemma {:induction false} ActiveAdminNeverReopens(catalogue: Catalogue, s: System, steps: seq<Step>)
    requires ActiveAdmins(s.tables.directory) != {} && IsRun(catalogue, s, steps)
    ensures NonPendingAdminExists(s.tables.directory) && NeverReopens(catalogue, s, steps)
    decreases |steps|
  {
    var u :| u in ActiveAdmins(s.tables.directory);
    assert IsNonPendingAdmin(s.tables.directory, u);
    if steps != [] {
      StepKeepsActiveAdmin(catalogue, s, steps[0]);
      ActiveAdminNeverReopens(catalogue, Apply(catalogue, s, steps[0]), steps[1..]);
    }
  }

  /** A start that issued an invitation whose publish failed: the next start
      reissues at once exactly when the withdrawal committed, and otherwise
      waits until the undelivered invitation expires. */
  lemma NextStartReissuesIffWithdrawn(t: Accounts, email: string, existing: Option<UserId>, id: UserId, token: Token, now: int,
                                      withdrawn: bool, nextId: UserId, nextToken: Token, later: int)
    requires existing.Some? ==> HasEmail(t.directory, existing.value, email)
    requires id !in t.directory.users && token !in t.tokens
    requires Ensure(t, email, existing, id, token, now).1.Created? || Ensure(t, email, existing, id, token, now).1.Reissued?
    requires forall k :: k in t.tokens ==> t.tokens[k].user in t.directory.users
    ensures var (issued, outcome) := Ensure(t, email, existing, id, token, now);
      var (left, reported) := AfterPublish(issued, outcome, false, withdrawn);
      && reported == (if withdrawn then Undelivered(outcome.user) else UndeliveredLive(outcome.user))
      && HasEmail(left.directory, outcome.user, email)
      && Ensure(left, email, Some(outcome.user), nextId, nextToken, later).1
         == if withdrawn || now + INVITATION_TTL <= later then Reissued(outcome.user) else InvitationPending
  {
    var (issued, outcome) := Ensure(t, email, existing, id, token, now);
    var user := outcome.user;
    var left := AfterPublish(issued, outcome, false, withdrawn).0;
    assert !NonPendingAdminExists(left.directory) by {
      if u :| u in left.directory.users && IsNonPendingAdmin(left.directory, u) {
        assert u in t.directory.users && IsNonPendingAdmin(t.directory, u);
      }
    }
    if !withdrawn {
      assert left.tokens[token] == Invitation(user, now + INVITATION_TTL, false);
      assert IsLive(left.tokens[token], later) <==> later < now + INVITATION_TTL;
      assert forall k :: k in left.tokens && k != token && left.tokens[k].user == user ==> left.tokens[k].used;
    }
  }

  /** The step is no update that sets the account to pending. */
  predicate LeavesActivated(step: Step, user: UserId) {
    step.Administer? && step.input.target == user ==> step.input.status != Some("pending_verification")
  }

  predicate IsActivated(d: Directory, user: UserId) {
    user in d.users && d.users[user].status != Pending
  }

  lemma StepKeepsActivated(catalogue: Catalogue, s: System, step: Step, user: UserId)
    requires Enabled(s, step) && LeavesActivated(step, user) && IsActivated(s.tables.directory, user)
    ensures IsActivated(Apply(catalogue, s, step).tables.directory, user)
  {
    if step.Administer? {
      var d, input := s.tables.directory, step.input;
      if Accepts(catalogue, d, input, |ActiveAdmins(d)|) {
        AcceptedIsWritten(catalogue, d, input, |ActiveAdmins(d)|);
      } else {
        RefusedIsUnwritten(catalogue, d, input, |ActiveAdmins(d)|);
      }
    }
  }

  lemma {:induction false} RunKeepsActivated(catalogue: Catalogue, s: System, steps: seq<Step>, user: UserId)
    requires IsRun(catalogue, s, steps) && IsActivated(s.tables.directory, user)
    requires forall k :: 0 <= k < |steps| ==> LeavesActivated(steps[k], user)
    ensures IsActivated(Final(catalogue, s, steps).tables.directory, user)
    decreases |steps|
  {
    if steps != [] {
      StepKeepsActivated(catalogue, s, steps[0], user);
      RunKeepsActivated(catalogue, Apply(catalogue, s, steps[0]), steps[1..], user);
    }
  }

  /** After an acceptance, over every run in which nobody sets the account back
      to pending, no invitation of that account can be accepted, old or new. */
  lemma AcceptanceIsFinal(catalogue: Catalogue, s: System, token: Token, steps: seq<Step>, other: Token, later: int)
    requires Acceptable(s.tables, token, s.clock) && IsRun(catalogue, Apply(catalogue, s, Accept(token)), steps)
    requires forall k :: 0 <= k < |steps| ==> LeavesActivated(steps[k], s.tables.tokens[token].user)
    ensures var t := Final(catalogue, Apply(catalogue, s, Accept(token)), steps).tables;
      other in t.tokens && t.tokens[other].user == s.tables.tokens[token].user ==> !Acceptable(t, other, later)
  {
    RunKeepsActivated(catalogue, Apply(catalogue, s, Accept(token)), steps, s.tables.tokens[token].user);
  }

  /** An accepted update to pending, and a resend, make a new invitation acceptable again. */
  lemma PendingAgainIsAcceptableAgain(catalogue: Catalogue, t: Accounts, input: UpdateInput, actor: UserId, token: Token, now: int)
    requires Accepts(catalogue, t.directory, input, |ActiveAdmins(t.directory)|) && input.status == Some("pending_verification")
    ensures var again := Reinvited(t.(directory := Update(catalogue, t.directory, input).0), actor, input.target, token, now).0;
      Acceptable(again, token, now)
  {
    AcceptedIsWritten(catalogue, t.directory, input, |ActiveAdmins(t.directory)|);
  }

  // ------------------------------------------------------------- the service

  class InvitationService {
    const directory: AdminService
    var tokens: map<Token, Invitation>
    var log: seq<InvitationAudit>

    constructor (directory: AdminService, tokens: map<Token, Invitation>, log: seq<InvitationAudit>)
      ensures this.directory == directory && this.tokens == tokens && this.log == log
    {
      this.directory, this.tokens, this.log := directory, tokens, log;
    }

    function Contents(): Accounts
      reads this, directory
    {
      Accounts(directory.Contents(), tokens, log)
    }

    method Rollback(saved: Accounts)
      requires saved.directory.organizations == directory.organizations
      modifies this, directory
      ensures Contents() == saved
    {
      directory.users, directory.grants, directory.audit := saved.directory.users, saved.directory.grants, saved.directory.audit;
      tokens, log := saved.tokens, saved.log;
    }

    method InvalidateInvitationTokens(user: UserId)
      modifies this`tokens
      ensures tokens == Invalidated(old(tokens), user)
    {
      tokens := map k | k in tokens :: if tokens[k].user == user then tokens[k].(used := true) else tokens[k];
    }

    /** A new token and its audit entry. */
    method Invite(actor: Option<UserId>, action: InvitationAction, user: UserId, token: Token, now: int, faults: set<InvitationCall>) returns (ok: bool)
      modifies this
      ensures !ok ==> faults != {}
      ensures ok ==> tokens == Invited(old(tokens), user, token, now) && log == old(log) + [InvitationAudit(actor, action, user)]
    {
      if CreateToken in faults {
        return false;
      }
      tokens := tokens[token := Invitation(user, now + INVITATION_TTL, false)];
      if InvitationCall.InsertAudit(action) in faults {
        return false;
      }
      log := log + [InvitationAudit(actor, action, user)];
      return true;
    }

    method GetUserByEmail(email: string) returns (existing: Option<UserId>)
      ensures IsAccountOf(directory.Contents(), email, existing)
    {
      var d := directory.Contents();
      if u :| u in d.users && HasEmail(d, u, email) {
        return Some(u);
      }
      return None;
    }

    /** The locked bootstrap decision; whatever call fails, nothing changes. */
    method EnsureWithinTransaction(email: string, id: UserId, token: Token, now: int, faults: set<InvitationCall>)
      returns (outcome: Outcome, existing: Option<UserId>)
      requires !Blank(email)
      modifies this, directory
      ensures IsAccountOf(old(directory.Contents()), email, existing)
      ensures outcome.BootstrapFailed? ==>
                Contents() == old(Contents()) && (faults != {} || HUB_ORGANIZATION !in directory.organizations)
      ensures !outcome.BootstrapFailed? ==> (Contents(), outcome) == Ensure(old(Contents()), email, existing, id, token, now)
    {
      var saved := Contents();
      existing := GetUserByEmail(email);
      if LockBootstrap in faults || FindAdmin in faults || CommitInvitation in faults {
        return BootstrapFailed, existing;
      }
      if NonPendingAdminExists(directory.Contents()) {
        return AdminExists, existing;
      }
      if FindUser in faults {
        return BootstrapFailed, existing;
      }
      if existing.Some? {
        outcome := ReissueIfPending(existing.value, token, now, faults);
      } else {
        outcome := CreateBootstrapAdmin(email, id, token, now, faults);
      }
      if outcome.BootstrapFailed? {
        Rollback(saved);
      }
    }

    method ReissueIfPending(user: UserId, token: Token, now: int, faults: set<InvitationCall>) returns (outcome: Outcome)
      requires user in directory.users
      modifies this
      ensures outcome.BootstrapFailed? ==> faults != {}
      ensures !outcome.BootstrapFailed? ==>
                var t := old(Contents());
                (Contents(), outcome) ==
                if !IsPending(t.directory, user) || "admin" !in Admin.RolesOf(t.directory, user) then (t, EmailConflict)
                else if HasLiveToken(t.tokens, user, now) then (t, InvitationPending)
                else (AfterReissue(t, None, BootstrapReissued, user, token, now), Reissued(user))
    {
      if directory.users[user].status != Pending {
        return EmailConflict;
      }
      if FindRoles in faults {
        return BootstrapFailed;
      }
      var roles := directory.ListRolesForUser(user);
      var isAdmin := HasRole(roles, "admin");
      assert isAdmin == ("admin" in Elements(roles));
      if !isAdmin {
        return EmailConflict;
      }
      if FindLiveToken in faults {
        return BootstrapFailed;
      }
      if HasLiveToken(tokens, user, now) {
        return InvitationPending;
      }
      if InvalidateTokens in faults {
        return BootstrapFailed;
      }
      InvalidateInvitationTokens(user);
      var ok := Invite(None, BootstrapReissued, user, token, now, faults);
      return if ok then Reissued(user) else BootstrapFailed;
    }

    method AddBootstrapRoles(id: UserId, faults: set<InvitationCall>) returns (ok: bool)
      requires id in directory.grants && directory.grants[id] == map[]
      modifies directory`grants
      ensures !ok ==> faults != {}
      ensures ok ==> directory.grants == old(directory.grants)[id := BootstrapRoles()]
    {
      var names := ["user", "admin"];
      for i := 0 to |names|
        invariant id in directory.grants && directory.grants == old(directory.grants)[id := directory.grants[id]]
        invariant directory.grants[id] == map r | r in Elements(names[..i]) :: None
      {
        if InsertRole in faults {
          return false;
        }
        assert Elements(names[..i + 1]) == Elements(names[..i]) + {names[i]};
        directory.grants := directory.grants[id := directory.grants[id][names[i] := None]];
      }
      assert names[..|names|] == names && Elements(names) == {"user", "admin"};
      assert directory.grants[id] == BootstrapRoles();
      return true;
    }

    method CreateBootstrapAdmin(email: string, id: UserId, token: Token, now: int, faults: set<InvitationCall>) returns (outcome: Outcome)
      modifies this, directory
      ensures outcome.BootstrapFailed? ==> faults != {} || HUB_ORGANIZATION !in directory.organizations
      ensures !outcome.BootstrapFailed? ==>
                && HUB_ORGANIZATION in directory.organizations && outcome == Created(id)
                && Contents() == AfterBootstrap(old(Contents()), email, id, token, now)
    {
      if InsertUser in faults || HUB_ORGANIZATION !in directory.organizations {
        return BootstrapFailed;
      }
      directory.users := directory.users[id := User(email, Pending, HUB_ORGANIZATION, None)];
      directory.grants := directory.grants[id := map[]];
      var ok := AddBootstrapRoles(id, faults);
      if !ok {
        return BootstrapFailed;
      }
      assert directory.grants == old(directory.grants)[id := BootstrapRoles()];
      ok := Invite(None, BootstrapCreated, id, token, now, faults);
      return if ok then Created(id) else BootstrapFailed;
    }

    /** After commit, outside the lock: publish, and on failure withdraw the invitation in its own transaction. */
    method PublishAfterCommit(decided: Outcome, published: bool, withdrawFaults: set<InvitationCall>) returns (outcome: Outcome)
      requires decided.Created? || decided.Reissued?
      modifies this
      ensures exists withdrawn :: (withdrawFaults == {} ==> withdrawn)
                && (Contents(), outcome) == AfterPublish(old(Contents()), decided, published, withdrawn)
    {
      if published {
        assert (Contents(), decided) == AfterPublish(old(Contents()), decided, published, true);
        return decided;
      }
      if LockBootstrap in withdrawFaults || InvalidateTokens in withdrawFaults || CommitInvitation in withdrawFaults {
        assert (Contents(), UndeliveredLive(decided.user)) == AfterPublish(old(Contents()), decided, published, false);
        return UndeliveredLive(decided.user);
      }
      InvalidateInvitationTokens(decided.user);
      assert (Contents(), Undelivered(decided.user)) == AfterPublish(old(Contents()), decided, published, true);
      return Undelivered(decided.user);
    }

    /** validate: the first invalid field, or the roles of the account. */
    method Validate(e: NewEmployee) returns (invalid: Option<Field>, final: seq<string>)
      ensures invalid == FirstInvalid(e)
      ensures invalid.None? ==> NoRepeats(final) && Elements(final) == {"user"} + Elements(e.roles)
    {
      final := [];
      if |e.email| == 0 || |e.email| > 254 {
        return Some(EmailField), final;
      }
      if !e.parses || '@' !in e.email {
        return Some(EmailField), final;
      }
      if |e.displayName| < 1 || |e.displayName| > 100 {
        return Some(DisplayNameField), final;
      }
      if e.organization.None? {
        return Some(OrganizationField), final;
      }
      if |e.roles| == 0 {
        return Some(RolesField), final;
      }
      final := FinalRoles(e.roles);
      DeduplicatedIsTheSetInOrder(["user"] + e.roles);
      assert Elements(["user"] + e.roles) == {"user"} + Elements(e.roles);
      return None, final;
    }

    /** Published inside the transaction: a failed publish leaves no account. */
    method CreateEmployee(actor: UserId, id: UserId, e: NewEmployee, token: Token, now: int,
                          faults: set<InvitationCall>, directoryFaults: set<AdminCall>) returns (result: HireResult)
      modifies this, directory
      ensures result.HireFailed? ==> Contents() == old(Contents()) && (faults != {} || directoryFaults != {})
      ensures !result.HireFailed? ==>
                (Contents(), result) == Hired(directory.catalogue, old(Contents()), actor, id, e, token, now)
    {
      var invalid, final := Validate(e);
      if invalid.Some? {
        return InvalidField(invalid.value);
      }
      if InvitationCall.HashPassword in faults {
        return HireFailed;
      }
      var saved := Contents();
      result := CreateWithinTransaction(actor, id, e.email, e.organization.value, final, token, now, faults, directoryFaults);
      if !result.Employed? {
        Rollback(saved);
      }
      if result.CrossOrganization? {
        var audited := directory.InsertAuditEvent(actor, RoleAssignmentRejected(true), e.organization.value, directoryFaults);
        if !audited {
          result := HireFailed;
        }
      }
    }

    method CreateWithinTransaction(actor: UserId, id: UserId, email: string, org: Org, final: seq<string>, token: Token, now: int,
                                   faults: set<InvitationCall>, directoryFaults: set<AdminCall>) returns (result: HireResult)
      requires NoRepeats(final)
      modifies this, directory
      ensures result in {Employed, UnknownRole, EmailExists, UnknownOrganization, CrossOrganization, HireFailed}
      ensures result.HireFailed? ==> faults != {} || directoryFaults != {}
      ensures !result.HireFailed? ==> result == Refusal(directory.catalogue, old(directory.Contents()), email, org, Elements(final))
      ensures result.Employed? ==>
                var d := old(directory.Contents());
                && directory.Contents() == Audited(d.(users := d.users[id := User(email, Pending, org, None)],
                                                      grants := d.grants[id := GrantedBy(actor, Elements(final))]), actor, EmployeeCreated, id)
                && tokens == Invited(old(tokens), id, token, now) && log == old(log)
    {
      if ValidateRoles in directoryFaults {
        return HireFailed;
      }
      var found := directory.ValidateRoleNames(final);
      LengthsDecideExistence(final, found, directory.catalogue.Keys);
      if |found| != |final| {
        return UnknownRole;
      }
      if InsertUser in faults {
        return HireFailed;
      }
      if EmailTaken(directory.Contents(), email) {
        return EmailExists;
      }
      if org !in directory.organizations {
        return UnknownOrganization;
      }
      result := WriteEmployee(actor, id, User(email, Pending, org, None), final, directoryFaults);
      if !result.Employed? {
        return;
      }
      if CreateToken in faults {
        return HireFailed;
      }
      tokens := tokens[token := Invitation(id, now + INVITATION_TTL, false)];
      var ok := directory.InsertAuditEvent(actor, EmployeeCreated, id, directoryFaults);
      return if !ok || Publish in faults || CommitInvitation in faults then HireFailed else Employed;
    }

    method WriteEmployee(actor: UserId, id: UserId, user: User, final: seq<string>, directoryFaults: set<AdminCall>) returns (result: HireResult)
      requires Elements(final) <= directory.catalogue.Keys
      modifies directory
      ensures result in {Employed, CrossOrganization, HireFailed}
      ensures result.HireFailed? ==> directoryFaults != {}
      ensures result.CrossOrganization? ==> CrossesOrganizations(directory.catalogue, user.org, Elements(final))
      ensures result.Employed? ==>
                && !CrossesOrganizations(directory.catalogue, user.org, Elements(final))
                && directory.users == old(directory.users)[id := user] && directory.audit == old(directory.audit)
                && directory.grants == old(directory.grants)[id := GrantedBy(actor, Elements(final))]
    {
      directory.users := directory.users[id := user];
      directory.grants := directory.grants[id := map[]];
      var ok, crossed := directory.AddUserRoles(id, final, actor, directoryFaults);
      return if crossed then CrossOrganization else if ok then Employed else HireFailed;
    }

    method ResendInvitation(actor: UserId, user: UserId, token: Token, now: int, faults: set<InvitationCall>) returns (result: ResendResult)
      modifies this, directory
      ensures result.ResendFailed? ==> Contents() == old(Contents()) && faults != {}
      ensures !result.ResendFailed? ==> (Contents(), result) == Reinvited(old(Contents()), actor, user, token, now)
    {
      if FindUser in faults {
        return ResendFailed;
      }
      if user !in directory.users {
        return NotFound;
      }
      if directory.users[user].status != Pending {
        return AccountNotPending;
      }
      if InvalidateTokens in faults {
        return ResendFailed;
      }
      var saved := Contents();
      InvalidateInvitationTokens(user);
      var ok := Invite(Some(actor), InvitationResent, user, token, now, faults);
      if !ok || Publish in faults || CommitInvitation in faults {
        Rollback(saved);
        return ResendFailed;
      }
      return ResentOk;
    }

    /** The cheap read before hashing decides nothing that consumption does not decide again. */
    method AcceptInvitation(sent: SentToken, password: string, read: int, now: int, faults: set<InvitationCall>) returns (result: AcceptResult)
      requires read <= now
      modifies this, directory
      ensures result.AcceptFailed? ==> Contents() == old(Contents()) && faults != {}
      ensures !result.AcceptFailed? ==> (Contents(), result) == AcceptedOrRefused(old(Contents()), sent, password, now)
    {
      if sent.BlankToken? {
        return MissingToken;
      }
      if |password| < PASSWORD_MIN || |password| > PASSWORD_MAX {
        return PasswordLength;
      }
      if sent.UndecodableToken? {
        return TokenInvalid;
      }
      if FindLiveToken in faults {
        return AcceptFailed;
      }
      if sent.token !in tokens || !IsLive(tokens[sent.token], read) {
        return TokenInvalid;
      }
      if InvitationCall.HashPassword in faults {
        return AcceptFailed;
      }
      result := ConsumeAndPublish(sent.token, now, faults);
    }

    method ConsumeAndPublish(token: Token, now: int, faults: set<InvitationCall>) returns (result: AcceptResult)
      modifies this, directory
      ensures result in {Accepted, TokenInvalid, AcceptFailed}
      ensures result.AcceptFailed? ==> Contents() == old(Contents()) && faults != {}
      ensures result.TokenInvalid? ==> Contents() == old(Contents()) && !Acceptable(old(Contents()), token, now)
      ensures result.Accepted? ==> Acceptable(old(Contents()), token, now) && Contents() == AfterAcceptance(old(Contents()), token)
    {
      if ConsumeToken in faults {
        return AcceptFailed;
      }
      if token !in tokens || !IsLive(tokens[token], now) {
        return TokenInvalid;
      }
      var user := tokens[token].user;
      if user !in directory.users || directory.users[user].status != Pending {
        return TokenInvalid;
      }
      var saved := Contents();
      tokens := tokens[token := tokens[token].(used := true)];
      directory.users := directory.users[user := directory.users[user].(status := Active)];
      log := log + [InvitationAudit(Some(user), InvitationAccepted, user)];
      if InvitationCall.InsertAudit(InvitationAccepted) in faults || Publish in faults || CommitInvitation in faults {
        Rollback(saved);
        return AcceptFailed;
      }
      return Accepted;
    }
  }
}
