/** User administration: status changes, role replacement and account creation,
    and what they can never take from the system. */
module Admin {
  import opened HubTables
  import opened RoleLists

  type Org = nat

  datatype User = User(email: string, status: Status, org: Org, lockedUntil: Option<int>)

  datatype AdminAction =
    | RoleAssignmentRejected(organizationMismatch: bool)
    | UserDisabled
    | RoleChanged
    | EmployeeCreated
  datatype AdminAudit = AdminAudit(actor: UserId, action: AdminAction, resource: UserId)

  /** grants: for each account its roles and who granted each (None: the bootstrap). */
  datatype Directory = Directory(
    organizations: set<Org>,
    users: map<UserId, User>,
    grants: map<UserId, map<string, Option<UserId>>>,
    audit: seq<AdminAudit>)

  /** Every role with the organization owning its application; directory roles have none. */
  type Catalogue = map<string, Option<Org>>

  datatype UpdateInput = UpdateInput(actor: UserId, target: UserId, status: Option<string>, roles: Option<seq<string>>)

  datatype UpdateResult =
    | Updated(status: Status, roles: set<string>)
    | SelfRoleAssignment | InvalidStatus | SelfDisable
    | InvalidRole | BaseRoleRequired | UserNotFound | LastActiveAdmin | CrossOrganizationRole
    | UpdateFailed

  datatype AdminCall =
    | ValidateRoles | LockAdmins | GetUser | ListRoles | UpdateStatus | DeleteRoles | AddRole
    | CreateUser | AuditCall(action: AdminAction) | CommitCall

  function ParseStatus(text: string): Option<Status> {
    if text == "pending_verification" then Some(Pending)
    else if text == "active" then Some(Active)
    else if text == "locked" then Some(Locked)
    else if text == "disabled" then Some(Disabled)
    else None
  }

  function RolesOf(d: Directory, user: UserId): set<string> {
    if user in d.grants then d.grants[user].Keys else {}
  }

  predicate IsActiveAdmin(d: Directory, user: UserId) {
    user in d.users && d.users[user].status == Active && "admin" in RolesOf(d, user)
  }

  function ActiveAdmins(d: Directory): set<UserId> {
    set u | u in d.users && IsActiveAdmin(d, u)
  }

  predicate OwnedElsewhere(catalogue: Catalogue, org: Org, role: string) {
    role in catalogue && catalogue[role].Some? && catalogue[role].value != org
  }

  /** The IH001 rejection of the database: a role of another company's application. */
  predicate CrossesOrganizations(catalogue: Catalogue, org: Org, roles: set<string>) {
    exists r :: r in roles && OwnedElsewhere(catalogue, org, r)
  }

  function GrantedBy(actor: UserId, roles: set<string>): map<string, Option<UserId>> {
    map r | r in roles :: Some(actor)
  }

  function Audited(d: Directory, actor: UserId, action: AdminAction, resource: UserId): Directory {
    d.(audit := d.audit + [AdminAudit(actor, action, resource)])
  }

  /** What is refused before any transaction on the target, if anything. */
  function Precheck(input: UpdateInput): Option<UpdateResult> {
    if input.roles.Some? && input.actor == input.target then Some(SelfRoleAssignment)
    else if input.status.Some? && ParseStatus(input.status.value).None? then Some(InvalidStatus)
    else if input.status == Some("disabled") && input.actor == input.target then Some(SelfDisable)
    else None
  }

  function NewStatus(d: Directory, input: UpdateInput): Status
    requires Precheck(input).None? && input.target in d.users
  {
    if input.status.Some? then ParseStatus(input.status.value).value else d.users[input.target].status
  }

  function NewRoles(d: Directory, input: UpdateInput): set<string> {
    if input.roles.Some? then Elements(input.roles.value) else RolesOf(d, input.target)
  }

  /** Every status change clears the lock end: a manual lock has none. */
  function WithStatus(user: User, status: Status): User {
    if status == user.status then user else user.(status := status, lockedUntil := None)
  }

  /** The update takes an active administrator out of the active administrators. */
  predicate RemovesActiveAdmin(d: Directory, input: UpdateInput)
    requires Precheck(input).None? && input.target in d.users
  {
    IsActiveAdmin(d, input.target) && (NewStatus(d, input) != Active || "admin" !in NewRoles(d, input))
  }

  predicate NamesItsRoles(catalogue: Catalogue, input: UpdateInput) {
    input.roles.Some? ==> Elements(input.roles.value) <= catalogue.Keys && "user" in input.roles.value
  }

  /** Exactly when an update is carried out, for an administrator count of admins. */
  predicate Accepts(catalogue: Catalogue, d: Directory, input: UpdateInput, admins: nat) {
    && Precheck(input).None? && NamesItsRoles(catalogue, input) && input.target in d.users
    && (RemovesActiveAdmin(d, input) ==> 1 < admins)
    && (NewRoles(d, input) != RolesOf(d, input.target) ==> !CrossesOrganizations(catalogue, d.users[input.target].org, NewRoles(d, input)))
  }

  /** The transaction, with the number of active administrators it counted. */
  function UpdateInTransaction(catalogue: Catalogue, d: Directory, input: UpdateInput, admins: nat): (Directory, UpdateResult)
    requires Precheck(input).None?
  {
    if input.roles.Some? && !(Elements(input.roles.value) <= catalogue.Keys) then (d, InvalidRole)
    else if input.roles.Some? && "user" !in input.roles.value then (d, BaseRoleRequired)
    else if input.target !in d.users then (d, UserNotFound)
    else
      var status, roles, user := NewStatus(d, input), NewRoles(d, input), d.users[input.target];
      if RemovesActiveAdmin(d, input) && admins <= 1 then (d, LastActiveAdmin)
      else
        var d1 :=
          if status == user.status then d
          else
            var changed := d.(users := d.users[input.target := WithStatus(user, status)]);
            if status == Disabled then Audited(changed, input.actor, UserDisabled, input.target) else changed;
        if roles == RolesOf(d, input.target) then (d1, Updated(status, roles))
        else if CrossesOrganizations(catalogue, user.org, roles) then (d, CrossOrganizationRole)
        else
          var d2 := d1.(grants := d1.grants[input.target := GrantedBy(input.actor, roles)]);
          (Audited(d2, input.actor, RoleChanged, input.target), Updated(status, roles))
  }

  function UpdateCounting(catalogue: Catalogue, d: Directory, input: UpdateInput, admins: nat): (Directory, UpdateResult) {
    match Precheck(input)
    case Some(SelfRoleAssignment) =>
      (Audited(d, input.actor, RoleAssignmentRejected(false), input.target), SelfRoleAssignment)
    case Some(other) => (d, other)
    case None =>
      var (after, result) := UpdateInTransaction(catalogue, d, input, admins);
      if result.CrossOrganizationRole?
      then (Audited(d, input.actor, RoleAssignmentRejected(true), input.target), result)
      else (after, result)
  }

  /** An update that counts the active administrators of the directory it changes. */
  function Update(catalogue: Catalogue, d: Directory, input: UpdateInput): (Directory, UpdateResult) {
    UpdateCounting(catalogue, d, input, |ActiveAdmins(d)|)
  }

  /** Creation of an employee account: pending, with "user" and the requested roles. */
  function Employ(catalogue: Catalogue, d: Directory, actor: UserId, id: UserId, email: string, org: Org, requested: seq<string>): Option<Directory> {
    var roles := {"user"} + Elements(requested);
    if requested == [] || !(roles <= catalogue.Keys) || org !in d.organizations || CrossesOrganizations(catalogue, org, roles)
       || exists u :: u in d.users && d.users[u].email == email then None
    else Some(Audited(d.(users := d.users[id := User(email, Pending, org, None)],
                         grants := d.grants[id := GrantedBy(actor, roles)]), actor, EmployeeCreated, id))
  }

  // --------------------------------------------------------------- invariants

  ghost predicate BaseRoleKept(d: Directory) {
    forall u :: u in d.users ==> "user" in RolesOf(d, u)
  }

  ghost predicate OrganizationsIsolated(catalogue: Catalogue, d: Directory) {
    forall u, r :: u in d.users && r in RolesOf(d, u) ==> r in catalogue && !OwnedElsewhere(catalogue, d.users[u].org, r)
  }

  /** Nobody ever granted a role to themselves. */
  ghost predicate NoSelfGrant(d: Directory) {
    forall u, r :: u in d.grants && r in d.grants[u] ==> d.grants[u][r] != Some(u)
  }

  ghost predicate Inv(catalogue: Catalogue, d: Directory) {
    && ActiveAdmins(d) != {} && BaseRoleKept(d) && OrganizationsIsolated(catalogue, d) && NoSelfGrant(d)
    && d.grants.Keys <= d.users.Keys
  }

  datatype Step =
    | UpdateUser(input: UpdateInput)
    | CreateEmployee(actor: UserId, id: UserId, email: string, org: Org, requested: seq<string>)

  /** New account ids are drawn afresh, so they are never the actor's. */
  predicate Enabled(d: Directory, step: Step) {
    match step
    case UpdateUser(_) => true
    case CreateEmployee(actor, id, _, _, _) => id !in d.users && actor != id
  }

  function Apply(catalogue: Catalogue, d: Directory, step: Step): Directory {
    match step
    case UpdateUser(input) => Update(catalogue, d, input).0
    case CreateEmployee(actor, id, email, org, requested) =>
      match Employ(catalogue, d, actor, id, email, org, requested)
      case None => d
      case Some(after) => after
  }

  ghost predicate IsRun(catalogue: Catalogue, d: Directory, steps: seq<Step>)
    decreases |steps|
  {
    steps == [] || (Enabled(d, steps[0]) && IsRun(catalogue, Apply(catalogue, d, steps[0]), steps[1..]))
  }

  function Final(catalogue: Catalogue, d: Directory, steps: seq<Step>): Directory
    decreases |steps|
  {
    if steps == [] then d else Final(catalogue, Apply(catalogue, d, steps[0]), steps[1..])
  }

  /** Taking one account out of the active administrators leaves another when there were two. */
  lemma AnotherAdminRemains(before: Directory, after: Directory, target: UserId)
    requires forall u :: u != target && IsActiveAdmin(before, u) ==> IsActiveAdmin(after, u)
    requires ActiveAdmins(before) != {}
    requires !IsActiveAdmin(before, target) || IsActiveAdmin(after, target) || 1 < |ActiveAdmins(before)|
    ensures ActiveAdmins(after) != {}
  {
    var admins := ActiveAdmins(before);
    if !IsActiveAdmin(before, target) || IsActiveAdmin(after, target) {
      var u :| u in admins;
      assert u in ActiveAdmins(after);
    } else {
      assert |admins - {target}| == |admins| - 1;
      var u :| u in admins - {target};
      assert u in ActiveAdmins(after);
    }
  }

  /** An update is carried out exactly when its guards let it through. */
  lemma UpdatedIffAccepted(catalogue: Catalogue, d: Directory, input: UpdateInput, admins: nat)
    ensures UpdateCounting(catalogue, d, input, admins).1.Updated? <==> Accepts(catalogue, d, input, admins)
  {}

  /** What an accepted update leaves: the target's status and roles, and nothing else. */
  lemma AcceptedIsWritten(catalogue: Catalogue, d: Directory, input: UpdateInput, admins: nat)
    requires Accepts(catalogue, d, input, admins)
    ensures var (after, result) := UpdateCounting(catalogue, d, input, admins);
      var status, roles := NewStatus(d, input), NewRoles(d, input);
      && result == Updated(status, roles) && after.organizations == d.organizations
      && after.users == d.users[input.target := WithStatus(d.users[input.target], status)]
      && after.grants == (if roles == RolesOf(d, input.target) then d.grants else d.grants[input.target := GrantedBy(input.actor, roles)])
      && RolesOf(after, input.target) == roles
  {
    var after := UpdateCounting(catalogue, d, input, admins).0;
    if NewStatus(d, input) == d.users[input.target].status {
      assert d.users[input.target := d.users[input.target]] == d.users;
    }
  }

  lemma OthersKeepRoles(catalogue: Catalogue, d: Directory, input: UpdateInput, admins: nat)
    requires Accepts(catalogue, d, input, admins)
    ensures var after := UpdateCounting(catalogue, d, input, admins).0;
      forall u :: u != input.target ==> RolesOf(after, u) == RolesOf(d, u) && (IsActiveAdmin(after, u) <==> IsActiveAdmin(d, u))
  {
    AcceptedIsWritten(catalogue, d, input, admins);
  }

  lemma RefusedIsUnwritten(catalogue: Catalogue, d: Directory, input: UpdateInput, admins: nat)
    requires !Accepts(catalogue, d, input, admins)
    ensures var after := UpdateCounting(catalogue, d, input, admins).0;
      && after.users == d.users && after.grants == d.grants && after.organizations == d.organizations
      && ActiveAdmins(after) == ActiveAdmins(d) && d.audit <= after.audit
  {}

  lemma EmptyButFor(s: set<UserId>, u: UserId)
    ensures s == {} <==> s - {u} == {} && u !in s
    ensures s == {u} <==> s - {u} == {} && u in s
  {
    assert u in s ==> s == (s - {u}) + {u};
    assert u !in s ==> s == s - {u};
  }

  /** However the administrators were counted, an update empties them exactly
      when it takes out the only one and had counted more. */
  lemma EmptiesIffCountedTooMany(catalogue: Catalogue, d: Directory, input: UpdateInput, admins: nat)
    requires ActiveAdmins(d) != {}
    ensures ActiveAdmins(UpdateCounting(catalogue, d, input, admins).0) == {}
      <==> Accepts(catalogue, d, input, admins) && RemovesActiveAdmin(d, input) && ActiveAdmins(d) == {input.target}
  {
    var after := UpdateCounting(catalogue, d, input, admins).0;
    if Accepts(catalogue, d, input, admins) {
      AcceptedIsWritten(catalogue, d, input, admins);
      OthersKeepRoles(catalogue, d, input, admins);
      assert ActiveAdmins(after) - {input.target} == ActiveAdmins(d) - {input.target};
      assert input.target in ActiveAdmins(after) <==> NewStatus(d, input) == Active && "admin" in NewRoles(d, input);
      assert input.target in ActiveAdmins(d) <==> IsActiveAdmin(d, input.target);
      EmptyButFor(ActiveAdmins(after), input.target);
      EmptyButFor(ActiveAdmins(d), input.target);
    } else {
      RefusedIsUnwritten(catalogue, d, input, admins);
    }
  }

  /** A true count never empties the active administrators. */
  lemma UpdateKeepsAnAdmin(catalogue: Catalogue, d: Directory, input: UpdateInput)
    requires ActiveAdmins(d) != {}
    ensures ActiveAdmins(Update(catalogue, d, input).0) != {}
  {
    EmptiesIffCountedTooMany(catalogue, d, input, |ActiveAdmins(d)|);
  }

  /** One account rewritten, its roles replaced by others within the rules. */
  ghost predicate GrantedWithinRules(catalogue: Catalogue, d: Directory, after: Directory, target: UserId, user: User, actor: UserId, roles: set<string>) {
    && after.users == d.users[target := user] && after.grants == d.grants[target := GrantedBy(actor, roles)]
    && actor != target && "user" in roles && roles <= catalogue.Keys && !CrossesOrganizations(catalogue, user.org, roles)
  }

  lemma GrantKeepsBaseRole(catalogue: Catalogue, d: Directory, after: Directory, target: UserId, user: User, actor: UserId, roles: set<string>)
    requires BaseRoleKept(d) && GrantedWithinRules(catalogue, d, after, target, user, actor, roles)
    ensures BaseRoleKept(after)
  {
    assert RolesOf(after, target) == roles;
    assert forall u :: u != target ==> RolesOf(after, u) == RolesOf(d, u);
  }

  lemma GrantKeepsIsolation(catalogue: Catalogue, d: Directory, after: Directory, target: UserId, user: User, actor: UserId, roles: set<string>)
    requires OrganizationsIsolated(catalogue, d) && GrantedWithinRules(catalogue, d, after, target, user, actor, roles)
    ensures OrganizationsIsolated(catalogue, after)
  {
    assert RolesOf(after, target) == roles;
    assert forall u :: u != target ==> RolesOf(after, u) == RolesOf(d, u);
  }

  lemma GrantKeepsInv(catalogue: Catalogue, d: Directory, after: Directory, target: UserId, user: User, actor: UserId, roles: set<string>)
    requires Inv(catalogue, d) && ActiveAdmins(after) != {}
    requires GrantedWithinRules(catalogue, d, after, target, user, actor, roles)
    ensures Inv(catalogue, after)
  {
    GrantKeepsBaseRole(catalogue, d, after, target, user, actor, roles);
    GrantKeepsIsolation(catalogue, d, after, target, user, actor, roles);
  }

  lemma StatusKeepsInv(catalogue: Catalogue, d: Directory, after: Directory, target: UserId, user: User)
    requires Inv(catalogue, d) && ActiveAdmins(after) != {} && target in d.users && user.org == d.users[target].org
    requires after.users == d.users[target := user] && after.grants == d.grants
    ensures Inv(catalogue, after)
  {
    assert forall u :: RolesOf(after, u) == RolesOf(d, u);
  }

  lemma UpdateKeepsInv(catalogue: Catalogue, d: Directory, input: UpdateInput)
    requires Inv(catalogue, d)
    ensures Inv(catalogue, Update(catalogue, d, input).0)
  {
    var admins := |ActiveAdmins(d)|;
    var after := Update(catalogue, d, input).0;
    UpdateKeepsAnAdmin(catalogue, d, input);
    if Accepts(catalogue, d, input, admins) {
      AcceptedIsWritten(catalogue, d, input, admins);
      var user := WithStatus(d.users[input.target], NewStatus(d, input));
      if NewRoles(d, input) == RolesOf(d, input.target) {
        StatusKeepsInv(catalogue, d, after, input.target, user);
      } else {
        GrantKeepsInv(catalogue, d, after, input.target, user, input.actor, NewRoles(d, input));
      }
    } else {
      RefusedIsUnwritten(catalogue, d, input, admins);
    }
  }

  lemma EmployedIsWithinRules(catalogue: Catalogue, d: Directory, actor: UserId, id: UserId, email: string, org: Org, requested: seq<string>)
    requires id !in d.users && actor != id && Employ(catalogue, d, actor, id, email, org, requested).Some?
    ensures var after := Employ(catalogue, d, actor, id, email, org, requested).value;
      && GrantedWithinRules(catalogue, d, after, id, User(email, Pending, org, None), actor, {"user"} + Elements(requested))
      && forall u :: IsActiveAdmin(d, u) ==> IsActiveAdmin(after, u)
  {}

  lemma EmployKeepsInv(catalogue: Catalogue, d: Directory, step: Step)
    requires Inv(catalogue, d) && Enabled(d, step) && step.CreateEmployee?
    ensures Inv(catalogue, Apply(catalogue, d, step))
  {
    if Employ(catalogue, d, step.actor, step.id, step.email, step.org, step.requested).Some? {
      var after := Apply(catalogue, d, step);
      EmployedIsWithinRules(catalogue, d, step.actor, step.id, step.email, step.org, step.requested);
      AnotherAdminRemains(d, after, step.id);
      GrantKeepsInv(catalogue, d, after, step.id, User(step.email, Pending, step.org, None), step.actor, {"user"} + Elements(step.requested));
    }
  }

  /** Over every run of updates and employee creations from a sound state: an
      active administrator remains, every account keeps "user", no role of
      another company's application is held, and nobody granted to themselves. */
  lemma {:induction false} AdministrationInvariants(catalogue: Catalogue, d: Directory, steps: seq<Step>)
    requires Inv(catalogue, d) && IsRun(catalogue, d, steps)
    ensures Inv(catalogue, Final(catalogue, d, steps))
    decreases |steps|
  {
    if steps != [] {
      match steps[0] {
        case UpdateUser(input) => UpdateKeepsInv(catalogue, d, input);
        case CreateEmployee(_, _, _, _, _) => EmployKeepsInv(catalogue, d, steps[0]);
      }
      AdministrationInvariants(catalogue, Apply(catalogue, d, steps[0]), steps[1..]);
    }
  }

  /** A refused update changes nothing but the audit log; an accepted one
      leaves the target with the reported status and roles, and nobody else changed. */
  lemma RefusalsChangeNothing(catalogue: Catalogue, d: Directory, input: UpdateInput, other: UserId)
    requires other != input.target
    ensures var (after, result) := Update(catalogue, d, input);
      && d.audit <= after.audit
      && (!result.Updated? ==> after.users == d.users && after.grants == d.grants)
      && (result.Updated? ==>
            && input.target in after.users
            && after.users[input.target].status == result.status && RolesOf(after, input.target) == result.roles
            && RolesOf(after, other) == RolesOf(d, other)
            && (other in d.users <==> other in after.users)
            && (other in d.users ==> after.users[other] == d.users[other]))
  {
    var admins := |ActiveAdmins(d)|;
    if Accepts(catalogue, d, input, admins) {
      AcceptedIsWritten(catalogue, d, input, admins);
    } else {
      UpdatedIffAccepted(catalogue, d, input, admins);
      RefusedIsUnwritten(catalogue, d, input, admins);
    }
  }

  lemma AddingRole(catalogue: Catalogue, org: Org, actor: UserId, added: set<string>, role: string)
    requires !CrossesOrganizations(catalogue, org, added) && !OwnedElsewhere(catalogue, org, role)
    ensures GrantedBy(actor, added + {role}) == GrantedBy(actor, added)[role := Some(actor)]
    ensures !CrossesOrganizations(catalogue, org, added + {role})
  {}

  // ------------------------------------------------------------- the service

  class AdminService {
    const catalogue: Catalogue
    const organizations: set<Org>
    var users: map<UserId, User>
    var grants: map<UserId, map<string, Option<UserId>>>
    var audit: seq<AdminAudit>

    constructor (catalogue: Catalogue, d: Directory)
      ensures this.catalogue == catalogue && Contents() == d
    {
      this.catalogue, organizations := catalogue, d.organizations;
      users, grants, audit := d.users, d.grants, d.audit;
    }

    function Contents(): Directory
      reads this
    {
      Directory(organizations, users, grants, audit)
    }

    method InsertAuditEvent(actor: UserId, action: AdminAction, resource: UserId, faults: set<AdminCall>) returns (ok: bool)
      modifies this`audit
      ensures ok == (AuditCall(action) !in faults)
      ensures Contents() == if ok then Audited(old(Contents()), actor, action, resource) else old(Contents())
    {
      ok := AuditCall(action) !in faults;
      if ok {
        audit := audit + [AdminAudit(actor, action, resource)];
      }
    }

    /** ValidateRoleNames: the requested names that exist, each once. */
    method ValidateRoleNames(names: seq<string>) returns (found: seq<string>)
      ensures NoRepeats(found) && Elements(found) == Elements(names) * catalogue.Keys
    {
      found := [];
      for i := 0 to |names|
        invariant NoRepeats(found) && Elements(found) == Elements(names[..i]) * catalogue.Keys
      {
        assert Elements(names[..i + 1]) == Elements(names[..i]) + {names[i]};
        if names[i] in catalogue && names[i] !in found {
          ghost var before := found;
          found := found + [names[i]];
          assert Elements(found) == Elements(before) + {names[i]};
        } else if names[i] in catalogue {
          assert names[i] in Elements(found);
        }
      }
      assert names[..|names|] == names;
    }

    /** ListRolesForUser, in no particular order. */
    method ListRolesForUser(user: UserId) returns (roles: seq<string>)
      ensures NoRepeats(roles) && Elements(roles) == RolesOf(Contents(), user)
    {
      roles := [];
      var rest := RolesOf(Contents(), user);
      while rest != {}
        invariant NoRepeats(roles) && Elements(roles) !! rest
        invariant Elements(roles) + rest == RolesOf(Contents(), user)
        decreases rest
      {
        var role :| role in rest;
        assert role !in Elements(roles);
        ghost var before := roles;
        roles := roles + [role];
        assert Elements(roles) == Elements(before) + {role};
        rest := rest - {role};
      }
    }

    /** Adds roles one by one to an account that holds none; a role of another
        company's application is refused by the database. */
    method AddUserRoles(target: UserId, roles: seq<string>, grantedBy: UserId, faults: set<AdminCall>)
      returns (ok: bool, crossed: bool)
      requires target in users && target in grants && grants[target] == map[] && Elements(roles) <= catalogue.Keys
      modifies this`grants
      ensures crossed ==> CrossesOrganizations(catalogue, users[target].org, Elements(roles))
      ensures !ok && !crossed ==> faults != {}
      ensures ok ==> !crossed && !CrossesOrganizations(catalogue, users[target].org, Elements(roles))
      ensures ok ==> grants == old(grants)[target := GrantedBy(grantedBy, Elements(roles))]
    {
      assert grants[target] == GrantedBy(grantedBy, Elements(roles[..0]));
      for i := 0 to |roles|
        invariant target in grants && grants == old(grants)[target := grants[target]]
        invariant grants[target] == GrantedBy(grantedBy, Elements(roles[..i]))
        invariant !CrossesOrganizations(catalogue, users[target].org, Elements(roles[..i]))
      {
        if AddRole in faults {
          return false, false;
        }
        var role := roles[i];
        assert role in Elements(roles);
        var owner := catalogue[role];
        if owner.Some? && owner.value != users[target].org {
          assert OwnedElsewhere(catalogue, users[target].org, role);
          return false, true;
        }
        ghost var added := Elements(roles[..i]);
        assert Elements(roles[..i + 1]) == added + {role};
        AddingRole(catalogue, users[target].org, grantedBy, added, role);
        grants := grants[target := grants[target][role := Some(grantedBy)]];
      }
      assert roles[..|roles|] == roles;
      return true, false;
    }

    /** Deletes the target's roles, then adds each new one. */
    method ReplaceRoles(target: UserId, roles: seq<string>, grantedBy: UserId, faults: set<AdminCall>)
      returns (ok: bool, crossed: bool)
      requires target in users && Elements(roles) <= catalogue.Keys
      modifies this`grants
      ensures crossed ==> CrossesOrganizations(catalogue, users[target].org, Elements(roles))
      ensures !ok && !crossed ==> faults != {}
      ensures ok ==> !crossed && !CrossesOrganizations(catalogue, users[target].org, Elements(roles))
      ensures ok ==> grants == old(grants)[target := GrantedBy(grantedBy, Elements(roles))]
    {
      if DeleteRoles in faults {
        return false, false;
      }
      grants := grants[target := map[]];
      ok, crossed := AddUserRoles(target, roles, grantedBy, faults);
    }

    /** Whatever call fails, nothing but the audit of a refusal is kept. */
    method UpdateUser(input: UpdateInput, faults: set<AdminCall>) returns (result: UpdateResult)
      modifies this
      ensures result.UpdateFailed? ==> Contents() == old(Contents()) && faults != {}
      ensures !result.UpdateFailed? ==> (Contents(), result) == Update(catalogue, old(Contents()), input)
    {
      if input.roles.Some? && input.actor == input.target {
        if CommitCall in faults {
          return UpdateFailed;
        }
        var audited := InsertAuditEvent(input.actor, RoleAssignmentRejected(false), input.target, faults);
        return if audited then SelfRoleAssignment else UpdateFailed;
      }
      if input.status.Some? {
        if ParseStatus(input.status.value).None? {
          return InvalidStatus;
        }
        if input.status.value == "disabled" && input.actor == input.target {
          return SelfDisable;
        }
      }
      var saved := Contents();
      result := ApplyUserUpdate(input, |ActiveAdmins(Contents())|, faults);
      if CommitCall in faults {
        result := UpdateFailed;
      }
      if !result.Updated? {
        users, grants, audit := saved.users, saved.grants, saved.audit;
      }
      if result.CrossOrganizationRole? {
        var audited := InsertAuditEvent(input.actor, RoleAssignmentRejected(true), input.target, faults);
        if !audited {
          result := UpdateFailed;
        }
      }
    }

    method ValidateRequestedRoles(roles: seq<string>, faults: set<AdminCall>) returns (requested: seq<string>, refusal: Option<UpdateResult>)
      ensures requested == Deduplicated(roles)
      ensures refusal == Some(UpdateFailed) ==> faults != {}
      ensures refusal != Some(UpdateFailed) ==>
                refusal == if !(Elements(roles) <= catalogue.Keys) then Some(InvalidRole)
                           else if "user" !in roles then Some(BaseRoleRequired)
                           else None
    {
      requested := Deduplicate(roles);
      DeduplicatedIsTheSetInOrder(roles);
      if ValidateRoles in faults {
        return requested, Some(UpdateFailed);
      }
      var found := ValidateRoleNames(requested);
      LengthsDecideExistence(requested, found, catalogue.Keys);
      if |found| != |requested| {
        return requested, Some(InvalidRole);
      }
      DeduplicatedMembers(roles, "user");
      var hasBase := HasRole(requested, "user");
      return requested, if hasBase then None else Some(BaseRoleRequired);
    }

    /** admins is the count of the statement that locks the active administrators. */
    method ApplyUserUpdate(input: UpdateInput, admins: nat, faults: set<AdminCall>) returns (result: UpdateResult)
      requires Precheck(input).None?
      modifies this
      ensures result.UpdateFailed? ==> faults != {}
      ensures !result.UpdateFailed? ==>
                && result == UpdateInTransaction(catalogue, old(Contents()), input, admins).1
                && (result.Updated? ==> Contents() == UpdateInTransaction(catalogue, old(Contents()), input, admins).0)
    {
      var requested: seq<string> := [];
      if input.roles.Some? {
        var refusal;
        requested, refusal := ValidateRequestedRoles(input.roles.value, faults);
        if refusal.Some? {
          return refusal.value;
        }
        DeduplicatedIsTheSetInOrder(input.roles.value);
      }
      if LockAdmins in faults || GetUser in faults || AdminCall.ListRoles in faults {
        return UpdateFailed;
      }
      if input.target !in users {
        return UserNotFound;
      }
      var currentRoles := ListRolesForUser(input.target);
      var newRoles := if input.roles.Some? then requested else currentRoles;
      var removes := RemovesAdmin(input, currentRoles, newRoles);
      if removes && admins <= 1 {
        return LastActiveAdmin;
      }
      result := WriteUpdate(input, currentRoles, newRoles, faults);
    }

    /** removesActiveAdmin. */
    method RemovesAdmin(input: UpdateInput, currentRoles: seq<string>, newRoles: seq<string>) returns (removes: bool)
      requires Precheck(input).None? && input.target in users
      requires Elements(currentRoles) == RolesOf(Contents(), input.target) && Elements(newRoles) == NewRoles(Contents(), input)
      ensures removes == RemovesActiveAdmin(Contents(), input)
    {
      var target := users[input.target];
      var newStatus := if input.status.Some? then ParseStatus(input.status.value).value else target.status;
      var wasAdmin := HasRole(currentRoles, "admin");
      var staysAdmin := HasRole(newRoles, "admin");
      assert wasAdmin == ("admin" in Elements(currentRoles)) && staysAdmin == ("admin" in Elements(newRoles));
      return target.status == Active && wasAdmin && (newStatus != Active || !staysAdmin);
    }

    /** The writes, once the guard on the count let them through. */
    method WriteUpdate(input: UpdateInput, currentRoles: seq<string>, newRoles: seq<string>, faults: set<AdminCall>) returns (result: UpdateResult)
      requires Precheck(input).None? && input.target in users && NamesItsRoles(catalogue, input)
      requires NoRepeats(currentRoles) && NoRepeats(newRoles)
      requires Elements(currentRoles) == RolesOf(Contents(), input.target) && Elements(newRoles) == NewRoles(Contents(), input)
      modifies this
      ensures result.UpdateFailed? ==> faults != {}
      ensures !result.UpdateFailed? ==>
                && result == UpdateInTransaction(catalogue, old(Contents()), input, 2).1
                && (result.Updated? ==> Contents() == UpdateInTransaction(catalogue, old(Contents()), input, 2).0)
    {
      var newStatus := if input.status.Some? then ParseStatus(input.status.value).value else users[input.target].status;
      var ok := ApplyStatusChange(input, newStatus, faults);
      if !ok {
        return UpdateFailed;
      }
      result := ApplyRoleChange(input, currentRoles, newRoles, newStatus, faults);
    }

    method ApplyStatusChange(input: UpdateInput, newStatus: Status, faults: set<AdminCall>) returns (ok: bool)
      requires input.target in users
      modifies this`users, this`audit
      ensures !ok ==> faults != {}
      ensures ok ==>
                var user := old(users)[input.target];
                && users == old(users)[input.target := WithStatus(user, newStatus)]
                && audit == if newStatus == Disabled && user.status != Disabled
                            then old(audit) + [AdminAudit(input.actor, UserDisabled, input.target)] else old(audit)
    {
      var target := users[input.target];
      if newStatus == target.status {
        assert users == users[input.target := target];
        return true;
      }
      if UpdateStatus in faults {
        return false;
      }
      users := users[input.target := target.(status := newStatus, lockedUntil := None)];
      ok := true;
      if newStatus == Disabled {
        ok := InsertAuditEvent(input.actor, UserDisabled, input.target, faults);
      }
    }

    method ApplyRoleChange(input: UpdateInput, currentRoles: seq<string>, newRoles: seq<string>, status: Status, faults: set<AdminCall>)
      returns (result: UpdateResult)
      requires input.target in users && NoRepeats(currentRoles) && NoRepeats(newRoles)
      requires Elements(newRoles) <= catalogue.Keys || Elements(newRoles) == Elements(currentRoles)
      modifies this`grants, this`audit
      ensures result.UpdateFailed? || result.CrossOrganizationRole? || result == Updated(status, Elements(newRoles))
      ensures result.UpdateFailed? ==> faults != {}
      ensures !result.UpdateFailed? ==>
                (result.CrossOrganizationRole? <==>
                 Elements(newRoles) != Elements(currentRoles)
                 && CrossesOrganizations(catalogue, users[input.target].org, Elements(newRoles)))
      ensures result.Updated? ==>
                Contents() == if Elements(newRoles) == Elements(currentRoles) then old(Contents())
                              else Audited(old(Contents()).(grants := old(grants)[input.target := GrantedBy(input.actor, Elements(newRoles))]),
                                           input.actor, RoleChanged, input.target)
    {
      var same := SameRoles(currentRoles, newRoles);
      SameRolesDecidesSetEquality(currentRoles, newRoles);
      if same {
        return Updated(status, Elements(newRoles));
      }
      var ok, crossed := ReplaceRoles(input.target, newRoles, input.actor, faults);
      if crossed {
        return CrossOrganizationRole;
      }
      if !ok {
        return UpdateFailed;
      }
      ok := InsertAuditEvent(input.actor, RoleChanged, input.target, faults);
      return if ok then Updated(status, Elements(newRoles)) else UpdateFailed;
    }
  }
}
