/** Account updates in flight together. The statement that locks the active
    administrators reads the role rows as they were when it began and rereads
    only the user rows it waited for; replacing roles rewrites no user row. */
module AdminConcurrency {
  import opened HubTables
  import opened RoleLists
  import opened Admin

  /** The administrators the locking statement returns: by the roles and statuses
      it saw when it began, less those no longer active when it got the locks. */
  function Counted(seen: Directory, d: Directory): set<UserId> {
    set u | u in seen.users && IsActiveAdmin(seen, u) && u in d.users && d.users[u].status == Active
  }

  /** waiting: what each update between that statement's start and its commit saw. */
  datatype System = System(directory: Directory, waiting: seq<Directory>)

  datatype Step =
    | Begin
    | Perform(waiter: nat, input: UpdateInput)

  predicate Enabled(s: System, step: Step) {
    step.Begin? || step.waiter < |s.waiting|
  }

  function Apply(catalogue: Catalogue, s: System, step: Step): System
    requires Enabled(s, step)
  {
    match step
    case Begin => s.(waiting := s.waiting + [s.directory])
    case Perform(i, input) =>
      var admins := |Counted(s.waiting[i], s.directory)|;
      System(UpdateCounting(catalogue, s.directory, input, admins).0, s.waiting[..i] + s.waiting[i + 1..])
  }

  /** A run in which no more than inFlight updates are ever waiting. */
  ghost predicate IsRun(catalogue: Catalogue, s: System, steps: seq<Step>, inFlight: nat)
    decreases |steps|
  {
    && |s.waiting| <= inFlight
    && (steps == [] || (Enabled(s, steps[0]) && IsRun(catalogue, Apply(catalogue, s, steps[0]), steps[1..], inFlight)))
  }

  ghost function Final(catalogue: Catalogue, s: System, steps: seq<Step>, inFlight: nat): System
    requires IsRun(catalogue, s, steps, inFlight)
    decreases |steps|
  {
    if steps == [] then s else Final(catalogue, Apply(catalogue, s, steps[0]), steps[1..], inFlight)
  }

  /** From every sound directory, every such run leaves an active administrator. */
  ghost predicate AlwaysLeavesAnAdmin(catalogue: Catalogue, inFlight: nat) {
    forall d, steps :: Admin.Inv(catalogue, d) && IsRun(catalogue, System(d, []), steps, inFlight) ==>
      ActiveAdmins(Final(catalogue, System(d, []), steps, inFlight).directory) != {}
  }

  ghost predicate SeesThePresent(s: System) {
    forall i :: 0 <= i < |s.waiting| ==> s.waiting[i] == s.directory
  }

  lemma StepAlone(catalogue: Catalogue, s: System, step: Step)
    requires ActiveAdmins(s.directory) != {} && SeesThePresent(s) && |s.waiting| <= 1
    requires Enabled(s, step)
    ensures ActiveAdmins(Apply(catalogue, s, step).directory) != {} && SeesThePresent(Apply(catalogue, s, step))
  {
    if step.Perform? {
      assert Counted(s.directory, s.directory) == ActiveAdmins(s.directory);
      UpdateKeepsAnAdmin(catalogue, s.directory, step.input);
    }
  }

  lemma {:induction false} RunAlone(catalogue: Catalogue, s: System, steps: seq<Step>)
    requires ActiveAdmins(s.directory) != {} && SeesThePresent(s) && IsRun(catalogue, s, steps, 1)
    ensures ActiveAdmins(Final(catalogue, s, steps, 1).directory) != {}
    decreases |steps|
  {
    if steps != [] {
      StepAlone(catalogue, s, steps[0]);
      RunAlone(catalogue, Apply(catalogue, s, steps[0]), steps[1..]);
    }
  }

  lemma {:induction false} FewerInFlight(catalogue: Catalogue, s: System, steps: seq<Step>, few: nat, many: nat)
    requires few <= many && IsRun(catalogue, s, steps, few)
    ensures IsRun(catalogue, s, steps, many) && Final(catalogue, s, steps, many) == Final(catalogue, s, steps, few)
    decreases |steps|
  {
    if steps != [] {
      FewerInFlight(catalogue, Apply(catalogue, s, steps[0]), steps[1..], few, many);
    }
  }

  lemma Prepend(catalogue: Catalogue, s: System, step: Step, rest: seq<Step>, inFlight: nat)
    requires |s.waiting| <= inFlight && Enabled(s, step) && IsRun(catalogue, Apply(catalogue, s, step), rest, inFlight)
    ensures IsRun(catalogue, s, [step] + rest, inFlight)
    ensures Final(catalogue, s, [step] + rest, inFlight) == Final(catalogue, Apply(catalogue, s, step), rest, inFlight)
  {
    assert ([step] + rest)[1..] == rest;
  }

  // -------------------------------------------------- two updates in flight

  const ADMIN_ROLES: map<string, Option<UserId>> := map["user" := None, "admin" := None]

  /** Two active administrators and nobody else. */
  function TwoAdmins(): Directory {
    Directory({0}, map[0 := User("a", Active, 0, None), 1 := User("b", Active, 0, None)], map[0 := ADMIN_ROLES, 1 := ADMIN_ROLES], [])
  }

  /** One administrator takes the role from the other. */
  function Demotion(actor: UserId, target: UserId): UpdateInput {
    UpdateInput(actor, target, None, Some(["user"]))
  }

  /** Role names the directory always has, owned by no application. */
  predicate HasDirectoryRoles(catalogue: Catalogue) {
    "user" in catalogue && "admin" in catalogue && catalogue["user"] == None && catalogue["admin"] == None
  }

  lemma TwoAdminsAreSound(catalogue: Catalogue)
    requires HasDirectoryRoles(catalogue)
    ensures Admin.Inv(catalogue, TwoAdmins()) && ActiveAdmins(TwoAdmins()) == {0, 1}
  {
    assert 0 in ActiveAdmins(TwoAdmins());
  }

  /** A demotion that counted two administrators is carried out, and changes no user row. */
  lemma DemotionIsCarriedOut(catalogue: Catalogue, d: Directory, actor: UserId, target: UserId)
    requires HasDirectoryRoles(catalogue) && actor != target && IsActiveAdmin(d, target)
    ensures var after := UpdateCounting(catalogue, d, Demotion(actor, target), 2).0;
      && after.users == d.users && ActiveAdmins(after) == ActiveAdmins(d) - {target}
  {
    var input := Demotion(actor, target);
    assert NewRoles(d, input) == {"user"};
    assert Accepts(catalogue, d, input, 2);
    AcceptedIsWritten(catalogue, d, input, 2);
    OthersKeepRoles(catalogue, d, input, 2);
    assert d.users[target := d.users[target]] == d.users;
    assert !IsActiveAdmin(UpdateCounting(catalogue, d, input, 2).0, target);
  }

  /** A waiting update that saw two administrators, both still active, demotes the last one. */
  lemma StaleDemotion(catalogue: Catalogue, s: System, actor: UserId, target: UserId)
    requires HasDirectoryRoles(catalogue) && actor != target && IsActiveAdmin(s.directory, target)
    requires s.waiting != [] && |Counted(s.waiting[0], s.directory)| == 2
    ensures var after := Apply(catalogue, s, Perform(0, Demotion(actor, target)));
      && after.waiting == s.waiting[1..] && after.directory.users == s.directory.users
      && ActiveAdmins(after.directory) == ActiveAdmins(s.directory) - {target}
  {
    DemotionIsCarriedOut(catalogue, s.directory, actor, target);
    assert s.waiting[..0] + s.waiting[1..] == s.waiting[1..];
  }

  /** Two administrators demote each other at once: each counts two, and none is left. */
  lemma MutualDemotion(catalogue: Catalogue) returns (steps: seq<Step>)
    requires HasDirectoryRoles(catalogue)
    ensures IsRun(catalogue, System(TwoAdmins(), []), steps, 2)
    ensures ActiveAdmins(Final(catalogue, System(TwoAdmins(), []), steps, 2).directory) == {}
  {
    TwoAdminsAreSound(catalogue);
    var d := TwoAdmins();
    var s2 := System(d, [d, d]);
    var s3 := Apply(catalogue, s2, Perform(0, Demotion(1, 0)));
    assert Counted(d, d) == {0, 1};
    assert 0 in ActiveAdmins(d) && 1 in ActiveAdmins(d);
    StaleDemotion(catalogue, s2, 1, 0);
    assert s3.waiting == [d] && 1 in ActiveAdmins(s3.directory);
    assert Counted(d, s3.directory) == {0, 1};
    StaleDemotion(catalogue, s3, 0, 1);
    Prepend(catalogue, s3, Perform(0, Demotion(0, 1)), [], 2);
    steps := [Perform(0, Demotion(0, 1))] + [];
    Prepend(catalogue, s2, Perform(0, Demotion(1, 0)), steps, 2);
    steps := BeginTwice(catalogue, [Perform(0, Demotion(1, 0))] + steps);
  }

  lemma BeginTwice(catalogue: Catalogue, rest: seq<Step>) returns (steps: seq<Step>)
    requires IsRun(catalogue, System(TwoAdmins(), [TwoAdmins(), TwoAdmins()]), rest, 2)
    ensures IsRun(catalogue, System(TwoAdmins(), []), steps, 2)
    ensures Final(catalogue, System(TwoAdmins(), []), steps, 2) == Final(catalogue, System(TwoAdmins(), [TwoAdmins(), TwoAdmins()]), rest, 2)
  {
    var d := TwoAdmins();
    assert Apply(catalogue, System(d, [d]), Begin) == System(d, [d, d]);
    assert Apply(catalogue, System(d, []), Begin) == System(d, [d]);
    Prepend(catalogue, System(d, [d]), Begin, rest, 2);
    Prepend(catalogue, System(d, []), Begin, [Begin] + rest, 2);
    steps := [Begin] + ([Begin] + rest);
  }

  /** The last active administrator is safe in every run exactly when updates do
      not overlap between the start of the locking statement and the commit. */
  lemma AnAdminIsLeftIffUpdatesDoNotOverlap(catalogue: Catalogue, inFlight: nat)
    requires HasDirectoryRoles(catalogue)
    ensures AlwaysLeavesAnAdmin(catalogue, inFlight) <==> inFlight <= 1
  {
    if inFlight <= 1 {
      forall d, steps | Admin.Inv(catalogue, d) && IsRun(catalogue, System(d, []), steps, inFlight)
        ensures ActiveAdmins(Final(catalogue, System(d, []), steps, inFlight).directory) != {}
      {
        FewerInFlight(catalogue, System(d, []), steps, inFlight, 1);
        RunAlone(catalogue, System(d, []), steps);
      }
    } else {
      TwoAdminsAreSound(catalogue);
      var steps := MutualDemotion(catalogue);
      FewerInFlight(catalogue, System(TwoAdmins(), []), steps, 2, inFlight);
    }
  }
}
