/** Session refresh: several browser tabs share one refresh cookie, each rotation
    replaces it, and the server takes a replaced token for a stolen one. */
module TokenRefresh {
  import opened HubTables

  type Access = nat

  /** A refresh token, named by its family and its place in the rotation chain. */
  datatype Refresh = Refresh(family: nat, serial: nat)

  /** The newest token of a family, whether it is still active, and whether the whole family was revoked. */
  datatype Family = Family(newest: nat, active: bool, revoked: bool)

  /** The refresh token table, the reuse audit entries, and the number of access tokens issued. */
  datatype Server = Server(families: seq<Family>, reuses: nat, issued: nat)

  datatype Response = Renewed(access: Access, refresh: Refresh) | Unauthorized | ServerError

  datatype RefreshCall = RotateCall | ListRoleNames | RevokeCall | AuditReuse | CommitRefresh

  /** Where a tab stands in refreshSession; Idle is refreshInFlight == null. */
  datatype Phase =
    | Idle
    | Waiting(before: Option<Access>)
    | Requesting(sent: Option<Refresh>)
    | Responding(response: Response)
    | Settled(failed: bool)

  /** callers share the one refresh in flight; inbox holds broadcasts still on their way. */
  datatype Tab = Tab(access: Option<Access>, phase: Phase, callers: nat, inbox: seq<Option<Access>>)

  // -------------------------------------------------------------- the server

  predicate Known(server: Server, token: Refresh) {
    token.family < |server.families| && token.serial <= server.families[token.family].newest
  }

  predicate IsNewest(server: Server, token: Refresh) {
    token.family < |server.families| && token.serial == server.families[token.family].newest
  }

  predicate Renewable(server: Server, token: Refresh) {
    IsNewest(server, token) && server.families[token.family].active && !server.families[token.family].revoked
  }

  /** A token already rotated, of a family not revoked: the mark of reuse. */
  predicate IsReplaced(server: Server, token: Refresh) {
    token.family < |server.families| && token.serial < server.families[token.family].newest
    && !server.families[token.family].revoked
  }

  function Rotated(server: Server, presented: Option<Refresh>, holderActive: bool, expired: bool): (Server, Response) {
    if presented.None? || !Known(server, presented.value) || !holderActive then (server, Unauthorized)
    else
      var token := presented.value;
      var family := server.families[token.family];
      if Renewable(server, token) && !expired then
        (Server(server.families[token.family := family.(newest := token.serial + 1)], server.reuses, server.issued + 1),
         Renewed(server.issued, Refresh(token.family, token.serial + 1)))
      else if IsReplaced(server, token) then
        (Server(server.families[token.family := family.(active := false, revoked := true)], server.reuses + 1, server.issued), Unauthorized)
      else (server, Unauthorized)
  }

  class RefreshService {
    var families: seq<Family>
    var reuses: nat
    var issued: nat

    constructor (server: Server)
      ensures Contents() == server
    {
      families, reuses, issued := server.families, server.reuses, server.issued;
    }

    function Contents(): Server
      reads this
    {
      Server(families, reuses, issued)
    }

    /** The statement's own result: was the token known, rotated by it, or found rotated? */
    method RotateRefreshToken(token: Refresh, holderActive: bool, expired: bool) returns (known: bool, rotated: bool, reused: bool)
      modifies this`families
      ensures known == (Known(old(Contents()), token) && holderActive)
      ensures rotated == (known && Renewable(old(Contents()), token) && !expired)
      ensures reused == (known && !rotated && IsReplaced(old(Contents()), token))
      ensures families == if rotated then old(families)[token.family := Family(token.serial + 1, true, false)] else old(families)
    {
      if token.family >= |families| || token.serial > families[token.family].newest || !holderActive {
        return false, false, false;
      }
      var family := families[token.family];
      if token.serial == family.newest && family.active && !family.revoked && !expired {
        families := families[token.family := family.(newest := token.serial + 1)];
        return true, true, false;
      }
      return true, false, token.serial < family.newest && !family.revoked;
    }

    method RevokeRefreshFamily(family: nat)
      requires family < |families|
      modifies this`families
      ensures families == old(families)[family := old(families)[family].(active := false, revoked := true)]
    {
      families := families[family := families[family].(active := false, revoked := true)];
    }

    /** Reuse is answered like any refusal, but its revocation and audit are kept. */
    method RefreshSession(presented: Option<Refresh>, holderActive: bool, expired: bool, faults: set<RefreshCall>) returns (response: Response)
      modifies this
      ensures response.ServerError? ==> Contents() == old(Contents()) && faults != {}
      ensures !response.ServerError? ==> (Contents(), response) == Rotated(old(Contents()), presented, holderActive, expired)
    {
      if presented.None? {
        return Unauthorized;
      }
      if RotateCall in faults {
        return ServerError;
      }
      var saved := Contents();
      var token := presented.value;
      var known, rotated, reused := RotateRefreshToken(token, holderActive, expired);
      if rotated {
        if ListRoleNames in faults || CommitRefresh in faults {
          families := saved.families;
          return ServerError;
        }
        response := Renewed(issued, Refresh(token.family, token.serial + 1));
        issued := issued + 1;
      } else if reused {
        RevokeRefreshFamily(token.family);
        if RevokeCall in faults || AuditReuse in faults || CommitRefresh in faults {
          families := saved.families;
          return ServerError;
        }
        reuses := reuses + 1;
        response := Unauthorized;
      } else {
        response := Unauthorized;
      }
    }
  }

  // ----------------------------------------------------------------- one tab

  /** refreshSession is called: join the refresh in flight or start one. */
  function Called(tab: Tab): Tab {
    if tab.phase.Idle? then tab.(phase := Waiting(tab.access), callers := 1) else tab.(callers := tab.callers + 1)
  }

  /** The lock is granted: no request when a sibling's token arrived meanwhile. */
  function Granted(tab: Tab, cookie: Option<Refresh>): Tab
    requires tab.phase.Waiting?
  {
    if tab.access != tab.phase.before then tab.(phase := Settled(false)) else tab.(phase := Requesting(cookie))
  }

  function Answered(tab: Tab): Tab
    requires tab.phase.Responding?
  {
    if tab.phase.response.Renewed? then tab.(access := Some(tab.phase.response.access), phase := Settled(false))
    else tab.(phase := Settled(true))
  }

  /** The operation's outcome reaches its callers; a failure drops the token first. */
  function Finished(tab: Tab): Tab
    requires tab.phase.Settled?
  {
    tab.(access := if tab.phase.failed then None else tab.access, phase := Idle, callers := 0)
  }

  /** A sibling's announcement arrives, in whatever order. */
  function Heard(tab: Tab, k: nat): Tab
    requires k < |tab.inbox|
  {
    tab.(access := tab.inbox[k], inbox := tab.inbox[..k] + tab.inbox[k + 1..])
  }

  /** The module variables of client.ts and the position of its refresh in flight. */
  class Client {
    var accessToken: Option<Access>
    var refreshInFlight: Phase
    var callers: nat

    constructor ()
      ensures accessToken == None && refreshInFlight == Idle && callers == 0
    {
      accessToken, refreshInFlight, callers := None, Idle, 0;
    }

    function AsTab(inbox: seq<Option<Access>>): Tab
      reads this
    {
      Tab(accessToken, refreshInFlight, callers, inbox)
    }

    /** Returns the token to announce to the sibling tabs, if it is to be announced. */
    method SetAccessToken(token: Option<Access>, announce: bool) returns (posted: seq<Option<Access>>)
      modifies this`accessToken
      ensures accessToken == token
      ensures posted == if announce then [token] else []
    {
      accessToken := token;
      posted := if announce then [token] else [];
    }

    /** onmessage: takes the token over without announcing it again. */
    method OnMessage(token: Option<Access>, ghost inbox: seq<Option<Access>>, ghost k: nat) returns (posted: seq<Option<Access>>)
      requires k < |inbox| && inbox[k] == token
      modifies this`accessToken
      ensures AsTab(inbox[..k] + inbox[k + 1..]) == Heard(old(AsTab(inbox)), k) && posted == []
    {
      posted := SetAccessToken(token, false);
    }

    method RefreshSession(ghost inbox: seq<Option<Access>>)
      modifies this
      ensures AsTab(inbox) == Called(old(AsTab(inbox)))
    {
      if !refreshInFlight.Idle? {
        callers := callers + 1;
        return;
      }
      refreshInFlight, callers := Waiting(accessToken), 1;
    }

    method OnLockGranted(cookie: Option<Refresh>, ghost inbox: seq<Option<Access>>) returns (requested: bool)
      requires refreshInFlight.Waiting?
      modifies this
      ensures AsTab(inbox) == Granted(old(AsTab(inbox)), cookie)
      ensures requested <==> refreshInFlight == Requesting(cookie)
    {
      if accessToken != refreshInFlight.before {
        refreshInFlight := Settled(false);
        return false;
      }
      refreshInFlight := Requesting(cookie);
      return true;
    }

    method OnResponse(ghost inbox: seq<Option<Access>>) returns (posted: seq<Option<Access>>)
      requires refreshInFlight.Responding?
      modifies this
      ensures AsTab(inbox) == Answered(old(AsTab(inbox)))
      ensures posted == if old(refreshInFlight).response.Renewed? then [accessToken] else []
    {
      if refreshInFlight.response.Renewed? {
        posted := SetAccessToken(Some(refreshInFlight.response.access), true);
        refreshInFlight := Settled(false);
      } else {
        posted := [];
        refreshInFlight := Settled(true);
      }
    }

    method OnSettled(ghost inbox: seq<Option<Access>>) returns (posted: seq<Option<Access>>)
      requires refreshInFlight.Settled?
      modifies this
      ensures AsTab(inbox) == Finished(old(AsTab(inbox)))
      ensures posted == if old(refreshInFlight).failed then [None] else []
    {
      if refreshInFlight.failed {
        posted := SetAccessToken(None, true);
      } else {
        posted := [];
      }
      refreshInFlight, callers := Idle, 0;
    }
  }

  // --------------------------------------------------------------- whole runs

  /** Does the browser have the lock manager, and does every response arrive? */
  datatype Environment = Environment(locks: bool, lossless: bool)

  datatype World = World(tabs: seq<Tab>, holder: Option<nat>, cookie: Option<Refresh>, server: Server)

  datatype Step =
    | Call(tab: nat)
    | Grant(tab: nat)
    | Serve(tab: nat, holderActive: bool, expired: bool, fault: bool)
    | Receive(tab: nat)
    | Lose(tab: nat)
    | Finish(tab: nat)
    | Deliver(tab: nat, message: nat)
    | SignIn(tab: nat)
    | ClearCookie(tab: nat)
    | ClearSession(tab: nat)
    | RevokeToken(token: Refresh)
    | RevokeFamily(family: nat)

  predicate Enabled(env: Environment, w: World, step: Step) {
    match step
    case RevokeToken(_) => true
    case RevokeFamily(family) => family < |w.server.families|
    case _ =>
      && step.tab < |w.tabs|
      && var tab := w.tabs[step.tab];
      match step
      case Grant(_) => tab.phase.Waiting? && (env.locks ==> w.holder == None)
      case Serve(_, _, _, _) => tab.phase.Requesting?
      case Receive(_) => tab.phase.Responding?
      case Lose(_) => tab.phase.Responding? && !env.lossless
      case Finish(_) => tab.phase.Settled?
      case Deliver(_, message) => message < |tab.inbox|
      case _ => true
  }

  /** What a tab posts goes to every other tab. */
  function Posted(tabs: seq<Tab>, sender: nat, token: Option<Access>): (r: seq<Tab>)
    ensures |r| == |tabs|
    ensures forall i :: 0 <= i < |tabs| ==> r[i] == if i == sender then tabs[i] else tabs[i].(inbox := tabs[i].inbox + [token])
  {
    seq(|tabs|, i requires 0 <= i < |tabs| => if i == sender then tabs[i] else tabs[i].(inbox := tabs[i].inbox + [token]))
  }

  function Released(env: Environment, w: World): Option<nat> {
    if env.locks then None else w.holder
  }

  function AfterReceive(env: Environment, w: World, i: nat): World
    requires i < |w.tabs| && w.tabs[i].phase.Responding?
  {
    var response := w.tabs[i].phase.response;
    var tabs := w.tabs[i := Answered(w.tabs[i])];
    match response
    case Renewed(access, refresh) => World(Posted(tabs, i, Some(access)), Released(env, w), Some(refresh), w.server)
    case Unauthorized => World(tabs, Released(env, w), None, w.server)
    case ServerError => World(tabs, Released(env, w), w.cookie, w.server)
  }

  function AfterServe(w: World, i: nat, holderActive: bool, expired: bool, fault: bool): World
    requires i < |w.tabs| && w.tabs[i].phase.Requesting?
  {
    var (server, response) := if fault then (w.server, ServerError) else Rotated(w.server, w.tabs[i].phase.sent, holderActive, expired);
    w.(server := server, tabs := w.tabs[i := w.tabs[i].(phase := Responding(response))])
  }

  function AfterGrant(env: Environment, w: World, i: nat): World
    requires i < |w.tabs| && w.tabs[i].phase.Waiting?
  {
    var tab := Granted(w.tabs[i], w.cookie);
    w.(tabs := w.tabs[i := tab], holder := if env.locks && tab.phase.Requesting? then Some(i) else w.holder)
  }

  function Apply(env: Environment, w: World, step: Step): World
    requires Enabled(env, w, step)
  {
    var server := w.server;
    match step
    case Call(i) => w.(tabs := w.tabs[i := Called(w.tabs[i])])
    case Grant(i) => AfterGrant(env, w, i)
    case Serve(i, holderActive, expired, fault) => AfterServe(w, i, holderActive, expired, fault)
    case Receive(i) => AfterReceive(env, w, i)
    case Lose(i) => w.(tabs := w.tabs[i := w.tabs[i].(phase := Settled(true))], holder := Released(env, w))
    case Finish(i) =>
      var tabs := w.tabs[i := Finished(w.tabs[i])];
      w.(tabs := if w.tabs[i].phase.failed then Posted(tabs, i, None) else tabs)
    case Deliver(i, k) =>
      w.(tabs := w.tabs[i := Heard(w.tabs[i], k)])
    case SignIn(i) =>
      World(Posted(w.tabs[i := w.tabs[i].(access := Some(server.issued))], i, Some(server.issued)), w.holder,
            Some(Refresh(|server.families|, 0)),
            server.(families := server.families + [Family(0, true, false)], issued := server.issued + 1))
    case ClearCookie(i) => World(Posted(w.tabs[i := w.tabs[i].(access := None)], i, None), w.holder, None, server)
    case ClearSession(i) => w.(tabs := w.tabs[i := w.tabs[i].(access := None)])
    case RevokeToken(token) =>
      if !IsNewest(server, token) then w
      else w.(server := server.(families := server.families[token.family := server.families[token.family].(active := false)]))
    case RevokeFamily(family) =>
      w.(server := server.(families := server.families[family := server.families[family].(active := false, revoked := true)]))
  }

  predicate IsRun(env: Environment, w: World, steps: seq<Step>)
    decreases |steps|
  {
    steps == [] || (Enabled(env, w, steps[0]) && IsRun(env, Apply(env, w, steps[0]), steps[1..]))
  }

  function Final(env: Environment, w: World, steps: seq<Step>): World
    requires IsRun(env, w, steps)
    decreases |steps|
  {
    if steps == [] then w else Final(env, Apply(env, w, steps[0]), steps[1..])
  }

  /** n tabs opened in a browser without a session. */
  function Opened(n: nat): World {
    World(seq(n, _ => Tab(None, Idle, 0, [])), None, None, Server([], 0, 0))
  }

  // -------------------------------------------------------------- the safety

  predicate Outstanding(tab: Tab) {
    tab.phase.Requesting? || tab.phase.Responding?
  }

  predicate AwaitsRenewal(tab: Tab) {
    tab.phase.Responding? && tab.phase.response.Renewed?
  }

  ghost predicate OneOutstanding(w: World) {
    forall i, j :: 0 <= i < |w.tabs| && 0 <= j < |w.tabs| && Outstanding(w.tabs[i]) && Outstanding(w.tabs[j]) ==> i == j
  }

  /** Every request on its way presents the newest token of its family. */
  ghost predicate PresentsNewest(w: World) {
    forall i :: 0 <= i < |w.tabs| && w.tabs[i].phase.Requesting? && w.tabs[i].phase.sent.Some? ==>
      IsNewest(w.server, w.tabs[i].phase.sent.value)
  }

  ghost predicate Safe(w: World) {
    OneOutstanding(w) && PresentsNewest(w) && w.server.reuses == 0
  }

  ghost predicate RenewalsAreNewest(w: World) {
    forall i :: 0 <= i < |w.tabs| && AwaitsRenewal(w.tabs[i]) ==> IsNewest(w.server, w.tabs[i].phase.response.refresh)
  }

  /** A replaced token is only in the cookie while its replacement is on its way. */
  ghost predicate CookieIsNewest(w: World) {
    w.cookie.Some? ==> IsNewest(w.server, w.cookie.value) || exists i :: 0 <= i < |w.tabs| && AwaitsRenewal(w.tabs[i])
  }

  ghost predicate HolderIsOutstanding(env: Environment, w: World) {
    forall i :: 0 <= i < |w.tabs| && Outstanding(w.tabs[i]) && env.locks ==> w.holder == Some(i)
  }

  predicate Serialized(env: Environment, n: nat) {
    env.lossless && (env.locks || n == 1)
  }

  ghost predicate Inv(env: Environment, w: World) {
    Serialized(env, |w.tabs|) && Safe(w) && RenewalsAreNewest(w) && CookieIsNewest(w) && HolderIsOutstanding(env, w)
  }

  /** Steps that move no request: what they change cannot disturb the one outstanding. */
  ghost predicate Quiet(w: World, w': World) {
    && |w'.tabs| == |w.tabs| && w'.holder == w.holder && w'.server.reuses == w.server.reuses
    && (w'.cookie == w.cookie || w'.cookie == None || IsNewest(w'.server, w'.cookie.value))
    && (forall token :: IsNewest(w.server, token) ==> IsNewest(w'.server, token))
    && forall i :: 0 <= i < |w.tabs| ==> w'.tabs[i].phase == w.tabs[i].phase || !(Outstanding(w.tabs[i]) || Outstanding(w'.tabs[i]))
  }

  lemma QuietKeepsInv(env: Environment, w: World, w': World)
    requires Inv(env, w) && Quiet(w, w')
    ensures Inv(env, w')
  {
    assert OneOutstanding(w');
    assert PresentsNewest(w');
    assert RenewalsAreNewest(w');
    if w'.cookie.Some? && w'.cookie == w.cookie && !IsNewest(w.server, w.cookie.value) {
      var i :| 0 <= i < |w.tabs| && AwaitsRenewal(w.tabs[i]);
      assert AwaitsRenewal(w'.tabs[i]);
    }
  }

  lemma GrantKeepsInv(env: Environment, w: World, i: nat)
    requires Inv(env, w) && Enabled(env, w, Grant(i))
    ensures Inv(env, AfterGrant(env, w, i))
  {
    var w' := AfterGrant(env, w, i);
    if w'.tabs[i].phase.Requesting? {
      assert forall j :: 0 <= j < |w.tabs| ==> !Outstanding(w.tabs[j]);
      assert forall j :: 0 <= j < |w.tabs| ==> !AwaitsRenewal(w.tabs[j]);
    } else {
      assert Quiet(w, w');
      QuietKeepsInv(env, w, w');
    }
  }

  lemma ServeKeepsInv(env: Environment, w: World, i: nat, holderActive: bool, expired: bool, fault: bool)
    requires Inv(env, w) && Enabled(env, w, Serve(i, holderActive, expired, fault))
    ensures Inv(env, AfterServe(w, i, holderActive, expired, fault))
  {
    var w' := AfterServe(w, i, holderActive, expired, fault);
    assert Outstanding(w.tabs[i]);
    assert forall j :: 0 <= j < |w.tabs| && j != i ==> !Outstanding(w.tabs[j]) && w'.tabs[j] == w.tabs[j];
    if AwaitsRenewal(w'.tabs[i]) {
      assert IsNewest(w'.server, w'.tabs[i].phase.response.refresh);
    } else {
      assert w'.server.families == w.server.families && w'.server.reuses == 0;
      assert forall j :: 0 <= j < |w.tabs| ==> !AwaitsRenewal(w.tabs[j]);
    }
  }

  lemma ReceiveKeepsInv(env: Environment, w: World, i: nat)
    requires Inv(env, w) && Enabled(env, w, Receive(i))
    ensures Inv(env, AfterReceive(env, w, i))
  {
    var w' := AfterReceive(env, w, i);
    assert Outstanding(w.tabs[i]);
    assert forall j :: 0 <= j < |w.tabs| && j != i ==> !Outstanding(w.tabs[j]) && w'.tabs[j].phase == w.tabs[j].phase;
    assert forall j :: 0 <= j < |w.tabs| ==> !Outstanding(w'.tabs[j]);
    if AwaitsRenewal(w.tabs[i]) {
      assert IsNewest(w'.server, w'.cookie.value);
    } else {
      assert forall j :: 0 <= j < |w.tabs| ==> !AwaitsRenewal(w.tabs[j]);
    }
  }

  lemma StepKeepsInv(env: Environment, w: World, step: Step)
    requires Inv(env, w) && Enabled(env, w, step)
    ensures Inv(env, Apply(env, w, step)) && |Apply(env, w, step).tabs| == |w.tabs|
  {
    if step.Grant? {
      GrantKeepsInv(env, w, step.tab);
    } else if step.Serve? {
      ServeKeepsInv(env, w, step.tab, step.holderActive, step.expired, step.fault);
    } else if step.Receive? {
      ReceiveKeepsInv(env, w, step.tab);
    } else if !step.Lose? {
      QuietKeepsInv(env, w, Apply(env, w, step));
    }
  }

  /** In every interleaving of tabs, with any broadcast delay and any sign-in,
      sign-out or revocation: at most one request is outstanding, it presents
      the newest token of its family, and rotation never reports reuse. */
  lemma {:induction false} RefreshIsSerialized(env: Environment, w: World, steps: seq<Step>)
    requires Inv(env, w) && IsRun(env, w, steps)
    ensures Safe(Final(env, w, steps))
    decreases |steps|
  {
    if steps != [] {
      StepKeepsInv(env, w, steps[0]);
      RefreshIsSerialized(env, Apply(env, w, steps[0]), steps[1..]);
    }
  }

  /** No run of n tabs is ever answered with reuse. */
  ghost predicate NeverReuses(env: Environment, n: nat) {
    forall steps :: IsRun(env, Opened(n), steps) ==> Final(env, Opened(n), steps).server.reuses == 0
  }

  lemma Prepend(env: Environment, w: World, step: Step, rest: seq<Step>)
    requires Enabled(env, w, step) && IsRun(env, Apply(env, w, step), rest)
    ensures IsRun(env, w, [step] + rest) && Final(env, w, [step] + rest) == Final(env, Apply(env, w, step), rest)
  {
    assert ([step] + rest)[1..] == rest;
  }

  /** A signed-in browser: some token is newest, in the cookie, and nothing is in flight. */
  predicate SignedIn(w: World) {
    && w.cookie.Some? && Renewable(w.server, w.cookie.value) && w.holder == None
    && forall i :: 0 <= i < |w.tabs| ==> w.tabs[i].phase.Idle?
  }

  lemma SigningIn(env: Environment, n: nat)
    requires 1 <= n
    ensures SignedIn(Apply(env, Opened(n), SignIn(0))) && |Apply(env, Opened(n), SignIn(0)).tabs| == n
  {}

  lemma ReachRequest(env: Environment, w: World, i: nat) returns (w': World)
    requires i < |w.tabs| && w.tabs[i].phase.Idle? && (env.locks ==> w.holder == None)
    ensures Enabled(env, w, Call(i)) && Enabled(env, Apply(env, w, Call(i)), Grant(i))
    ensures w' == Apply(env, Apply(env, w, Call(i)), Grant(i))
    ensures w'.server == w.server && w'.cookie == w.cookie && |w'.tabs| == |w.tabs|
    ensures w'.tabs[i].phase == Requesting(w.cookie)
    ensures forall j :: 0 <= j < |w.tabs| && j != i ==> w'.tabs[j] == w.tabs[j]
  {
    w' := Apply(env, Apply(env, w, Call(i)), Grant(i));
  }

  /** Two tabs without a lock present the same cookie, and the second looks stolen. */
  lemma RaceWithoutLock(env: Environment, w: World) returns (steps: seq<Step>)
    requires !env.locks && SignedIn(w) && 2 <= |w.tabs|
    ensures IsRun(env, w, steps) && Final(env, w, steps).server.reuses == w.server.reuses + 1
  {
    var w2 := ReachRequest(env, w, 0);
    var w4 := ReachRequest(env, w2, 1);
    var w5 := Apply(env, w4, Serve(0, true, false, false));
    assert w5.tabs[1].phase == Requesting(w.cookie) && IsReplaced(w5.server, w.cookie.value);
    Prepend(env, w5, Serve(1, true, false, false), []);
    Prepend(env, w4, Serve(0, true, false, false), [Serve(1, true, false, false)]);
    steps := [Serve(0, true, false, false)] + [Serve(1, true, false, false)];
    PrependRequest(env, w2, w4, 1, steps);
    steps := [Call(1)] + ([Grant(1)] + steps);
    PrependRequest(env, w, w2, 0, steps);
    steps := [Call(0)] + ([Grant(0)] + steps);
  }

  lemma PrependRequest(env: Environment, w: World, w': World, i: nat, rest: seq<Step>)
    requires Enabled(env, w, Call(i)) && Enabled(env, Apply(env, w, Call(i)), Grant(i))
    requires w' == Apply(env, Apply(env, w, Call(i)), Grant(i)) && IsRun(env, w', rest)
    ensures IsRun(env, w, [Call(i)] + ([Grant(i)] + rest))
    ensures Final(env, w, [Call(i)] + ([Grant(i)] + rest)) == Final(env, w', rest)
  {
    Prepend(env, Apply(env, w, Call(i)), Grant(i), rest);
    Prepend(env, w, Call(i), [Grant(i)] + rest);
  }

  /** A request is served, its response lost and its caller told of the failure. */
  lemma LoseOne(env: Environment, w: World) returns (after: World)
    requires !env.lossless && 1 <= |w.tabs| && w.cookie.Some? && Renewable(w.server, w.cookie.value)
    requires w.tabs[0].phase == Requesting(w.cookie) && (env.locks ==> w.holder == Some(0))
    ensures Enabled(env, w, Serve(0, true, false, false))
    ensures var served := AfterServe(w, 0, true, false, false);
      && Enabled(env, served, Lose(0)) && Enabled(env, Apply(env, served, Lose(0)), Finish(0))
      && after == Apply(env, Apply(env, served, Lose(0)), Finish(0))
    ensures |after.tabs| == |w.tabs| && after.tabs[0].phase.Idle? && (env.locks ==> after.holder == None)
    ensures after.cookie == w.cookie && IsReplaced(after.server, w.cookie.value) && after.server.reuses == w.server.reuses
  {
    after := Apply(env, Apply(env, AfterServe(w, 0, true, false, false), Lose(0)), Finish(0));
  }

  /** A response lost after the server rotated leaves the replaced token in the cookie. */
  lemma LostResponse(env: Environment, w: World) returns (steps: seq<Step>)
    requires !env.lossless && SignedIn(w) && 1 <= |w.tabs|
    ensures IsRun(env, w, steps) && Final(env, w, steps).server.reuses == w.server.reuses + 1
  {
    var serve := Serve(0, true, false, false);
    var w2 := ReachRequest(env, w, 0);
    var w5 := LoseOne(env, w2);
    var w7 := ReachRequest(env, w5, 0);
    Prepend(env, w7, serve, []);
    steps := [serve];
    PrependRequest(env, w5, w7, 0, steps);
    steps := [Call(0)] + ([Grant(0)] + steps);
    PrependLoss(env, w2, w5, steps);
    steps := [serve] + ([Lose(0)] + ([Finish(0)] + steps));
    PrependRequest(env, w, w2, 0, steps);
    steps := [Call(0)] + ([Grant(0)] + steps);
  }

  lemma PrependLoss(env: Environment, w: World, w': World, rest: seq<Step>)
    requires Enabled(env, w, Serve(0, true, false, false))
    requires var served := AfterServe(w, 0, true, false, false);
      && Enabled(env, served, Lose(0)) && Enabled(env, Apply(env, served, Lose(0)), Finish(0))
      && w' == Apply(env, Apply(env, served, Lose(0)), Finish(0))
    requires IsRun(env, w', rest)
    ensures var steps := [Serve(0, true, false, false)] + ([Lose(0)] + ([Finish(0)] + rest));
      IsRun(env, w, steps) && Final(env, w, steps) == Final(env, w', rest)
  {
    var served := AfterServe(w, 0, true, false, false);
    Prepend(env, Apply(env, served, Lose(0)), Finish(0), rest);
    Prepend(env, served, Lose(0), [Finish(0)] + rest);
    Prepend(env, w, Serve(0, true, false, false), [Lose(0)] + ([Finish(0)] + rest));
  }

  /** The exact conditions: no run of n tabs reuses a token exactly when no
      response is lost and either the lock exists or there is a single tab. */
  lemma NeverReusesIffSerialized(env: Environment, n: nat)
    requires 1 <= n
    ensures NeverReuses(env, n) <==> env.lossless && (env.locks || n == 1)
  {
    if Serialized(env, n) {
      forall steps | IsRun(env, Opened(n), steps) ensures Final(env, Opened(n), steps).server.reuses == 0 {
        RefreshIsSerialized(env, Opened(n), steps);
      }
    } else {
      SigningIn(env, n);
      var w := Apply(env, Opened(n), SignIn(0));
      var steps;
      if env.lossless {
        steps := RaceWithoutLock(env, w);
      } else {
        steps := LostResponse(env, w);
      }
      Prepend(env, Opened(n), SignIn(0), steps);
      assert Final(env, Opened(n), [SignIn(0)] + steps).server.reuses == 1;
    }
  }

  /** A tab that waited while a sibling renewed, and heard of it, sends no request. */
  lemma SiblingsShareARotation(env: Environment, w: World, i: nat, j: nat)
    requires i < |w.tabs| && j < |w.tabs| && i != j && AwaitsRenewal(w.tabs[i]) && w.tabs[j].phase.Waiting?
    requires w.tabs[j].phase.before != Some(w.tabs[i].phase.response.access)
    ensures var received := AfterReceive(env, w, i);
      var last := |received.tabs[j].inbox| - 1;
      && 0 <= last && Enabled(env, received, Deliver(j, last))
      && var heard := Apply(env, received, Deliver(j, last));
      && heard.tabs[j].access == received.tabs[i].access && heard.tabs[j].phase.Waiting?
      && AfterGrant(env, heard, j).tabs[j].phase == Settled(false)
      && AfterGrant(env, heard, j).holder == heard.holder
  {}
}
