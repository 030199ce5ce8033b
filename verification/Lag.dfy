/** From member state changes to the link aggregation group: dispatch to the micro-BFD
    group that owns the link, and the actuator that takes links out of the group and puts
    them back. The backend is an abstract set of ports; a call that fails changes nothing and
    is not repeated. */
module Lag {
  import opened Bytes
  import opened Fsm
  import opened Micro

  datatype Mode = Disabled | DryRun | Enforce

  datatype MemberAction = NoAction | RemoveFromLag | AddToLag

  datatype ActuatorConfig = ActuatorConfig(mode: Mode, downAction: MemberAction, upAction: MemberAction)

  datatype Port = Port(lag: string, link: string)

  /** A state change of a micro-BFD session, and whether a call of the backend would succeed
      while it is handled. */
  datatype Report = Report(link: string, oldState: State, newState: State, discr: u32, works: bool)

  function Decision(cfg: ActuatorConfig, oldState: State, newState: State): MemberAction {
    if cfg.mode == Disabled then NoAction
    else if newState == Up then cfg.upAction
    else if oldState == Up then cfg.downAction
    else NoAction
  }

  /** The backend after one member event. */
  function Acted(backend: set<Port>, cfg: ActuatorConfig, port: Port, r: Report): set<Port> {
    if cfg.mode != Enforce || !r.works then backend
    else match Decision(cfg, r.oldState, r.newState)
      case NoAction => backend
      case RemoveFromLag => backend - {port}
      case AddToLag => backend + {port}
  }

  /** What one report does to the backend, for any configuration: in enforce mode, if the call
      works, a link that comes Up or stays there is put in or taken out as the up action says,
      one that leaves Up as the down action says; nothing else ever touches the backend. */
  lemma ActedIs(backend: set<Port>, cfg: ActuatorConfig, port: Port, r: Report)
    ensures var after := Acted(backend, cfg, port, r);
            var asked := if r.newState == Up then cfg.upAction else if r.oldState == Up then cfg.downAction else NoAction;
            && (forall q :: q != port ==> (q in after <==> q in backend))
            && (port in after <==> if cfg.mode == Enforce && r.works && asked != NoAction then asked == AddToLag else port in backend)
  {
  }

  datatype World = World(groups: map<string, Group>, backend: set<Port>)

  /** The effect of a report on the group that was found to own the link. */
  function Handled(w: World, cfg: ActuatorConfig, r: Report, lag: string): World
    requires lag in w.groups
  {
    World(w.groups[lag := Apply(w.groups[lag], Update(r.link, r.newState, r.discr))],
          Acted(w.backend, cfg, Port(lag, r.link), r))
  }

  predicate Owns(groups: map<string, Group>, lag: string, link: string) {
    lag in groups && link in groups[lag].members
  }

  /** Dispatch: some group that owns the link handles the report, or none owns it. */
  ghost predicate Dispatched(w: World, cfg: ActuatorConfig, r: Report, w': World) {
    || (exists lag :: Owns(w.groups, lag, r.link) && w' == Handled(w, cfg, r, lag))
    || (w' == w && forall lag :: !Owns(w.groups, lag, r.link))
  }

  // ---- Histories ---------------------------------------------------------

  /** The state last reported for a link; links start Down. */
  function Latest(reports: seq<Report>, link: string): State
    decreases |reports|
  {
    if reports == [] then Down
    else
      var r := reports[|reports| - 1];
      if r.link == link then r.newState else Latest(reports[..|reports| - 1], link)
  }

  /** The link came Up or left it. */
  predicate Decides(r: Report, link: string) {
    r.link == link && (r.newState == Up || r.oldState == Up)
  }

  /** The last report that asks for a change of the backend, if there was one. */
  function LastDecision(reports: seq<Report>, link: string): Option<Report>
    decreases |reports|
  {
    if reports == [] then None
    else
      var r := reports[|reports| - 1];
      if Decides(r, link) then Some(r) else LastDecision(reports[..|reports| - 1], link)
  }

  /** The last one of them for which the call succeeded. */
  function LastSuccess(reports: seq<Report>, link: string): Option<Report>
    decreases |reports|
  {
    if reports == [] then None
    else
      var r := reports[|reports| - 1];
      if Decides(r, link) && r.works then Some(r) else LastSuccess(reports[..|reports| - 1], link)
  }

  /** Whether the link should be in the backend. */
  predicate Asked(reports: seq<Report>, link: string) {
    var d := LastDecision(reports, link);
    d.Some? && d.value.newState == Up
  }

  /** Whether the link is in the backend, going by the calls that succeeded. */
  predicate Told(reports: seq<Report>, link: string, before: bool) {
    match LastSuccess(reports, link)
    case None => before
    case Some(r) => r.newState == Up
  }

  /** No report is lost and each link has one session: every report starts from the state
      last reported. */
  predicate Chained(reports: seq<Report>)
    decreases |reports|
  {
    reports == [] ||
    var rest := reports[..|reports| - 1];
    Chained(rest) && reports[|reports| - 1].oldState == Latest(rest, reports[|reports| - 1].link)
  }

  ghost predicate OneGroupPerLink(groups: map<string, Group>) {
    forall a, b, link :: Owns(groups, a, link) && Owns(groups, b, link) ==> a == b
  }

  ghost predicate IsRun(cfg: ActuatorConfig, worlds: seq<World>, reports: seq<Report>) {
    && |worlds| == |reports| + 1
    && forall i :: 0 <= i < |reports| ==> Dispatched(worlds[i], cfg, reports[i], worlds[i + 1])
  }

  const DEFAULT_ENFORCE := ActuatorConfig(Enforce, RemoveFromLag, AddToLag)

  /** Membership, and with it ownership, is not changed by reports. */
  lemma OwnershipFixed(w: World, cfg: ActuatorConfig, r: Report, w': World)
    requires Dispatched(w, cfg, r, w')
    ensures forall lag, link :: Owns(w'.groups, lag, link) <==> Owns(w.groups, lag, link)
  {
  }

  /** A member's state is the one last reported, and its link is in the backend exactly if
      the calls that succeeded say so. */
  predicate LinkOk(state: State, present: bool, before: bool, reports: seq<Report>, link: string) {
    state == Latest(reports, link) && present == Told(reports, link, before)
  }

  ghost predicate LinksOk(w: World, before: set<Port>, reports: seq<Report>) {
    forall lag, link :: Owns(w.groups, lag, link) ==>
      LinkOk(w.groups[lag].members[link].state, Port(lag, link) in w.backend, Port(lag, link) in before, reports, link)
  }

  /** What holds after some reports. */
  ghost predicate InStep(w: World, before: set<Port>, reports: seq<Report>) {
    (forall lag :: lag in w.groups ==> GroupOk(w.groups[lag])) && LinksOk(w, before, reports)
  }

  lemma OneMoreReport(reports: seq<Report>, r: Report, link: string, before: bool)
    ensures Latest(reports + [r], link) == if r.link == link then r.newState else Latest(reports, link)
    ensures Told(reports + [r], link, before) == if Decides(r, link) && r.works then r.newState == Up else Told(reports, link, before)
  {
    assert (reports + [r])[..|reports|] == reports;
  }

  lemma HandledMember(w: World, r: Report, lag: string, a: string, link: string)
    requires OneGroupPerLink(w.groups) && Owns(w.groups, lag, r.link) && Owns(w.groups, a, link)
    ensures var w' := Handled(w, DEFAULT_ENFORCE, r, lag);
            && Owns(w'.groups, a, link)
            && w'.groups[a].members[link].state == (if r.link == link then r.newState else w.groups[a].members[link].state)
            && (Port(a, link) in w'.backend
                <==> if Decides(r, link) && r.works then r.newState == Up else Port(a, link) in w.backend)
  {
  }

  lemma HandledLinks(w: World, before: set<Port>, r: Report, lag: string, reports: seq<Report>, a: string, link: string)
    requires LinksOk(w, before, reports) && OneGroupPerLink(w.groups) && Owns(w.groups, lag, r.link) && Owns(w.groups, a, link)
    ensures var w' := Handled(w, DEFAULT_ENFORCE, r, lag);
            && Owns(w'.groups, a, link)
            && LinkOk(w'.groups[a].members[link].state, Port(a, link) in w'.backend, Port(a, link) in before, reports + [r], link)
  {
    OneMoreReport(reports, r, link, Port(a, link) in before);
    HandledMember(w, r, lag, a, link);
  }

  lemma HandledKeeps(w: World, before: set<Port>, r: Report, lag: string, reports: seq<Report>)
    requires InStep(w, before, reports) && OneGroupPerLink(w.groups) && Owns(w.groups, lag, r.link)
    ensures InStep(Handled(w, DEFAULT_ENFORCE, r, lag), before, reports + [r])
  {
    var w' := Handled(w, DEFAULT_ENFORCE, r, lag);
    ApplyKeeps(w.groups[lag], Update(r.link, r.newState, r.discr));
    forall a, link | Owns(w'.groups, a, link)
      ensures LinkOk(w'.groups[a].members[link].state, Port(a, link) in w'.backend, Port(a, link) in before, reports + [r], link)
    {
      assert Owns(w.groups, a, link);
      HandledLinks(w, before, r, lag, reports, a, link);
    }
  }

  lemma UnownedKeeps(w: World, before: set<Port>, r: Report, reports: seq<Report>)
    requires InStep(w, before, reports) && forall lag :: !Owns(w.groups, lag, r.link)
    ensures InStep(w, before, reports + [r])
  {
  }

  predicate AllFresh(groups: map<string, Group>) {
    forall lag :: lag in groups ==>
      GroupOk(groups[lag]) && forall link :: link in groups[lag].members ==> groups[lag].members[link].state == Down
  }

  /** In enforce mode with the default actions, after every history of reports, whichever
      calls of the backend failed: each member has the state last reported, each link is in
      the backend exactly if the calls that succeeded say so, and every group's counters are
      right. */
  lemma {:induction false} BackendFollowsReports(worlds: seq<World>, reports: seq<Report>, n: nat)
    requires IsRun(DEFAULT_ENFORCE, worlds, reports) && n <= |reports|
    requires AllFresh(worlds[0].groups) && OneGroupPerLink(worlds[0].groups)
    ensures InStep(worlds[n], worlds[0].backend, reports[..n]) && OneGroupPerLink(worlds[n].groups)
  {
    if n > 0 {
      var r, before := reports[n - 1], reports[..n - 1];
      assert reports[..n][..n - 1] == before && reports[..n] == before + [r];
      BackendFollowsReports(worlds, reports, n - 1);
      assert Dispatched(worlds[n - 1], DEFAULT_ENFORCE, r, worlds[n - 1 + 1]);
      OwnershipFixed(worlds[n - 1], DEFAULT_ENFORCE, r, worlds[n]);
      NextInStep(worlds[n - 1], worlds[0].backend, r, worlds[n], before);
    }
  }

  lemma NextInStep(w: World, before: set<Port>, r: Report, w': World, reports: seq<Report>)
    requires InStep(w, before, reports) && OneGroupPerLink(w.groups) && Dispatched(w, DEFAULT_ENFORCE, r, w')
    ensures InStep(w', before, reports + [r])
  {
    if lag :| Owns(w.groups, lag, r.link) && w' == Handled(w, DEFAULT_ENFORCE, r, lag) {
      HandledKeeps(w, before, r, lag, reports);
    } else {
      UnownedKeeps(w, before, r, reports);
    }
  }

  /** The state last reported is Up exactly if the last decision was to add the link. */
  lemma {:induction false} DecisionIsState(reports: seq<Report>, link: string)
    requires Chained(reports)
    ensures Latest(reports, link) == Up <==> Asked(reports, link)
    decreases |reports|
  {
    if reports != [] {
      DecisionIsState(reports[..|reports| - 1], link);
    }
  }

  lemma {:induction false} SuccessIsDecision(reports: seq<Report>, link: string)
    requires LastDecision(reports, link).Some? && LastDecision(reports, link).value.works
    ensures LastSuccess(reports, link) == LastDecision(reports, link)
    decreases |reports|
  {
    if !Decides(reports[|reports| - 1], link) {
      SuccessIsDecision(reports[..|reports| - 1], link);
    }
  }

  /** If no report was dropped, a link is in the backend exactly while it is Up, if and only
      if the last call that succeeded for it asked for the same as the last one made; in
      particular if the last one succeeded. */
  lemma BackendFollowsState(worlds: seq<World>, reports: seq<Report>, n: nat, lag: string, link: string)
    requires IsRun(DEFAULT_ENFORCE, worlds, reports) && n <= |reports| && Chained(reports[..n])
    requires AllFresh(worlds[0].groups) && OneGroupPerLink(worlds[0].groups) && Owns(worlds[n].groups, lag, link)
    ensures (Port(lag, link) in worlds[n].backend <==> worlds[n].groups[lag].members[link].state == Up)
            <==> Told(reports[..n], link, Port(lag, link) in worlds[0].backend) == Asked(reports[..n], link)
    ensures var d := LastDecision(reports[..n], link);
            d.Some? && d.value.works ==>
              (Port(lag, link) in worlds[n].backend <==> worlds[n].groups[lag].members[link].state == Up)
  {
    BackendFollowsReports(worlds, reports, n);
    DecisionIsState(reports[..n], link);
    var d := LastDecision(reports[..n], link);
    if d.Some? && d.value.works {
      SuccessIsDecision(reports[..n], link);
    }
  }

  /** A link that goes Down while the call fails stays in the backend. */
  lemma FailedCallLeavesLink(reports: seq<Report>, link: string, discr: u32, before: bool)
    requires Chained(reports) && Latest(reports, link) == Up && Told(reports, link, before)
    ensures var next := reports + [Report(link, Up, Down, discr, false)];
            Chained(next) && Latest(next, link) == Down && Told(next, link, before) && !Asked(next, link)
  {
    var next := reports + [Report(link, Up, Down, discr, false)];
    assert next[..|next| - 1] == reports;
  }

  /** Outside enforce mode the backend is never touched. */
  lemma {:induction false} OnlyEnforceActs(cfg: ActuatorConfig, worlds: seq<World>, reports: seq<Report>, n: nat)
    requires cfg.mode != Enforce && IsRun(cfg, worlds, reports) && n <= |reports|
    ensures worlds[n].backend == worlds[0].backend
  {
    if n > 0 {
      OnlyEnforceActs(cfg, worlds, reports, n - 1);
      assert Dispatched(worlds[n - 1], cfg, reports[n - 1], worlds[n - 1 + 1]);
    }
  }

  // ---- The dispatcher as an object ---------------------------------------

  class Dispatcher {
    const cfg: ActuatorConfig
    var groups: map<string, MicroGroup>
    var backend: set<Port>

    /** Each group is registered under its own interface name. */
    ghost predicate Valid()
      reads this
    {
      forall lag :: lag in groups ==> groups[lag].lag == lag
    }

    ghost function View(): World
      reads this, groups.Values
    {
      World(map lag | lag in groups :: groups[lag].View(), backend)
    }

    constructor (cfg: ActuatorConfig)
      ensures Valid() && this.cfg == cfg && groups == map[] && backend == {}
    {
      this.cfg, groups, backend := cfg, map[], {};
    }

    method HandleMemberEvent(lag: string, r: Report)
      modifies this`backend
      ensures backend == Acted(old(backend), cfg, Port(lag, r.link), r)
    {
      var decision := Decision(cfg, r.oldState, r.newState);
      if decision == NoAction {
        return;
      }
      if cfg.mode != Enforce || !r.works {
        return;
      }
      match decision {
        case RemoveFromLag => backend := backend - {Port(lag, r.link)};
        case AddToLag => backend := backend + {Port(lag, r.link)};
        case NoAction =>
      }
    }

    /** dispatchMicroBFD: the first group that knows the link, in whatever order the map
        yields them. */
    method Dispatch(r: Report)
      requires Valid()
      modifies this`backend, groups.Values
      ensures Valid() && Dispatched(old(View()), cfg, r, View())
    {
      var todo := groups.Keys;
      ghost var before := View();
      while todo != {}
        invariant todo <= groups.Keys && View() == before
        invariant forall lag :: lag in groups && lag !in todo ==> r.link !in groups[lag].members
        decreases todo
      {
        var lag :| lag in todo;
        var owned := TryGroup(lag, r);
        if owned {
          HandleMemberEvent(lag, r);
          assert Owns(before.groups, lag, r.link) && View() == Handled(before, cfg, r, lag);
          return;
        }
        todo := todo - {lag};
      }
      assert forall lag :: !Owns(before.groups, lag, r.link);
    }

    method TryGroup(lag: string, r: Report) returns (owned: bool)
      requires Valid() && lag in groups
      modifies groups[lag]
      ensures owned == (r.link in old(groups[lag].members))
      ensures var g := old(View()).groups;
              View() == old(View()).(groups := g[lag := Apply(g[lag], Update(r.link, r.newState, r.discr))])
      ensures !owned ==> View() == old(View())
    {
      ghost var before := View();
      var _, err := groups[lag].UpdateMemberState(r.link, r.newState, r.discr);
      owned := err.None?;
      forall a | a in groups && a != lag
        ensures groups[a].View() == before.groups[a]
      {
        assert groups[a] != groups[lag];
      }
    }
  }
}
