/** What one cycle decides for the groups of one cluster group, as a function of what it read. */
module Policy {
  import opened Model

  datatype RoleTimes = RoleTimes(check: int, converge: int, retry: int, exec: int)

  datatype Config = Config(
    automatic: bool,
    clusterGroups: set<string>,
    managementGroups: map<string, map<string, seq<string>>>,
    roles: map<string, RoleTimes>)

  /** What a cycle knows of one group. Priorities are as `ReadPriority` gives them: positive. */
  datatype GroupRuntime = GroupRuntime(
    name: string, priority: nat, desired: DesiredState, managed: bool, actual: ActualState, health: HealthStatus)
  {
    predicate Available() { health != HealthFailed && actual != ActualFailed }

    predicate Eligible() { managed && Available() }

    predicate Owner() { desired == DesiredActive && managed }

    predicate Draining() {
      desired == DesiredPassive && (actual == ActualActive || actual == ActualStopping || actual == ActualStarting)
    }

    /** The state that the wait of a switchover is for. */
    predicate Stopped() { actual == ActualPassive || actual == ActualFailed }
  }

  predicate Distinct(groups: seq<GroupRuntime>) {
    forall i, j :: 0 <= i < j < |groups| ==> groups[i].name != groups[j].name
  }

  /** The switchover memory for one cluster group: when the drain of a group began, and the group
      that the drain under way makes room for. */
  datatype Memory = Memory(started: map<string, int>, target: Option<string>)

  const NO_MEMORY := Memory(map[], None)

  /** Documents a cycle asks for: desired states (always managed), priorities, and its new memory. */
  datatype Plan = Plan(desired: map<string, DesiredState>, priorities: map<string, nat>, memory: Memory)

  function Nothing(mem: Memory): Plan { Plan(map[], map[], mem) }

  // ----- Choices -----

  ghost function First(groups: seq<GroupRuntime>, p: GroupRuntime -> bool): (r: Option<nat>)
    ensures r.None? ==> forall g <- groups :: !p(g)
    ensures r.Some? ==> r.value < |groups| && p(groups[r.value]) && forall j :: 0 <= j < r.value ==> !p(groups[j])
  {
    if exists i :: 0 <= i < |groups| && p(groups[i]) && forall j :: 0 <= j < i ==> !p(groups[j])
    then
      var i :| 0 <= i < |groups| && p(groups[i]) && forall j :: 0 <= j < i ==> !p(groups[j]);
      Some(i)
    else
      NoFirst(groups, p);
      None
  }

  lemma {:induction false} NoFirst(groups: seq<GroupRuntime>, p: GroupRuntime -> bool)
    requires !exists i :: 0 <= i < |groups| && p(groups[i]) && forall j :: 0 <= j < i ==> !p(groups[j])
    ensures forall g <- groups :: !p(g)
  {
    for i := 0 to |groups|
      invariant forall j :: 0 <= j < i ==> !p(groups[j])
    {}
  }

  /** Which group owns the service: the first managed group to be active; failing that, the first
      group that was told to be passive and still reports otherwise, managed or not. */
  ghost function CurrentActive(groups: seq<GroupRuntime>): (r: Option<nat>)
    ensures r.Some? ==> r.value < |groups|
  {
    match First(groups, (g: GroupRuntime) => g.Owner())
    case Some(i) => Some(i)
    case None => First(groups, (g: GroupRuntime) => g.Draining())
  }

  lemma CurrentActiveMeans(groups: seq<GroupRuntime>)
    ensures match CurrentActive(groups)
      case None => forall g <- groups :: !g.Owner() && !g.Draining()
      case Some(c) => groups[c].Owner() || (groups[c].Draining() && forall g <- groups :: !g.Owner())
  {
    var owner := (g: GroupRuntime) => g.Owner();
    var draining := (g: GroupRuntime) => g.Draining();
    assert forall g <- groups :: owner(g) == g.Owner() && draining(g) == g.Draining();
    assert First(groups, owner).Some? || First(groups, owner).None?;
  }

  lemma SameName(groups: seq<GroupRuntime>, g: GroupRuntime, h: GroupRuntime)
    requires Distinct(groups) && g in groups && h in groups && g.name == h.name
    ensures g == h
  {
    var i :| 0 <= i < |groups| && groups[i] == g;
    var j :| 0 <= j < |groups| && groups[j] == h;
  }

  ghost predicate IsTarget(groups: seq<GroupRuntime>, i: nat) {
    && i < |groups| && groups[i].Eligible()
    && (forall j :: 0 <= j < |groups| && groups[j].Eligible() ==> groups[i].priority <= groups[j].priority)
    && (forall j :: 0 <= j < i && groups[j].Eligible() ==> groups[i].priority < groups[j].priority)
  }

  lemma TargetExists(groups: seq<GroupRuntime>)
    requires exists g <- groups :: g.Eligible()
    ensures exists i: nat :: IsTarget(groups, i)
  {
    var best: Option<nat> := None;
    for i := 0 to |groups|
      invariant best.None? <==> forall g <- groups[..i] :: !g.Eligible()
      invariant best.Some? ==> IsTarget(groups[..i], best.value)
    {
      if groups[i].Eligible() && (best.None? || groups[i].priority < groups[best.value].priority) {
        best := Some(i);
      }
    }
    assert groups[..|groups|] == groups;
  }

  /** The available managed group of the best priority; the first in the listing among equals. */
  ghost function Target(groups: seq<GroupRuntime>): (r: Option<nat>)
    ensures r.None? <==> forall g <- groups :: !g.Eligible()
    ensures r.Some? ==> IsTarget(groups, r.value)
  {
    if exists g <- groups :: g.Eligible() then
      TargetExists(groups);
      var i: nat :| IsTarget(groups, i);
      Some(i)
    else None
  }

  predicate AllSame(groups: seq<GroupRuntime>) {
    forall i :: 0 <= i < |groups| ==> groups[i].priority == groups[0].priority
  }

  // ----- Priority swap -----

  ghost predicate IsMin(priorities: set<nat>, m: nat) {
    m in priorities && forall p <- priorities :: m <= p
  }

  lemma {:induction false} MinExists(priorities: set<nat>)
    requires priorities != {}
    ensures exists m :: IsMin(priorities, m)
  {
    var p :| p in priorities;
    if !IsMin(priorities, p) {
      var q :| q in priorities && q < p;
      var lower := set x | x in priorities && x < p;
      assert q in lower && lower < priorities;
      MinExists(lower);
      var m :| IsMin(lower, m);
      forall x <- priorities ensures m <= x { assert x < p ==> x in lower; }
      assert IsMin(priorities, m);
    }
  }

  ghost function Min(priorities: set<nat>): (m: nat)
    requires priorities != {}
    ensures IsMin(priorities, m)
  {
    MinExists(priorities);
    var m :| IsMin(priorities, m);
    m
  }

  ghost function Priorities(groups: seq<GroupRuntime>): set<nat> {
    set g <- groups :: g.priority
  }

  ghost function AvailablePriorities(groups: seq<GroupRuntime>): set<nat> {
    set g <- groups | g.Available() :: g.priority
  }

  /** The top priority, and the best priority of an available group. */
  ghost function Top(groups: seq<GroupRuntime>): nat
    requires groups != []
  {
    assert groups[0].priority in Priorities(groups);
    Min(Priorities(groups))
  }

  ghost function NextBest(groups: seq<GroupRuntime>): nat
    requires exists g <- groups :: g.Available()
  {
    var g :| g in groups && g.Available();
    assert g.priority in AvailablePriorities(groups);
    Min(AvailablePriorities(groups))
  }

  /** A managed group of the top priority is unavailable, and some group is available. */
  ghost predicate SwapFires(groups: seq<GroupRuntime>) {
    && (exists g <- groups :: g.Available())
    && exists g <- groups :: g.priority == Top(groups) && !g.Available() && g.managed
  }

  ghost predicate MovesDown(groups: seq<GroupRuntime>, g: GroupRuntime)
    requires SwapFires(groups)
  {
    g.priority == Top(groups) && !g.Available()
  }

  ghost predicate MovesUp(groups: seq<GroupRuntime>, g: GroupRuntime)
    requires SwapFires(groups)
  {
    g.priority == NextBest(groups) && g.Available()
  }

  ghost function SwappedPriority(groups: seq<GroupRuntime>, g: GroupRuntime): nat
    requires SwapFires(groups)
  {
    if MovesDown(groups, g) then NextBest(groups) else if MovesUp(groups, g) then Top(groups) else g.priority
  }

  ghost function Moved(groups: seq<GroupRuntime>): set<string>
    requires SwapFires(groups)
  {
    set g <- groups | MovesDown(groups, g) || MovesUp(groups, g) :: g.name
  }

  ghost function Named(groups: seq<GroupRuntime>, n: string): (g: GroupRuntime)
    requires exists g <- groups :: g.name == n
    ensures g in groups && g.name == n
  {
    var g :| g in groups && g.name == n;
    g
  }

  ghost function SwapPlan(groups: seq<GroupRuntime>): map<string, nat>
    requires SwapFires(groups)
  {
    map n | n in Moved(groups) :: SwappedPriority(groups, Named(groups, n))
  }

  lemma SwapPlanAt(groups: seq<GroupRuntime>, g: GroupRuntime)
    requires SwapFires(groups) && Distinct(groups) && g in groups
    ensures g.name in SwapPlan(groups) <==> MovesDown(groups, g) || MovesUp(groups, g)
    ensures g.name in SwapPlan(groups) ==> SwapPlan(groups)[g.name] == SwappedPriority(groups, g)
  {
    hide SwapFires, MovesDown, MovesUp, SwappedPriority;
    SameName(groups, g, Named(groups, g.name));
    if g.name in Moved(groups) {
      var h :| h in groups && (MovesDown(groups, h) || MovesUp(groups, h)) && h.name == g.name;
      SameName(groups, g, h);
    }
  }

  // ----- Switchover -----

  ghost function ManagedNames(groups: seq<GroupRuntime>): set<string> {
    set g <- groups | g.managed :: g.name
  }

  ghost function AllActive(groups: seq<GroupRuntime>): map<string, DesiredState> {
    map n | n in ManagedNames(groups) :: DesiredActive
  }

  ghost function OthersPassive(groups: seq<GroupRuntime>, target: string): map<string, DesiredState> {
    map n | n in ManagedNames(groups) && n != target :: DesiredPassive
  }

  lemma OthersPassiveAt(groups: seq<GroupRuntime>, target: string, g: GroupRuntime)
    requires Distinct(groups) && g in groups
    ensures g.name in ManagedNames(groups) <==> g.managed
    ensures g.name in OthersPassive(groups, target) <==> g.managed && g.name != target
    ensures g.name in OthersPassive(groups, target) ==> OthersPassive(groups, target)[g.name] == DesiredPassive
    ensures target !in OthersPassive(groups, target)
  {
    if g.name in ManagedNames(groups) {
      var h :| h in groups && h.managed && h.name == g.name;
      SameName(groups, g, h);
    }
  }

  /** What phase 1 remembers: the start and the target of a new drain; nothing once it timed out. */
  function DrainMemory(mem: Memory, draining: string, target: string, now: int, timeout: int): Memory {
    if draining !in mem.started then Memory(mem.started[draining := now], Some(target))
    else if now - mem.started[draining] > timeout then Memory(mem.started - {draining}, None)
    else mem
  }

  ghost function SwitchPlan(cfg: Config, cg: string, groups: seq<GroupRuntime>, target: string, mem: Memory, now: int): Plan {
    match CurrentActive(groups)
    case Some(c) =>
      var current := groups[c];
      if current.name == target then
        Plan(OthersPassive(groups, target), map[], mem)
      else if !current.Stopped() then
        Plan(map[current.name := DesiredPassive], map[],
             DrainMemory(mem, current.name, target, now, SwitchoverTimeout(cfg, cg, current.name)))
      else
        Plan(OthersPassive(groups, target)[target := DesiredActive], map[], Memory(mem.started - {current.name}, None))
    case None =>
      if mem.target != Some(target) then Nothing(mem)
      else Plan(OthersPassive(groups, target)[target := DesiredActive], map[], mem.(target := None))
  }

  /** The whole policy of one cycle. */
  ghost function PolicyPlan(cfg: Config, cg: string, groups: seq<GroupRuntime>, mem: Memory, now: int): Plan
    requires Distinct(groups)
  {
    if groups == [] then Nothing(mem)
    else if cfg.automatic && SwapFires(groups) then Plan(map[], SwapPlan(groups), mem)
    else if AllSame(groups) then Plan(AllActive(groups), map[], mem)
    else match Target(groups)
      case None => Nothing(mem)
      case Some(t) => SwitchPlan(cfg, cg, groups, groups[t].name, mem, now)
  }

  // ----- Timeout of a drain -----

  // Durations and times are in nanoseconds.
  const DEFAULT_TIMEOUT := 30_000_000_000

  function RoleTime(t: RoleTimes): int { t.check + t.converge + t.exec }

  /** The longest time of the listed roles that have a definition; 0 if none is positive. */
  function LongestRole(cfg: Config, roles: seq<string>): (m: int)
    ensures m >= 0
    ensures forall r <- roles | r in cfg.roles :: RoleTime(cfg.roles[r]) <= m
    ensures m > 0 ==> exists r <- roles :: r in cfg.roles && RoleTime(cfg.roles[r]) == m
  {
    if roles == [] then 0 else
      var last := roles[|roles| - 1];
      var rest := LongestRole(cfg, roles[..|roles| - 1]);
      if last in cfg.roles && RoleTime(cfg.roles[last]) > rest then RoleTime(cfg.roles[last]) else rest
  }

  function RolesOf(cfg: Config, cg: string, mg: string): seq<string> {
    if cg in cfg.managementGroups && mg in cfg.managementGroups[cg] then cfg.managementGroups[cg][mg] else []
  }

  function SwitchoverTimeout(cfg: Config, cg: string, mg: string): int {
    var longest := LongestRole(cfg, RolesOf(cfg, cg, mg));
    if longest == 0 then DEFAULT_TIMEOUT else longest
  }
}
