/** Concrete inputs: the ones on which the code falls short of what is expected of it, and ones that
    meet the hypotheses of the theorems about whole runs. */
module Scenarios {
  import opened Model
  import opened Aggregation
  import opened Policy
  import opened Cycle
  import opened Commands
  import opened Safety
  import opened Progress
  import opened Switchover
  import opened SwapAlgebra
  import opened Failover
  import opened Stabilisation
  import opened Levelling
  import opened CommandEffects
  import Admission
  import CommandQueue
  import Paths
  import Tree
  import Store
  import Refinement

  // ----- One cycle -----

  /** A start left over from an earlier drain: the owner is told to stop, and once it has, the
      target is not activated, however the two cycles are timed. */
  lemma StaleStartStrands(cfg: Config, cg: string, now: int, later: int)
    ensures var owner := GroupRuntime("a", 2, DesiredActive, true, ActualActive, HealthOK);
      var other := GroupRuntime("b", 1, DesiredPassive, true, ActualPassive, HealthOK);
      var drain := PolicyPlan(cfg, cg, [owner, other], Memory(map["a" := 0], None), now);
      && drain.desired == map["a" := DesiredPassive]
      && PolicyPlan(cfg, cg, [owner.(desired := DesiredPassive, actual := ActualPassive), other], drain.memory, later) == Nothing(drain.memory)
  {
    hide First, CurrentActive, SwapPlan, OthersPassive, SwitchoverTimeout;
    var owner := GroupRuntime("a", 2, DesiredActive, true, ActualActive, HealthOK);
    var other := GroupRuntime("b", 1, DesiredPassive, true, ActualPassive, HealthOK);
    var mem := Memory(map["a" := 0], None);
    var first := [owner, other];
    SwitchesToSecond(cfg, owner, other);
    SwitchCycle(cfg, cg, first, "b", mem, now);
    HandOver(cfg, cg, first, "b", mem, now, owner);
    var drained := owner.(desired := DesiredPassive, actual := ActualPassive);
    var drain := PolicyPlan(cfg, cg, first, mem, now);
    SwitchesToSecond(cfg, drained, other);
    SwitchCycle(cfg, cg, [drained, other], "b", drain.memory, later);
    Vacant(cfg, cg, [drained, other], "b", drain.memory, later);
  }

  lemma SwitchesToSecond(cfg: Config, g: GroupRuntime, t: GroupRuntime)
    requires t.Eligible() && t.priority < g.priority && g.name != t.name
    ensures Distinct([g, t]) && SwitchesTo(cfg, [g, t], t.name)
  {
    hide SwapFires, Target, Top;
    var groups := [g, t];
    assert groups[1] in groups;
    IsTop(groups, t.priority);
    NoSwapDue(groups);
    assert groups[0].priority != groups[1].priority;
    assert groups[Target(groups).value].Eligible();
    assert IsTarget(groups, Target(groups).value);
  }

  // ----- Drains that nobody takes over from -----

  /** The group that a cycle switches to, among three that are managed and not of one priority. */
  lemma SwitchesToIndex(cfg: Config, groups: seq<GroupRuntime>, t: nat)
    requires IsTarget(groups, t) && !AllSame(groups) && !(cfg.automatic && SwapFires(groups))
    ensures SwitchesTo(cfg, groups, groups[t].name)
  {
    hide SwapFires, AllSame;
    OneTarget(groups, t);
  }

  /** The first group in the listing that is still running, where nobody owns the service. */
  lemma FirstInTheWay(cfg: Config, cg: string, groups: seq<GroupRuntime>, target: string, mem: Memory, now: int, i: nat)
    requires i < |groups| && NoOwner(groups) && groups[i].Draining() && groups[i].name != target
    requires forall j :: 0 <= j < i ==> !groups[j].Draining()
    ensures SwitchPlan(cfg, cg, groups, target, mem, now) ==
      Plan(map[groups[i].name := DesiredPassive], map[], DrainMemory(mem, groups[i].name, target, now, Policy.SwitchoverTimeout(cfg, cg, groups[i].name)))
  {
    hide DrainMemory, Policy.SwitchoverTimeout, OthersPassive;
    var owner := (g: GroupRuntime) => g.Owner();
    var draining := (g: GroupRuntime) => g.Draining();
    assert forall g <- groups :: owner(g) == g.Owner() && draining(g) == g.Draining();
    assert First(groups, owner).None?;
    assert groups[i] in groups;
    assert First(groups, draining) == Some(i);
  }

  function Listed3(a: GroupRuntime, b: GroupRuntime, c: GroupRuntime): seq<GroupRuntime> { [a, b, c] }

  /** Automatic mode: the successor fails while the old owner drains. The swap that follows makes a
      third, available group the target, and the record still names the failed one. */
  lemma SuccessorFailsDuringDrain(cfg: Config, cg: string, now: int, later: int, last: int)
    requires cfg.automatic
    ensures var a := GroupRuntime("a", 3, DesiredActive, true, ActualActive, HealthOK);
      var b := GroupRuntime("b", 1, DesiredPassive, true, ActualPassive, HealthOK);
      var c := GroupRuntime("c", 2, DesiredPassive, true, ActualPassive, HealthOK);
      var stopped, failed := a.(desired := DesiredPassive, actual := ActualPassive), b.(actual := ActualFailed, health := HealthFailed);
      var drain := PolicyPlan(cfg, cg, Listed3(a, b, c), NO_MEMORY, now);
      var swap := PolicyPlan(cfg, cg, Listed3(stopped, failed, c), drain.memory, later);
      && drain.desired == map["a" := DesiredPassive]
      && SwapFires(Listed3(stopped, failed, c)) && swap.desired == map[] && swap.memory == drain.memory
      && AfterSwap(Listed3(stopped, failed, c)) == Listed3(stopped, failed.(priority := 2), c.(priority := 1))
      && PolicyPlan(cfg, cg, Listed3(stopped, failed.(priority := 2), c.(priority := 1)), swap.memory, last) == Nothing(swap.memory)
  {
    hide SwapPlan, PolicyPlan, SwapFires, AfterSwap;
    var a := GroupRuntime("a", 3, DesiredActive, true, ActualActive, HealthOK);
    var b := GroupRuntime("b", 1, DesiredPassive, true, ActualPassive, HealthOK);
    var c := GroupRuntime("c", 2, DesiredPassive, true, ActualPassive, HealthOK);
    var stopped, failed := a.(desired := DesiredPassive, actual := ActualPassive), b.(actual := ActualFailed, health := HealthFailed);
    OwnerDrains(cfg, cg, a, b, c, now);
    SwapOfThree(stopped, failed, c);
    var groups := Listed3(stopped, failed, c);
    SwapPlanIs(cfg, cg, groups, PolicyPlan(cfg, cg, Listed3(a, b, c), NO_MEMORY, now).memory, later);
    NobodyTakesOver(cfg, cg, stopped, failed.(priority := 2), c.(priority := 1), PolicyPlan(cfg, cg, Listed3(a, b, c), NO_MEMORY, now).memory, last);
  }

  /** The first owns the service, and the second is the best available one. */
  lemma OwnerDrains(cfg: Config, cg: string, a: GroupRuntime, b: GroupRuntime, c: GroupRuntime, now: int)
    requires Distinct(Listed3(a, b, c)) && a.Owner() && !a.Stopped() && a.Available() && !b.Owner() && !c.Owner() && b.Eligible()
    requires b.priority < a.priority && (c.Eligible() ==> b.priority < c.priority)
    requires cfg.automatic ==> b.priority < c.priority
    ensures PolicyPlan(cfg, cg, Listed3(a, b, c), NO_MEMORY, now) ==
      Plan(map[a.name := DesiredPassive], map[], Memory(map[a.name := now], Some(b.name)))
  {
    hide SwapFires, SwapPlan, OthersPassive, Policy.SwitchoverTimeout, Target, Top;
    var groups := Listed3(a, b, c);
    assert groups[0] == a && groups[1] == b && groups[2] == c;
    assert groups[1] in groups && groups[0].priority != groups[1].priority;
    if cfg.automatic { IsTop(groups, b.priority); NoSwapDue(groups); }
    assert IsTarget(groups, 1);
    SwitchesToIndex(cfg, groups, 1);
    SwitchCycle(cfg, cg, groups, b.name, NO_MEMORY, now);
    HandOver(cfg, cg, groups, b.name, NO_MEMORY, now, a);
  }

  lemma SwapOfThree(a: GroupRuntime, b: GroupRuntime, c: GroupRuntime)
    requires a.Available() && !b.Available() && c.Available() && b.managed && b.priority < c.priority < a.priority
    ensures SwapFires(Listed3(a, b, c))
    ensures AfterSwap(Listed3(a, b, c)) == Listed3(a, b.(priority := c.priority), c.(priority := b.priority))
  {
    hide Top, NextBest;
    var groups := Listed3(a, b, c);
    assert groups[0] == a && groups[1] == b && groups[2] == c;
    assert a in groups && b in groups && c in groups;
    IsTop(groups, b.priority);
    NextBestIsLeast(groups);
  }

  /** Nobody owns the service or is running, the third is the best available one, and the record
      names another. */
  lemma NobodyTakesOver(cfg: Config, cg: string, a: GroupRuntime, b: GroupRuntime, c: GroupRuntime, mem: Memory, now: int)
    requires Distinct(Listed3(a, b, c)) && c.Eligible() && c.priority < a.priority && c.priority < b.priority
    requires forall g <- Listed3(a, b, c) :: !g.Owner() && !g.Draining()
    requires mem.target != Some(c.name)
    ensures PolicyPlan(cfg, cg, Listed3(a, b, c), mem, now) == Nothing(mem)
  {
    hide SwapFires, SwapPlan, OthersPassive, Target, Top;
    var groups := Listed3(a, b, c);
    assert groups[0] == a && groups[1] == b && groups[2] == c;
    assert groups[2] in groups && groups[0].priority != groups[2].priority;
    IsTop(groups, c.priority);
    NoSwapDue(groups);
    assert IsTarget(groups, 2);
    SwitchesToIndex(cfg, groups, 2);
    SwitchCycle(cfg, cg, groups, c.name, mem, now);
    Vacant(cfg, cg, groups, c.name, mem, now);
  }

  /** Manual mode: a better group recovers while the old owner drains for another one. In the end all
      three are well and passive, and nobody is activated. */
  lemma BetterGroupRecoversDuringDrain(cfg: Config, cg: string, now: int, later: int)
    requires !cfg.automatic
    ensures var a := GroupRuntime("a", 3, DesiredActive, true, ActualActive, HealthOK);
      var b := GroupRuntime("b", 2, DesiredPassive, true, ActualPassive, HealthOK);
      var c := GroupRuntime("c", 1, DesiredPassive, true, ActualFailed, HealthFailed);
      var stopped, recovered := a.(desired := DesiredPassive, actual := ActualPassive), c.(actual := ActualPassive, health := HealthOK);
      var drain := PolicyPlan(cfg, cg, Listed3(a, b, c), NO_MEMORY, now);
      && drain.desired == map["a" := DesiredPassive]
      && PolicyPlan(cfg, cg, Listed3(stopped, b, recovered), drain.memory, later) == Nothing(drain.memory)
  {
    hide PolicyPlan;
    var a := GroupRuntime("a", 3, DesiredActive, true, ActualActive, HealthOK);
    var b := GroupRuntime("b", 2, DesiredPassive, true, ActualPassive, HealthOK);
    var c := GroupRuntime("c", 1, DesiredPassive, true, ActualFailed, HealthFailed);
    OwnerDrains(cfg, cg, a, b, c, now);
    var drain := PolicyPlan(cfg, cg, Listed3(a, b, c), NO_MEMORY, now);
    NobodyTakesOver(cfg, cg, a.(desired := DesiredPassive, actual := ActualPassive), b, c.(actual := ActualPassive, health := HealthOK), drain.memory, later);
  }

  /** Group "a" is to stop within a nanosecond, group "b" within a hundred. */
  const TIMES := Config(false, {"g"}, map["g" := map["a" := ["quick"], "b" := ["slow"]]],
                        map["quick" := RoleTimes(0, 1, 1, 0), "slow" := RoleTimes(0, 100, 1, 0)])

  lemma Timeouts()
    ensures Policy.SwitchoverTimeout(TIMES, "g", "a") == 1 && Policy.SwitchoverTimeout(TIMES, "g", "b") == 100
  {
    assert RolesOf(TIMES, "g", "a") == ["quick"] && RolesOf(TIMES, "g", "b") == ["slow"];
    assert RoleTime(TIMES.roles["quick"]) == 1 && RoleTime(TIMES.roles["slow"]) == 100;
    hide TIMES, RolesOf;
    OneRoleTimeout(TIMES, "g", "a", "quick");
    OneRoleTimeout(TIMES, "g", "b", "slow");
  }

  lemma OneRoleTimeout(cfg: Config, cg: string, mg: string, role: string)
    requires RolesOf(cfg, cg, mg) == [role] && role in cfg.roles && RoleTime(cfg.roles[role]) > 0
    ensures Policy.SwitchoverTimeout(cfg, cg, mg) == RoleTime(cfg.roles[role])
  {
    assert [role][..0] == [];
  }

  /** One target throughout, and the owner "b" drains within its own timeout. But "a", which was to be
      passive before, outlasts its timeout, and that drops the record of the whole switchover. */
  lemma OtherDrainOutlasts()
    ensures var a := GroupRuntime("a", 3, DesiredPassive, true, ActualStopping, HealthWarning);
      var b := GroupRuntime("b", 2, DesiredActive, true, ActualActive, HealthOK);
      var c := GroupRuntime("c", 1, DesiredPassive, true, ActualPassive, HealthOK);
      var stopping, halted, stopped := b.(desired := DesiredPassive, actual := ActualStopping, health := HealthWarning),
        a.(actual := ActualPassive, health := HealthOK), b.(desired := DesiredPassive, actual := ActualPassive);
      var first := PolicyPlan(TIMES, "g", Listed3(a, b, c), NO_MEMORY, 0);
      var second := PolicyPlan(TIMES, "g", Listed3(a, stopping, c), first.memory, 1);
      var third := PolicyPlan(TIMES, "g", Listed3(a, stopping, c), second.memory, 3);
      && first.desired == map["b" := DesiredPassive] && second.desired == map["a" := DesiredPassive] == third.desired
      && PolicyPlan(TIMES, "g", Listed3(halted, stopped, c), third.memory, 4) == Nothing(third.memory)
  {
    hide PolicyPlan, Policy.SwitchoverTimeout;
    var a := GroupRuntime("a", 3, DesiredPassive, true, ActualStopping, HealthWarning);
    var b := GroupRuntime("b", 2, DesiredActive, true, ActualActive, HealthOK);
    var c := GroupRuntime("c", 1, DesiredPassive, true, ActualPassive, HealthOK);
    var stopping := b.(desired := DesiredPassive, actual := ActualStopping, health := HealthWarning);
    Timeouts();
    SecondOwnerDrains(TIMES, "g", a, b, c, 0);
    var one := Memory(map["b" := 0], Some("c"));
    FirstDrains(TIMES, "g", a, stopping, c, one, 1);
    var two := Memory(map["b" := 0, "a" := 1], Some("c"));
    assert DrainMemory(one, "a", "c", 1, 1) == two;
    FirstDrains(TIMES, "g", a, stopping, c, two, 3);
    assert DrainMemory(two, "a", "c", 3, 1).target == None;
    NobodyTakesOver(TIMES, "g", a.(actual := ActualPassive, health := HealthOK), b.(desired := DesiredPassive, actual := ActualPassive), c,
                    DrainMemory(two, "a", "c", 3, 1), 4);
  }

  lemma SecondOwnerDrains(cfg: Config, cg: string, a: GroupRuntime, b: GroupRuntime, c: GroupRuntime, now: int)
    requires Distinct(Listed3(a, b, c)) && !cfg.automatic && b.Owner() && !b.Stopped() && !a.Owner() && !c.Owner() && c.Eligible()
    requires c.priority < a.priority && c.priority < b.priority
    ensures PolicyPlan(cfg, cg, Listed3(a, b, c), NO_MEMORY, now) ==
      Plan(map[b.name := DesiredPassive], map[], Memory(map[b.name := now], Some(c.name)))
  {
    hide SwapFires, SwapPlan, OthersPassive, Policy.SwitchoverTimeout, Target, Top;
    var groups := Listed3(a, b, c);
    assert groups[0] == a && groups[1] == b && groups[2] == c;
    assert groups[1] in groups && groups[0].priority != groups[2].priority;
    assert IsTarget(groups, 2);
    SwitchesToIndex(cfg, groups, 2);
    SwitchCycle(cfg, cg, groups, c.name, NO_MEMORY, now);
    HandOver(cfg, cg, groups, c.name, NO_MEMORY, now, b);
  }

  lemma FirstDrains(cfg: Config, cg: string, a: GroupRuntime, b: GroupRuntime, c: GroupRuntime, mem: Memory, now: int)
    requires Distinct(Listed3(a, b, c)) && !cfg.automatic && NoOwner(Listed3(a, b, c)) && a.Draining() && c.Eligible()
    requires c.priority < a.priority && c.priority < b.priority
    ensures PolicyPlan(cfg, cg, Listed3(a, b, c), mem, now) ==
      Plan(map[a.name := DesiredPassive], map[], DrainMemory(mem, a.name, c.name, now, Policy.SwitchoverTimeout(cfg, cg, a.name)))
  {
    hide SwapFires, SwapPlan, OthersPassive, Policy.SwitchoverTimeout, Target, Top, DrainMemory;
    var groups := Listed3(a, b, c);
    assert groups[0] == a && groups[1] == b && groups[2] == c;
    assert groups[0].priority != groups[2].priority;
    assert IsTarget(groups, 2);
    SwitchesToIndex(cfg, groups, 2);
    SwitchCycle(cfg, cg, groups, c.name, mem, now);
    FirstInTheWay(cfg, cg, groups, c.name, mem, now, 0);
  }

  /** A group that nobody manages is told to be passive, and is managed from then on. */
  lemma UnmanagedIsTaken(cfg: Config, cg: string, mem: Memory, now: int)
    ensures var stopping := GroupRuntime("a", 2, DesiredPassive, false, ActualStopping, HealthWarning);
      var other := GroupRuntime("b", 1, DesiredPassive, true, ActualPassive, HealthOK);
      PolicyPlan(cfg, cg, [stopping, other], mem, now).desired == map["a" := DesiredPassive]
  {
    hide First, CurrentActive, SwapPlan, OthersPassive, SwitchoverTimeout;
    var stopping := GroupRuntime("a", 2, DesiredPassive, false, ActualStopping, HealthWarning);
    var other := GroupRuntime("b", 1, DesiredPassive, true, ActualPassive, HealthOK);
    SwitchesToSecond(cfg, stopping, other);
    SwitchCycle(cfg, cg, [stopping, other], "b", mem, now);
    HandOver(cfg, cg, [stopping, other], "b", mem, now, stopping);
  }

  /** The active group has failed, another one of its priority is available: no failover. */
  lemma SharedTopIsStuck(cfg: Config, cg: string, mem: Memory, now: int)
    requires cfg.automatic
    ensures var failed := GroupRuntime("a", 1, DesiredActive, true, ActualFailed, HealthFailed);
      var ready := GroupRuntime("b", 1, DesiredPassive, true, ActualPassive, HealthOK);
      var third := GroupRuntime("c", 2, DesiredPassive, true, ActualPassive, HealthOK);
      var groups := [failed, ready, third];
      SwapFires(groups) && AfterSwap(groups) == groups && PolicyPlan(cfg, cg, groups, mem, now).desired == map[]
  {
    hide Top, NextBest, SwapPlan, AllSame, Target;
    var failed := GroupRuntime("a", 1, DesiredActive, true, ActualFailed, HealthFailed);
    var ready := GroupRuntime("b", 1, DesiredPassive, true, ActualPassive, HealthOK);
    var third := GroupRuntime("c", 2, DesiredPassive, true, ActualPassive, HealthOK);
    var groups := [failed, ready, third];
    assert groups[0] in groups && groups[1] in groups;
    IsTop(groups, 1);
    NextBestIsLeast(groups);
    assert Distinct(groups);
    SwapPlanIs(cfg, cg, groups, mem, now);
  }

  // ----- Worlds of two groups -----

  /** A group of one role, which reports the given state. */
  function Group(desired: DesiredState, managed: bool, config: Doc<ConfigDoc>, reported: ActualState): GroupDocs {
    GroupDocs(true, Decoded(DesiredDoc(desired, managed)), config, Missing, Missing,
              map[RoleKey("n", "r") := Decoded(ActualDoc(reported, 1, ""))],
              map[RoleKey("n", "r") := Decoded(HealthDoc(HealthOK, ""))])
  }

  function Priority1(p: int): Doc<ConfigDoc> { Decoded(ConfigDoc(p, ["r"])) }

  function Two(a: GroupDocs, b: GroupDocs): World { World(map[], map["a" := a, "b" := b], NO_MEMORY) }

  predicate Known(s: ActualState) { s in {ActualActive, ActualPassive, ActualStarting, ActualStopping, ActualFailed} }

  /** A group of one role shows what the role reports. */
  lemma OneRoleShown(registry: Registry, cg: string, mg: string, d: GroupDocs, reported: ActualState)
    requires registry == map[] && Known(reported)
    requires d.roleActual == map[RoleKey("n", "r") := Decoded(ActualDoc(reported, 1, ""))]
    ensures GroupState(registry, cg, mg, d).state == reported
  {
    assert !AgentLost(registry, cg, mg, d) by {
      forall k ensures !Expected(registry, cg, mg, k) {}
    }
    assert InState(d.roleActual, RoleKey("n", "r"), reported);
    assert forall s | s != reported :: !Sees(d.roleActual, s);
  }

  lemma TwoGroups(w: World, cg: string)
    requires w.registry == map[] && w.docs.Keys == {"a", "b"} && w.docs["a"].listed && w.docs["b"].listed
    ensures Visible(w.docs) == {"a", "b"}
    ensures forall g <- Runtimes(w, cg) :: g == Rt(w, cg, "a") || g == Rt(w, cg, "b")
    ensures Rt(w, cg, "a") in Runtimes(w, cg) && Rt(w, cg, "b") in Runtimes(w, cg)
    ensures Rt(w, cg, "a").name == "a" && Rt(w, cg, "b").name == "b"
  {
    hide Runtimes, GroupState;
    RuntimesAreRt(w, cg);
  }

  lemma GroupRead(w: World, cg: string, mg: string, reported: ActualState)
    requires mg in Visible(w.docs) && w.registry == map[] && Known(reported)
    requires w.docs[mg].roleActual == map[RoleKey("n", "r") := Decoded(ActualDoc(reported, 1, ""))]
    ensures var g := Rt(w, cg, mg);
      && g.actual == reported && (g.Available() <==> reported != ActualFailed)
      && g.desired == ReadDesired(w.docs[mg]).state && g.managed == ReadDesired(w.docs[mg]).managed
      && g.priority == ReadPriority(w.docs[mg])
  {
    hide AggregateOf;
    OneRoleShown(w.registry, cg, mg, w.docs[mg], reported);
  }

  /** A failover that `FailoverCompletes` is about. */
  lemma FailoverExists(cg: string)
    ensures TopFailed(DOWN, cg, "a") && IsSuccessor(DOWN, cg, "b") && !TopIsShared(Runtimes(DOWN, cg))
  {
    DownReads(cg);
    DownConfigs();
    hide *;
    FailoverBetween(DOWN, cg, Rt(DOWN, cg, "a"), Rt(DOWN, cg, "b"));
  }

  lemma DownConfigs()
    ensures forall mg <- Visible(DOWN.docs) :: DOWN.docs[mg].config.Decoded?
  {}

  lemma FailoverBetween(w: World, cg: string, a: GroupRuntime, b: GroupRuntime)
    requires var groups := Runtimes(w, cg); a in groups && b in groups && forall g <- groups :: g == a || g == b
    requires a.managed && a.Owner() && !a.Available() && b.managed && !b.Owner() && b.Available()
    requires a.name != b.name && a.priority < b.priority
    requires forall mg <- Visible(w.docs) :: w.docs[mg].config.Decoded?
    ensures TopFailed(w, cg, a.name) && IsSuccessor(w, cg, b.name) && !TopIsShared(Runtimes(w, cg))
  {
    hide Runtimes, Target, Top, Visible;
    var groups := Runtimes(w, cg);
    IsTop(groups, a.priority);
    assert b.Eligible();
    assert groups[Target(groups).value] in groups;
  }

  /** The active group has failed, the other one stands by. */
  const DOWN := Two(Group(DesiredActive, true, Priority1(1), ActualFailed), Group(DesiredPassive, true, Priority1(2), ActualPassive))

  lemma DownReads(cg: string)
    ensures Visible(DOWN.docs) == {"a", "b"}
    ensures var groups, a, b := Runtimes(DOWN, cg), Rt(DOWN, cg, "a"), Rt(DOWN, cg, "b");
      && a in groups && b in groups && (forall g <- groups :: g == a || g == b)
      && a.name == "a" && a.managed && a.Owner() && !a.Available() && a.priority == 1
      && b.name == "b" && b.managed && !b.Owner() && b.Available() && b.priority == 2
  {
    hide Runtimes, RuntimeOf, Rt;
    TwoGroups(DOWN, cg);
    GroupRead(DOWN, cg, "a", ActualFailed);
    GroupRead(DOWN, cg, "b", ActualPassive);
  }

  /** The failed group has stopped, as its workers report it. */
  function Recovered(w: World): World
    requires "a" in w.docs
  {
    w.(docs := w.docs["a" := w.docs["a"].(roleActual := map[RoleKey("n", "r") := Decoded(ActualDoc(ActualPassive, 1, ""))])])
  }

  /** The group of the top priority has failed, and the only other one has no config that decodes. */
  const UNREADABLE := Two(Group(DesiredActive, true, Priority1(1), ActualFailed), Group(DesiredPassive, true, Undecodable, ActualPassive))

  lemma UnreadableReads(cg: string)
    ensures Visible(UNREADABLE.docs) == {"a", "b"}
    ensures var groups, a, b := Runtimes(UNREADABLE, cg), Rt(UNREADABLE, cg, "a"), Rt(UNREADABLE, cg, "b");
      && a in groups && b in groups && (forall g <- groups :: g == a || g == b)
      && a.managed && a.Owner() && !a.Available() && a.priority == 1 && a.name == "a"
      && b.Available() && !Live(b) && b.priority == DEFAULT_PRIORITY && b.name == "b"
  {
    hide Runtimes, RuntimeOf, Rt;
    TwoGroups(UNREADABLE, cg);
    GroupRead(UNREADABLE, cg, "a", ActualFailed);
    GroupRead(UNREADABLE, cg, "b", ActualPassive);
  }

  /** The swap then leaves both groups with the default priority. */
  lemma SwapLevelsBoth(cfg: Config, cg: string, now: int)
    requires cfg.automatic
    ensures AtMostOneLive(UNREADABLE, cg) && SwapFires(Runtimes(UNREADABLE, cg))
    ensures AllSame(Runtimes(CycleOf(cfg, cg, UNREADABLE, now), cg))
  {
    hide Runtimes, RuntimeOf, Rt, CycleOf, Top, NextBest, AllSame, SwapFires;
    UnreadableReads(cg);
    var groups, a, b := Runtimes(UNREADABLE, cg), Rt(UNREADABLE, cg, "a"), Rt(UNREADABLE, cg, "b");
    SwapFiresFor(groups, a);
    NextBestIsLeast(groups);
    UnreadableEndsLow(cg);
    SwapLevels(cfg, cg, UNREADABLE, now);
  }

  lemma UnreadableEndsLow(cg: string)
    requires SwapFires(Runtimes(UNREADABLE, cg)) && Top(Runtimes(UNREADABLE, cg)) == 1
    ensures forall g <- Runtimes(UNREADABLE, cg) :: EndsLow(UNREADABLE, cg, g)
  {
    hide Runtimes, RuntimeOf, Rt, Top, NextBest, SwapFires;
    UnreadableReads(cg);
    NextBestIsLeast(Runtimes(UNREADABLE, cg));
  }

  /** And once the failed group has recovered, both become owners. */
  lemma SwapMakesBothActive(cfg: Config, cg: string, now: int, later: int)
    requires cfg.automatic
    ensures AtMostOneLive(UNREADABLE, cg) && "a" in CycleOf(cfg, cg, UNREADABLE, now).docs
    ensures Owners(CycleOf(cfg, cg, Recovered(CycleOf(cfg, cg, UNREADABLE, now)), later), cg) == {"a", "b"}
  {
    hide AtMostOneLive, Runtimes, CycleOf, SwapFires, AllSame, Owners, ReadPriority;
    SwapLevelsBoth(cfg, cg, now);
    SwapKeepsDesired(cfg, cg, UNREADABLE, now);
    RecoveredLevel(cfg, cg, CycleOf(cfg, cg, UNREADABLE, now), later);
  }

  lemma SwapKeepsDesired(cfg: Config, cg: string, w: World, now: int)
    requires w.registry == map[] && cfg.automatic && SwapFires(Runtimes(w, cg))
    ensures CycleOf(cfg, cg, w, now).registry == map[] && CycleOf(cfg, cg, w, now).docs.Keys == w.docs.Keys
    ensures forall mg <- w.docs :: var d, d' := w.docs[mg], CycleOf(cfg, cg, w, now).docs[mg];
      d'.desired == d.desired && d'.roleActual == d.roleActual && (d.listed ==> d'.listed)
  {
    hide Runtimes, SwapFires, SwapPlan, GroupState, PolicyPlan;
    SwapPlanIs(cfg, cg, Runtimes(w, cg), w.memory, now);
  }

  predicate BothManaged(w: World) {
    && w.registry == map[] && w.docs.Keys == {"a", "b"}
    && forall mg <- w.docs :: w.docs[mg].listed && ReadDesired(w.docs[mg]).managed
  }

  predicate BothPassive(w: World) {
    BothManaged(w) && forall mg <- w.docs :: w.docs[mg].roleActual == map[RoleKey("n", "r") := Decoded(ActualDoc(ActualPassive, 1, ""))]
  }

  lemma RecoveredPassive(w: World)
    requires BothManaged(w) && w.docs["b"].roleActual == map[RoleKey("n", "r") := Decoded(ActualDoc(ActualPassive, 1, ""))]
    ensures BothPassive(Recovered(w))
  {}

  lemma RecoveredSame(cg: string, w: World)
    requires BothManaged(w) && AllSame(Runtimes(w, cg))
    ensures AllSame(Runtimes(Recovered(w), cg))
  {
    hide Runtimes, RuntimeOf, Rt, AllSame;
    var w' := Recovered(w);
    assert Visible(w'.docs) == Visible(w.docs);
    forall mg <- Visible(w.docs) ensures Rt(w', cg, mg).priority == Rt(w, cg, mg).priority {
      PriorityRead(w, cg, mg);
      PriorityRead(w', cg, mg);
    }
    RuntimesAreRt(w, cg);
    AllSameReads(w, w, cg);
    AllSameReads(w, w', cg);
  }

  lemma PassiveReads(cg: string, w: World)
    requires BothPassive(w)
    ensures !SwapFires(Runtimes(w, cg))
    ensures (set mg <- Visible(w.docs) | Rt(w, cg, mg).managed) == {"a", "b"}
  {
    hide Runtimes, RuntimeOf, Rt, SwapFires, ReadPriority, Top;
    TwoGroups(w, cg);
    GroupRead(w, cg, "a", ActualPassive);
    GroupRead(w, cg, "b", ActualPassive);
    NoSwapDue(Runtimes(w, cg));
  }

  lemma RecoveredLevel(cfg: Config, cg: string, w: World, now: int)
    requires BothManaged(w) && AllSame(Runtimes(w, cg))
    requires w.docs["b"].roleActual == map[RoleKey("n", "r") := Decoded(ActualDoc(ActualPassive, 1, ""))]
    ensures Owners(CycleOf(cfg, cg, Recovered(w), now), cg) == {"a", "b"}
  {
    RecoveredPassive(w);
    hide *;
    RecoveredSame(cg, w);
    PassiveReads(cg, Recovered(w));
    LevelActivatesAll(cfg, cg, Recovered(w), now);
  }

  lemma PriorityRead(w: World, cg: string, mg: string)
    requires mg in Visible(w.docs)
    ensures Rt(w, cg, mg).priority == ReadPriority(w.docs[mg])
  {
    hide GroupState;
  }

  /** The active group is not of the best priority, and the other one stands by. */
  const MISPLACED := Two(Group(DesiredActive, true, Priority1(2), ActualActive), Group(DesiredPassive, true, Priority1(1), ActualPassive))

  lemma SwitchesToBetter(cfg: Config, groups: seq<GroupRuntime>, a: GroupRuntime, b: GroupRuntime)
    requires a in groups && b in groups && forall g <- groups :: g == a || g == b
    requires a.Available() && b.Eligible() && b.priority < a.priority
    ensures SwitchesTo(cfg, groups, b.name)
  {
    hide SwapFires, Target, Top;
    IsTop(groups, b.priority);
    NoSwapDue(groups);
    assert !AllSame(groups) by {
      var i :| 0 <= i < |groups| && groups[i] == a;
      var j :| 0 <= j < |groups| && groups[j] == b;
    }
    assert b.Eligible();
    assert groups[Target(groups).value] in groups;
  }

  /** What a cycle reads of two groups that differ as these do. */
  ghost predicate Misplaced(w: World, cg: string, desired: DesiredState, reported: ActualState) {
    && Visible(w.docs) == {"a", "b"}
    && (forall g <- Runtimes(w, cg) :: g == Rt(w, cg, "a") || g == Rt(w, cg, "b"))
    && Rt(w, cg, "a") in Runtimes(w, cg) && Rt(w, cg, "b") in Runtimes(w, cg)
    && (var a := Rt(w, cg, "a"); a.name == "a" && a.priority == 2 && a.managed && a.desired == desired && a.actual == reported && a.Available())
    && (var b := Rt(w, cg, "b"); b.name == "b" && b.priority == 1 && b.managed && b.desired == DesiredPassive && b.actual == ActualPassive && b.Available())
  }

  lemma MisplacedReads(w: World, cg: string, desired: DesiredState, reported: ActualState)
    requires reported in {ActualActive, ActualPassive}
    requires w.registry == map[] && w.docs.Keys == {"a", "b"} && w.docs["a"].listed && w.docs["b"].listed
    requires w.docs["a"].roleActual == map[RoleKey("n", "r") := Decoded(ActualDoc(reported, 1, ""))]
    requires w.docs["b"].roleActual == map[RoleKey("n", "r") := Decoded(ActualDoc(ActualPassive, 1, ""))]
    requires w.docs["a"].config == Priority1(2) && w.docs["b"].config == Priority1(1)
    requires w.docs["a"].desired == Decoded(DesiredDoc(desired, true)) && w.docs["b"].desired == Decoded(DesiredDoc(DesiredPassive, true))
    ensures Misplaced(w, cg, desired, reported)
  {
    hide Runtimes, RuntimeOf, Rt;
    TwoGroups(w, cg);
    GroupRead(w, cg, "a", reported);
    GroupRead(w, cg, "b", ActualPassive);
  }

  lemma MisplacedSwitches(cfg: Config, cg: string, w: World, desired: DesiredState, reported: ActualState)
    requires Misplaced(w, cg, desired, reported)
    ensures SwitchesTo(cfg, Runtimes(w, cg), "b") && Quiet(Runtimes(w, cg), "a") && Switching(cfg, cg, w, "a", "b")
  {
    hide Runtimes, Rt, SwitchesTo;
    SwitchesToBetter(cfg, Runtimes(w, cg), Rt(w, cg, "a"), Rt(w, cg, "b"));
  }

  lemma MisplacedStart(cg: string)
    ensures Misplaced(MISPLACED, cg, DesiredActive, ActualActive)
  {
    hide Misplaced;
    MisplacedReads(MISPLACED, cg, DesiredActive, ActualActive);
  }

  /** Its first cycle tells the active group to stop, and nothing else. */
  lemma MisplacedDrains(cfg: Config, cg: string, now: int)
    ensures var plan := PlanOf(cfg, cg, MISPLACED, now); plan.desired == map["a" := DesiredPassive] && plan.priorities == map[]
  {
    hide Runtimes, Rt, SwitchesTo, PolicyPlan, SwitchPlan, Quiet, DrainMemory, SwitchoverTimeout, GroupState;
    MisplacedStart(cg);
    MisplacedSwitches(cfg, cg, MISPLACED, DesiredActive, ActualActive);
    var groups := Runtimes(MISPLACED, cg);
    SwitchCycle(cfg, cg, groups, "b", MISPLACED.memory, now);
    HandOver(cfg, cg, groups, "b", MISPLACED.memory, now, Rt(MISPLACED, cg, "a"));
  }

  /** What the second cycle reads once the group has stopped. */
  ghost function AfterDrain(cfg: Config, cg: string, now: int): World
    requires "a" in CycleOf(cfg, cg, MISPLACED, now).docs
  {
    Recovered(CycleOf(cfg, cg, MISPLACED, now))
  }

  lemma DrainedDocs(cfg: Config, cg: string, now: int)
    ensures var w' := CycleOf(cfg, cg, MISPLACED, now);
      && w'.registry == map[] && w'.docs.Keys == {"a", "b"}
      && forall mg <- w'.docs :: w'.docs[mg].listed && w'.docs[mg].config == MISPLACED.docs[mg].config
           && w'.docs[mg].roleActual == MISPLACED.docs[mg].roleActual && w'.docs[mg].desired == Decoded(DesiredDoc(DesiredPassive, true))
  {
    hide PlanOf, CycleOf, GroupState, Runtimes;
    var w := MISPLACED;
    assert Visible(w.docs) == {"a", "b"};
    MisplacedDrains(cfg, cg, now);
    CycleKeepsRegistry(cfg, cg, w, now);
    CycleKeepsListing(cfg, cg, w, now);
    CycleDesired(cfg, cg, w, now);
    forall mg <- w.docs ensures var d' := CycleOf(cfg, cg, w, now).docs[mg];
      d'.config == w.docs[mg].config && d'.roleActual == w.docs[mg].roleActual && d'.listed
    {
      CycleDocs(cfg, cg, w, now, mg);
    }
  }

  lemma DrainedReads(cfg: Config, cg: string, now: int)
    ensures "a" in CycleOf(cfg, cg, MISPLACED, now).docs
    ensures Misplaced(AfterDrain(cfg, cg, now), cg, DesiredPassive, ActualPassive)
    ensures OnlyReportsChange(CycleOf(cfg, cg, MISPLACED, now), AfterDrain(cfg, cg, now))
  {
    hide CycleOf, Misplaced;
    DrainedDocs(cfg, cg, now);
    MisplacedReads(AfterDrain(cfg, cg, now), cg, DesiredPassive, ActualPassive);
  }

  lemma MisplacedOwner(cg: string, w: World, desired: DesiredState, reported: ActualState)
    requires Misplaced(w, cg, desired, reported) && reported in {ActualActive, ActualPassive}
    ensures "a" in Visible(w.docs) && (Rt(w, cg, "a").Stopped() <==> reported == ActualPassive)
    ensures desired == DesiredActive ==> forall mg <- Visible(w.docs) :: Rt(w, cg, mg).Owner() <==> mg == "a"
  {
    hide Runtimes, RuntimeOf, Rt, Visible;
  }

  lemma TwoCycles(cfg: Config, cg: string, w: World, w': World, at: seq<int>)
    requires |at| == 2 && OnlyReportsChange(CycleOf(cfg, cg, w, at[0]), w')
    requires Misplaced(w, cg, DesiredActive, ActualActive) && Misplaced(w', cg, DesiredPassive, ActualPassive)
    ensures IsSwitchover(cfg, cg, [w, w'], at, "a", "b")
  {
    hide Runtimes, RuntimeOf, Rt, CycleOf, SwitchesTo, Quiet, OnlyReportsChange, Visible, IsSwitchover, Switching;
    MisplacedSwitches(cfg, cg, w, DesiredActive, ActualActive);
    MisplacedSwitches(cfg, cg, w', DesiredPassive, ActualPassive);
    MisplacedOwner(cg, w, DesiredActive, ActualActive);
    MisplacedOwner(cg, w', DesiredPassive, ActualPassive);
    hide Misplaced;
    var seen := [w, w'];
    assert seen[0] == w && seen[1] == w';
    SwitchoverOfTwo(cfg, cg, seen, at, "a", "b");
  }

  /** A switchover of two cycles that `OneDrainByTimes` and `SwitchoverCompletes` are about. */
  lemma SwitchoverExists(cfg: Config, cg: string, now: int, later: int)
    ensures "a" in CycleOf(cfg, cg, MISPLACED, now).docs && MISPLACED.memory == NO_MEMORY
    ensures var seen := [MISPLACED, AfterDrain(cfg, cg, now)];
      && IsSwitchover(cfg, cg, seen, [now, later], "a", "b") && IsHistory(cfg, cg, seen, [now, later])
      && var finds := Finds(cfg, cg, seen, [now, later]); finds[1] == Nobody("b") && InTime(finds[..1], "b")
  {
    hide *;
    DrainedReads(cfg, cg, now);
    MisplacedStart(cg);
    TwoCycles(cfg, cg, MISPLACED, AfterDrain(cfg, cg, now), [now, later]);
    OneDrainInTime(cfg, cg, [MISPLACED, AfterDrain(cfg, cg, now)], [now, later], "a", "b");
    MisplacedMemory();
  }

  lemma MisplacedMemory()
    ensures MISPLACED.memory == NO_MEMORY
  {}

  lemma OneDrainInTime(cfg: Config, cg: string, seen: seq<World>, at: seq<int>, from: string, target: string)
    requires |seen| == 2 && |at| == 2 && IsSwitchover(cfg, cg, seen, at, from, target)
    ensures IsHistory(cfg, cg, seen, at)
    ensures var finds := Finds(cfg, cg, seen, at); finds[1] == Nobody(target) && InTime(finds[..1], target)
  {
    hide *;
    SwitchoverIsHistory(cfg, cg, seen, at, from, target);
    DrainsFound(cfg, cg, seen, at, from, target);
    OneDrain(Finds(cfg, cg, seen, at)[..1], from, target, at[..1], Policy.SwitchoverTimeout(cfg, cg, from));
  }

  lemma SwitchoverIsHistory(cfg: Config, cg: string, seen: seq<World>, at: seq<int>, from: string, target: string)
    requires IsSwitchover(cfg, cg, seen, at, from, target)
    ensures |seen| == |at| && IsHistory(cfg, cg, seen, at)
  {
    hide CycleOf, Runtimes, SwitchesTo, Quiet, Visible, Rt, OnlyReportsChange, IsHistory;
    RunIsHistory(cfg, cg, seen, at);
  }

  lemma OneDrain(finds: seq<Find>, from: string, target: string, at: seq<int>, timeout: int)
    requires |at| == 1 && finds == Drains(from, target, at, timeout)
    ensures InTime(finds, target)
  {
    assert finds[0] in finds;
  }

  /** Demoting a running group makes a second group live at once. */
  lemma DemotionMakesTwoLive(cg: string)
    ensures var docs := map["a" := Group(DesiredActive, true, Priority1(1), ActualActive), "b" := Standby(Priority1(2))];
      var w := World(map[], docs, NO_MEMORY);
      AtMostOneLive(w, cg) && ExecDemote(docs, "a").ok && !AtMostOneLive(w.(docs := ExecDemote(docs, "a").docs), cg)
  {
    hide Runtimes, RuntimeOf, Rt, ExecDemote, AggregateOf, GroupState;
    var docs := map["a" := Group(DesiredActive, true, Priority1(1), ActualActive), "b" := Standby(Priority1(2))];
    var w := World(map[], docs, NO_MEMORY);
    TwoGroups(w, cg);
    GroupRead(w, cg, "a", ActualActive);
    GroupRead(w, cg, "b", ActualPassive);
    StandbyReplaces(docs);
    OneRoleShown(w.registry, cg, "a", WithDesired(docs["a"], DesiredPassive, true), ActualActive);
    assert Busy(StateUnder(w, cg, "a", true));
    DemoteAndLiveness(w, cg, "a");
  }

  /** A managed group on record as passive and healthy. */
  function Standby(config: Doc<ConfigDoc>): GroupDocs {
    Group(DesiredPassive, true, config, ActualPassive).(
      actual := Decoded(ActualDoc(ActualPassive, 1, "")), health := Decoded(HealthDoc(HealthOK, "")))
  }

  lemma StandbyReplaces(docs: Groups)
    requires docs.Keys == {"a", "b"} && docs["b"] == Standby(Priority1(2)) && docs["a"].config.Decoded?
    requires docs["a"].desired.Decoded? && docs["a"].desired.doc.state == DesiredActive && docs["a"].listed
    ensures ExecDemote(docs, "a").ok && Replacements(docs, "a") == {"b"}
  {
    assert "b" in Replacements(docs, "a");
  }

  /** Promoting the active group leaves the service without an owner. */
  lemma PromotionStrands()
    ensures var docs := map["a" := Group(DesiredActive, true, Priority1(1), ActualActive), "b" := Standby(Priority1(2))];
      ExecPromote(docs, "a").ok && !NoActiveGroup(docs) && NoActiveGroup(ExecPromote(docs, "a").docs)
  {
    hide Incumbent, ExecPromote;
    var docs := map["a" := Group(DesiredActive, true, Priority1(1), ActualActive), "b" := Standby(Priority1(2))];
    assert Promotable(docs, "a");
    PromotableRuns(docs, "a");
    assert "a" in Listed(docs) && Owns(docs["a"]) && !Owns(docs["b"]);
    PromoteUnseatsOwner(docs, "a");
  }

  lemma PromotableRuns(docs: Groups, mg: string)
    requires Promotable(docs, mg)
    ensures ExecPromote(docs, mg).ok
  {
    hide Incumbent, NoActiveGroup;
  }

  /** The API admits a demotion that then fails: the one replacement has no config. */
  lemma AdmittedDemotionFails()
    ensures var docs := map["a" := Group(DesiredActive, true, Priority1(1), ActualActive), "b" := Standby(Missing)];
      Admission.AdmitDemote(docs, "a") && !ExecDemote(docs, "a").ok
  {
    var docs := map["a" := Group(DesiredActive, true, Priority1(1), ActualActive), "b" := Standby(Missing)];
    assert Listed(docs) == {"a", "b"};
    assert Admission.LooksReplaceable(docs["b"]);
    Admission.DemoteAdmittedRuns(docs, "a");
  }

  // ----- Queue and store -----

  /** A client's announcement of a command "x". */
  const ANNOUNCEMENT :=
    CommandQueue.Put(CommandQueue.Queue("x"), Some(CommandQueue.Command("x", CommandQueue.Promote, CommandQueue.Pending)))

  /** Nothing is queued at first. Just after the drain the command is announced, and the store catches up. */
  function InTheGap(n: nat): CommandQueue.Moment {
    if n == 1 then CommandQueue.Moment([ANNOUNCEMENT], 1, true, true, false) else CommandQueue.Moment([], 0, true, true, false)
  }

  lemma GapLog()
    ensures CommandQueue.Proper([]) && CommandQueue.Admit([], InTheGap(0).clients) == []
    ensures CommandQueue.Admit([], InTheGap(1).clients) == [ANNOUNCEMENT]
  {
    assert CommandQueue.Allowed([], ANNOUNCEMENT);
    CommandQueue.ProperMore([], ANNOUNCEMENT);
    assert [] + [ANNOUNCEMENT] == [ANNOUNCEMENT];
  }

  /** A run of the consumer, with all its writes accepted: a command that reaches the store between
      the drain and the start of the watch is never executed, however long the consumer watches. */
  method CommandInTheGap(passes: nat) returns (executed: seq<CommandQueue.Command>, log: CommandQueue.Log)
    ensures CommandQueue.Proper(log) && |log| > 0 && log[0] == ANNOUNCEMENT
    ensures "x" !in CommandQueue.Ids(executed) && CommandQueue.ShowsPending(CommandQueue.Folded(log), "x")
  {
    hide CommandQueue.Proper, CommandQueue.Folded, CommandQueue.Ran, CommandQueue.Worked, CommandQueue.Admit;
    GapLog();
    var consumer := new CommandQueue.CommandConsumer(InTheGap, []);
    ghost var drained, r0, r1, w := consumer.Run(passes);
    executed, log := consumer.executed, consumer.log;
    NothingToDrain(CommandQueue.Ids(executed), drained, log, r0, r1, w);
    CommandQueue.Overlooked(CommandQueue.Ids(executed), drained, log, r0, r1, w, 0);
    CommandQueue.LeftPending([], log, executed, "x", 0);
  }

  lemma NothingToDrain(ids: seq<string>, drained: seq<string>, log: CommandQueue.Log, r0: nat, r1: nat, w: nat)
    requires r0 == 0 <= r1 <= w <= |log| && CommandQueue.Ran(ids, drained, log, r0, r1, w)
    ensures drained == []
  {
    assert log[..0] == [];
    FirstIsIn(drained);
  }

  lemma FirstIsIn(ids: seq<string>)
    ensures ids == [] || exists id :: id in ids
  {
    if ids != [] { assert ids[0] in ids; }
  }

  /** Deleting a key below which another is stored takes both from the tree and one from etcd. */
  lemma DeleteTakesTwo(json: Store.Json, value: Tree.Bytes)
    requires json.Sound()
    ensures var short, long := Paths.KeyOf(["a"]), Paths.KeyOf(["a", "b"]);
      var v := Store.AppliedAll(Tree.EMPTY, [Store.Put(short, value, 1), Store.Put(long, value, 2)], json);
      Refinement.Agrees(v, map[short := value, long := value], json) &&
      !Refinement.Agrees(Store.Applied(v, Store.Delete(short, 3), json), map[short := value, long := value] - {short}, json)
  {
    hide Paths.Split, Paths.KeyOf, Refinement.Agrees, Tree.Inserted, Tree.Deleted;
    var short, long := Paths.KeyOf(["a"]), Paths.KeyOf(["a", "b"]);
    Paths.SplitKey(["a"]);
    Paths.SplitKey(["a", "b"]);
    var first, second := Store.Put(short, value, 1), Store.Put(long, value, 2);
    var events := [first, second];
    assert events[..1] == [first] && [first][..0] == [];
    var f := map[short := value, long := value];
    EmptyAgrees(json);
    Refinement.PutAgrees(Tree.EMPTY, map[], json, short, value);
    var v1 := Store.AppliedAll(Tree.EMPTY, [first], json);
    assert Store.AppliedAll(Tree.EMPTY, [], json) == Tree.EMPTY;
    Refinement.PutAgrees(v1, map[short := value], json, long, value);
    var v := Store.AppliedAll(Tree.EMPTY, events, json);
    Refinement.BelowIsPrefix(long, short);
    assert long in f && Refinement.LiesBelow(long, short);
    Refinement.DeleteAgrees(v, f, json, short);
  }

  lemma EmptyAgrees(json: Store.Json)
    ensures Refinement.Agrees(Tree.EMPTY, map[], json)
  {}
}
