/** At most one live group: what a cycle and a report keep. */
module Safety {
  import opened Model
  import opened Aggregation
  import opened Policy
  import opened Cycle

  predicate Busy(s: ActualState) { s == ActualActive || s == ActualStarting }

  /** A group that may be serving: owned by the controller, or told to stop and not yet doing so. */
  predicate Live(g: GroupRuntime) {
    g.Owner() || (g.desired == DesiredPassive && Busy(g.actual))
  }

  ghost predicate AtMostOneLive(w: World, cg: string) {
    forall x, y | x in Visible(w.docs) && y in Visible(w.docs) && Live(Rt(w, cg, x)) && Live(Rt(w, cg, y)) :: x == y
  }

  /** Every group has a decodable config, and the priorities are not all equal. */
  ghost predicate ActivePassive(w: World) {
    && (forall mg <- Visible(w.docs) :: w.docs[mg].config.Decoded?)
    && exists x, y :: x in Visible(w.docs) && y in Visible(w.docs) && ReadPriority(w.docs[x]) != ReadPriority(w.docs[y])
  }

  ghost predicate KnownDesired(w: World) {
    forall mg <- Visible(w.docs) :: ReadDesired(w.docs[mg]).state in {DesiredActive, DesiredPassive}
  }

  ghost predicate Safe(w: World, cg: string) {
    AtMostOneLive(w, cg) && ActivePassive(w) && KnownDesired(w)
  }

  // ----- Reports -----

  /** No group that is to be passive starts to be seen active or starting. */
  ghost predicate NoFreshActivity(w: World, w': World, cg: string) {
    forall mg <- Visible(w'.docs) :: Rt(w', cg, mg).desired == DesiredPassive && Busy(Rt(w', cg, mg).actual) ==>
      mg in Visible(w.docs) && Rt(w, cg, mg).desired == DesiredPassive && Busy(Rt(w, cg, mg).actual)
  }

  /** Agents report: role documents and registrations change at will, groups may be bootstrapped. */
  ghost predicate Reports(w: World, w': World) {
    && w'.memory == w.memory
    && Visible(w.docs) <= Visible(w'.docs)
    && (forall mg <- Visible(w.docs) :: w'.docs[mg].desired == w.docs[mg].desired && w'.docs[mg].config == w.docs[mg].config)
    && (forall mg <- Visible(w'.docs) - Visible(w.docs) ::
          ReadDesired(w'.docs[mg]) == DesiredDoc(DesiredPassive, false) && w'.docs[mg].config.Decoded?)
  }

  // ----- Where the assumption on reports comes from -----

  predicate BusyRole(d: GroupDocs, k: RoleKey) {
    InState(d.roleActual, k, ActualActive) || InState(d.roleActual, k, ActualStarting)
  }

  /** What the workers guarantee of groups that are to be passive: no role starts to be active or starting. */
  ghost predicate QuietRoles(w: World, w': World, cg: string) {
    forall mg <- Visible(w'.docs) | ReadDesired(w'.docs[mg]).state == DesiredPassive ::
      forall k | BusyRole(w'.docs[mg], k) ::
        mg in Visible(w.docs) && ReadDesired(w.docs[mg]).state == DesiredPassive && BusyRole(w.docs[mg], k)
  }

  /** A busy role that the group does not show: a failed, lost or stopping role stands before it. */
  ghost predicate HidesActivity(registry: Registry, cg: string, mg: string, d: GroupDocs) {
    (exists k :: BusyRole(d, k)) && !Busy(GroupState(registry, cg, mg, d).state)
  }

  lemma BusyGroupHasBusyRole(registry: Registry, cg: string, mg: string, d: GroupDocs)
    requires Busy(GroupState(registry, cg, mg, d).state)
    ensures exists k :: BusyRole(d, k)
  {
    var s := GroupState(registry, cg, mg, d).state;
    assert Sees(d.roleActual, s);
    var k :| InState(d.roleActual, k, s);
    assert BusyRole(d, k);
  }

  /** Activity is hidden only behind a group state of failed or stopping, never behind passive. */
  lemma PassiveHidesNothing(registry: Registry, cg: string, mg: string, d: GroupDocs)
    requires HidesActivity(registry, cg, mg, d)
    ensures GroupState(registry, cg, mg, d).state in {ActualFailed, ActualStopping}
  {
    var k :| BusyRole(d, k);
    assert Sees(d.roleActual, ActualActive) || Sees(d.roleActual, ActualStarting);
  }

  /** If no group that is to be passive hides activity, then quiet workers are all it takes. */
  lemma QuietWorkersSuffice(w: World, w': World, cg: string)
    requires QuietRoles(w, w', cg)
    requires forall mg <- Visible(w.docs) | ReadDesired(w.docs[mg]).state == DesiredPassive ::
      !HidesActivity(w.registry, cg, mg, w.docs[mg])
    ensures NoFreshActivity(w, w', cg)
  {
    hide GroupState, ReadPriority;
    forall mg <- Visible(w'.docs) | Rt(w', cg, mg).desired == DesiredPassive && Busy(Rt(w', cg, mg).actual)
      ensures mg in Visible(w.docs) && Rt(w, cg, mg).desired == DesiredPassive && Busy(Rt(w, cg, mg).actual)
    {
      BusyGroupHasBusyRole(w'.registry, cg, mg, w'.docs[mg]);
      var k :| BusyRole(w'.docs[mg], k);
      assert BusyRole(w.docs[mg], k);
    }
  }

  // ----- The policy -----

  /** Under a switch plan, whatever is live afterwards was live before or is the target taking over
      from a group that was not. */
  lemma SwitchKeepsOneLive(cfg: Config, cg: string, groups: seq<GroupRuntime>, t: nat, mem: Memory, now: int, g: GroupRuntime)
    requires Distinct(groups) && IsTarget(groups, t) && g in groups
    requires forall h <- groups :: h.desired in {DesiredActive, DesiredPassive}
    requires forall h, k | h in groups && k in groups && Live(h) && Live(k) :: h == k
    requires Live(Decided(g, SwitchPlan(cfg, cg, groups, groups[t].name, mem, now)))
    ensures if groups[t].name in SwitchPlan(cfg, cg, groups, groups[t].name, mem, now).desired
      then g == groups[t] else Live(g)
  {
    hide First, CurrentActive, OthersPassive, ManagedNames, DrainMemory, SwitchoverTimeout;
    var target := groups[t];
    CurrentActiveMeans(groups);
    OthersPassiveAt(groups, target.name, g);
    OthersPassiveAt(groups, target.name, target);
    if g.name == target.name { SameName(groups, g, target); }
    match CurrentActive(groups)
    case None =>
      assert !g.Owner() && !g.Draining();
      assert !Live(g);
    case Some(c) =>
      var current := groups[c];
      if g.name == current.name { SameName(groups, g, current); }
      if target.name == current.name { SameName(groups, target, current); }
      if current.Stopped() && current != target {
        assert current.Owner() && Live(current);
      } else if current.Owner() {
        assert Live(current);
        assert g.Owner() ==> g == current;
      } else {
        assert !g.Owner();
      }
  }

  lemma {:induction false} PlanKeepsOneLive(cfg: Config, cg: string, groups: seq<GroupRuntime>, mem: Memory, now: int)
    requires Distinct(groups) && !AllSame(groups)
    requires forall g <- groups :: g.desired in {DesiredActive, DesiredPassive}
    requires forall g, h | g in groups && h in groups && Live(g) && Live(h) :: g == h
    ensures var plan := PolicyPlan(cfg, cg, groups, mem, now);
      forall g, h | g in groups && h in groups && Live(Decided(g, plan)) && Live(Decided(h, plan)) :: g == h
  {
    hide SwitchPlan, SwapPlan, Live, Target;
    var plan := PolicyPlan(cfg, cg, groups, mem, now);
    if !(cfg.automatic && SwapFires(groups)) && Target(groups).Some? {
      forall g <- groups | Live(Decided(g, plan))
        ensures if groups[Target(groups).value].name in plan.desired then g == groups[Target(groups).value] else Live(g)
      {
        SwitchKeepsOneLive(cfg, cg, groups, Target(groups).value, mem, now, g);
      }
    }
  }

  /** A swap never makes all priorities equal, as long as it can write them. */
  lemma SwapKeepsDifferent(groups: seq<GroupRuntime>)
    requires SwapFires(groups) && !AllSame(groups)
    ensures exists g, h :: g in groups && h in groups && SwappedPriority(groups, g) != SwappedPriority(groups, h)
  {
    if Top(groups) == NextBest(groups) {
      var i :| 0 <= i < |groups| && groups[i].priority != groups[0].priority;
      assert SwappedPriority(groups, groups[i]) != SwappedPriority(groups, groups[0]);
    } else {
      var g :| g in groups && MovesDown(groups, g) && g.managed;
      assert NextBest(groups) in AvailablePriorities(groups);
      var h :| h in groups && MovesUp(groups, h);
      assert SwappedPriority(groups, g) == NextBest(groups);
      assert MovesUp(groups, h);
      assert h.priority == NextBest(groups);
      assert h.Available();
      assert !MovesDown(groups, h);
      assert SwappedPriority(groups, h) == Top(groups);
    }
  }

  // ----- One step -----

  lemma {:induction false} CycleIsSafe(cfg: Config, cg: string, w: World, now: int)
    requires Safe(w, cg)
    ensures Safe(CycleOf(cfg, cg, w, now), cg)
  {
    hide AggregateOf, GroupState, Runtimes, CycleOf, PolicyPlan, ActivePassive;
    var groups, plan := Runtimes(w, cg), PlanOf(cfg, cg, w, now);
    var w' := CycleOf(cfg, cg, w, now);
    NotAllSame(w, cg);
    forall mg <- Visible(w.docs) ensures Rt(w, cg, mg) in groups {}
    forall g <- groups ensures g.name in Visible(w.docs) && g == Rt(w, cg, g.name) {}
    PlanKeepsOneLive(cfg, cg, groups, w.memory, now);
    PlanKnownDesired(cfg, cg, groups, w.memory, now);
    CycleKeepsListing(cfg, cg, w, now);
    forall mg <- Visible(w.docs)
      ensures Live(Rt(w', cg, mg)) ==> Live(Decided(Rt(w, cg, mg), plan))
      ensures ReadDesired(w'.docs[mg]).state in {DesiredActive, DesiredPassive}
    {
      AfterCycle(cfg, cg, w, now, mg);
      assert Rt(w', cg, mg).desired == ReadDesired(w'.docs[mg]).state;
      assert Rt(w, cg, mg).desired == ReadDesired(w.docs[mg]).state;
    }
    CycleKeepsActivePassive(cfg, cg, w, now);
  }

  lemma PlanKnownDesired(cfg: Config, cg: string, groups: seq<GroupRuntime>, mem: Memory, now: int)
    requires Distinct(groups)
    ensures forall n <- PolicyPlan(cfg, cg, groups, mem, now).desired ::
      PolicyPlan(cfg, cg, groups, mem, now).desired[n] in {DesiredActive, DesiredPassive}
  {
    hide SwapFires, SwapPlan, AllSame, CurrentActive, Target, ManagedNames, DrainMemory, SwitchoverTimeout;
  }

  lemma NotAllSame(w: World, cg: string)
    requires ActivePassive(w)
    ensures !AllSame(Runtimes(w, cg))
  {
    hide AggregateOf, GroupState, Runtimes;
    var groups := Runtimes(w, cg);
    var x, y :| x in Visible(w.docs) && y in Visible(w.docs) && ReadPriority(w.docs[x]) != ReadPriority(w.docs[y]);
    assert Rt(w, cg, x).priority == ReadPriority(w.docs[x]);
    assert Rt(w, cg, y).priority == ReadPriority(w.docs[y]);
    var i :| 0 <= i < |groups| && groups[i] == Rt(w, cg, x);
    var j :| 0 <= j < |groups| && groups[j] == Rt(w, cg, y);
    assert groups[i].priority != groups[0].priority || groups[j].priority != groups[0].priority;
  }

  lemma {:induction false} CycleKeepsActivePassive(cfg: Config, cg: string, w: World, now: int)
    requires ActivePassive(w)
    ensures ActivePassive(CycleOf(cfg, cg, w, now))
  {
    hide AggregateOf, GroupState, Runtimes, CycleOf, PlanOf, SwapFires;
    var groups := Runtimes(w, cg);
    var w' := CycleOf(cfg, cg, w, now);
    CycleKeepsListing(cfg, cg, w, now);
    forall mg <- Visible(w.docs) ensures w'.docs[mg].config.Decoded? { CycleDocs(cfg, cg, w, now, mg); }
    hide ReadPriority, Visible;
    if cfg.automatic && SwapFires(groups) {
      SwapStillDiffers(cfg, cg, w, now);
    } else {
      var x, y :| x in Visible(w.docs) && y in Visible(w.docs) && ReadPriority(w.docs[x]) != ReadPriority(w.docs[y]);
      SamePriority(cfg, cg, w, now, x);
      SamePriority(cfg, cg, w, now, y);
    }
  }

  lemma {:induction false} SwapStillDiffers(cfg: Config, cg: string, w: World, now: int)
    requires ActivePassive(w) && cfg.automatic && SwapFires(Runtimes(w, cg))
    ensures var docs := CycleOf(cfg, cg, w, now).docs;
      exists x, y :: x in Visible(docs) && y in Visible(docs) && ReadPriority(docs[x]) != ReadPriority(docs[y])
  {
    hide GroupState, Runtimes, CycleOf, SwapFires, RuntimeOf, ReadPriority, SwappedPriority;
    var groups := Runtimes(w, cg);
    NotAllSame(w, cg);
    SwapKeepsDifferent(groups);
    var g, h :| g in groups && h in groups && SwappedPriority(groups, g) != SwappedPriority(groups, h);
    SwappedReading(cfg, cg, w, now, g);
    SwappedReading(cfg, cg, w, now, h);
  }

  lemma {:induction false} SamePriority(cfg: Config, cg: string, w: World, now: int, mg: string)
    requires mg in Visible(w.docs) && !(cfg.automatic && SwapFires(Runtimes(w, cg)))
    ensures mg in CycleOf(cfg, cg, w, now).docs && ReadPriority(CycleOf(cfg, cg, w, now).docs[mg]) == ReadPriority(w.docs[mg])
  {
    hide GroupState, Runtimes, CycleOf, PlanOf, SwapFires;
    NoSwapNoPriorities(cfg, cg, w, now);
    CycleDocs(cfg, cg, w, now, mg);
  }

  lemma {:induction false} NoSwapNoPriorities(cfg: Config, cg: string, w: World, now: int)
    requires !(cfg.automatic && SwapFires(Runtimes(w, cg)))
    ensures PlanOf(cfg, cg, w, now).priorities == map[]
  {
    hide AggregateOf, GroupState, Runtimes, PolicyPlan;
    NoSwapPlansNone(cfg, cg, Runtimes(w, cg), w.memory, now);
  }

  lemma NoSwapPlansNone(cfg: Config, cg: string, groups: seq<GroupRuntime>, mem: Memory, now: int)
    requires Distinct(groups) && !(cfg.automatic && SwapFires(groups))
    ensures PolicyPlan(cfg, cg, groups, mem, now).priorities == map[]
  {
    hide SwapFires, CurrentActive, Target, AllSame, OthersPassive;
  }

  /** After a cycle that swaps, a group with a decodable config reads the priority of the swap. */
  lemma SwappedReading(cfg: Config, cg: string, w: World, now: int, g: GroupRuntime)
    requires cfg.automatic && SwapFires(Runtimes(w, cg))
    requires g in Runtimes(w, cg) && g.name in Visible(w.docs) && w.docs[g.name].config.Decoded?
    ensures g.name in Visible(CycleOf(cfg, cg, w, now).docs)
    ensures ReadPriority(CycleOf(cfg, cg, w, now).docs[g.name]) == SwappedPriority(Runtimes(w, cg), g)
  {
    hide AggregateOf, GroupState, Runtimes, CycleOf, AllSame, Target, SwitchPlan, SwapPlan;
    var groups := Runtimes(w, cg);
    AfterCycle(cfg, cg, w, now, g.name);
    assert PlanOf(cfg, cg, w, now).priorities == SwapPlan(groups);
    SwapPlanAt(groups, g);
    assert g == Rt(w, cg, g.name);
    PositivePriorities(w, cg);
    assert Top(groups) in Priorities(groups) && NextBest(groups) in AvailablePriorities(groups);
    assert Rt(CycleOf(cfg, cg, w, now), cg, g.name).priority == ReadPriority(CycleOf(cfg, cg, w, now).docs[g.name]);
  }

  lemma PositivePriorities(w: World, cg: string)
    ensures forall p <- Priorities(Runtimes(w, cg)) :: p > 0
    ensures AvailablePriorities(Runtimes(w, cg)) <= Priorities(Runtimes(w, cg))
  {
    hide AggregateOf, GroupState, Runtimes;
    forall g <- Runtimes(w, cg) ensures g.priority > 0 {
      assert g == RuntimeOf(w.registry, cg, g.name, w.docs[g.name]);
    }
  }

  lemma SameConfigs(w: World, w': World)
    requires ActivePassive(w) && Visible(w.docs) <= Visible(w'.docs)
    requires forall mg <- Visible(w'.docs) :: w'.docs[mg].config.Decoded?
    requires forall mg <- Visible(w.docs) :: w'.docs[mg].config == w.docs[mg].config
    ensures ActivePassive(w')
  {
    var x, y :| x in Visible(w.docs) && y in Visible(w.docs) && ReadPriority(w.docs[x]) != ReadPriority(w.docs[y]);
    assert ReadPriority(w'.docs[x]) != ReadPriority(w'.docs[y]);
  }

  lemma {:induction false} ReportIsSafe(cg: string, w: World, w': World)
    requires Safe(w, cg) && Reports(w, w') && NoFreshActivity(w, w', cg)
    ensures Safe(w', cg)
  {
    hide GroupState, ReadPriority, Runtimes;
    forall x <- Visible(w'.docs) | Live(Rt(w', cg, x)) ensures x in Visible(w.docs) && Live(Rt(w, cg, x)) {}
    SameConfigs(w, w');
  }
}
