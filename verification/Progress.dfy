/** Runs of cycles on changing reports: what a switching cycle does, and when no cycle ever acts. */
module Progress {
  import opened Model
  import opened Aggregation
  import opened Policy
  import opened Cycle

  /** Between two cycles only reports change: role documents and registrations. */
  ghost predicate OnlyReportsChange(w: World, w': World) {
    && w'.memory == w.memory
    && Visible(w'.docs) == Visible(w.docs)
    && forall mg <- Visible(w.docs) :: w'.docs[mg].desired == w.docs[mg].desired && w'.docs[mg].config == w.docs[mg].config
  }

  /** `seen[i]` is the world that cycle i reads, at time `at[i]`. */
  ghost predicate IsRun(cfg: Config, cg: string, seen: seq<World>, at: seq<int>) {
    && |seen| == |at|
    && forall i, j | 0 <= i && j == i + 1 < |seen| :: OnlyReportsChange(CycleOf(cfg, cg, seen[i], at[i]), seen[j])
  }

  /** The cycle does a switch towards `target`: no swap, no active-active topology. */
  ghost predicate SwitchesTo(cfg: Config, groups: seq<GroupRuntime>, target: string) {
    && !(cfg.automatic && SwapFires(groups)) && !AllSame(groups)
    && Target(groups).Some? && groups[Target(groups).value].name == target
  }

  ghost predicate NoOwner(groups: seq<GroupRuntime>) {
    forall g <- groups :: !g.Owner()
  }

  ghost predicate Quiet(groups: seq<GroupRuntime>, but: string) {
    forall g <- groups | g.Draining() :: g.name == but
  }

  // ----- One cycle -----

  lemma SwitchCycle(cfg: Config, cg: string, groups: seq<GroupRuntime>, target: string, mem: Memory, now: int)
    requires Distinct(groups) && SwitchesTo(cfg, groups, target)
    ensures PolicyPlan(cfg, cg, groups, mem, now) == SwitchPlan(cfg, cg, groups, target, mem, now)
  {
    hide SwitchPlan, SwapFires, AllSame, Target;
  }

  /** A cycle that finds `current` to be the only group in the way. */
  lemma HandOver(cfg: Config, cg: string, groups: seq<GroupRuntime>, target: string, mem: Memory, now: int, current: GroupRuntime)
    requires Distinct(groups) && current in groups && current.name != target
    requires forall g <- groups | g.Owner() :: g == current
    requires current.Owner() || (current.Draining() && Quiet(groups, current.name))
    ensures SwitchPlan(cfg, cg, groups, target, mem, now) ==
      if current.Stopped()
      then Plan(OthersPassive(groups, target)[target := DesiredActive], map[], Memory(mem.started - {current.name}, None))
      else Plan(map[current.name := DesiredPassive], map[],
                DrainMemory(mem, current.name, target, now, SwitchoverTimeout(cfg, cg, current.name)))
  {
    hide First, CurrentActive, OthersPassive, DrainMemory, SwitchoverTimeout;
    CurrentActiveMeans(groups);
    match CurrentActive(groups)
    case None =>
      assert false;
    case Some(c) =>
      if groups[c].Draining() && !groups[c].Owner() {
        assert !current.Owner() && groups[c].name == current.name;
      }
      if groups[c].name == current.name { SameName(groups, groups[c], current); }
  }

  /** A cycle that finds nobody in the way acts exactly when a drain was recorded for its target. */
  lemma Vacant(cfg: Config, cg: string, groups: seq<GroupRuntime>, target: string, mem: Memory, now: int)
    requires NoOwner(groups) && forall g <- groups :: !g.Draining()
    ensures SwitchPlan(cfg, cg, groups, target, mem, now) ==
      if mem.target == Some(target)
      then Plan(OthersPassive(groups, target)[target := DesiredActive], map[], mem.(target := None))
      else Nothing(mem)
  {
    hide First, CurrentActive, OthersPassive;
    CurrentActiveMeans(groups);
  }

  // ----- Runs -----

  /** The target owns the service, and every other managed group is to be passive. */
  ghost predicate TakenOver(w: World, cg: string, target: string) {
    && target in Visible(w.docs) && Rt(w, cg, target).Owner()
    && forall mg <- Visible(w.docs) | mg != target && Rt(w, cg, mg).managed :: Rt(w, cg, mg).desired == DesiredPassive
  }

  lemma RuntimesAreRt(w: World, cg: string)
    ensures forall g <- Runtimes(w, cg) :: g.name in Visible(w.docs) && g == Rt(w, cg, g.name)
    ensures forall mg <- Visible(w.docs) :: Rt(w, cg, mg) in Runtimes(w, cg) && Rt(w, cg, mg).name == mg
  {
    hide Runtimes, GroupState;
  }

  lemma DesiredPersists(cg: string, w: World, w': World, mg: string)
    requires OnlyReportsChange(w, w') && mg in Visible(w.docs)
    ensures mg in Visible(w'.docs)
    ensures Rt(w', cg, mg).desired == Rt(w, cg, mg).desired
    ensures Rt(w', cg, mg).managed == Rt(w, cg, mg).managed
  {
    hide GroupState;
  }

  lemma StateIsKnown(w: World, cg: string, mg: string)
    requires mg in Visible(w.docs)
    ensures !Rt(w, cg, mg).actual.ActualOther?
  {}

  lemma CycleMemory(cfg: Config, cg: string, w: World, now: int)
    ensures CycleOf(cfg, cg, w, now).memory == PlanOf(cfg, cg, w, now).memory
  {
    hide Runtimes, PolicyPlan;
  }

  /** A plan that activates the target is carried out. */
  lemma TakeOver(cfg: Config, cg: string, w: World, now: int, target: string)
    requires target in Visible(w.docs)
    requires PlanOf(cfg, cg, w, now).desired == OthersPassive(Runtimes(w, cg), target)[target := DesiredActive]
    ensures TakenOver(CycleOf(cfg, cg, w, now), cg, target)
  {
    hide Runtimes, CycleOf, PlanOf, GroupState, OthersPassive, RuntimeOf;
    var w' := CycleOf(cfg, cg, w, now);
    CycleKeepsListing(cfg, cg, w, now);
    AfterCycle(cfg, cg, w, now, target);
    RuntimesAreRt(w, cg);
    forall mg <- Visible(w'.docs) | mg != target && Rt(w', cg, mg).managed ensures Rt(w', cg, mg).desired == DesiredPassive {
      AfterCycle(cfg, cg, w, now, mg);
      OthersPassiveAt(Runtimes(w, cg), target, Rt(w, cg, mg));
    }
  }

  /** Nobody owns the service or is draining, and no drain is on record for the group it could go to. */
  ghost predicate Stranded(cfg: Config, cg: string, w: World) {
    var groups := Runtimes(w, cg);
    && !(cfg.automatic && SwapFires(groups)) && !AllSame(groups)
    && (forall g <- groups :: !g.Draining())
    && (Target(groups).Some? ==> w.memory.target != Some(groups[Target(groups).value].name))
  }

  lemma StrandedCycle(cfg: Config, cg: string, w: World, now: int, next: World)
    requires Stranded(cfg, cg, w) && NoOwner(Runtimes(w, cg))
    requires OnlyReportsChange(CycleOf(cfg, cg, w, now), next)
    ensures PlanOf(cfg, cg, w, now) == Nothing(w.memory)
    ensures next.memory == w.memory && NoOwner(Runtimes(next, cg))
  {
    hide Runtimes, CycleOf, PolicyPlan, GroupState, RuntimeOf, SwitchPlan;
    StrandedPlan(cfg, cg, w, now);
    CycleMemory(cfg, cg, w, now);
    CycleKeepsListing(cfg, cg, w, now);
    RuntimesAreRt(w, cg);
    RuntimesAreRt(next, cg);
    forall g <- Runtimes(next, cg) ensures !g.Owner() {
      AfterCycle(cfg, cg, w, now, g.name);
      DesiredPersists(cg, CycleOf(cfg, cg, w, now), next, g.name);
    }
  }

  lemma StrandedPlan(cfg: Config, cg: string, w: World, now: int)
    requires Stranded(cfg, cg, w) && NoOwner(Runtimes(w, cg))
    ensures PlanOf(cfg, cg, w, now) == Nothing(w.memory)
  {
    hide Runtimes, SwitchPlan, SwapFires, GroupState;
    var groups := Runtimes(w, cg);
    if Target(groups).Some? {
      Vacant(cfg, cg, groups, groups[Target(groups).value].name, w.memory, now);
    }
  }

  /** Without an owner and without a drain on record for the target, no cycle of any length of run
      writes a desired state: the service stays down until an operator or a report intervenes. */
  lemma {:induction false} StrandedForever(cfg: Config, cg: string, seen: seq<World>, at: seq<int>, i: nat)
    requires IsRun(cfg, cg, seen, at) && i < |seen|
    requires NoOwner(Runtimes(seen[0], cg))
    requires forall w <- seen :: Stranded(cfg, cg, w.(memory := seen[0].memory))
    ensures seen[i].memory == seen[0].memory && NoOwner(Runtimes(seen[i], cg))
    ensures PlanOf(cfg, cg, seen[i], at[i]) == Nothing(seen[0].memory)
  {
    hide CycleOf, PlanOf, NoOwner, OnlyReportsChange, Stranded;
    if i > 0 {
      StrandedForever(cfg, cg, seen, at, i - 1);
      var w := seen[i - 1];
      assert w in seen && w.(memory := seen[0].memory) == w;
      assert OnlyReportsChange(CycleOf(cfg, cg, w, at[i - 1]), seen[i]);
      StrandedCycle(cfg, cg, w, at[i - 1], seen[i]);
    }
    assert seen[i] in seen && seen[i].(memory := seen[0].memory) == seen[i];
    StrandedPlan(cfg, cg, seen[i], at[i]);
  }
}
