/** What cycles do to groups that are not under management. */
module Unmanaged {
  import opened Model
  import opened Aggregation
  import opened Policy
  import opened Cycle
  import opened Progress
  import opened Stabilisation

  /** The group that a cycle takes for the owner although nobody manages it: with no owner about, the
      first group that was told to be passive and still reports otherwise. */
  ghost predicate TakenForOwner(cfg: Config, cg: string, w: World, mg: string) {
    var groups := Runtimes(w, cg);
    Switches(cfg, cg, w) && NoOwner(groups) && IsFirstDraining(groups, mg)
  }

  ghost predicate IsFirstDraining(groups: seq<GroupRuntime>, name: string) {
    exists c :: 0 <= c < |groups| && groups[c].name == name && groups[c].Draining() && forall j :: 0 <= j < c ==> !groups[j].Draining()
  }

  lemma CurrentActiveUnmanaged(groups: seq<GroupRuntime>, g: GroupRuntime)
    requires Distinct(groups) && g in groups && !g.managed
    ensures CurrentActive(groups).Some? && groups[CurrentActive(groups).value] == g <==>
      NoOwner(groups) && IsFirstDraining(groups, g.name)
  {
    var owner := (g: GroupRuntime) => g.Owner();
    var draining := (g: GroupRuntime) => g.Draining();
    assert forall g <- groups :: owner(g) == g.Owner() && draining(g) == g.Draining();
    CurrentActiveMeans(groups);
    if NoOwner(groups) {
      assert First(groups, owner).None?;
      var first := First(groups, draining);
      if c :| 0 <= c < |groups| && groups[c].name == g.name && groups[c].Draining() && forall j :: 0 <= j < c ==> !groups[j].Draining() {
        SameName(groups, groups[c], g);
        assert first == Some(c);
      }
    }
  }

  lemma SwitchPlanUnmanaged(cfg: Config, cg: string, groups: seq<GroupRuntime>, target: string, mem: Memory, now: int, g: GroupRuntime)
    requires Distinct(groups) && g in groups && !g.managed
    requires exists t <- groups :: t.name == target && t.managed
    requires forall h <- groups :: !h.actual.ActualOther?
    ensures var plan := SwitchPlan(cfg, cg, groups, target, mem, now);
      && (g.name in plan.desired <==> CurrentActive(groups).Some? && groups[CurrentActive(groups).value] == g)
      && (g.name in plan.desired ==> plan.desired[g.name] == DesiredPassive)
  {
    hide First, CurrentActive, OthersPassive, DrainMemory, SwitchoverTimeout;
    CurrentActiveMeans(groups);
    OthersPassiveAt(groups, target, g);
    var t :| t in groups && t.name == target && t.managed;
    if g.name == target { SameName(groups, g, t); }
    if CurrentActive(groups).Some? {
      var current := groups[CurrentActive(groups).value];
      if current.name == g.name { SameName(groups, current, g); }
    }
  }

  /** A cycle changes the desired document of an unmanaged group exactly when it takes the group for
      the owner; the group is then under management, and to be passive. */
  lemma {:induction false} UnmanagedChanged(cfg: Config, cg: string, w: World, now: int, mg: string)
    requires mg in Visible(w.docs) && !ReadDesired(w.docs[mg]).managed
    requires !AllSame(Runtimes(w, cg))
    ensures var w' := CycleOf(cfg, cg, w, now);
      && mg in Visible(w'.docs)
      && if TakenForOwner(cfg, cg, w, mg) then w'.docs[mg].desired == Decoded(DesiredDoc(DesiredPassive, true))
         else w'.docs[mg].desired == w.docs[mg].desired
  {
    hide Runtimes, CycleOf, PolicyPlan, SwitchPlan, GroupState, RuntimeOf, SwapFires, AllSame, Target;
    var groups := Runtimes(w, cg);
    RuntimesAreRt(w, cg);
    RtDesired(w, cg, mg);
    CycleKeepsListing(cfg, cg, w, now);
    CycleDesired(cfg, cg, w, now);
    var g := Rt(w, cg, mg);
    CurrentActiveUnmanaged(groups, g);
    if Switches(cfg, cg, w) {
      var target := TargetName(cfg, cg, w);
      SwitchCycle(cfg, cg, groups, target, w.memory, now);
      assert groups[Target(groups).value] in groups;
      forall h <- groups ensures !h.actual.ActualOther? { StateIsKnown(w, cg, h.name); }
      SwitchPlanUnmanaged(cfg, cg, groups, target, w.memory, now, g);
    } else {
      NotSwitching(cfg, cg, w, now);
    }
  }

  lemma NotSwitching(cfg: Config, cg: string, w: World, now: int)
    requires !Switches(cfg, cg, w) && !AllSame(Runtimes(w, cg))
    ensures PlanOf(cfg, cg, w, now).desired == map[]
  {
    hide Runtimes, SwitchPlan, SwapFires, SwapPlan, AllSame;
  }

  /** Between active groups of equal priorities no unmanaged group is touched at all. */
  lemma LevelLeavesUnmanaged(cfg: Config, cg: string, w: World, now: int, mg: string)
    requires mg in Visible(w.docs) && !ReadDesired(w.docs[mg]).managed
    requires AllSame(Runtimes(w, cg))
    ensures mg in CycleOf(cfg, cg, w, now).docs && CycleOf(cfg, cg, w, now).docs[mg].desired == w.docs[mg].desired
  {
    hide Runtimes, CycleOf, SwitchPlan, GroupState, RuntimeOf, SwapFires, SwapPlan, AllSame, ManagedNames;
    var groups := Runtimes(w, cg);
    RuntimesAreRt(w, cg);
    RtDesired(w, cg, mg);
    CycleDesired(cfg, cg, w, now);
    OthersPassiveAt(groups, "", Rt(w, cg, mg));
  }
}
