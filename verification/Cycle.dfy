/** One reconcile cycle of a cluster group: aggregate every group, decide, write. */
module Cycle {
  import opened Model
  import opened Order
  import opened Aggregation
  import opened Policy

  /** One cluster group as the controller meets it. */
  datatype World = World(registry: Registry, docs: Groups, memory: Memory)

  /** The groups a cycle handles: listed below the cluster group, and not a system key. */
  function Visible(docs: Groups): set<string> {
    set mg | mg in docs && docs[mg].listed && !IsSystemKey(mg)
  }

  ghost function RuntimeOf(registry: Registry, cg: string, mg: string, d: GroupDocs): GroupRuntime {
    var a := GroupState(registry, cg, mg, d);
    GroupRuntime(mg, ReadPriority(d), ReadDesired(d).state, ReadDesired(d).managed, a.state, a.health)
  }

  ghost function RuntimesOf(registry: Registry, cg: string, docs: Groups, names: seq<string>): (groups: seq<GroupRuntime>)
    requires forall n <- names :: n in docs
    ensures |groups| == |names|
    ensures forall i :: 0 <= i < |names| ==> groups[i] == RuntimeOf(registry, cg, names[i], docs[names[i]])
  {
    seq(|names|, i requires 0 <= i < |names| => RuntimeOf(registry, cg, names[i], docs[names[i]]))
  }

  ghost function Runtimes(w: World, cg: string): (groups: seq<GroupRuntime>)
    ensures Distinct(groups)
    ensures forall g <- groups :: g.name in Visible(w.docs) && g == RuntimeOf(w.registry, cg, g.name, w.docs[g.name])
    ensures forall mg <- Visible(w.docs) :: RuntimeOf(w.registry, cg, mg, w.docs[mg]) in groups
  {
    var names := SortedNames(Visible(w.docs));
    SortedNamesOf(Visible(w.docs));
    var groups := RuntimesOf(w.registry, cg, w.docs, names);
    assert forall mg <- Visible(w.docs) :: RuntimeOf(w.registry, cg, mg, w.docs[mg]) in groups by {
      forall mg <- Visible(w.docs) ensures RuntimeOf(w.registry, cg, mg, w.docs[mg]) in groups {
        var i :| 0 <= i < |names| && names[i] == mg;
        assert groups[i] == RuntimeOf(w.registry, cg, mg, w.docs[mg]);
      }
    }
    groups
  }

  /** Group state and health documents are rewritten when the state or the details change. */
  function Refreshed(d: GroupDocs, a: Aggregate, now: int): GroupDocs {
    d.(actual :=
         if d.actual.Decoded? && d.actual.doc.state == a.state && d.actual.doc.details == a.details then d.actual
         else Decoded(ActualDoc(a.state, now, a.details)),
       health :=
         if d.health.Decoded? && d.health.doc.status == a.health && d.health.doc.details == a.details then d.health
         else Decoded(HealthDoc(a.health, a.details)))
  }

  ghost function RefreshAll(registry: Registry, cg: string, docs: Groups, names: set<string>, now: int): Groups {
    map mg | mg in docs ::
      if mg in names then Refreshed(docs[mg], GroupState(registry, cg, mg, docs[mg]), now) else docs[mg]
  }

  /** A desired document is written with managed=true; a priority only into a decodable config. */
  function Planned(d: GroupDocs, mg: string, plan: Plan): GroupDocs {
    var d1 := if mg in plan.desired then WithDesired(d, plan.desired[mg], true) else d;
    if mg in plan.priorities && d1.config.Decoded?
    then d1.(config := Decoded(d1.config.doc.(priority := plan.priorities[mg])))
    else d1
  }

  function Carry(docs: Groups, plan: Plan): Groups {
    map mg | mg in docs :: Planned(docs[mg], mg, plan)
  }

  ghost function PlanOf(cfg: Config, cg: string, w: World, now: int): Plan {
    PolicyPlan(cfg, cg, Runtimes(w, cg), w.memory, now)
  }

  /** The world after one cycle at time `now`, every write having succeeded. */
  ghost function CycleOf(cfg: Config, cg: string, w: World, now: int): World {
    var plan := PlanOf(cfg, cg, w, now);
    World(w.registry, Carry(RefreshAll(w.registry, cg, w.docs, Visible(w.docs), now), plan), plan.memory)
  }

  // ----- What a cycle leaves of each group -----

  ghost function Rt(w: World, cg: string, mg: string): GroupRuntime
    requires mg in Visible(w.docs)
  {
    RuntimeOf(w.registry, cg, mg, w.docs[mg])
  }

  /** How the documents of a group are read: passive and unmanaged unless the desired document says
      otherwise, and of priority 1000 unless the config gives a positive one. */
  lemma DocumentsRead(w: World, cg: string, mg: string)
    requires mg in Visible(w.docs)
    ensures var g, d := Rt(w, cg, mg), w.docs[mg];
      && (g.managed <==> d.desired.Decoded? && d.desired.doc.managed)
      && g.desired == (if d.desired.Decoded? then d.desired.doc.state else DesiredPassive)
      && g.priority == (if d.config.Decoded? && d.config.doc.priority > 0 then d.config.doc.priority else 1000)
  {
    hide GroupState;
  }

  /** A cycle handles, in the order of their names, the groups listed below the cluster group, except
      for the names that the key schema reserves. */
  lemma GroupsHandled(w: World, cg: string)
    ensures forall mg :: (exists g <- Runtimes(w, cg) :: g.name == mg) <==>
      (mg in w.docs && w.docs[mg].listed
       && mg !in {"leadership", "commands", "commands_history", "registry", "session", "config"})
    ensures forall i, j :: 0 <= i < j < |Runtimes(w, cg)| ==>
      Leq(Runtimes(w, cg)[i].name, Runtimes(w, cg)[j].name) && Runtimes(w, cg)[i].name != Runtimes(w, cg)[j].name
  {
    hide RuntimeOf, Leq;
    SortedNamesOf(Visible(w.docs));
    NamesOf(w, cg);
    assert forall g <- Runtimes(w, cg) :: g.name in Visible(w.docs);
    forall mg <- Visible(w.docs) ensures exists g <- Runtimes(w, cg) :: g.name == mg { HandledAs(w, cg, mg); }
  }

  lemma HandledAs(w: World, cg: string, mg: string)
    requires mg in Visible(w.docs)
    ensures RuntimeOf(w.registry, cg, mg, w.docs[mg]) in Runtimes(w, cg) && RuntimeOf(w.registry, cg, mg, w.docs[mg]).name == mg
  {
    hide GroupState;
  }

  lemma NamesOf(w: World, cg: string)
    ensures var names := SortedNames(Visible(w.docs));
      |Runtimes(w, cg)| == |names| && forall i :: 0 <= i < |names| ==> Runtimes(w, cg)[i].name == names[i]
  {
    hide GroupState;
  }

  lemma SameNames(w: World, w': World, cg: string)
    requires Visible(w'.docs) == Visible(w.docs)
    ensures |Runtimes(w', cg)| == |Runtimes(w, cg)|
    ensures forall i :: 0 <= i < |Runtimes(w, cg)| ==> Runtimes(w', cg)[i].name == Runtimes(w, cg)[i].name
  {
    hide GroupState, SortedNames;
  }

  lemma PlanNamesGroups(cfg: Config, cg: string, groups: seq<GroupRuntime>, mem: Memory, now: int)
    requires Distinct(groups)
    ensures var plan := PolicyPlan(cfg, cg, groups, mem, now);
      && (forall n <- plan.desired :: exists g <- groups :: g.name == n)
      && (forall n <- plan.priorities :: exists g <- groups :: g.name == n)
  {
    hide SwapFires, AllSame, SwapPlan, SwitchPlan, Distinct;
    if groups != [] && cfg.automatic && SwapFires(groups) { SwapNames(groups); }
    if Target(groups).Some? {
      assert groups[Target(groups).value] in groups;
      SwitchNames(cfg, cg, groups, groups[Target(groups).value].name, mem, now);
    }
  }

  lemma SwapNames(groups: seq<GroupRuntime>)
    requires SwapFires(groups)
    ensures forall n <- SwapPlan(groups) :: exists g <- groups :: g.name == n
  {
    hide SwapFires, MovesDown, MovesUp, SwappedPriority;
  }

  lemma SwitchNames(cfg: Config, cg: string, groups: seq<GroupRuntime>, target: string, mem: Memory, now: int)
    requires exists g <- groups :: g.name == target
    ensures SwitchPlan(cfg, cg, groups, target, mem, now).priorities == map[]
    ensures forall n <- SwitchPlan(cfg, cg, groups, target, mem, now).desired :: exists g <- groups :: g.name == n
  {
    hide First, CurrentActive, DrainMemory, SwitchoverTimeout;
    if CurrentActive(groups).Some? { assert groups[CurrentActive(groups).value] in groups; }
  }

  lemma {:induction false} CycleKeepsListing(cfg: Config, cg: string, w: World, now: int)
    ensures Visible(CycleOf(cfg, cg, w, now).docs) == Visible(w.docs)
    ensures CycleOf(cfg, cg, w, now).docs.Keys == w.docs.Keys
  {
    hide AggregateOf, GroupState, Runtimes, PolicyPlan;
    PlanNamesGroups(cfg, cg, Runtimes(w, cg), w.memory, now);
    var plan := PlanOf(cfg, cg, w, now);
    var w' := CycleOf(cfg, cg, w, now);
    forall mg <- w.docs ensures w'.docs[mg].listed == w.docs[mg].listed {
      if mg in plan.desired { assert mg in Visible(w.docs); }
    }
  }

  /** Desired state and priority of a group after a cycle, in terms of the plan; its roles stay. */
  lemma CycleDocs(cfg: Config, cg: string, w: World, now: int, mg: string)
    requires mg in Visible(w.docs)
    ensures mg in CycleOf(cfg, cg, w, now).docs
    ensures ReadDesired(CycleOf(cfg, cg, w, now).docs[mg]) ==
      (if mg in PlanOf(cfg, cg, w, now).desired then DesiredDoc(PlanOf(cfg, cg, w, now).desired[mg], true)
       else ReadDesired(w.docs[mg]))
    ensures CycleOf(cfg, cg, w, now).docs[mg].config ==
      (if mg in PlanOf(cfg, cg, w, now).priorities && w.docs[mg].config.Decoded?
       then Decoded(w.docs[mg].config.doc.(priority := PlanOf(cfg, cg, w, now).priorities[mg]))
       else w.docs[mg].config)
    ensures CycleOf(cfg, cg, w, now).docs[mg].roleActual == w.docs[mg].roleActual
    ensures CycleOf(cfg, cg, w, now).docs[mg].roleHealth == w.docs[mg].roleHealth
  {
    hide AggregateOf, GroupState, Runtimes, PolicyPlan;
    var plan := PlanOf(cfg, cg, w, now);
    var refreshed := RefreshAll(w.registry, cg, w.docs, Visible(w.docs), now);
    assert CycleOf(cfg, cg, w, now).docs[mg] == Planned(refreshed[mg], mg, plan);
  }

  /** A group as the plan leaves it, its report and priority unchanged. */
  function Decided(g: GroupRuntime, plan: Plan): GroupRuntime {
    if g.name in plan.desired then g.(desired := plan.desired[g.name], managed := true) else g
  }

  /** A group before and after a cycle. Its state can only stay or turn to failed, and it stays when
      the management flag does. */
  lemma AfterCycle(cfg: Config, cg: string, w: World, now: int, mg: string)
    requires mg in Visible(w.docs)
    ensures mg in Visible(CycleOf(cfg, cg, w, now).docs)
    ensures Rt(CycleOf(cfg, cg, w, now), cg, mg).desired == Decided(Rt(w, cg, mg), PlanOf(cfg, cg, w, now)).desired
    ensures Rt(CycleOf(cfg, cg, w, now), cg, mg).managed == Decided(Rt(w, cg, mg), PlanOf(cfg, cg, w, now)).managed
    ensures Rt(CycleOf(cfg, cg, w, now), cg, mg).actual in {Rt(w, cg, mg).actual, ActualFailed}
    ensures Rt(CycleOf(cfg, cg, w, now), cg, mg).managed == Rt(w, cg, mg).managed ==>
      && Rt(CycleOf(cfg, cg, w, now), cg, mg).actual == Rt(w, cg, mg).actual
      && Rt(CycleOf(cfg, cg, w, now), cg, mg).health == Rt(w, cg, mg).health
    ensures mg !in PlanOf(cfg, cg, w, now).priorities ==>
      Rt(CycleOf(cfg, cg, w, now), cg, mg).priority == Rt(w, cg, mg).priority
    ensures (mg in PlanOf(cfg, cg, w, now).priorities && PlanOf(cfg, cg, w, now).priorities[mg] > 0
             && w.docs[mg].config.Decoded?) ==>
      Rt(CycleOf(cfg, cg, w, now), cg, mg).priority == PlanOf(cfg, cg, w, now).priorities[mg]
  {
    hide AggregateOf, Runtimes, PlanOf, CycleOf;
    CycleKeepsListing(cfg, cg, w, now);
    CycleDocs(cfg, cg, w, now, mg);
    var w' := CycleOf(cfg, cg, w, now);
    assert w'.registry == w.registry by { CycleKeepsRegistry(cfg, cg, w, now); }
    SameLoss(w.registry, cg, mg, w.docs[mg], w'.docs[mg]);
    FailedAggregate(w.docs[mg].roleActual);
  }

  lemma CycleKeepsRegistry(cfg: Config, cg: string, w: World, now: int)
    ensures CycleOf(cfg, cg, w, now).registry == w.registry
  {}

  lemma FailedAggregate(roles: RoleStates)
    ensures AggregateOf(roles, true).state == ActualFailed
  {}

  lemma SameLoss(registry: Registry, cg: string, mg: string, d: GroupDocs, d': GroupDocs)
    requires d'.roleActual == d.roleActual && d'.roleHealth == d.roleHealth
    ensures AgentLost(registry, cg, mg, d') == AgentLost(registry, cg, mg, d)
  {
    hide Expected;
    assert forall k :: Reports(d', k) == Reports(d, k);
  }
}
