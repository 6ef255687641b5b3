/** The controller: what one call of Reconcile reads, decides and writes. */
module Controller {
  import opened Model
  import opened Order
  import opened Aggregation
  import opened Policy
  import opened Cycle
  import opened Commands
  import Etcd

  class Controller {
    const cfg: Config
    const etcd: Etcd.Client
    var switchoverStarted: map<string, map<string, int>>  // cluster group -> group -> when its drain began
    var switchoverTarget: map<string, string>             // cluster group -> group the drain is for

    constructor (cfg: Config, etcd: Etcd.Client)
      ensures this.cfg == cfg && this.etcd == etcd
      ensures forall cg :: Remembers(cg) == NO_MEMORY
    {
      this.cfg := cfg;
      this.etcd := etcd;
      switchoverStarted := map[];
      switchoverTarget := map[];
    }

    function Started(cg: string): map<string, int>
      reads this
    {
      if cg in switchoverStarted then switchoverStarted[cg] else map[]
    }

    function Remembers(cg: string): Memory
      reads this
    {
      Memory(Started(cg), if cg in switchoverTarget then Some(switchoverTarget[cg]) else None)
    }

    ghost function WorldOf(cg: string): World
      reads this, etcd
    {
      World(etcd.registry, etcd.Docs(cg), Remembers(cg))
    }

    // ----- Aggregation -----

    /** Writes state and health of a group where they changed. */
    method WriteReport(cg: string, mg: string, a: Aggregate, now: int)
      requires mg in etcd.Docs(cg)
      modifies etcd`groups, etcd`puts
      ensures etcd.Docs(cg) == old(etcd.Docs(cg))[mg := Refreshed(old(etcd.Docs(cg)[mg]), a, now)]
      ensures forall c | c != cg :: etcd.Docs(c) == old(etcd.Docs(c))
      ensures etcd.puts >= old(etcd.puts)
      ensures etcd.puts > old(etcd.puts) ==> ReportChanged(old(etcd.Docs(cg)[mg]), etcd.Docs(cg)[mg])
    {
      var d := etcd.Docs(cg)[mg];
      if !(d.actual.Decoded? && d.actual.doc.state == a.state && d.actual.doc.details == a.details) {
        etcd.Put(cg, mg, d.(actual := Decoded(ActualDoc(a.state, now, a.details))));
      }
      if !(d.health.Decoded? && d.health.doc.status == a.health && d.health.doc.details == a.details) {
        etcd.Put(cg, mg, etcd.Docs(cg)[mg].(health := Decoded(HealthDoc(a.health, a.details))));
      }
    }

    /** Aggregates one group, and writes its state and health where they changed. */
    method ReconcileManagementGroup(cg: string, mg: string, now: int) returns (g: GroupRuntime)
      requires mg in etcd.Docs(cg)
      modifies etcd`groups, etcd`puts
      ensures g == RuntimeOf(etcd.registry, cg, mg, old(etcd.Docs(cg)[mg]))
      ensures etcd.Docs(cg) == old(etcd.Docs(cg))[mg :=
        Refreshed(old(etcd.Docs(cg)[mg]), GroupState(etcd.registry, cg, mg, old(etcd.Docs(cg)[mg])), now)]
      ensures forall c | c != cg :: etcd.Docs(c) == old(etcd.Docs(c))
      ensures etcd.puts >= old(etcd.puts)
      ensures etcd.puts > old(etcd.puts) ==> ReportChanged(old(etcd.Docs(cg)[mg]), etcd.Docs(cg)[mg])
    {
      hide AggregateOf;
      var d := etcd.Docs(cg)[mg];
      var desired := ReadDesired(d);
      var lost := false;
      if desired.managed {
        var missing := MissingExpectedRoleStates(etcd.registry, cg, mg, d);
        lost := missing != [];
      }
      var a := AggregateRoles(d.roleActual, lost);
      assert a == GroupState(etcd.registry, cg, mg, d);
      WriteReport(cg, mg, a, now);
      g := GroupRuntime(mg, ReadPriority(d), desired.state, desired.managed, a.state, a.health);
    }

    // ----- Choices -----

    method FindTarget(groups: seq<GroupRuntime>) returns (r: Option<nat>)
      ensures r == Target(groups)
      ensures r.None? <==> forall g <- groups :: !(g.managed && g.health != HealthFailed && g.actual != ActualFailed)
      ensures r.Some? ==> r.value < |groups| && (var t := groups[r.value];
        && t.managed && t.health != HealthFailed && t.actual != ActualFailed
        && forall j :: 0 <= j < |groups| && groups[j].managed && groups[j].health != HealthFailed && groups[j].actual != ActualFailed ==>
             t.priority <= groups[j].priority && (j < r.value ==> t.priority < groups[j].priority))
    {
      r := None;
      for i := 0 to |groups|
        invariant r.None? ==> forall j :: 0 <= j < i ==> !groups[j].Eligible()
        invariant r.Some? ==> r.value < i && groups[r.value].Eligible()
        invariant r.Some? ==> forall j :: 0 <= j < i && groups[j].Eligible() ==>
          groups[r.value].priority <= groups[j].priority && (j < r.value ==> groups[r.value].priority < groups[j].priority)
      {
        if groups[i].managed && groups[i].Available() {
          if r.None? || groups[i].priority < groups[r.value].priority {
            r := Some(i);
          }
        }
      }
      if r.Some? { assert groups[r.value] in groups; }
      assert r.Some? ==> forall j :: 0 <= j < |groups| && groups[j].managed && groups[j].Available() ==> groups[j].Eligible();
      TargetIs(groups, r);
    }

    method AllSamePriority(groups: seq<GroupRuntime>) returns (same: bool)
      ensures same == AllSame(groups)
      ensures same <==> forall g, h | g in groups && h in groups :: g.priority == h.priority
    {
      if |groups| == 0 {
        return true;
      }
      for i := 1 to |groups|
        invariant forall j :: 0 <= j < i ==> groups[j].priority == groups[0].priority
      {
        if groups[i].priority != groups[0].priority {
          assert groups[i] in groups && groups[0] in groups;
          return false;
        }
      }
      return true;
    }

    method FindCurrentActive(groups: seq<GroupRuntime>) returns (r: Option<nat>)
      ensures r == CurrentActive(groups)
      ensures r.Some? ==> r.value < |groups| && (var c := groups[r.value];
        if c.desired == DesiredActive && c.managed
        then forall j :: 0 <= j < r.value ==> !(groups[j].desired == DesiredActive && groups[j].managed)
        else
          && c.desired == DesiredPassive && c.actual in {ActualActive, ActualStopping, ActualStarting}
          && (forall g <- groups :: !(g.desired == DesiredActive && g.managed))
          && forall j :: 0 <= j < r.value ==>
               !(groups[j].desired == DesiredPassive && groups[j].actual in {ActualActive, ActualStopping, ActualStarting}))
      ensures r.None? ==> forall g <- groups ::
        !(g.desired == DesiredActive && g.managed) &&
        !(g.desired == DesiredPassive && g.actual in {ActualActive, ActualStopping, ActualStarting})
    {
      for i := 0 to |groups|
        invariant forall j :: 0 <= j < i ==> !groups[j].Owner()
      {
        if groups[i].desired == DesiredActive && groups[i].managed {
          FirstIs(groups, (g: GroupRuntime) => g.Owner(), i);
          return Some(i);
        }
      }
      FirstIsNone(groups, (g: GroupRuntime) => g.Owner());
      for i := 0 to |groups|
        invariant forall j :: 0 <= j < i ==> !groups[j].Draining()
      {
        if groups[i].desired == DesiredPassive &&
           (groups[i].actual == ActualActive || groups[i].actual == ActualStopping || groups[i].actual == ActualStarting) {
          FirstIs(groups, (g: GroupRuntime) => g.Draining(), i);
          return Some(i);
        }
      }
      FirstIsNone(groups, (g: GroupRuntime) => g.Draining());
      return None;
    }

    /** The configuration lists the role for the group, and defines it. */
    predicate ListedRole(cg: string, mg: string, role: string) {
      && cg in cfg.managementGroups && mg in cfg.managementGroups[cg]
      && role in cfg.managementGroups[cg][mg] && role in cfg.roles
    }

    method SwitchoverTimeout(cg: string, mg: string) returns (timeout: int)
      ensures timeout == Policy.SwitchoverTimeout(cfg, cg, mg)
      ensures forall role | ListedRole(cg, mg, role) :: timeout >= cfg.roles[role].check + cfg.roles[role].converge + cfg.roles[role].exec
      ensures (exists role :: ListedRole(cg, mg, role) && cfg.roles[role].check + cfg.roles[role].converge + cfg.roles[role].exec > 0) ==>
        exists role :: ListedRole(cg, mg, role) && timeout == cfg.roles[role].check + cfg.roles[role].converge + cfg.roles[role].exec
      ensures (forall role | ListedRole(cg, mg, role) :: cfg.roles[role].check + cfg.roles[role].converge + cfg.roles[role].exec <= 0) ==>
        timeout == 30_000_000_000
    {
      if cg !in cfg.managementGroups || mg !in cfg.managementGroups[cg] {
        return DEFAULT_TIMEOUT;
      }
      var roles := cfg.managementGroups[cg][mg];
      timeout := 0;
      for i := 0 to |roles|
        invariant timeout == LongestRole(cfg, roles[..i])
      {
        assert roles[..i + 1][..i] == roles[..i];
        if roles[i] in cfg.roles {
          var t := cfg.roles[roles[i]];
          if t.check + t.converge + t.exec > timeout {
            timeout := t.check + t.converge + t.exec;
          }
        }
      }
      assert roles[..|roles|] == roles;
      if timeout == 0 {
        timeout := DEFAULT_TIMEOUT;
      }
    }

    // ----- Writes -----

    method WriteDesiredIfChanged(cg: string, mg: string, state: DesiredState)
      requires mg in etcd.Docs(cg) && etcd.Docs(cg)[mg].listed
      modifies etcd`groups, etcd`puts
      ensures etcd.Docs(cg) == old(etcd.Docs(cg))[mg := WithDesired(old(etcd.Docs(cg)[mg]), state, true)]
      ensures etcd.Docs(cg)[mg] == old(etcd.Docs(cg)[mg]).(desired := Decoded(DesiredDoc(state, true)))
      ensures forall c | c != cg :: etcd.Docs(c) == old(etcd.Docs(c))
      ensures etcd.puts == old(etcd.puts) || (etcd.puts > old(etcd.puts) && etcd.Docs(cg)[mg].desired != old(etcd.Docs(cg)[mg].desired))
    {
      var d := etcd.Docs(cg)[mg];
      if d.desired.Decoded? && d.desired.doc.state == state && d.desired.doc.managed {
        return;
      }
      etcd.Put(cg, mg, WithDesired(d, state, true));
    }

    method WritePriority(cg: string, mg: string, priority: nat)
      requires mg in etcd.Docs(cg)
      modifies etcd`groups, etcd`puts
      ensures etcd.Docs(cg) == old(etcd.Docs(cg))[mg :=
        if old(etcd.Docs(cg)[mg]).config.Decoded?
        then old(etcd.Docs(cg)[mg]).(config := Decoded(old(etcd.Docs(cg)[mg]).config.doc.(priority := priority)))
        else old(etcd.Docs(cg)[mg])]
      ensures forall c | c != cg :: etcd.Docs(c) == old(etcd.Docs(c))
      ensures etcd.puts == old(etcd.puts) || (etcd.puts > old(etcd.puts) && etcd.Docs(cg)[mg].config != old(etcd.Docs(cg)[mg].config))
    {
      var d := etcd.Docs(cg)[mg];
      if !d.config.Decoded? || d.config.doc.priority == priority {
        return;
      }
      etcd.Put(cg, mg, d.(config := Decoded(d.config.doc.(priority := priority))));
    }

    // ----- Policy -----

    ghost predicate Known(cg: string, groups: seq<GroupRuntime>)
      reads etcd
    {
      Distinct(groups) && forall g <- groups :: g.name in etcd.Docs(cg) && etcd.Docs(cg)[g.name].listed
    }

    /** Either nothing was put, or some desired state or config differs from `before`. */
    twostate predicate PutsShow(cg: string)
      reads etcd
    {
      && etcd.puts >= old(etcd.puts)
      && (etcd.puts > old(etcd.puts) ==> DecisionsMade(old(etcd.Docs(cg)), etcd.Docs(cg)))
    }

    method MakeOthersPassive(cg: string, groups: seq<GroupRuntime>, target: string)
      requires Known(cg, groups)
      modifies etcd`groups, etcd`puts
      ensures etcd.Docs(cg) == CarryDesired(old(etcd.Docs(cg)), OthersPassive(groups, target))
      ensures forall c | c != cg :: etcd.Docs(c) == old(etcd.Docs(c))
      ensures PutsShow(cg)
    {
      ghost var docs := etcd.Docs(cg);
      for i := 0 to |groups|
        invariant etcd.Docs(cg) == CarryDesired(docs, OthersPassive(groups[..i], target))
        invariant forall c | c != cg :: etcd.Docs(c) == old(etcd.Docs(c))
        invariant PutsShow(cg)
      {
        ghost var plan := OthersPassive(groups[..i], target);
        OneMorePassive(groups, i, target);
        if groups[i].name != target && groups[i].managed {
          CarryMore(docs, plan, groups[i].name, DesiredPassive);
          WriteDesiredIfChanged(cg, groups[i].name, DesiredPassive);
        }
      }
      assert groups[..|groups|] == groups;
    }

    method MakeAllActive(cg: string, groups: seq<GroupRuntime>)
      requires Known(cg, groups)
      modifies etcd`groups, etcd`puts
      ensures etcd.Docs(cg) == CarryDesired(old(etcd.Docs(cg)), AllActive(groups))
      ensures forall c | c != cg :: etcd.Docs(c) == old(etcd.Docs(c))
      ensures PutsShow(cg)
    {
      ghost var docs := etcd.Docs(cg);
      for i := 0 to |groups|
        invariant etcd.Docs(cg) == CarryDesired(docs, AllActive(groups[..i]))
        invariant forall c | c != cg :: etcd.Docs(c) == old(etcd.Docs(c))
        invariant PutsShow(cg)
      {
        OneMoreActive(groups, i);
        if groups[i].managed {
          CarryMore(docs, AllActive(groups[..i]), groups[i].name, DesiredActive);
          WriteDesiredIfChanged(cg, groups[i].name, DesiredActive);
        }
      }
      assert groups[..|groups|] == groups;
    }

    /** Some managed group has failed, none has a better priority, and there is an available one. */
    ghost predicate SwapIsDue(groups: seq<GroupRuntime>) {
      && (exists g <- groups :: g.managed && !(g.health != HealthFailed && g.actual != ActualFailed) &&
            forall h <- groups :: g.priority <= h.priority)
      && exists g <- groups :: g.health != HealthFailed && g.actual != ActualFailed
    }

    ghost predicate IsLeastPriority(groups: seq<GroupRuntime>, p: nat) {
      (exists g <- groups :: g.priority == p) && forall g <- groups :: p <= g.priority
    }

    ghost predicate IsNextBest(groups: seq<GroupRuntime>, p: nat) {
      && (exists g <- groups :: g.priority == p && g.health != HealthFailed && g.actual != ActualFailed)
      && forall g <- groups | g.health != HealthFailed && g.actual != ActualFailed :: p <= g.priority
    }

    /** Whether a swap is due, and between which priorities. */
    method SwapLevels(groups: seq<GroupRuntime>) returns (due: bool, top: nat, next: nat)
      ensures due == (groups != [] && SwapFires(groups))
      ensures due ==> top == Top(groups) && next == NextBest(groups)
      ensures due <==> SwapIsDue(groups)
      ensures due ==> IsLeastPriority(groups, top) && IsNextBest(groups, next)
    {
      hide Top, NextBest;
      var minPri := -1;
      for i := 0 to |groups|
        invariant minPri < 0 <==> i == 0
        invariant i > 0 ==> exists g <- groups[..i] :: g.priority == minPri
        invariant forall g <- groups[..i] :: minPri <= g.priority
      {
        assert groups[..i + 1] == groups[..i] + [groups[i]];
        if minPri < 0 || groups[i].priority < minPri {
          minPri := groups[i].priority;
        }
      }
      assert groups[..|groups|] == groups;
      if minPri < 0 {
        return false, 0, 0;
      }
      var topFailed := false;
      for i := 0 to |groups|
        invariant topFailed <==> exists g <- groups[..i] :: g.priority == minPri && !g.Available() && g.managed
      {
        assert groups[..i + 1] == groups[..i] + [groups[i]];
        if groups[i].priority == minPri && !groups[i].Available() && groups[i].managed {
          topFailed := true;
        }
      }
      TopIs(groups, minPri);
      if !topFailed {
        return false, 0, 0;
      }
      var nextPri := -1;
      for i := 0 to |groups|
        invariant nextPri < 0 <==> forall g <- groups[..i] :: !g.Available()
        invariant nextPri >= 0 ==> exists g <- groups[..i] :: g.Available() && g.priority == nextPri
        invariant forall g <- groups[..i] | g.Available() :: nextPri <= g.priority
      {
        assert groups[..i + 1] == groups[..i] + [groups[i]];
        if groups[i].Available() {
          if nextPri < 0 || groups[i].priority < nextPri {
            nextPri := groups[i].priority;
          }
        }
      }
      if nextPri < 0 {
        return false, 0, 0;
      }
      NextBestIs(groups, nextPri);
      return true, minPri, nextPri;
    }

    /** The failed groups of the top priority get the next best one, and the available groups of that
        one get the top, if their config can be written; nothing else changes. */
    function Exchanged(g: GroupRuntime, d: GroupDocs, top: nat, next: nat): GroupDocs {
      var available := g.health != HealthFailed && g.actual != ActualFailed;
      if !d.config.Decoded? then d
      else if g.priority == top && !available then d.(config := Decoded(d.config.doc.(priority := next)))
      else if g.priority == next && available then d.(config := Decoded(d.config.doc.(priority := top)))
      else d
    }

    ghost predicate SwapWritten(groups: seq<GroupRuntime>, before: Groups, after: Groups) {
      exists top, next :: IsLeastPriority(groups, top) && IsNextBest(groups, next) && EachExchanged(groups, before, after, top, next)
    }

    ghost predicate EachExchanged(groups: seq<GroupRuntime>, before: Groups, after: Groups, top: nat, next: nat) {
      forall g <- groups :: g.name in before && g.name in after && after[g.name] == Exchanged(g, before[g.name], top, next)
    }

    lemma SwapIsWritten(groups: seq<GroupRuntime>, docs: Groups)
      requires Distinct(groups) && SwapFires(groups) && forall g <- groups :: g.name in docs
      ensures EachExchanged(groups, docs, CarryPriorities(docs, SwapPlan(groups)), Top(groups), NextBest(groups))
    {
      var top, next := Top(groups), NextBest(groups);
      hide SwapFires, Top, NextBest, SwapPlan;
      forall g <- groups ensures CarryPriorities(docs, SwapPlan(groups))[g.name] == Exchanged(g, docs[g.name], top, next) {
        SwapPlanAt(groups, g);
      }
    }

    /** Swaps priorities when a managed group of the top priority has failed. */
    method HandleAutoFailover(cg: string, groups: seq<GroupRuntime>) returns (fired: bool)
      requires Known(cg, groups)
      modifies etcd`groups, etcd`puts
      ensures fired == (groups != [] && SwapFires(groups))
      ensures fired <==> SwapIsDue(groups)
      ensures fired ==> SwapWritten(groups, old(etcd.Docs(cg)), etcd.Docs(cg))
      ensures etcd.Docs(cg) == if fired then CarryPriorities(old(etcd.Docs(cg)), SwapPlan(groups)) else old(etcd.Docs(cg))
      ensures forall c | c != cg :: etcd.Docs(c) == old(etcd.Docs(c))
      ensures PutsShow(cg)
    {
      hide SwapFires, Top, NextBest, SwapPlan, Among, DecisionsMade, CarryPriorities;
      var due, minPri, nextPri := SwapLevels(groups);
      if !due {
        return false;
      }
      ghost var docs := etcd.Docs(cg);
      CarryNothing(docs, NO_MEMORY);
      AmongEnds(groups);
      for i := 0 to |groups|
        invariant etcd.Docs(cg) == CarryPriorities(docs, Among(SwapPlan(groups), groups[..i]))
        invariant forall c | c != cg :: etcd.Docs(c) == old(etcd.Docs(c))
        invariant PutsShow(cg)
      {
        var g := groups[i];
        ghost var mid := etcd.Docs(cg);
        SwapPlanAt(groups, g);
        OneMoreAmong(SwapPlan(groups), groups, i);
        CarryMorePriority(docs, Among(SwapPlan(groups), groups[..i]), g.name, SwappedPriority(groups, g));
        if g.priority == minPri && !g.Available() {
          WritePriority(cg, g.name, nextPri);
        } else if g.priority == nextPri && g.Available() {
          WritePriority(cg, g.name, minPri);
        }
        DecisionsAdd(docs, mid, g.name, etcd.Docs(cg)[g.name]);
      }
      SwapIsWritten(groups, docs);
      return true;
    }

    method ApplyPriorityPolicy(cg: string, groups: seq<GroupRuntime>, now: int)
      requires Known(cg, groups)
      modifies this`switchoverStarted, this`switchoverTarget, etcd`groups, etcd`puts
      ensures var plan := PolicyPlan(cfg, cg, groups, old(Remembers(cg)), now);
        etcd.Docs(cg) == Carry(old(etcd.Docs(cg)), plan) && Remembers(cg) == plan.memory
      ensures forall c | c != cg :: etcd.Docs(c) == old(etcd.Docs(c)) && Remembers(c) == old(Remembers(c))
      ensures PutsShow(cg)
    {
      hide SwapFires, SwapPlan, AllSame, Target, OthersPassive, ManagedNames, SwitchPlan;
      CarryNothing(etcd.Docs(cg), Remembers(cg));
      if |groups| == 0 {
        return;
      }
      if cfg.automatic {
        var fired := HandleAutoFailover(cg, groups);
        if fired {
          CarryEither(old(etcd.Docs(cg)), PolicyPlan(cfg, cg, groups, old(Remembers(cg)), now));
          return;
        }
      }
      var same := AllSamePriority(groups);
      if same {
        MakeAllActive(cg, groups);
        CarryEither(old(etcd.Docs(cg)), PolicyPlan(cfg, cg, groups, old(Remembers(cg)), now));
        return;
      }
      var t := FindTarget(groups);
      if t.None? {
        return;
      }
      Switch(cg, groups, groups[t.value].name, now);
    }

    /** Phase 1 of a switchover. */
    method Drain(cg: string, draining: string, target: string, now: int)
      requires draining in etcd.Docs(cg) && etcd.Docs(cg)[draining].listed
      modifies this`switchoverStarted, this`switchoverTarget, etcd`groups, etcd`puts
      ensures etcd.Docs(cg) == CarryDesired(old(etcd.Docs(cg)), map[draining := DesiredPassive])
      ensures Remembers(cg) == DrainMemory(old(Remembers(cg)), draining, target, now, Policy.SwitchoverTimeout(cfg, cg, draining))
      ensures forall c | c != cg :: etcd.Docs(c) == old(etcd.Docs(c)) && Remembers(c) == old(Remembers(c))
      ensures PutsShow(cg)
    {
      hide Policy.SwitchoverTimeout, DrainMemory;
      CarryMore(etcd.Docs(cg), map[], draining, DesiredPassive);
      CarryNothing(etcd.Docs(cg), Remembers(cg));
      WriteDesiredIfChanged(cg, draining, DesiredPassive);
      TimeDrain(cg, draining, target, now);
    }

    /** Remembers the start and the target of a new drain, and forgets one that has timed out. */
    method TimeDrain(cg: string, draining: string, target: string, now: int)
      modifies this`switchoverStarted, this`switchoverTarget
      ensures Remembers(cg) == DrainMemory(old(Remembers(cg)), draining, target, now, Policy.SwitchoverTimeout(cfg, cg, draining))
      ensures forall c | c != cg :: Remembers(c) == old(Remembers(c))
    {
      if draining !in Started(cg) {
        switchoverStarted := switchoverStarted[cg := Started(cg)[draining := now]];
        switchoverTarget := switchoverTarget[cg := target];
      } else {
        var timeout := SwitchoverTimeout(cg, draining);
        if now - Started(cg)[draining] > timeout {
          switchoverStarted := switchoverStarted[cg := Started(cg) - {draining}];
          switchoverTarget := switchoverTarget - {cg};
        }
      }
    }

    /** Writes the target active, then every other managed group passive. */
    method Activate(cg: string, groups: seq<GroupRuntime>, target: string)
      requires Known(cg, groups) && target in etcd.Docs(cg) && etcd.Docs(cg)[target].listed
      modifies etcd`groups, etcd`puts
      ensures etcd.Docs(cg) == CarryDesired(old(etcd.Docs(cg)), OthersPassive(groups, target)[target := DesiredActive])
      ensures forall c | c != cg :: etcd.Docs(c) == old(etcd.Docs(c))
      ensures PutsShow(cg)
    {
      hide OthersPassive, ManagedNames, WithDesired;
      ghost var docs := etcd.Docs(cg);
      WriteDesiredIfChanged(cg, target, DesiredActive);
      ListedStays(docs, target, DesiredActive);
      ghost var mid := etcd.Docs(cg);
      MakeOthersPassive(cg, groups, target);
      CarryTakeOver(docs, groups, target);
      if exists mg :: mg in mid && DecisionsDiffer(mid[mg], etcd.Docs(cg)[mg]) {
        var mg :| mg in mid && DecisionsDiffer(mid[mg], etcd.Docs(cg)[mg]);
        assert mg != target;
      }
    }

    /** Two-phase switchover towards the target. */
    method Switch(cg: string, groups: seq<GroupRuntime>, target: string, now: int)
      requires Known(cg, groups) && exists g <- groups :: g.name == target
      modifies this`switchoverStarted, this`switchoverTarget, etcd`groups, etcd`puts
      ensures var plan := SwitchPlan(cfg, cg, groups, target, old(Remembers(cg)), now);
        etcd.Docs(cg) == Carry(old(etcd.Docs(cg)), plan) && Remembers(cg) == plan.memory
      ensures forall c | c != cg :: etcd.Docs(c) == old(etcd.Docs(c)) && Remembers(c) == old(Remembers(c))
      ensures PutsShow(cg)
    {
      hide First, CurrentActive, OthersPassive, ManagedNames;
      ghost var docs, mem := etcd.Docs(cg), Remembers(cg);
      CarryNothing(docs, mem);
      CarryEither(docs, SwitchPlan(cfg, cg, groups, target, mem, now));
      hide CarryDesired, Carry, DrainMemory, Policy.SwitchoverTimeout, DecisionsMade;
      var c := FindCurrentActive(groups);
      if c.Some? {
        var current := groups[c.value];
        assert current in groups;
        if current.name == target {
          MakeOthersPassive(cg, groups, target);
          return;
        }
        if current.actual != ActualPassive && current.actual != ActualFailed {
          Drain(cg, current.name, target, now);
          return;
        }
        switchoverStarted := switchoverStarted[cg := Started(cg) - {current.name}];
      }
      if c.None? && !(cg in switchoverTarget && switchoverTarget[cg] == target) {
        return;
      }
      switchoverTarget := switchoverTarget - {cg};
      Activate(cg, groups, target);
    }

    // ----- The cycle -----

    /** Aggregates every group listed below a cluster group. */
    method AggregateGroups(cg: string, now: int) returns (groups: seq<GroupRuntime>)
      modifies etcd`groups, etcd`puts
      ensures groups == Runtimes(old(WorldOf(cg)), cg)
      ensures etcd.Docs(cg) == RefreshAll(etcd.registry, cg, old(etcd.Docs(cg)), Visible(old(etcd.Docs(cg))), now)
      ensures forall c | c != cg :: etcd.Docs(c) == old(etcd.Docs(c))
      ensures etcd.puts >= old(etcd.puts)
      ensures etcd.puts > old(etcd.puts) ==> ReportsChanged(old(etcd.Docs(cg)), etcd.Docs(cg))
    {
      hide RuntimeOf, GroupState, Refreshed, ReportChanged, ReportsChanged, RefreshAll, Filter, Elements, Sorted, IsSystemKey;
      ghost var w := WorldOf(cg);
      var names := etcd.ListChildren(cg);
      SortedNamesOf(Listed(w.docs));
      FilterSorted(Listed(w.docs), Visible(w.docs));
      groups := [];
      ghost var handled: seq<string> := [];
      RefreshNone(w, cg, now);
      FilterNone(names[..0], Visible(w.docs));
      for i := 0 to |names|
        invariant handled == Filter(names[..i], Visible(w.docs))
        invariant groups == RuntimesOf(w.registry, cg, w.docs, handled)
        invariant etcd.Docs(cg) == RefreshAll(w.registry, cg, w.docs, Elements(handled), now)
        invariant forall c | c != cg :: etcd.Docs(c) == old(etcd.Docs(c))
        invariant etcd.puts >= old(etcd.puts)
        invariant etcd.puts > old(etcd.puts) ==> ReportsChanged(w.docs, etcd.Docs(cg))
      {
        FilterStep(names, i, Visible(w.docs));
        assert names[i] in Listed(w.docs);
        if !IsSystemKey(names[i]) {
          NotHandledYet(names, i, Visible(w.docs));
          RefreshMore(w, cg, handled, names[i], now);
          ghost var before := etcd.Docs(cg);
          var g := ReconcileManagementGroup(cg, names[i], now);
          ReportsAdd(w.docs, before, names[i], etcd.Docs(cg)[names[i]]);
          RuntimesMore(w, cg, handled, names[i]);
          groups := groups + [g];
          handled := handled + [names[i]];
        }
      }
      assert names[..|names|] == names;
      VisibleElements(w);
    }

    /** Handles one cluster group: aggregates, then applies the policy. */
    method ReconcileClusterGroup(cg: string, now: int)
      modifies this`switchoverStarted, this`switchoverTarget, etcd`groups, etcd`puts
      ensures WorldOf(cg) == CycleOf(cfg, cg, old(WorldOf(cg)), now)
      ensures forall c | c != cg :: WorldOf(c) == old(WorldOf(c))
      ensures etcd.puts >= old(etcd.puts)
      ensures etcd.puts > old(etcd.puts) ==> WorldOf(cg) != old(WorldOf(cg))
    {
      hide Runtimes, RuntimeOf, PolicyPlan, GroupState, Refreshed;
      ghost var w := WorldOf(cg);
      var groups := AggregateGroups(cg, now);
      ghost var refreshed := etcd.Docs(cg);
      RefreshKeepsDecisions(w, cg, now);
      ApplyPriorityPolicy(cg, groups, now);
      ChangesAddUp(w.docs, refreshed, etcd.Docs(cg), PolicyPlan(cfg, cg, groups, w.memory, now));
    }

    /** The entry point: every configured cluster group in any order, once the store is ready. */
    method Reconcile(now: int)
      modifies this`switchoverStarted, this`switchoverTarget, etcd`groups, etcd`puts
      ensures forall cg :: WorldOf(cg) == (if etcd.ready && cg in cfg.clusterGroups
        then CycleOf(cfg, cg, old(WorldOf(cg)), now) else old(WorldOf(cg)))
      ensures (forall cg :: WorldOf(cg) == old(WorldOf(cg))) ==> etcd.puts == old(etcd.puts)
    {
      hide CycleOf;
      if !etcd.ready {
        return;
      }
      var todo := cfg.clusterGroups;
      while todo != {}
        invariant todo <= cfg.clusterGroups
        invariant forall cg :: WorldOf(cg) == (if cg in cfg.clusterGroups - todo
          then CycleOf(cfg, cg, old(WorldOf(cg)), now) else old(WorldOf(cg)))
        invariant etcd.puts >= old(etcd.puts)
        invariant etcd.puts > old(etcd.puts) ==> exists cg :: WorldOf(cg) != old(WorldOf(cg))
        decreases todo
      {
        var cg :| cg in todo;
        todo := todo - {cg};
        label before:
        ReconcileClusterGroup(cg, now);
        assert WorldOf(cg) == CycleOf(cfg, cg, old(WorldOf(cg)), now);
        assert etcd.puts > old@before(etcd.puts) ==> WorldOf(cg) != old(WorldOf(cg));
        if c :| c != cg && old@before(WorldOf(c)) != old(WorldOf(c)) { assert WorldOf(c) != old(WorldOf(c)); }
      }
    }
  }

  lemma FirstIs(groups: seq<GroupRuntime>, p: GroupRuntime -> bool, i: nat)
    requires i < |groups| && p(groups[i]) && forall j :: 0 <= j < i ==> !p(groups[j])
    ensures First(groups, p) == Some(i)
  {
    assert groups[i] in groups;
    var f := First(groups, p);
    assert f.Some? && f.value < |groups|;
  }

  lemma FirstIsNone(groups: seq<GroupRuntime>, p: GroupRuntime -> bool)
    requires forall i :: 0 <= i < |groups| ==> !p(groups[i])
    ensures First(groups, p) == None
  {}

  // ----- Plans carried out in steps -----

  predicate DecisionsDiffer(d: GroupDocs, e: GroupDocs) {
    d.desired != e.desired || d.config != e.config
  }

  ghost predicate DecisionsMade(before: Groups, after: Groups) {
    exists mg :: mg in before && mg in after && DecisionsDiffer(before[mg], after[mg])
  }

  lemma DecisionsAdd(docs: Groups, before: Groups, mg: string, d: GroupDocs)
    requires mg in docs && mg in before && before[mg] == docs[mg]
    ensures DecisionsMade(docs, before) || DecisionsDiffer(before[mg], d) ==> DecisionsMade(docs, before[mg := d])
  {
    var after := before[mg := d];
    if DecisionsMade(docs, before) {
      var x :| x in docs && x in before && DecisionsDiffer(docs[x], before[x]);
      assert DecisionsDiffer(docs[x], after[x]);
    }
    if DecisionsDiffer(docs[mg], d) { assert DecisionsDiffer(docs[mg], after[mg]); }
  }

  lemma TargetIs(groups: seq<GroupRuntime>, r: Option<nat>)
    requires r.None? ==> forall j :: 0 <= j < |groups| ==> !groups[j].Eligible()
    requires r.Some? ==> IsTarget(groups, r.value)
    ensures r == Target(groups)
  {
    if r.Some? { assert groups[r.value] in groups; }
  }

  lemma OneMoreActive(groups: seq<GroupRuntime>, i: nat)
    requires Distinct(groups) && i < |groups|
    ensures AllActive(groups[..i + 1]) ==
      if groups[i].managed then AllActive(groups[..i])[groups[i].name := DesiredActive] else AllActive(groups[..i])
    ensures groups[i].name !in AllActive(groups[..i])
  {
    OneMoreManaged(groups, i);
  }

  function CarryDesired(docs: Groups, plan: map<string, DesiredState>): Groups {
    map mg | mg in docs :: if mg in plan then WithDesired(docs[mg], plan[mg], true) else docs[mg]
  }

  function CarryPriorities(docs: Groups, plan: map<string, nat>): Groups {
    map mg | mg in docs :: if mg in plan && docs[mg].config.Decoded?
      then docs[mg].(config := Decoded(docs[mg].config.doc.(priority := plan[mg]))) else docs[mg]
  }

  lemma CarryEither(docs: Groups, plan: Plan)
    ensures plan.priorities == map[] ==> Carry(docs, plan) == CarryDesired(docs, plan.desired)
    ensures plan.desired == map[] ==> Carry(docs, plan) == CarryPriorities(docs, plan.priorities)
  {}

  lemma CarryNothing(docs: Groups, mem: Memory)
    ensures Carry(docs, Nothing(mem)) == docs
    ensures CarryDesired(docs, map[]) == docs && CarryPriorities(docs, map[]) == docs
  {}

  lemma CarryMore(docs: Groups, plan: map<string, DesiredState>, n: string, state: DesiredState)
    requires n in docs && n !in plan
    ensures CarryDesired(docs, plan)[n] == docs[n]
    ensures CarryDesired(docs, plan[n := state]) == CarryDesired(docs, plan)[n := WithDesired(docs[n], state, true)]
  {}

  lemma CarryMorePriority(docs: Groups, plan: map<string, nat>, n: string, p: nat)
    requires n in docs && n !in plan
    ensures n in CarryPriorities(docs, plan) && CarryPriorities(docs, plan)[n] == docs[n]
    ensures CarryPriorities(docs, plan[n := p]) == CarryPriorities(docs, plan)[n :=
      if docs[n].config.Decoded? then docs[n].(config := Decoded(docs[n].config.doc.(priority := p))) else docs[n]]
  {}

  lemma ListedStays(docs: Groups, mg: string, state: DesiredState)
    requires mg in docs
    ensures WithDesired(docs[mg], state, true).listed
    ensures WithDesired(docs[mg], state, true).config == docs[mg].config
  {}

  lemma CarryTakeOver(docs: Groups, groups: seq<GroupRuntime>, target: string)
    requires target in docs
    ensures CarryDesired(docs[target := WithDesired(docs[target], DesiredActive, true)], OthersPassive(groups, target))
      == CarryDesired(docs, OthersPassive(groups, target)[target := DesiredActive])
    ensures target !in OthersPassive(groups, target)
  {}

  lemma OneMoreManaged(groups: seq<GroupRuntime>, i: nat)
    requires Distinct(groups) && i < |groups|
    ensures ManagedNames(groups[..i + 1]) == ManagedNames(groups[..i]) + if groups[i].managed then {groups[i].name} else {}
    ensures groups[i].name !in ManagedNames(groups[..i])
  {
    assert groups[..i + 1] == groups[..i] + [groups[i]];
  }

  lemma OneMorePassive(groups: seq<GroupRuntime>, i: nat, target: string)
    requires Distinct(groups) && i < |groups|
    ensures OthersPassive(groups[..i + 1], target) ==
      if groups[i].managed && groups[i].name != target
      then OthersPassive(groups[..i], target)[groups[i].name := DesiredPassive] else OthersPassive(groups[..i], target)
    ensures groups[i].name !in OthersPassive(groups[..i], target)
  {
    OneMoreManaged(groups, i);
  }

  lemma TopIs(groups: seq<GroupRuntime>, p: nat)
    requires exists g <- groups :: g.priority == p
    requires forall g <- groups :: p <= g.priority
    ensures groups != [] && Top(groups) == p
  {
    assert Top(groups) in Priorities(groups) && p in Priorities(groups);
  }

  lemma NextBestIs(groups: seq<GroupRuntime>, p: nat)
    requires exists g <- groups :: g.Available() && g.priority == p
    requires forall g <- groups | g.Available() :: p <= g.priority
    ensures NextBest(groups) == p
  {
    assert NextBest(groups) in AvailablePriorities(groups);
    assert p in AvailablePriorities(groups);
  }

  /** The part of a plan about the given groups. */
  ghost function Among(plan: map<string, nat>, groups: seq<GroupRuntime>): map<string, nat> {
    map n | n in plan && exists g <- groups :: g.name == n :: plan[n]
  }

  lemma OneMoreAmong(plan: map<string, nat>, groups: seq<GroupRuntime>, i: nat)
    requires Distinct(groups) && i < |groups|
    ensures Among(plan, groups[..i + 1]) ==
      if groups[i].name in plan then Among(plan, groups[..i])[groups[i].name := plan[groups[i].name]]
      else Among(plan, groups[..i])
    ensures groups[i].name !in Among(plan, groups[..i])
  {
    assert groups[..i + 1] == groups[..i] + [groups[i]];
  }

  lemma AmongEnds(groups: seq<GroupRuntime>)
    requires SwapFires(groups)
    ensures Among(SwapPlan(groups), groups[..0]) == map[]
    ensures Among(SwapPlan(groups), groups[..|groups|]) == SwapPlan(groups)
  {
    hide SwapFires, MovesUp, MovesDown;
    assert groups[..|groups|] == groups;
    forall n <- SwapPlan(groups) ensures exists g <- groups :: g.name == n {}
  }

  // ----- Refreshing group by group -----

  ghost predicate ReportsChanged(before: Groups, after: Groups) {
    exists mg :: mg in before && mg in after && ReportChanged(before[mg], after[mg])
  }

  lemma ReportsAdd(docs: Groups, before: Groups, mg: string, d: GroupDocs)
    requires mg in docs && mg in before && before[mg] == docs[mg]
    ensures ReportsChanged(docs, before) || ReportChanged(docs[mg], d) ==> ReportsChanged(docs, before[mg := d])
  {
    var after := before[mg := d];
    if ReportsChanged(docs, before) {
      var x :| x in docs && x in before && ReportChanged(docs[x], before[x]);
      assert ReportChanged(docs[x], after[x]);
    }
    if ReportChanged(docs[mg], d) { assert ReportChanged(docs[mg], after[mg]); }
  }

  predicate ReportChanged(d: GroupDocs, e: GroupDocs) {
    d.actual != e.actual || d.health != e.health
  }

  lemma RefreshNone(w: World, cg: string, now: int)
    ensures RefreshAll(w.registry, cg, w.docs, Elements([]), now) == w.docs
  {}

  lemma FilterNone(none: seq<string>, s: set<string>)
    requires none == []
    ensures Filter(none, s) == []
  {}

  lemma FilterStep(names: seq<string>, i: nat, s: set<string>)
    requires i < |names|
    ensures Filter(names[..i + 1], s) == Filter(names[..i], s) + if names[i] in s then [names[i]] else []
  {
    assert names[..i + 1][..i] == names[..i];
  }

  lemma VisibleElements(w: World)
    ensures Elements(SortedNames(Visible(w.docs))) == Visible(w.docs)
  {
    SortedNamesOf(Visible(w.docs));
  }

  lemma RuntimesMore(w: World, cg: string, handled: seq<string>, mg: string)
    requires mg in w.docs && forall n <- handled :: n in w.docs
    ensures forall n <- handled + [mg] :: n in w.docs
    ensures RuntimesOf(w.registry, cg, w.docs, handled + [mg]) ==
      RuntimesOf(w.registry, cg, w.docs, handled) + [RuntimeOf(w.registry, cg, mg, w.docs[mg])]
  {
    hide RuntimeOf;
  }

  lemma RefreshMore(w: World, cg: string, handled: seq<string>, mg: string, now: int)
    requires mg in w.docs && mg !in handled
    ensures mg in RefreshAll(w.registry, cg, w.docs, Elements(handled), now)
    ensures RefreshAll(w.registry, cg, w.docs, Elements(handled), now)[mg] == w.docs[mg]
    ensures RefreshAll(w.registry, cg, w.docs, Elements(handled + [mg]), now) ==
      RefreshAll(w.registry, cg, w.docs, Elements(handled), now)[mg :=
        Refreshed(w.docs[mg], GroupState(w.registry, cg, mg, w.docs[mg]), now)]
  {
    hide GroupState, Refreshed;
  }

  lemma RefreshKeepsDecisions(w: World, cg: string, now: int)
    ensures var after := RefreshAll(w.registry, cg, w.docs, Visible(w.docs), now);
      && after.Keys == w.docs.Keys
      && forall mg <- w.docs :: after[mg].desired == w.docs[mg].desired && after[mg].config == w.docs[mg].config
           && after[mg].listed == w.docs[mg].listed
  {
    hide GroupState;
  }

  lemma NotHandledYet(names: seq<string>, i: nat, s: set<string>)
    requires Sorted(names) && i < |names|
    ensures names[i] !in Filter(names[..i], s)
  {
    hide Leq;
  }

  lemma ChangesAddUp(docs: Groups, refreshed: Groups, after: Groups, plan: Plan)
    requires docs.Keys == refreshed.Keys && after == Carry(refreshed, plan)
    requires forall mg <- docs :: refreshed[mg].desired == docs[mg].desired && refreshed[mg].config == docs[mg].config
    ensures ReportsChanged(docs, refreshed) || DecisionsMade(refreshed, after) ==> docs != after
  {
    if ReportsChanged(docs, refreshed) {
      var mg :| mg in docs && mg in refreshed && ReportChanged(docs[mg], refreshed[mg]);
      assert after[mg].actual == refreshed[mg].actual && after[mg].health == refreshed[mg].health;
    }
  }
}
