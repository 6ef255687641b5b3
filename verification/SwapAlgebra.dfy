/** What the priority swap of automatic failover does to the priorities of a cluster group. */
module SwapAlgebra {
  import opened Model
  import opened Aggregation
  import opened Policy
  import opened Cycle
  import opened Safety
  import opened Progress

  /** The groups as the next cycle finds them when every priority of the swap was written. */
  ghost function AfterSwap(groups: seq<GroupRuntime>): (after: seq<GroupRuntime>)
    requires SwapFires(groups)
    ensures |after| == |groups|
    ensures forall i :: 0 <= i < |groups| ==> after[i] == groups[i].(priority := SwappedPriority(groups, groups[i]))
  {
    seq(|groups|, i requires 0 <= i < |groups| => groups[i].(priority := SwappedPriority(groups, groups[i])))
  }

  lemma TopIsLeast(groups: seq<GroupRuntime>)
    requires groups != []
    ensures forall g <- groups :: Top(groups) <= g.priority
    ensures exists g <- groups :: g.priority == Top(groups)
  {
    assert forall g <- groups :: g.priority in Priorities(groups);
    assert Top(groups) in Priorities(groups);
  }

  lemma NextBestIsLeast(groups: seq<GroupRuntime>)
    requires exists g <- groups :: g.Available()
    ensures forall g <- groups | g.Available() :: NextBest(groups) <= g.priority
    ensures exists g <- groups :: g.Available() && g.priority == NextBest(groups)
    ensures Top(groups) <= NextBest(groups)
  {
    assert forall g <- groups | g.Available() :: g.priority in AvailablePriorities(groups);
    assert NextBest(groups) in AvailablePriorities(groups);
    TopIsLeast(groups);
  }

  lemma IsTop(groups: seq<GroupRuntime>, p: nat)
    requires groups != []
    requires exists g <- groups :: g.priority == p
    requires forall g <- groups :: p <= g.priority
    ensures Top(groups) == p
  {
    TopIsLeast(groups);
  }

  /** No available group shares the top: afterwards the top priority is the same value, held exactly
      by the available groups of the next best one, and no further swap is due. */
  lemma SwapRaisesAvailable(groups: seq<GroupRuntime>)
    requires SwapFires(groups) && forall g <- groups | g.Available() :: g.priority != Top(groups)
    ensures var after := AfterSwap(groups);
      && Top(after) == Top(groups)
      && (forall i :: 0 <= i < |groups| ==>
            (after[i].priority == Top(after) <==> groups[i].Available() && groups[i].priority == NextBest(groups)))
      && !SwapFires(after)
  {
    hide SwapFires, SwappedPriority, Top, NextBest;
    var after := AfterSwap(groups);
    forall j | 0 <= j < |groups|
      ensures after[j].priority == Top(groups) <==> groups[j].Available() && groups[j].priority == NextBest(groups)
      ensures Top(groups) <= after[j].priority
      ensures after[j].Available() == groups[j].Available()
    {
      SwappedLevel(groups, groups[j]);
    }
    SomeoneMovesUp(groups);
    var i :| 0 <= i < |groups| && groups[i].Available() && groups[i].priority == NextBest(groups);
    assert after[i] in after;
    IsTop(after, Top(groups));
    NoSwapDue(after);
  }

  lemma SomeoneMovesUp(groups: seq<GroupRuntime>)
    requires SwapFires(groups)
    ensures exists i :: 0 <= i < |groups| && groups[i].Available() && groups[i].priority == NextBest(groups)
  {
    hide Top, NextBest;
    NextBestIsLeast(groups);
  }

  lemma SwappedLevel(groups: seq<GroupRuntime>, g: GroupRuntime)
    requires SwapFires(groups) && forall g <- groups | g.Available() :: g.priority != Top(groups)
    requires g in groups
    ensures SwappedPriority(groups, g) == Top(groups) <==> g.Available() && g.priority == NextBest(groups)
    ensures Top(groups) <= SwappedPriority(groups, g)
  {
    hide Top, NextBest;
    TopIsLeast(groups);
    NextBestIsLeast(groups);
  }

  lemma NoSwapDue(groups: seq<GroupRuntime>)
    requires groups != [] && forall g <- groups | g.priority == Top(groups) :: g.Available()
    ensures !SwapFires(groups)
  {
    hide Top;
  }

  /** The set of priorities in use does not change. */
  lemma SwapKeepsLevels(groups: seq<GroupRuntime>)
    requires SwapFires(groups) && forall g <- groups | g.Available() :: g.priority != Top(groups)
    ensures Priorities(AfterSwap(groups)) == Priorities(groups)
  {
    hide Top, NextBest;
    TopIsLeast(groups);
    NextBestIsLeast(groups);
    var after := AfterSwap(groups);
    var up :| up in groups && up.Available() && up.priority == NextBest(groups);
    var down :| down in groups && down.priority == Top(groups) && !down.Available();
    Keeps(groups, up);
    Keeps(groups, down);
    assert SwappedPriority(groups, up) == Top(groups) && SwappedPriority(groups, down) == NextBest(groups);
    hide SwapFires;
    forall g <- groups ensures g.priority in Priorities(after) {
      Keeps(groups, g);
    }
    forall a <- after ensures a.priority in Priorities(groups) {
      var j :| 0 <= j < |after| && after[j] == a;
      SwappedIsUsed(groups, groups[j]);
    }
  }

  lemma SwappedIsUsed(groups: seq<GroupRuntime>, g: GroupRuntime)
    requires SwapFires(groups) && g in groups
    ensures SwappedPriority(groups, g) in Priorities(groups)
  {
    hide Top, NextBest;
    TopIsLeast(groups);
    NextBestIsLeast(groups);
  }

  lemma Keeps(groups: seq<GroupRuntime>, g: GroupRuntime)
    requires SwapFires(groups) && g in groups
    ensures SwappedPriority(groups, g) in Priorities(AfterSwap(groups))
  {
    hide SwapFires, SwappedPriority;
    var i :| 0 <= i < |groups| && groups[i] == g;
    assert AfterSwap(groups)[i] in AfterSwap(groups);
  }

  // ----- How often each priority is used -----

  ghost function Uses(groups: seq<GroupRuntime>, p: nat): nat {
    if groups == [] then 0 else
      Uses(groups[..|groups| - 1], p) + if groups[|groups| - 1].priority == p then 1 else 0
  }

  ghost function Downs(groups: seq<GroupRuntime>, all: seq<GroupRuntime>): nat
    requires SwapFires(all)
  {
    if groups == [] then 0 else
      Downs(groups[..|groups| - 1], all) + if MovesDown(all, groups[|groups| - 1]) then 1 else 0
  }

  ghost function Ups(groups: seq<GroupRuntime>, all: seq<GroupRuntime>): nat
    requires SwapFires(all)
  {
    if groups == [] then 0 else
      Ups(groups[..|groups| - 1], all) + if MovesUp(all, groups[|groups| - 1]) then 1 else 0
  }

  lemma {:induction false} UsesAfter(groups: seq<GroupRuntime>, k: nat, p: nat)
    requires SwapFires(groups) && k <= |groups|
    requires Top(groups) != NextBest(groups)
    ensures Uses(AfterSwap(groups)[..k], p) == Uses(groups[..k], p)
      + (if p == Top(groups) then Ups(groups[..k], groups) - Downs(groups[..k], groups) else 0)
      + (if p == NextBest(groups) then Downs(groups[..k], groups) - Ups(groups[..k], groups) else 0)
  {
    hide SwapFires, Top, NextBest;
    if k > 0 {
      UsesAfter(groups, k - 1, p);
      var after := AfterSwap(groups);
      assert after[..k][..k - 1] == after[..k - 1] && groups[..k][..k - 1] == groups[..k - 1];
      assert after[..k][k - 1] == after[k - 1];
    }
  }

  /** How often each priority is used is unchanged exactly when as many groups go up as down. */
  lemma SwapKeepsUses(groups: seq<GroupRuntime>)
    requires SwapFires(groups) && forall g <- groups | g.Available() :: g.priority != Top(groups)
    ensures (forall p: nat :: Uses(AfterSwap(groups), p) == Uses(groups, p)) <==> Downs(groups, groups) == Ups(groups, groups)
  {
    hide Top, NextBest, Uses, Downs, Ups;
    NextBestIsLeast(groups);
    var n := |groups|;
    assert AfterSwap(groups)[..n] == AfterSwap(groups) && groups[..n] == groups;
    forall p: nat ensures Uses(AfterSwap(groups), p) == Uses(groups, p)
      + (if p == Top(groups) then Ups(groups, groups) - Downs(groups, groups) else 0)
      + (if p == NextBest(groups) then Downs(groups, groups) - Ups(groups, groups) else 0)
    {
      UsesAfter(groups, n, p);
    }
    if Downs(groups, groups) != Ups(groups, groups) {
      var top := Top(groups);
      assert Uses(AfterSwap(groups), top) != Uses(groups, top);
    }
  }

  // ----- In the documents -----

  /** The cycle that swaps leaves the groups as `AfterSwap` says, if their configs can be written. */
  lemma {:induction false} SwapCycle(cfg: Config, cg: string, w: World, now: int)
    requires cfg.automatic && SwapFires(Runtimes(w, cg))
    requires forall mg <- Visible(w.docs) :: w.docs[mg].config.Decoded?
    ensures Runtimes(CycleOf(cfg, cg, w, now), cg) == AfterSwap(Runtimes(w, cg))
    ensures CycleOf(cfg, cg, w, now).memory == w.memory
    ensures PlanOf(cfg, cg, w, now).desired == map[]
  {
    hide AggregateOf, GroupState, CycleOf, SwapFires, SwapPlan, SwappedPriority, AllSame, Target, SwitchPlan;
    var groups := Runtimes(w, cg);
    var w' := CycleOf(cfg, cg, w, now);
    SwapPlanIs(cfg, cg, groups, w.memory, now);
    CycleMemory(cfg, cg, w, now);
    CycleKeepsListing(cfg, cg, w, now);
    var groups' := Runtimes(w', cg);
    forall i | 0 <= i < |groups| ensures groups'[i] == AfterSwap(groups)[i] {
      var g := groups[i];
      assert g in groups && groups'[i].name == g.name;
      SwapCycleAt(cfg, cg, w, now, g);
    }
  }

  lemma SwapPlanIs(cfg: Config, cg: string, groups: seq<GroupRuntime>, mem: Memory, now: int)
    requires Distinct(groups) && cfg.automatic && SwapFires(groups)
    ensures PolicyPlan(cfg, cg, groups, mem, now) == Plan(map[], SwapPlan(groups), mem)
  {
    hide SwapPlan, AllSame, Target, SwitchPlan;
  }

  lemma {:induction false} SwapCycleAt(cfg: Config, cg: string, w: World, now: int, g: GroupRuntime)
    requires cfg.automatic && SwapFires(Runtimes(w, cg)) && g in Runtimes(w, cg)
    requires g.name in Visible(w.docs) && w.docs[g.name].config.Decoded?
    ensures g.name in Visible(CycleOf(cfg, cg, w, now).docs)
    ensures Rt(CycleOf(cfg, cg, w, now), cg, g.name) == g.(priority := SwappedPriority(Runtimes(w, cg), g))
  {
    hide AggregateOf, GroupState, Runtimes, CycleOf, SwapFires, SwapPlan, SwappedPriority, AllSame, Target, SwitchPlan;
    SwapPlanIs(cfg, cg, Runtimes(w, cg), w.memory, now);
    AfterCycle(cfg, cg, w, now, g.name);
    SwappedReading(cfg, cg, w, now, g);
    assert g == Rt(w, cg, g.name);
    var w' := CycleOf(cfg, cg, w, now);
    assert Rt(w', cg, g.name).priority == ReadPriority(w'.docs[g.name]);
  }

  /** An operator's decision is no failure: if every unavailable group of the least priority is
      unmanaged, a cycle changes no config, in automatic mode or not. */
  lemma {:induction false} UnmanagedFailureIsNone(cfg: Config, cg: string, w: World, now: int)
    requires forall g <- Runtimes(w, cg) | forall h <- Runtimes(w, cg) :: g.priority <= h.priority ::
      g.managed ==> g.health != HealthFailed && g.actual != ActualFailed
    ensures CycleOf(cfg, cg, w, now).docs.Keys == w.docs.Keys
    ensures forall mg <- w.docs :: CycleOf(cfg, cg, w, now).docs[mg].config == w.docs[mg].config
  {
    hide Runtimes, Top, GroupState, PlanOf;
    var groups := Runtimes(w, cg);
    if groups != [] { TopIsLeast(groups); }
    NoSwapNoPriorities(cfg, cg, w, now);
  }

  /** And an automatic cycle that finds a managed one there, and some group available, writes nothing
      but priorities. */
  lemma {:induction false} ManagedFailureSwaps(cfg: Config, cg: string, w: World, now: int)
    requires exists g <- Runtimes(w, cg) :: (
      g.managed && (g.health == HealthFailed || g.actual == ActualFailed) && forall h <- Runtimes(w, cg) :: g.priority <= h.priority)
    requires exists g <- Runtimes(w, cg) :: g.health != HealthFailed && g.actual != ActualFailed
    requires cfg.automatic
    ensures PlanOf(cfg, cg, w, now).desired == map[] && PlanOf(cfg, cg, w, now).priorities != map[]
  {
    hide Runtimes, Top, NextBest, GroupState, SwapPlan;
    var groups := Runtimes(w, cg);
    var g :| g in groups && g.managed && !g.Available() && forall h <- groups :: g.priority <= h.priority;
    IsTop(groups, g.priority);
    assert MovesDown(groups, g);
    SwapPlanAt(groups, g);
    SwapPlanIs(cfg, cg, groups, w.memory, now);
  }

  /** An available group shares the top with a failed managed one: the cycle changes no desired
      state and no priority as read, and the same holds of every later cycle on the same reports. */
  lemma {:induction false} SharedTopBlocksPolicy(cfg: Config, cg: string, w: World, now: int)
    requires cfg.automatic && SwapFires(Runtimes(w, cg))
    requires exists g <- Runtimes(w, cg) :: g.Available() && g.priority == Top(Runtimes(w, cg))
    requires forall mg <- Visible(w.docs) :: w.docs[mg].config.Decoded?
    ensures Runtimes(CycleOf(cfg, cg, w, now), cg) == Runtimes(w, cg)
    ensures CycleOf(cfg, cg, w, now).memory == w.memory
    ensures PlanOf(cfg, cg, w, now).desired == map[]
  {
    hide Runtimes, CycleOf, PlanOf, SwapFires, Top, NextBest, AfterSwap;
    SwapCycle(cfg, cg, w, now);
    SwapOfShared(Runtimes(w, cg));
  }

  lemma {:induction false} SwapOfShared(groups: seq<GroupRuntime>)
    requires SwapFires(groups) && exists g <- groups :: g.Available() && g.priority == Top(groups)
    ensures AfterSwap(groups) == groups
  {
    hide SwapFires, Top, NextBest;
    NextBestIsLeast(groups);
    assert NextBest(groups) == Top(groups);
  }
}
