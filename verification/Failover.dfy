/** Automatic failover from end to end, on frozen reports. */
module Failover {
  import opened Model
  import opened Aggregation
  import opened Policy
  import opened Cycle
  import opened Progress
  import opened SwapAlgebra

  /** Consecutive cycles with nothing else happening. */
  ghost function Cycles(cfg: Config, cg: string, w: World, at: seq<int>): World {
    if at == [] then w else CycleOf(cfg, cg, Cycles(cfg, cg, w, at[..|at| - 1]), at[|at| - 1])
  }

  // ----- A cycle with nothing to say writes nothing -----

  lemma SameGroupState(cfg: Config, cg: string, w: World, now: int, mg: string)
    requires mg in Visible(w.docs)
    requires mg in PlanOf(cfg, cg, w, now).desired ==> ReadDesired(w.docs[mg]).managed
    ensures mg in CycleOf(cfg, cg, w, now).docs
    ensures GroupState(w.registry, cg, mg, CycleOf(cfg, cg, w, now).docs[mg]) == GroupState(w.registry, cg, mg, w.docs[mg])
  {
    hide AggregateOf, PlanOf, CycleOf, AgentLost;
    CycleDocs(cfg, cg, w, now, mg);
    SameLoss(w.registry, cg, mg, w.docs[mg], CycleOf(cfg, cg, w, now).docs[mg]);
  }

  lemma CycleRefreshes(cfg: Config, cg: string, w: World, now: int, mg: string)
    requires mg in Visible(w.docs)
    ensures mg in CycleOf(cfg, cg, w, now).docs
    ensures var d' := CycleOf(cfg, cg, w, now).docs[mg]; var a := GroupState(w.registry, cg, mg, w.docs[mg]);
      && d'.actual.Decoded? && d'.actual.doc.state == a.state && d'.actual.doc.details == a.details
      && d'.health.Decoded? && d'.health.doc.status == a.health && d'.health.doc.details == a.details
      && (d'.actual != w.docs[mg].actual ==> d'.actual.doc.updatedAt == now)
  {
    hide GroupState, PlanOf, ReadDesired;
  }

  /** After any cycle that kept the management flags, a cycle that asks only for what is stored
      writes nothing at all. */
  lemma {:induction false} NothingToWrite(cfg: Config, cg: string, w: World, now: int, now': int)
    requires forall mg <- PlanOf(cfg, cg, w, now).desired :: mg in Visible(w.docs) && ReadDesired(w.docs[mg]).managed
    requires var w' := CycleOf(cfg, cg, w, now);
      var plan := PlanOf(cfg, cg, w', now');
      && plan.priorities == map[] && plan.memory == w'.memory
      && forall mg <- plan.desired :: mg in Visible(w'.docs) && w'.docs[mg].desired == Decoded(DesiredDoc(plan.desired[mg], true))
    ensures CycleOf(cfg, cg, CycleOf(cfg, cg, w, now), now') == CycleOf(cfg, cg, w, now)
  {
    hide GroupState, PlanOf;
    var w' := CycleOf(cfg, cg, w, now);
    var plan := PlanOf(cfg, cg, w', now');
    CycleKeepsListing(cfg, cg, w, now);
    CycleKeepsRegistry(cfg, cg, w, now);
    forall mg <- w'.docs ensures CycleOf(cfg, cg, w', now').docs[mg] == w'.docs[mg] {
      if mg in Visible(w'.docs) {
        CycleRefreshes(cfg, cg, w, now, mg);
        SameGroupState(cfg, cg, w, now, mg);
        assert Refreshed(w'.docs[mg], GroupState(w'.registry, cg, mg, w'.docs[mg]), now') == w'.docs[mg];
      }
    }
  }

  // ----- Failover -----

  /** The failed group has the top priority and is the only owner; everything is managed and
      configured, and some group is available. */
  ghost predicate TopFailed(w: World, cg: string, failed: string) {
    var groups := Runtimes(w, cg);
    && (forall g <- groups :: g.managed && (g.Owner() <==> g.name == failed))
    && (forall mg <- Visible(w.docs) :: w.docs[mg].config.Decoded?)
    && (exists g <- groups :: g.name == failed && !g.Available() && forall h <- groups :: g.priority <= h.priority)
    && exists g <- groups :: g.Available()
  }

  /** The group that automatic failover goes for: the best available one, as things are. */
  ghost predicate IsSuccessor(w: World, cg: string, name: string) {
    var groups := Runtimes(w, cg);
    Target(groups).Some? && groups[Target(groups).value].name == name
  }

  ghost predicate TopIsShared(groups: seq<GroupRuntime>)
    requires groups != []
  {
    exists g <- groups :: g.Available() && g.priority == Top(groups)
  }

  /** What the first cycle leaves: the swap is made, the owner is unchanged. */
  ghost predicate Swapped(groups: seq<GroupRuntime>, failed: string, successor: string) {
    && Distinct(groups) && failed != successor && !SwapFires(groups) && !AllSame(groups)
    && (forall g <- groups :: g.managed && (g.Owner() <==> g.name == failed))
    && (exists g <- groups :: g.name == failed && g.Stopped())
    && Target(groups).Some? && groups[Target(groups).value].name == successor
  }

  lemma SwapFiresFor(groups: seq<GroupRuntime>, f: GroupRuntime)
    requires f in groups && f.managed && !f.Available() && forall h <- groups :: f.priority <= h.priority
    requires exists g <- groups :: g.Available()
    ensures SwapFires(groups) && Top(groups) == f.priority
  {
    IsTop(groups, f.priority);
  }

  lemma AfterSwapIsSwapped(groups: seq<GroupRuntime>, f: GroupRuntime, t: nat)
    requires Distinct(groups) && f in groups && t < |groups| && Target(groups) == Some(t)
    requires forall g <- groups :: g.managed && (g.Owner() <==> g == f)
    requires !f.Available() && f.Stopped() && forall h <- groups :: f.priority <= h.priority
    requires !TopIsShared(groups)
    ensures SwapFires(groups) && Swapped(AfterSwap(groups), f.name, groups[t].name)
  {
    hide Top, NextBest, SwapFires, Target, AllSame, AfterSwap, TopIsShared, Distinct;
    assert groups[t] in groups && groups[t].Available();
    SwapFiresFor(groups, f);
    SwapSettles(groups, f, t);
    SwapKeepsOwner(groups, f);
    NamesDiffer(groups, groups[t], f);
  }

  lemma NamesDiffer(groups: seq<GroupRuntime>, g: GroupRuntime, h: GroupRuntime)
    requires Distinct(groups) && g in groups && h in groups && g != h
    ensures g.name != h.name
  {
    if g.name == h.name { SameName(groups, g, h); }
  }

  lemma {:induction false} SwapSettles(groups: seq<GroupRuntime>, f: GroupRuntime, t: nat)
    requires Distinct(groups) && f in groups && SwapFires(groups) && t < |groups| && Target(groups) == Some(t)
    requires forall g <- groups :: g.managed
    requires !f.Available() && f.priority == Top(groups) && !TopIsShared(groups)
    ensures var after := AfterSwap(groups); !SwapFires(after) && !AllSame(after) && Target(after) == Some(t)
  {
    hide Top, NextBest, SwapFires, Target, AllSame, SwappedPriority;
    SwapRaisesAvailable(groups);
    SuccessorIsTarget(groups, t);
    var i :| 0 <= i < |groups| && groups[i] == f;
    Differ(AfterSwap(groups), i, t);
  }

  lemma SwapKeepsOwner(groups: seq<GroupRuntime>, f: GroupRuntime)
    requires Distinct(groups) && SwapFires(groups) && f in groups
    requires forall g <- groups :: g.managed && (g.Owner() <==> g == f)
    ensures var after := AfterSwap(groups);
      && Distinct(after)
      && (forall a <- after :: a.managed && (a.Owner() <==> a.name == f.name))
      && exists a <- after :: a.name == f.name && a.actual == f.actual
  {
    hide SwapFires, SwappedPriority;
    var after := AfterSwap(groups);
    forall a <- after ensures a.managed && (a.Owner() <==> a.name == f.name) {
      var k :| 0 <= k < |after| && after[k] == a;
      assert groups[k] in groups;
      if groups[k].name == f.name { SameName(groups, groups[k], f); }
    }
    var i :| 0 <= i < |groups| && groups[i] == f;
    assert after[i] in after;
  }

  /** After the swap the best available group is at the top, and the target as it was before. */
  lemma SuccessorIsTarget(groups: seq<GroupRuntime>, t: nat)
    requires SwapFires(groups) && t < |groups| && Target(groups) == Some(t)
    requires (forall g <- groups :: g.managed) && !TopIsShared(groups)
    ensures var after := AfterSwap(groups); Target(after) == Some(t) && after[t].priority == Top(after)
  {
    hide Top, NextBest, SwapFires, Target, SwappedPriority;
    TargetIsNextBest(groups, t);
    SwapRaisesAvailable(groups);
    var after := AfterSwap(groups);
    TopIsLeast(after);
    forall k | 0 <= k < |after| ensures after[k] in after && after[k].Eligible() == groups[k].Eligible() {}
    assert IsTarget(after, t);
    OneTarget(after, t);
  }

  lemma TargetIsNextBest(groups: seq<GroupRuntime>, t: nat)
    requires t < |groups| && Target(groups) == Some(t) && forall g <- groups :: g.managed
    ensures IsTarget(groups, t) && groups[t].priority == NextBest(groups)
  {
    hide Top, NextBest, Target;
    assert groups[t] in groups;
    NextBestIsLeast(groups);
    var b :| b in groups && b.Available() && b.priority == NextBest(groups);
    assert b.Eligible();
  }

  lemma OneTarget(groups: seq<GroupRuntime>, t: nat)
    requires IsTarget(groups, t)
    ensures Target(groups) == Some(t)
  {
    hide Target;
    assert groups[t] in groups;
    var t' := Target(groups).value;
    assert IsTarget(groups, t');
  }

  lemma Differ(groups: seq<GroupRuntime>, i: nat, j: nat)
    requires i < |groups| && j < |groups| && groups[i].priority != groups[j].priority
    ensures !AllSame(groups)
  {}

  lemma {:induction false} FirstCycle(cfg: Config, cg: string, w: World, now: int, failed: string, successor: string)
    requires cfg.automatic && TopFailed(w, cg, failed) && IsSuccessor(w, cg, successor) && !TopIsShared(Runtimes(w, cg))
    ensures var w1 := CycleOf(cfg, cg, w, now);
      Swapped(Runtimes(w1, cg), failed, successor)
  {
    hide Runtimes, CycleOf, PlanOf, Swapped, SwapFires, GroupState;
    var groups := Runtimes(w, cg);
    var f :| f in groups && f.name == failed && !f.Available() && forall h <- groups :: f.priority <= h.priority;
    var t := Target(groups).value;
    forall g <- groups ensures g.Owner() <==> g == f { if g.name == f.name { SameName(groups, g, f); } }
    RuntimesAreRt(w, cg);
    UnavailableIsFailed(w, cg, failed);
    AfterSwapIsSwapped(groups, f, t);
    SwapCycle(cfg, cg, w, now);
  }

  lemma UnavailableIsFailed(w: World, cg: string, mg: string)
    requires mg in Visible(w.docs)
    ensures Rt(w, cg, mg).Available() <==> Rt(w, cg, mg).actual != ActualFailed
  {}

  lemma SecondCycle(cfg: Config, cg: string, w: World, now: int, failed: string, successor: string)
    requires Swapped(Runtimes(w, cg), failed, successor)
    ensures PlanOf(cfg, cg, w, now) == Plan(OthersPassive(Runtimes(w, cg), successor)[successor := DesiredActive], map[],
                                           Memory(w.memory.started - {failed}, None))
  {
    hide Runtimes, PolicyPlan, SwitchPlan, SwapFires, OthersPassive;
    var groups := Runtimes(w, cg);
    var f :| f in groups && f.name == failed && f.Stopped();
    forall g <- groups | g.Owner() ensures g == f { SameName(groups, g, f); }
    SwitchCycle(cfg, cg, groups, successor, w.memory, now);
    HandOver(cfg, cg, groups, successor, w.memory, now, f);
  }

  /** Exactly the successor owns the service, and no cycle changes anything any more. */
  ghost predicate FailedOver(cfg: Config, cg: string, w: World, successor: string) {
    && successor in Visible(w.docs) && w.docs[successor].desired == Decoded(DesiredDoc(DesiredActive, true))
    && (forall mg <- Visible(w.docs) | mg != successor :: w.docs[mg].desired == Decoded(DesiredDoc(DesiredPassive, true)))
    && forall now :: CycleOf(cfg, cg, w, now) == w
  }

  /** Failover end to end: unless an available group shares the top, the cycle after the swap makes
      the best available group the owner and tells every other group to be passive, and from then on
      nothing is written. */
  lemma {:induction false} FailoverCompletes(cfg: Config, cg: string, w: World, at: seq<int>, failed: string, successor: string)
    requires cfg.automatic && |at| == 2 && TopFailed(w, cg, failed) && IsSuccessor(w, cg, successor)
    requires !TopIsShared(Runtimes(w, cg))
    ensures FailedOver(cfg, cg, Cycles(cfg, cg, w, at), successor)
  {
    hide Runtimes, CycleOf, PlanOf, GroupState, OthersPassive, TopFailed, IsSuccessor, SwapFires, AllSame, Target;
    var first := at[..1];
    assert at[..|at| - 1] == first && first == [at[0]] && first[..0] == [];
    var w1 := CycleOf(cfg, cg, w, at[0]);
    assert Cycles(cfg, cg, w, first[..0]) == w;
    assert Cycles(cfg, cg, w, first) == w1;
    assert Cycles(cfg, cg, w, at) == CycleOf(cfg, cg, w1, at[1]);
    FirstCycle(cfg, cg, w, at[0], failed, successor);
    CarriedOut(cfg, cg, w1, at[1], failed, successor);
    forall now ensures CycleOf(cfg, cg, CycleOf(cfg, cg, w1, at[1]), now) == CycleOf(cfg, cg, w1, at[1]) {
      ThirdCycle(cfg, cg, w1, at[1], now, failed, successor);
    }
  }

  lemma {:induction false} CarriedOut(cfg: Config, cg: string, w: World, now: int, failed: string, successor: string)
    requires Swapped(Runtimes(w, cg), failed, successor)
    ensures var w' := CycleOf(cfg, cg, w, now);
      && Visible(w'.docs) == Visible(w.docs) && successor in Visible(w'.docs)
      && w'.docs[successor].desired == Decoded(DesiredDoc(DesiredActive, true))
      && (forall mg <- Visible(w'.docs) | mg != successor :: w'.docs[mg].desired == Decoded(DesiredDoc(DesiredPassive, true)))
  {
    hide Runtimes, GroupState, OthersPassive, PolicyPlan, SwapFires, AllSame, Target;
    var groups := Runtimes(w, cg);
    SecondCycle(cfg, cg, w, now, failed, successor);
    CycleKeepsListing(cfg, cg, w, now);
    RuntimesAreRt(w, cg);
    assert groups[Target(groups).value] in groups;
    forall mg <- Visible(w.docs) | mg != successor
      ensures mg in OthersPassive(groups, successor) && OthersPassive(groups, successor)[mg] == DesiredPassive
    {
      OthersPassiveAt(groups, successor, Rt(w, cg, mg));
    }
  }

  lemma {:induction false} ThirdCycle(cfg: Config, cg: string, w: World, now: int, now': int, failed: string, successor: string)
    requires Swapped(Runtimes(w, cg), failed, successor)
    ensures CycleOf(cfg, cg, CycleOf(cfg, cg, w, now), now') == CycleOf(cfg, cg, w, now)
  {
    hide Runtimes, CycleOf, PlanOf, GroupState, OthersPassive, SwapFires, AllSame, Target;
    CarriedOut(cfg, cg, w, now, failed, successor);
    ThirdPlan(cfg, cg, w, now, now', failed, successor);
    SecondCycle(cfg, cg, w, now, failed, successor);
    RuntimesAreRt(w, cg);
    forall mg <- PlanOf(cfg, cg, w, now).desired ensures mg in Visible(w.docs) && ReadDesired(w.docs[mg]).managed {
      ManagedOnRecord(w, cg, mg, successor);
    }
    var w' := CycleOf(cfg, cg, w, now);
    forall mg <- PlanOf(cfg, cg, w', now').desired
      ensures mg in Visible(w'.docs) && w'.docs[mg].desired == Decoded(DesiredDoc(PlanOf(cfg, cg, w', now').desired[mg], true))
    {
      OthersVisible(w', cg, mg, successor);
    }
    NothingToWrite(cfg, cg, w, now, now');
  }

  lemma ManagedOnRecord(w: World, cg: string, mg: string, successor: string)
    requires mg == successor || mg in OthersPassive(Runtimes(w, cg), successor)
    requires forall g <- Runtimes(w, cg) :: g.managed
    requires exists g <- Runtimes(w, cg) :: g.name == successor
    ensures mg in Visible(w.docs) && ReadDesired(w.docs[mg]).managed
  {
    hide Runtimes, GroupState;
    var g :| g in Runtimes(w, cg) && g.name == mg;
    RuntimesAreRt(w, cg);
    assert Rt(w, cg, mg).managed == ReadDesired(w.docs[mg]).managed;
  }

  lemma OthersVisible(w: World, cg: string, mg: string, successor: string)
    requires mg in OthersPassive(Runtimes(w, cg), successor)
    ensures mg in Visible(w.docs) && mg != successor && OthersPassive(Runtimes(w, cg), successor)[mg] == DesiredPassive
  {
    hide Runtimes, GroupState;
  }

  lemma {:induction false} ThirdPlan(cfg: Config, cg: string, w: World, now: int, now': int, failed: string, successor: string)
    requires Swapped(Runtimes(w, cg), failed, successor)
    ensures var w' := CycleOf(cfg, cg, w, now);
      PlanOf(cfg, cg, w', now') == Plan(OthersPassive(Runtimes(w', cg), successor), map[], w'.memory)
  {
    hide CycleOf, PolicyPlan, GroupState, OthersPassive, SwapFires, AllSame, Target, SwitchPlan, Runtimes;
    var w' := CycleOf(cfg, cg, w, now);
    CarriedOut(cfg, cg, w, now, failed, successor);
    SameChoice(cfg, cg, w, now, failed, successor);
    var groups := Runtimes(w', cg);
    RuntimesAreRt(w', cg);
    forall g <- groups ensures g.Owner() <==> g.name == successor {
      assert g.desired == ReadDesired(w'.docs[g.name]).state && g.managed == ReadDesired(w'.docs[g.name]).managed by {
        RtReads(w', cg, g.name);
      }
    }
    SwitchCycle(cfg, cg, groups, successor, w'.memory, now');
    OwnerStays(cfg, cg, groups, successor, w'.memory, now', Rt(w', cg, successor));
  }

  lemma RtReads(w: World, cg: string, mg: string)
    requires mg in Visible(w.docs)
    ensures Rt(w, cg, mg).desired == ReadDesired(w.docs[mg]).state
    ensures Rt(w, cg, mg).managed == ReadDesired(w.docs[mg]).managed
  {
    hide GroupState;
  }

  lemma OwnerStays(cfg: Config, cg: string, groups: seq<GroupRuntime>, target: string, mem: Memory, now: int, owner: GroupRuntime)
    requires owner in groups && owner.name == target && forall g <- groups :: g.Owner() <==> g.name == target
    ensures SwitchPlan(cfg, cg, groups, target, mem, now) == Plan(OthersPassive(groups, target), map[], mem)
  {
    hide First, CurrentActive, OthersPassive, DrainMemory, SwitchoverTimeout;
    CurrentActiveMeans(groups);
  }

  /** The second cycle changes only desired states, so the third one chooses as it did. */
  lemma {:induction false} SameChoice(cfg: Config, cg: string, w: World, now: int, failed: string, successor: string)
    requires Swapped(Runtimes(w, cg), failed, successor)
    ensures SwitchesTo(cfg, Runtimes(CycleOf(cfg, cg, w, now), cg), successor)
  {
    hide CycleOf, OthersPassive, SwapFires, AllSame, Target, PlanOf, Visible, Rt, Runtimes;
    var groups, groups' := Runtimes(w, cg), Runtimes(CycleOf(cfg, cg, w, now), cg);
    SecondCycle(cfg, cg, w, now, failed, successor);
    EachButDesired(cfg, cg, w, now);
    SameChoices(groups, groups');
    var t := Target(groups).value;
    assert groups'[t].name == groups[t].name by { assert SameButDesired(groups[t], groups'[t]); }
  }

  lemma {:induction false} EachButDesired(cfg: Config, cg: string, w: World, now: int)
    requires (forall g <- Runtimes(w, cg) :: g.managed) && PlanOf(cfg, cg, w, now).priorities == map[]
    ensures var groups, groups' := Runtimes(w, cg), Runtimes(CycleOf(cfg, cg, w, now), cg);
      |groups'| == |groups| && forall i :: 0 <= i < |groups| ==> SameButDesired(groups[i], groups'[i])
  {
    hide CycleOf, PlanOf, Runtimes, SameButDesired, RuntimeOf;
    var w' := CycleOf(cfg, cg, w, now);
    var groups, groups' := Runtimes(w, cg), Runtimes(w', cg);
    CycleKeepsListing(cfg, cg, w, now);
    SameNames(w, w', cg);
    RuntimesAreRt(w, cg);
    RuntimesAreRt(w', cg);
    forall i | 0 <= i < |groups| ensures SameButDesired(groups[i], groups'[i]) {
      assert groups[i] in groups && groups'[i] in groups';
      ButDesired(cfg, cg, w, now, groups[i].name);
    }
  }

  lemma ButDesired(cfg: Config, cg: string, w: World, now: int, mg: string)
    requires mg in Visible(w.docs) && Rt(w, cg, mg).managed && PlanOf(cfg, cg, w, now).priorities == map[]
    ensures mg in Visible(CycleOf(cfg, cg, w, now).docs)
    ensures SameButDesired(Rt(w, cg, mg), Rt(CycleOf(cfg, cg, w, now), cg, mg))
  {
    hide CycleOf, PlanOf, GroupState;
    AfterCycle(cfg, cg, w, now, mg);
  }

  predicate SameButDesired(g: GroupRuntime, h: GroupRuntime) {
    h == g.(desired := h.desired)
  }

  lemma {:induction false} SameChoices(groups: seq<GroupRuntime>, groups': seq<GroupRuntime>)
    requires |groups| == |groups'| && forall i :: 0 <= i < |groups| ==> SameButDesired(groups[i], groups'[i])
    ensures SwapFires(groups') == SwapFires(groups)
    ensures AllSame(groups') == AllSame(groups)
    ensures Target(groups) == Target(groups')
  {
    hide SwapFires, Target;
    SameFiring(groups, groups');
    SameTarget(groups, groups');
  }

  lemma SameTarget(groups: seq<GroupRuntime>, groups': seq<GroupRuntime>)
    requires |groups| == |groups'| && forall i :: 0 <= i < |groups| ==> SameButDesired(groups[i], groups'[i])
    ensures Target(groups) == Target(groups')
  {
    hide Target;
    forall i | 0 <= i < |groups| ensures groups[i].Eligible() == groups'[i].Eligible() {}
    if Target(groups).Some? { assert groups'[Target(groups).value] in groups'; }
    if Target(groups').Some? { assert groups[Target(groups').value] in groups; }
  }

  lemma SameFiring(groups: seq<GroupRuntime>, groups': seq<GroupRuntime>)
    requires |groups| == |groups'| && forall i :: 0 <= i < |groups| ==> SameButDesired(groups[i], groups'[i])
    ensures SwapFires(groups') == SwapFires(groups)
  {
    hide Top;
    if groups != [] {
      TopIsLeast(groups);
      TopIsLeast(groups');
      forall i | 0 <= i < |groups| ensures groups[i] in groups && groups'[i] in groups' {}
      assert Top(groups) == Top(groups');
    }
  }

  // ----- Where failover does not happen -----

  /** As long as an available group shares the top priority with a failed managed group, no number
      of cycles on the same reports changes a desired state or the priorities as read: a failed
      owner keeps its ownership. */
  lemma {:induction false} SharedTopNeverFailsOver(cfg: Config, cg: string, w: World, at: seq<int>)
    requires cfg.automatic && SwapFires(Runtimes(w, cg))
    requires TopIsShared(Runtimes(w, cg))
    requires forall mg <- Visible(w.docs) :: w.docs[mg].config.Decoded?
    ensures Runtimes(Cycles(cfg, cg, w, at), cg) == Runtimes(w, cg)
    ensures Cycles(cfg, cg, w, at).memory == w.memory
    ensures Visible(Cycles(cfg, cg, w, at).docs) == Visible(w.docs)
    ensures forall mg <- Visible(w.docs) :: Cycles(cfg, cg, w, at).docs[mg].config.Decoded?
  {
    hide Runtimes, CycleOf, PlanOf, SwapFires, Top;
    if at != [] {
      var before := at[..|at| - 1];
      SharedTopNeverFailsOver(cfg, cg, w, before);
      var w1, now := Cycles(cfg, cg, w, before), at[|at| - 1];
      SharedTopBlocksPolicy(cfg, cg, w1, now);
      CycleKeepsListing(cfg, cg, w1, now);
      forall mg <- Visible(w.docs) ensures CycleOf(cfg, cg, w1, now).docs[mg].config.Decoded? {
        CycleDocs(cfg, cg, w1, now, mg);
      }
    }
  }

  /** Exactly when two cycles fail over: when no available group has the top priority. Where one has,
      no number of cycles does. */
  lemma {:induction false} FailoverExactly(cfg: Config, cg: string, w: World, at: seq<int>, failed: string, successor: string)
    requires cfg.automatic && TopFailed(w, cg, failed) && IsSuccessor(w, cg, successor)
    ensures |at| == 2 ==> (FailedOver(cfg, cg, Cycles(cfg, cg, w, at), successor) <==> !TopIsShared(Runtimes(w, cg)))
    ensures TopIsShared(Runtimes(w, cg)) ==> !FailedOver(cfg, cg, Cycles(cfg, cg, w, at), successor)
  {
    hide Runtimes, CycleOf, FailedOver, Top, SwapFires, Target, Cycles;
    if !TopIsShared(Runtimes(w, cg)) {
      if |at| == 2 { FailoverCompletes(cfg, cg, w, at, failed, successor); }
    } else {
      var f :| f in Runtimes(w, cg) && f.name == failed && !f.Available() && forall h <- Runtimes(w, cg) :: f.priority <= h.priority;
      SwapFiresFor(Runtimes(w, cg), f);
      SharedTopNeverFailsOver(cfg, cg, w, at);
      SuccessorIsNoOwner(w, cg, failed, successor);
      StillNoOwner(cfg, cg, w, Cycles(cfg, cg, w, at), successor);
    }
  }

  lemma {:induction false} SuccessorIsNoOwner(w: World, cg: string, failed: string, successor: string)
    requires TopFailed(w, cg, failed) && IsSuccessor(w, cg, successor)
    ensures exists g <- Runtimes(w, cg) :: g.name == successor && !g.Owner()
  {
    hide Runtimes, Target;
    var groups := Runtimes(w, cg);
    var b := groups[Target(groups).value];
    assert b in groups;
    var f :| f in groups && f.name == failed && !f.Available();
    if b.name == f.name { SameName(groups, b, f); }
  }

  lemma {:induction false} StillNoOwner(cfg: Config, cg: string, w: World, w': World, successor: string)
    requires Runtimes(w', cg) == Runtimes(w, cg) && exists g <- Runtimes(w, cg) :: g.name == successor && !g.Owner()
    ensures !FailedOver(cfg, cg, w', successor)
  {
    hide Runtimes, CycleOf;
    RuntimesAreRt(w', cg);
    var g :| g in Runtimes(w', cg) && g.name == successor && !g.Owner();
    if successor in Visible(w'.docs) { RtReads(w', cg, successor); }
  }
}
