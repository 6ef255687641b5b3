/** How a swap that cannot write every priority ends the active-passive topology. */
module Levelling {
  import opened Aggregation
  import opened Policy
  import opened Cycle
  import opened Progress
  import opened SwapAlgebra
  import opened Stabilisation

  predicate Writable(w: World, n: string) {
    n in w.docs && w.docs[n].config.Decoded?
  }

  /** The priority of a group as read after a cycle that swaps. */
  ghost function ReadAfter(w: World, cg: string, g: GroupRuntime): nat
    requires SwapFires(Runtimes(w, cg))
  {
    if Writable(w, g.name) then SwappedPriority(Runtimes(w, cg), g) else g.priority
  }

  lemma {:induction false} ReadsAfter(cfg: Config, cg: string, w: World, now: int, g: GroupRuntime)
    requires cfg.automatic && SwapFires(Runtimes(w, cg)) && g in Runtimes(w, cg)
    ensures g.name in Visible(CycleOf(cfg, cg, w, now).docs)
    ensures Rt(CycleOf(cfg, cg, w, now), cg, g.name).priority == ReadAfter(w, cg, g)
  {
    hide Runtimes, GroupState, CycleOf, SwapFires, SwappedPriority, PolicyPlan, SwapPlan;
    var groups := Runtimes(w, cg);
    RuntimesAreRt(w, cg);
    AfterCycle(cfg, cg, w, now, g.name);
    if Writable(w, g.name) {
      SwapCycleAt(cfg, cg, w, now, g);
    } else {
      CycleDocs(cfg, cg, w, now, g.name);
    }
  }

  /** Every group ends at the next best priority: the failed ones moved down, the available ones
      could not be moved up. */
  ghost predicate EndsLow(w: World, cg: string, g: GroupRuntime)
    requires SwapFires(Runtimes(w, cg))
  {
    var groups := Runtimes(w, cg);
    || (MovesDown(groups, g) && Writable(w, g.name))
    || (g.priority == NextBest(groups) && !(MovesUp(groups, g) && Writable(w, g.name)))
  }

  /** Every group ends at the top priority. */
  ghost predicate EndsHigh(w: World, cg: string, g: GroupRuntime)
    requires SwapFires(Runtimes(w, cg))
  {
    var groups := Runtimes(w, cg);
    || (MovesDown(groups, g) && !Writable(w, g.name))
    || (MovesUp(groups, g) && Writable(w, g.name))
  }

  lemma EndsAt(w: World, cg: string, g: GroupRuntime)
    requires SwapFires(Runtimes(w, cg)) && Top(Runtimes(w, cg)) != NextBest(Runtimes(w, cg))
    requires g in Runtimes(w, cg) && forall h <- Runtimes(w, cg) | h.Available() :: h.priority != Top(Runtimes(w, cg))
    ensures EndsLow(w, cg, g) <==> ReadAfter(w, cg, g) == NextBest(Runtimes(w, cg))
    ensures EndsHigh(w, cg, g) <==> ReadAfter(w, cg, g) == Top(Runtimes(w, cg))
  {
    hide Runtimes, SwapFires, Top, NextBest;
    var groups := Runtimes(w, cg);
    assert g.priority == Top(groups) ==> !g.Available();
  }

  /** Exactly when a swap leaves all priorities equal. With every config decodable neither can be. */
  lemma {:induction false} SwapLevels(cfg: Config, cg: string, w: World, now: int)
    requires cfg.automatic && SwapFires(Runtimes(w, cg))
    requires forall h <- Runtimes(w, cg) | h.Available() :: h.priority != Top(Runtimes(w, cg))
    ensures AllSame(Runtimes(CycleOf(cfg, cg, w, now), cg)) <==>
      (forall g <- Runtimes(w, cg) :: EndsLow(w, cg, g)) || (forall g <- Runtimes(w, cg) :: EndsHigh(w, cg, g))
  {
    hide Runtimes, CycleOf, Top, NextBest, EndsLow, EndsHigh, ReadAfter, AllSame, Rt;
    var groups := Runtimes(w, cg);
    var w' := CycleOf(cfg, cg, w, now);
    NextBestDiffers(groups);
    forall g <- groups
      ensures g.name in Visible(w'.docs) && Rt(w', cg, g.name).priority == ReadAfter(w, cg, g)
      ensures EndsLow(w, cg, g) <==> ReadAfter(w, cg, g) == NextBest(groups)
      ensures EndsHigh(w, cg, g) <==> ReadAfter(w, cg, g) == Top(groups)
    {
      ReadsAfter(cfg, cg, w, now, g);
      EndsAt(w, cg, g);
    }
    var d := SomeoneDown(groups);
    assert ReadAfter(w, cg, d) in {Top(groups), NextBest(groups)} by { DownEnds(w, cg, d); }
    CycleKeepsListing(cfg, cg, w, now);
    AllSameReads(w, w', cg);
  }

  lemma NextBestDiffers(groups: seq<GroupRuntime>)
    requires SwapFires(groups) && forall h <- groups | h.Available() :: h.priority != Top(groups)
    ensures Top(groups) != NextBest(groups)
  {
    hide Top, NextBest;
    NextBestIsLeast(groups);
  }

  lemma SomeoneDown(groups: seq<GroupRuntime>) returns (d: GroupRuntime)
    requires SwapFires(groups)
    ensures d in groups && MovesDown(groups, d)
  {
    hide Top, NextBest;
    d :| d in groups && d.priority == Top(groups) && !d.Available() && d.managed;
  }

  lemma DownEnds(w: World, cg: string, d: GroupRuntime)
    requires SwapFires(Runtimes(w, cg)) && MovesDown(Runtimes(w, cg), d)
    ensures ReadAfter(w, cg, d) in {Top(Runtimes(w, cg)), NextBest(Runtimes(w, cg))}
  {
    hide Runtimes, SwapFires, Top, NextBest;
  }

  lemma AllSameReads(w: World, w': World, cg: string)
    requires Visible(w'.docs) == Visible(w.docs)
    ensures AllSame(Runtimes(w', cg)) <==>
      forall g, h | g in Runtimes(w, cg) && h in Runtimes(w, cg) :: Rt(w', cg, g.name).priority == Rt(w', cg, h.name).priority
  {
    hide Runtimes, GroupState, RuntimeOf;
    var groups, groups' := Runtimes(w, cg), Runtimes(w', cg);
    SameNames(w, w', cg);
    RuntimesAreRt(w, cg);
    RuntimesAreRt(w', cg);
    forall i | 0 <= i < |groups| ensures groups[i] in groups && groups'[i] == Rt(w', cg, groups[i].name) {
      assert groups'[i] in groups';
    }
  }

  /** Once all priorities are equal, a cycle without a swap makes every managed group an owner. */
  lemma LevelActivatesAll(cfg: Config, cg: string, w: World, now: int)
    requires AllSame(Runtimes(w, cg)) && !(cfg.automatic && SwapFires(Runtimes(w, cg)))
    ensures Owners(CycleOf(cfg, cg, w, now), cg) == set mg <- Visible(w.docs) | Rt(w, cg, mg).managed
  {
    hide Runtimes, CycleOf, SwapFires, AllSame, GroupState, RuntimeOf;
    var groups := Runtimes(w, cg);
    RuntimesAreRt(w, cg);
    OwnerAfter(cfg, cg, w, now);
    forall mg <- Visible(w.docs) ensures mg in ManagedNames(groups) <==> Rt(w, cg, mg).managed {
      OthersPassiveAt(groups, "", Rt(w, cg, mg));
    }
    forall mg <- Visible(w.docs) ensures groups != [] { assert Rt(w, cg, mg) in groups; }
  }
}
