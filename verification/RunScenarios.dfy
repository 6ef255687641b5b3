/** Concrete runs on which a command makes a second group live. */
module RunScenarios {
  import opened Model
  import opened Aggregation
  import opened Policy
  import opened Cycle
  import opened Commands
  import opened Safety
  import opened CommandEffects
  import opened Runs
  import opened Progress
  import opened SwapAlgebra
  import opened Failover
  import opened Stabilisation
  import opened Levelling
  import opened Scenarios
  import Composition
  import Worker

  // ----- A disable of a name that nobody has configured -----

  /** Both groups have failed; their priorities are 1 and the default. */
  const FAILING := Two(Group(DesiredActive, true, Priority1(1), ActualFailed), Group(DesiredPassive, true, Priority1(DEFAULT_PRIORITY), ActualFailed))

  /** After a disable of "z": a third group, to be passive, unmanaged, and without a config. */
  const STRANGER := FAILING.(docs := ExecDisable(FAILING.docs, "z").docs)

  lemma FailingReads(cg: string)
    ensures Visible(FAILING.docs) == {"a", "b"}
    ensures !Live(Rt(FAILING, cg, "b"))
  {
    hide Runtimes, RuntimeOf, Rt;
    TwoGroups(FAILING, cg);
    GroupRead(FAILING, cg, "b", ActualFailed);
  }

  lemma FailingIsSafe(cg: string)
    ensures Visible(FAILING.docs) == {"a", "b"} && Safe(FAILING, cg)
  {
    hide Rt, Live;
    FailingReads(cg);
    assert ReadPriority(FAILING.docs["a"]) != ReadPriority(FAILING.docs["b"]);
  }

  lemma StrangerIsUnguarded(cg: string)
    ensures !Guard(FAILING, cg, Disable("z"))
  {
    hide LiveUnder, OtherLive;
  }

  lemma NoRoleShown(registry: Registry, cg: string, mg: string, d: GroupDocs)
    requires registry == map[] && d.roleActual == map[]
    ensures GroupState(registry, cg, mg, d).state == ActualPassive
  {
    assert !AgentLost(registry, cg, mg, d) by {
      forall k ensures !Expected(registry, cg, mg, k) {}
    }
    assert forall s :: !Sees(d.roleActual, s);
  }

  lemma StrangerRead(w: World, cg: string, mg: string)
    requires mg in Visible(w.docs) && w.registry == map[] && w.docs[mg].roleActual == map[]
    ensures var g := Rt(w, cg, mg);
      && g.actual == ActualPassive && g.Available() && g.name == mg
      && g.desired == ReadDesired(w.docs[mg]).state && g.managed == ReadDesired(w.docs[mg]).managed
      && g.priority == ReadPriority(w.docs[mg])
  {
    hide AggregateOf;
    NoRoleShown(w.registry, cg, mg, w.docs[mg]);
  }

  /** Two managed groups of one role each, and a stranger. */
  predicate Three(w: World, reported: ActualState) {
    && w.registry == map[] && w.docs.Keys == {"a", "b", "z"} && Known(reported)
    && (forall mg <- w.docs :: w.docs[mg].listed)
    && (forall mg <- ["a", "b"] :: ReadDesired(w.docs[mg]).managed &&
         w.docs[mg].roleActual == map[RoleKey("n", "r") := Decoded(ActualDoc(reported, 1, ""))])
    && ReadDesired(w.docs["z"]) == DesiredDoc(DesiredPassive, false) && w.docs["z"].roleActual == map[]
  }

  lemma StrangerIsThree()
    ensures Three(STRANGER, ActualFailed)
    ensures STRANGER.docs["a"].config == Priority1(1) && STRANGER.docs["b"].config == Priority1(DEFAULT_PRIORITY)
    ensures STRANGER.docs["z"].config == Missing && STRANGER.docs["a"].desired == Decoded(DesiredDoc(DesiredActive, true))
  {}

  lemma ThreeVisible(w: World, reported: ActualState)
    requires Three(w, reported)
    ensures Visible(w.docs) == {"a", "b", "z"}
  {}

  lemma ThreeGroups(w: World, cg: string, reported: ActualState)
    requires Three(w, reported)
    ensures Visible(w.docs) == {"a", "b", "z"}
    ensures var groups, a, b, z := Runtimes(w, cg), Rt(w, cg, "a"), Rt(w, cg, "b"), Rt(w, cg, "z");
      && a in groups && b in groups && z in groups && (forall g <- groups :: g == a || g == b || g == z)
      && a.name == "a" && b.name == "b" && z.name == "z" && z.Available() && !z.managed && z.actual == ActualPassive
      && (forall g <- [a, b] :: g.managed && g.actual == reported && (g.Available() <==> reported != ActualFailed))
      && a.priority == ReadPriority(w.docs["a"]) && b.priority == ReadPriority(w.docs["b"]) && z.priority == ReadPriority(w.docs["z"])
  {
    hide Runtimes, RuntimeOf, Rt, ReadPriority, ReadDesired;
    ThreeVisible(w, reported);
    RuntimesAreRt(w, cg);
    GroupRead(w, cg, "a", reported);
    GroupRead(w, cg, "b", reported);
    StrangerRead(w, cg, "z");
  }

  lemma StrangerReads(cg: string)
    ensures Visible(STRANGER.docs) == {"a", "b", "z"}
    ensures var groups, a, b, z := Runtimes(STRANGER, cg), Rt(STRANGER, cg, "a"), Rt(STRANGER, cg, "b"), Rt(STRANGER, cg, "z");
      && a in groups && z in groups && (forall g <- groups :: g == a || g == b || g == z)
      && a.name == "a" && b.name == "b" && z.name == "z"
      && a.managed && !a.Available() && !b.Available() && z.Available()
      && a.priority == 1 && b.priority == DEFAULT_PRIORITY && z.priority == DEFAULT_PRIORITY
  {
    StrangerIsThree();
    hide Runtimes, RuntimeOf, Rt, Three, Visible;
    ThreeGroups(STRANGER, cg, ActualFailed);
    assert Rt(STRANGER, cg, "a") in [Rt(STRANGER, cg, "a"), Rt(STRANGER, cg, "b")];
    assert Rt(STRANGER, cg, "b") in [Rt(STRANGER, cg, "a"), Rt(STRANGER, cg, "b")];
  }

  lemma StrangerEndsLow(cg: string)
    requires SwapFires(Runtimes(STRANGER, cg)) && Top(Runtimes(STRANGER, cg)) == 1
    ensures forall g <- Runtimes(STRANGER, cg) :: EndsLow(STRANGER, cg, g)
  {
    StrangerReads(cg);
    StrangerIsThree();
    hide Runtimes, RuntimeOf, Rt, Top, NextBest, SwapFires, Three, Visible;
    NextBestIsLeast(Runtimes(STRANGER, cg));
  }

  /** The swap of the next cycle cannot raise the stranger: all priorities are equal. */
  lemma StrangerLevels(cfg: Config, cg: string, now: int)
    requires cfg.automatic
    ensures SwapFires(Runtimes(STRANGER, cg)) && AllSame(Runtimes(CycleOf(cfg, cg, STRANGER, now), cg))
  {
    hide Runtimes, RuntimeOf, Rt, CycleOf, Top, NextBest, AllSame, SwapFires, EndsLow, Visible, ReadPriority, STRANGER;
    StrangerReads(cg);
    var groups := Runtimes(STRANGER, cg);
    SwapFiresFor(groups, Rt(STRANGER, cg, "a"));
    StrangerEndsLow(cg);
    SwapLevels(cfg, cg, STRANGER, now);
  }

  lemma LevelledThree(cfg: Config, cg: string, now: int)
    requires cfg.automatic
    ensures Three(CycleOf(cfg, cg, STRANGER, now), ActualFailed)
    ensures CycleOf(cfg, cg, STRANGER, now).docs["a"].desired == Decoded(DesiredDoc(DesiredActive, true))
  {
    StrangerIsThree();
    hide Runtimes, CycleOf, SwapFires, AllSame, ReadPriority;
    StrangerLevels(cfg, cg, now);
    SwapKeepsDesired(cfg, cg, STRANGER, now);
  }

  /** Both failed groups have stopped, as their workers report it. */
  function BothRecovered(w: World): World {
    w.(docs := map mg | mg in w.docs :: if mg == "z" then w.docs[mg] else
      w.docs[mg].(roleActual := map[RoleKey("n", "r") := Decoded(ActualDoc(ActualPassive, 1, ""))]))
  }

  lemma RecoveredThree(w: World)
    requires Three(w, ActualFailed)
    ensures Three(BothRecovered(w), ActualPassive)
    ensures Visible(BothRecovered(w).docs) == Visible(w.docs)
    ensures forall mg <- w.docs :: BothRecovered(w).docs[mg].config == w.docs[mg].config && BothRecovered(w).docs[mg].desired == w.docs[mg].desired
    ensures BothRecovered(w).memory == w.memory
  {}

  lemma RecoveredIsReport(cg: string, w: World)
    requires Three(w, ActualFailed)
    ensures Safety.Reports(w, BothRecovered(w)) && NoFreshActivity(w, BothRecovered(w), cg)
  {
    hide Runtimes, RuntimeOf, Rt, Three, Visible, BothRecovered;
    RecoveredThree(w);
    var w' := BothRecovered(w);
    ThreeGroups(w', cg, ActualPassive);
    ThreeDocs(w);
    forall mg <- Visible(w'.docs) ensures !Busy(Rt(w', cg, mg).actual) {
      assert Rt(w', cg, "a") in [Rt(w', cg, "a"), Rt(w', cg, "b")] && Rt(w', cg, "b") in [Rt(w', cg, "a"), Rt(w', cg, "b")];
    }
  }

  lemma ThreeDocs(w: World)
    requires Three(w, ActualFailed)
    ensures w.docs.Keys == {"a", "b", "z"} && Visible(w.docs) == {"a", "b", "z"}
  {}

  lemma RecoveredSameLevel(cg: string, w: World)
    requires Three(w, ActualFailed) && AllSame(Runtimes(w, cg))
    ensures AllSame(Runtimes(BothRecovered(w), cg))
  {
    hide Runtimes, RuntimeOf, Rt, AllSame, Three, Visible, BothRecovered;
    var w' := BothRecovered(w);
    RecoveredThree(w);
    ThreeDocs(w);
    forall mg <- Visible(w.docs) ensures Rt(w', cg, mg).priority == Rt(w, cg, mg).priority {
      PriorityRead(w, cg, mg);
      PriorityRead(w', cg, mg);
      SameConfigReads(w.docs[mg], w'.docs[mg]);
    }
    RuntimesAreRt(w, cg);
    AllSameReads(w, w, cg);
    AllSameReads(w, w', cg);
  }

  lemma ThreePassive(cg: string, w: World)
    requires Three(w, ActualPassive)
    ensures !SwapFires(Runtimes(w, cg))
    ensures (set mg <- Visible(w.docs) | Rt(w, cg, mg).managed) == {"a", "b"}
  {
    hide Runtimes, RuntimeOf, Rt, SwapFires, ReadPriority, Top, Three, Visible;
    ThreeGroups(w, cg, ActualPassive);
    var a, b := Rt(w, cg, "a"), Rt(w, cg, "b");
    assert a in [a, b] && b in [a, b];
    NoSwapDue(Runtimes(w, cg));
  }

  /** A run of the controller: a name nobody knows is disabled, a cycle swaps, both failed groups
      report that they have stopped, and the next cycle makes both of them owners. */
  lemma DisableMakesBothActive(cfg: Config, cg: string, now: int, later: int)
    requires cfg.automatic
    ensures var swapped := CycleOf(cfg, cg, STRANGER, now);
      var run := [FAILING, STRANGER, swapped, BothRecovered(swapped), CycleOf(cfg, cg, BothRecovered(swapped), later)];
      && Runs.IsRun(cfg, cg, run, [Execute(Disable("z")), Reconcile(now), Report, Reconcile(later)])
      && Safe(FAILING, cg) && !Guard(FAILING, cg, Disable("z")) && NoFreshActivity(FAILING, STRANGER, cg)
      && Owners(run[4], cg) == {"a", "b"} && !AtMostOneLive(run[4], cg)
  {
    hide *;
    FailingIsSafe(cg);
    StrangerIsUnguarded(cg);
    StrangerIsQuiet(cg);
    StrangerLevels(cfg, cg, now);
    LevelledThree(cfg, cg, now);
    var swapped := CycleOf(cfg, cg, STRANGER, now);
    RecoveredIsReport(cg, swapped);
    RecoveredThree(swapped);
    RecoveredSameLevel(cg, swapped);
    ThreePassive(cg, BothRecovered(swapped));
    LevelActivatesAll(cfg, cg, BothRecovered(swapped), later);
    TwoOwners(CycleOf(cfg, cg, BothRecovered(swapped), later), cg);
    IsRunOf(cfg, cg, now, later);
  }

  lemma StrangerIsQuiet(cg: string)
    ensures NoFreshActivity(FAILING, STRANGER, cg)
  {
    StrangerIsThree();
    hide Runtimes, RuntimeOf, Rt, Three, Visible;
    ThreeGroups(STRANGER, cg, ActualFailed);
    var a, b := Rt(STRANGER, cg, "a"), Rt(STRANGER, cg, "b");
    assert a in [a, b] && b in [a, b];
    assert Rt(STRANGER, cg, "z").desired == DesiredPassive ==> !Busy(Rt(STRANGER, cg, "z").actual);
  }

  lemma TwoOwners(w: World, cg: string)
    requires Owners(w, cg) == {"a", "b"}
    ensures !AtMostOneLive(w, cg)
  {
    hide RuntimeOf, Rt, Visible;
    assert "a" in Owners(w, cg) && "b" in Owners(w, cg);
    assert Live(Rt(w, cg, "a")) && Live(Rt(w, cg, "b"));
  }

  lemma IsRunOf(cfg: Config, cg: string, now: int, later: int)
    requires var swapped := CycleOf(cfg, cg, STRANGER, now);
      Safety.Reports(swapped, BothRecovered(swapped)) && NoFreshActivity(swapped, BothRecovered(swapped), cg)
    ensures var swapped := CycleOf(cfg, cg, STRANGER, now);
      Runs.IsRun(cfg, cg, [FAILING, STRANGER, swapped, BothRecovered(swapped), CycleOf(cfg, cg, BothRecovered(swapped), later)],
        [Execute(Disable("z")), Reconcile(now), Report, Reconcile(later)])
  {
    hide CycleOf, Safety.Reports, NoFreshActivity, BothRecovered, ExecDisable;
  }

  // ----- Commands beside a live group -----

  lemma BesideLive(w: World, cg: string)
    requires w.registry == map[] && w.docs.Keys == {"a", "b"} && w.docs["a"].listed && w.docs["b"].listed
    requires Live(Rt(w, cg, "a")) && !Live(Rt(w, cg, "b"))
    ensures AtMostOneLive(w, cg) && OtherLive(w, cg, {"b"})
  {
    hide Rt, Live;
    assert Visible(w.docs) == {"a", "b"};
    assert "a" in Visible(w.docs) - {"b"};
  }

  /** Promoting a group while another one is still draining activates it at once. */
  lemma PromotionMakesTwoLive(cg: string)
    ensures var w := Two(Group(DesiredPassive, true, Priority1(1), ActualActive), Group(DesiredPassive, true, Priority1(2), ActualPassive));
      AtMostOneLive(w, cg) && ExecPromote(w.docs, "b").ok && !AtMostOneLive(Promoted(w, "b"), cg)
  {
    var w := Two(Group(DesiredPassive, true, Priority1(1), ActualActive), Group(DesiredPassive, true, Priority1(2), ActualPassive));
    assert NoActiveGroup(w.docs) && Promotable(w.docs, "b");
    hide RuntimeOf, Rt, ExecPromote, StateUnder, Incumbent, Runtimes, NoActiveGroup;
    TwoGroups(w, cg);
    GroupRead(w, cg, "a", ActualActive);
    GroupRead(w, cg, "b", ActualPassive);
    BesideLive(w, cg);
    PromotableRuns(w.docs, "b");
    PromoteAndLiveness(w, cg, "b");
  }

  /** Enabling a group that was disabled while active, beside an owner. */
  lemma EnableMakesTwoLive(cg: string)
    ensures var w := Two(Group(DesiredActive, true, Priority1(1), ActualActive), Group(DesiredActive, false, Priority1(2), ActualPassive));
      AtMostOneLive(w, cg) && ExecEnable(w.docs, "b").ok && !AtMostOneLive(w.(docs := ExecEnable(w.docs, "b").docs), cg)
  {
    hide RuntimeOf, Rt, StateUnder, Runtimes;
    var w := Two(Group(DesiredActive, true, Priority1(1), ActualActive), Group(DesiredActive, false, Priority1(2), ActualPassive));
    TwoGroups(w, cg);
    GroupRead(w, cg, "a", ActualActive);
    GroupRead(w, cg, "b", ActualPassive);
    BesideLive(w, cg);
    EnableAndLiveness(w, cg, "b");
  }

  /** Forcing an unmanaged active group passive, beside an owner: it is live until it has stopped. */
  lemma ForcePassiveMakesTwoLive(cg: string)
    ensures var w := Two(Group(DesiredActive, true, Priority1(1), ActualActive), Group(DesiredActive, false, Priority1(2), ActualActive));
      AtMostOneLive(w, cg) && ExecForcePassive(w.docs, "b").ok && !AtMostOneLive(w.(docs := ExecForcePassive(w.docs, "b").docs), cg)
  {
    hide RuntimeOf, Rt, GroupState, Runtimes;
    var w := Two(Group(DesiredActive, true, Priority1(1), ActualActive), Group(DesiredActive, false, Priority1(2), ActualActive));
    TwoGroups(w, cg);
    GroupRead(w, cg, "a", ActualActive);
    GroupRead(w, cg, "b", ActualActive);
    OneRoleShown(w.registry, cg, "b", WithDesired(w.docs["b"], DesiredPassive, true), ActualActive);
    assert Busy(StateUnder(w, cg, "b", true));
    BesideLive(w, cg);
    ForcePassiveAndLiveness(w, cg, "b");
  }

  // ----- A worker that has not caught up -----

  /** The group was made active a moment ago: its worker is about to start it, and it still reports
      passive. Meanwhile the other group has become the better one. */
  const ACTIVATED := Two(Group(DesiredActive, true, Priority1(2), ActualPassive), Group(DesiredPassive, true, Priority1(1), ActualPassive))

  const POST := Composition.Post("a", RoleKey("n", "r"))
  const TO_START := Worker.Order("active", true)
  const AT_WORK := Worker.State(TO_START, Some(0), [Worker.Execution(TO_START, false)], Some(0), false, [])

  lemma ActivatedReads(cg: string)
    ensures Misplaced(ACTIVATED, cg, DesiredActive, ActualPassive)
  {
    hide Misplaced;
    MisplacedReads(ACTIVATED, cg, DesiredActive, ActualPassive);
  }

  lemma ActivatedIsSafe(cg: string)
    ensures Safe(ACTIVATED, cg)
  {
    hide Rt, Runtimes;
    ActivatedReads(cg);
    assert ReadPriority(ACTIVATED.docs["a"]) != ReadPriority(ACTIVATED.docs["b"]);
  }

  /** The cycle takes the passive report for the end of a drain. */
  lemma ActivatedPlan(cfg: Config, cg: string, now: int)
    ensures PlanOf(cfg, cg, ACTIVATED, now).desired == OthersPassive(Runtimes(ACTIVATED, cg), "b")["b" := DesiredActive]
    ensures PlanOf(cfg, cg, ACTIVATED, now).priorities == map[]
  {
    hide Runtimes, Rt, SwitchesTo, PolicyPlan, SwitchPlan, Quiet, GroupState, OthersPassive;
    ActivatedReads(cg);
    MisplacedSwitches(cfg, cg, ACTIVATED, DesiredActive, ActualPassive);
    var groups := Runtimes(ACTIVATED, cg);
    SwitchCycle(cfg, cg, groups, "b", ACTIVATED.memory, now);
    HandOver(cfg, cg, groups, "b", ACTIVATED.memory, now, Rt(ACTIVATED, cg, "a"));
  }

  lemma ActivatedDocs(cfg: Config, cg: string, now: int)
    ensures var w' := CycleOf(cfg, cg, ACTIVATED, now);
      && w'.registry == map[] && w'.docs.Keys == {"a", "b"} && w'.docs["a"].listed && w'.docs["b"].listed
      && w'.docs["a"].desired == Decoded(DesiredDoc(DesiredPassive, true))
      && w'.docs["b"].desired == Decoded(DesiredDoc(DesiredActive, true))
      && w'.docs["a"].roleActual == ACTIVATED.docs["a"].roleActual
      && w'.docs["b"].roleActual == ACTIVATED.docs["b"].roleActual
  {
    hide PlanOf, CycleOf, GroupState, Runtimes, Rt, OthersPassive;
    var w := ACTIVATED;
    ActivatedReads(cg);
    ActivatedPlan(cfg, cg, now);
    CycleKeepsRegistry(cfg, cg, w, now);
    CycleKeepsListing(cfg, cg, w, now);
    CycleDesired(cfg, cg, w, now);
    OthersPassiveAt(Runtimes(w, cg), "b", Rt(w, cg, "a"));
    CycleDocs(cfg, cg, w, now, "a");
    CycleDocs(cfg, cg, w, now, "b");
  }

  /** What the late worker makes of the world after the cycle. */
  ghost function Started(cfg: Config, cg: string, now: int, at: int): World
    requires "a" in CycleOf(cfg, cg, ACTIVATED, now).docs
  {
    Composition.Put(CycleOf(cfg, cg, ACTIVATED, now), POST, Worker.Actual(ActualStarting), at)
  }

  lemma StartingShown(registry: Registry, cg: string, mg: string, d: GroupDocs, at: int)
    requires registry == map[] && d.roleActual == map[RoleKey("n", "r") := Decoded(ActualDoc(ActualStarting, at, ""))]
    ensures GroupState(registry, cg, mg, d).state == ActualStarting
  {
    assert !AgentLost(registry, cg, mg, d) by {
      forall k ensures !Expected(registry, cg, mg, k) {}
    }
    assert InState(d.roleActual, RoleKey("n", "r"), ActualStarting);
    assert forall s | s != ActualStarting :: !Sees(d.roleActual, s);
  }

  lemma StartedIsLive(cfg: Config, cg: string, now: int, at: int)
    ensures "a" in CycleOf(cfg, cg, ACTIVATED, now).docs
    ensures !AtMostOneLive(Started(cfg, cg, now, at), cg)
  {
    hide CycleOf, AggregateOf;
    ActivatedDocs(cfg, cg, now);
    StartedLive(CycleOf(cfg, cg, ACTIVATED, now), cg, at);
  }

  lemma StartedLive(w: World, cg: string, at: int)
    requires w.registry == map[] && w.docs.Keys == {"a", "b"} && w.docs["a"].listed && w.docs["b"].listed
    requires w.docs["a"].desired == Decoded(DesiredDoc(DesiredPassive, true))
    requires w.docs["b"].desired == Decoded(DesiredDoc(DesiredActive, true))
    requires w.docs["a"].roleActual == map[RoleKey("n", "r") := Decoded(ActualDoc(ActualPassive, 1, ""))]
    ensures !AtMostOneLive(Composition.Put(w, POST, Worker.Actual(ActualStarting), at), cg)
  {
    hide AggregateOf, ReadPriority, AgentLost;
    var w' := Composition.Put(w, POST, Worker.Actual(ActualStarting), at);
    StartingShown(w'.registry, cg, "a", w'.docs["a"], at);
    assert "a" in Visible(w'.docs) && "b" in Visible(w'.docs);
    assert Live(Rt(w', cg, "a")) && Live(Rt(w', cg, "b"));
  }

  const START_WRITTEN := Worker.Write(0, Worker.Actual(ActualStarting))

  function ClusterOf(w: World, worker: Worker.State): Composition.Cluster {
    Composition.Cluster(w, map[POST := worker])
  }

  lemma BeginsSound(cg: string)
    ensures Composition.Sound(ClusterOf(ACTIVATED, AT_WORK), cg)
  {
    hide Safe;
    ActivatedIsSafe(cg);
  }

  lemma LateWrite(cfg: Config, cg: string, checks: Composition.Checks, w: World, at: int)
    requires "a" in w.docs
    ensures Composition.Next(cfg, cg, checks, ClusterOf(w, AT_WORK),
      Composition.Work(POST, START_WRITTEN, at),
      ClusterOf(Composition.Put(w, POST, Worker.Actual(ActualStarting), at), Worker.After(AT_WORK, START_WRITTEN, checks(POST))))
  {
    Worker.WrittenStates(TO_START, ActualStarting);
    hide Worker.MayWrite, Composition.Put;
  }

  lemma NotCaughtUp(cfg: Config, cg: string, now: int)
    ensures "a" in CycleOf(cfg, cg, ACTIVATED, now).docs
    ensures !Composition.CaughtUp(ClusterOf(CycleOf(cfg, cg, ACTIVATED, now), AT_WORK), POST)
  {
    hide CycleOf;
    ActivatedDocs(cfg, cg, now);
  }

  /** A run of leader and worker without any command: the cycle activates the better group at once,
      and the worker, which has yet to read that its group is to be passive, writes starting. */
  lemma LateWorkerMakesTwoLive(cfg: Config, cg: string, checks: Composition.Checks, now: int, at: int)
    ensures "a" in CycleOf(cfg, cg, ACTIVATED, now).docs && Worker.Enabled(AT_WORK, START_WRITTEN)
    ensures var c0 := ClusterOf(ACTIVATED, AT_WORK);
      var c1 := ClusterOf(CycleOf(cfg, cg, ACTIVATED, now), AT_WORK);
      var c2 := ClusterOf(Started(cfg, cg, now, at), Worker.After(AT_WORK, START_WRITTEN, checks(POST)));
      && Composition.IsRun(cfg, cg, checks, [c0, c1, c2],
           [Composition.Lead(Reconcile(now)), Composition.Work(POST, START_WRITTEN, at)])
      && Composition.Sound(c0, cg) && !Composition.CaughtUp(c1, POST) && !AtMostOneLive(c2.world, cg)
  {
    NotCaughtUp(cfg, cg, now);
    LateWrite(cfg, cg, checks, CycleOf(cfg, cg, ACTIVATED, now), at);
    hide CycleOf, Composition.Put, Composition.Sound, AtMostOneLive, Worker.MayWrite, Worker.After;
    BeginsSound(cg);
    StartedIsLive(cfg, cg, now, at);
    RunOfTwo(cfg, cg, checks, now, at);
  }

  lemma RunOfTwo(cfg: Config, cg: string, checks: Composition.Checks, now: int, at: int)
    requires "a" in CycleOf(cfg, cg, ACTIVATED, now).docs && Worker.Enabled(AT_WORK, START_WRITTEN)
    ensures Composition.IsRun(cfg, cg, checks,
      [ClusterOf(ACTIVATED, AT_WORK), ClusterOf(CycleOf(cfg, cg, ACTIVATED, now), AT_WORK),
       ClusterOf(Started(cfg, cg, now, at), Worker.After(AT_WORK, START_WRITTEN, checks(POST)))],
      [Composition.Lead(Reconcile(now)), Composition.Work(POST, START_WRITTEN, at)])
  {
    LateWrite(cfg, cg, checks, CycleOf(cfg, cg, ACTIVATED, now), at);
    hide CycleOf, Composition.Put, Worker.MayWrite, Worker.After, Worker.Enabled;
  }
}
