/** From any desired states whatsoever, active-passive cycles settle on one owner. */
module Stabilisation {
  import opened Model
  import opened Aggregation
  import opened Policy
  import opened Cycle
  import opened Progress

  ghost function Owners(w: World, cg: string): set<string> {
    set mg <- Visible(w.docs) | Rt(w, cg, mg).Owner()
  }

  function Max(a: int, b: int): int { if a < b then b else a }

  /** An active-passive cycle with somewhere to go: some managed group is available, no swap. */
  ghost predicate Switches(cfg: Config, cg: string, w: World) {
    var groups := Runtimes(w, cg);
    !(cfg.automatic && SwapFires(groups)) && !AllSame(groups) && Target(groups).Some?
  }

  ghost function TargetName(cfg: Config, cg: string, w: World): string
    requires Switches(cfg, cg, w)
  {
    Runtimes(w, cg)[Target(Runtimes(w, cg)).value].name
  }

  /** The three things a switch plan can ask for. */
  lemma SwitchPlanShape(cfg: Config, cg: string, groups: seq<GroupRuntime>, target: string, mem: Memory, now: int)
    requires Distinct(groups)
    ensures var plan := SwitchPlan(cfg, cg, groups, target, mem, now).desired;
      || (plan == map[] && NoOwner(groups))
      || (plan == OthersPassive(groups, target) && (NoOwner(groups) || exists g <- groups :: g.Owner() && g.name == target))
      || plan == OthersPassive(groups, target)[target := DesiredActive]
      || exists g <- groups :: plan == map[g.name := DesiredPassive] && (g.Owner() || NoOwner(groups)) && g.name != target
  {
    hide First, CurrentActive, OthersPassive, DrainMemory, SwitchoverTimeout;
    CurrentActiveMeans(groups);
    if CurrentActive(groups).Some? {
      assert groups[CurrentActive(groups).value] in groups;
    }
  }

  /** With an owner about, the plan tells every managed group but one what to do, or drains an owner. */
  lemma {:induction false} PlanWithOwner(cfg: Config, cg: string, w: World, now: int)
    requires Switches(cfg, cg, w) && Owners(w, cg) != {}
    ensures var plan := PlanOf(cfg, cg, w, now).desired; var target := TargetName(cfg, cg, w);
      && target in Visible(w.docs)
      && if exists mg <- Owners(w, cg) :: mg != target && plan == map[mg := DesiredPassive] then true
         else
           && (forall mg <- Visible(w.docs) | mg != target ::
                 (mg in plan <==> Rt(w, cg, mg).managed) && (mg in plan ==> plan[mg] == DesiredPassive))
           && (if target in plan then plan[target] == DesiredActive else target in Owners(w, cg))
  {
    hide Runtimes, PolicyPlan, SwitchPlan, GroupState, RuntimeOf, SwapFires, AllSame, OthersPassive;
    var groups, target := Runtimes(w, cg), TargetName(cfg, cg, w);
    RuntimesAreRt(w, cg);
    SwitchCycle(cfg, cg, groups, target, w.memory, now);
    SwitchPlanShape(cfg, cg, groups, target, w.memory, now);
    assert !NoOwner(groups) by { var mg :| mg in Owners(w, cg); assert Rt(w, cg, mg).Owner(); }
    assert groups[Target(groups).value] in groups;
    forall mg <- Visible(w.docs)
      ensures mg in OthersPassive(groups, target) <==> Rt(w, cg, mg).managed && mg != target
      ensures mg in OthersPassive(groups, target) ==> OthersPassive(groups, target)[mg] == DesiredPassive
    {
      OthersPassiveAt(groups, target, Rt(w, cg, mg));
    }
  }

  lemma {:induction false} OwnerAfter(cfg: Config, cg: string, w: World, now: int)
    ensures var w' := CycleOf(cfg, cg, w, now);
      && Visible(w'.docs) == Visible(w.docs)
      && forall mg <- Visible(w.docs) :: mg in Owners(w', cg) <==> Decided(Rt(w, cg, mg), PlanOf(cfg, cg, w, now)).Owner()
  {
    hide Runtimes, CycleOf, PlanOf, GroupState, RuntimeOf;
    CycleKeepsListing(cfg, cg, w, now);
    forall mg <- Visible(w.docs)
      ensures Rt(CycleOf(cfg, cg, w, now), cg, mg).Owner() == Decided(Rt(w, cg, mg), PlanOf(cfg, cg, w, now)).Owner()
    {
      AfterCycle(cfg, cg, w, now, mg);
    }
  }

  lemma {:induction false} PlanWithoutOwner(cfg: Config, cg: string, w: World, now: int)
    requires Switches(cfg, cg, w) && Owners(w, cg) == {}
    ensures forall mg <- PlanOf(cfg, cg, w, now).desired | mg != TargetName(cfg, cg, w) ::
      PlanOf(cfg, cg, w, now).desired[mg] == DesiredPassive
  {
    hide Runtimes, PolicyPlan, SwitchPlan, GroupState, RuntimeOf, SwapFires, AllSame;
    var groups, target := Runtimes(w, cg), TargetName(cfg, cg, w);
    SwitchCycle(cfg, cg, groups, target, w.memory, now);
    SwitchPlanShape(cfg, cg, groups, target, w.memory, now);
  }

  /** After a cycle the owners are the target at most, or one fewer than before. */
  lemma {:induction false} OwnersAfter(cfg: Config, cg: string, w: World, now: int)
    requires Switches(cfg, cg, w)
    ensures var after := Owners(CycleOf(cfg, cg, w, now), cg);
      || after <= {TargetName(cfg, cg, w)}
      || exists mg <- Owners(w, cg) :: after == Owners(w, cg) - {mg}
  {
    hide Runtimes, CycleOf, PlanOf, GroupState, RuntimeOf, Switches, TargetName;
    var target, plan := TargetName(cfg, cg, w), PlanOf(cfg, cg, w, now).desired;
    var before, after := Owners(w, cg), Owners(CycleOf(cfg, cg, w, now), cg);
    OwnerAfter(cfg, cg, w, now);
    forall mg <- Visible(w.docs) ensures Rt(w, cg, mg).name == mg { RtName(w, cg, mg); }
    if before == {} {
      PlanWithoutOwner(cfg, cg, w, now);
      assert after <= {target};
    } else {
      PlanWithOwner(cfg, cg, w, now);
      if mg :| mg in before && mg != target && plan == map[mg := DesiredPassive] {
        assert after == before - {mg};
      } else {
        assert after <= {target};
      }
    }
  }

  lemma RtName(w: World, cg: string, mg: string)
    requires mg in Visible(w.docs)
    ensures Rt(w, cg, mg).name == mg
  {
    hide GroupState;
  }

  /** Self-stabilisation, one cycle: n owners become at most max(1, n-1), whatever is reported. */
  lemma {:induction false} CycleRemovesOwner(cfg: Config, cg: string, w: World, now: int)
    requires Switches(cfg, cg, w)
    ensures |Owners(CycleOf(cfg, cg, w, now), cg)| <= Max(1, |Owners(w, cg)| - 1)
  {
    hide Owners, CycleOf, TargetName, Switches;
    OwnersAfter(cfg, cg, w, now);
    var after := Owners(CycleOf(cfg, cg, w, now), cg);
    if after <= {TargetName(cfg, cg, w)} {
      Subset(after, {TargetName(cfg, cg, w)});
    }
  }

  lemma {:induction false} Subset(a: set<string>, b: set<string>)
    requires a <= b
    ensures |a| <= |b|
  {
    assert b == a + (b - a);
  }

  /** Self-stabilisation over a run of cycles with arbitrary reports between them. */
  lemma {:induction false} RunsSettle(cfg: Config, cg: string, seen: seq<World>, at: seq<int>, i: nat)
    requires IsRun(cfg, cg, seen, at) && i < |seen|
    requires forall w <- seen :: Switches(cfg, cg, w)
    ensures |Owners(seen[i], cg)| <= Max(1, |Owners(seen[0], cg)| - i)
  {
    hide Owners, CycleOf, Switches, OnlyReportsChange;
    if i > 0 {
      RunsSettle(cfg, cg, seen, at, i - 1);
      var w := seen[i - 1];
      assert w in seen;
      CycleRemovesOwner(cfg, cg, w, at[i - 1]);
      assert OnlyReportsChange(CycleOf(cfg, cg, w, at[i - 1]), seen[i]);
      SameOwners(cg, CycleOf(cfg, cg, w, at[i - 1]), seen[i]);
    }
  }

  lemma SameOwners(cg: string, w: World, w': World)
    requires OnlyReportsChange(w, w')
    ensures Owners(w', cg) == Owners(w, cg)
  {
    hide GroupState, RuntimeOf;
    forall mg <- Visible(w.docs) ensures Rt(w', cg, mg).Owner() == Rt(w, cg, mg).Owner() {
      DesiredPersists(cg, w, w', mg);
    }
  }

  /** The plan changes no stored desired state. */
  ghost predicate WritesNoDesired(cfg: Config, cg: string, w: World, now: int) {
    var w' := CycleOf(cfg, cg, w, now);
    w'.docs.Keys == w.docs.Keys && forall mg <- w.docs :: w'.docs[mg].desired == w.docs[mg].desired
  }

  /** Rest: with some owner, a cycle leaves every desired state alone exactly when the target is the
      only owner and every other managed group is to be passive. */
  lemma {:induction false} RestMeansSettled(cfg: Config, cg: string, w: World, now: int)
    requires Switches(cfg, cg, w) && Owners(w, cg) != {}
    ensures WritesNoDesired(cfg, cg, w, now) <==>
      && Owners(w, cg) == {TargetName(cfg, cg, w)}
      && forall mg <- Visible(w.docs) | mg != TargetName(cfg, cg, w) && Rt(w, cg, mg).managed ::
           Rt(w, cg, mg).desired == DesiredPassive
  {
    hide Runtimes, CycleOf, GroupState, RuntimeOf, Switches, TargetName, PlanOf, Owners, Rt, Visible, WritesNoDesired;
    if WritesNoDesired(cfg, cg, w, now) {
      RestSays(cfg, cg, w, now);
      SettledSays(cfg, cg, w, now);
    } else {
      UnrestSays(cfg, cg, w, now);
    }
  }

  lemma {:induction false} RestSays(cfg: Config, cg: string, w: World, now: int)
    requires WritesNoDesired(cfg, cg, w, now)
    ensures var plan := PlanOf(cfg, cg, w, now).desired;
      forall mg <- Visible(w.docs) :: mg in plan ==> plan[mg] == Rt(w, cg, mg).desired && Rt(w, cg, mg).managed
  {
    hide Runtimes, CycleOf, RuntimeOf, PlanOf, Rt;
    CycleDesired(cfg, cg, w, now);
    forall mg <- Visible(w.docs)
      ensures mg in PlanOf(cfg, cg, w, now).desired ==>
        PlanOf(cfg, cg, w, now).desired[mg] == Rt(w, cg, mg).desired && Rt(w, cg, mg).managed
    {
      RtDesired(w, cg, mg);
    }
  }

  /** A cycle that writes something new comes from a world that is not settled. */
  lemma {:induction false} UnrestSays(cfg: Config, cg: string, w: World, now: int)
    requires Switches(cfg, cg, w) && Owners(w, cg) != {} && !WritesNoDesired(cfg, cg, w, now)
    ensures !(Owners(w, cg) == {TargetName(cfg, cg, w)} &&
      forall mg <- Visible(w.docs) | mg != TargetName(cfg, cg, w) && Rt(w, cg, mg).managed :: Rt(w, cg, mg).desired == DesiredPassive)
  {
    hide Runtimes, CycleOf, RuntimeOf, PlanOf, Rt, Switches, TargetName;
    PlanWithOwner(cfg, cg, w, now);
    CycleDesired(cfg, cg, w, now);
    var w' := CycleOf(cfg, cg, w, now);
    var mg :| mg in w.docs && w'.docs[mg].desired != w.docs[mg].desired;
    assert mg in Visible(w.docs) && mg in PlanOf(cfg, cg, w, now).desired;
    RtDesired(w, cg, mg);
    hide Visible;
  }

  /** A plan that asks for nothing new comes from a settled world. */
  lemma {:induction false} SettledSays(cfg: Config, cg: string, w: World, now: int)
    requires Switches(cfg, cg, w) && Owners(w, cg) != {}
    requires var plan := PlanOf(cfg, cg, w, now).desired;
      forall mg <- Visible(w.docs) :: mg in plan ==> plan[mg] == Rt(w, cg, mg).desired && Rt(w, cg, mg).managed
    ensures Owners(w, cg) == {TargetName(cfg, cg, w)}
    ensures forall mg <- Visible(w.docs) | mg != TargetName(cfg, cg, w) && Rt(w, cg, mg).managed :: Rt(w, cg, mg).desired == DesiredPassive
  {
    hide Runtimes, GroupState, RuntimeOf, Switches, TargetName, PlanOf, Visible, Rt;
    PlanWithOwner(cfg, cg, w, now);
  }

  lemma RtDesired(w: World, cg: string, mg: string)
    requires mg in Visible(w.docs)
    ensures Rt(w, cg, mg).desired == ReadDesired(w.docs[mg]).state
    ensures Rt(w, cg, mg).managed == ReadDesired(w.docs[mg]).managed
  {
    hide GroupState;
  }

  lemma {:induction false} CycleDesired(cfg: Config, cg: string, w: World, now: int)
    ensures var plan := PlanOf(cfg, cg, w, now).desired; var w' := CycleOf(cfg, cg, w, now);
      && w'.docs.Keys == w.docs.Keys
      && (forall mg <- plan :: mg in Visible(w.docs))
      && forall mg <- w.docs :: w'.docs[mg].desired == if mg in plan then Decoded(DesiredDoc(plan[mg], true)) else w.docs[mg].desired
  {
    hide Runtimes, GroupState, PolicyPlan;
    PlanNamesGroups(cfg, cg, Runtimes(w, cg), w.memory, now);
  }
}
