/** What the commands do to priorities, to ownership, and to the number of live groups. */
module CommandEffects {
  import opened Model
  import opened Order
  import opened Aggregation
  import opened Policy
  import opened Cycle
  import opened Commands
  import opened Safety
  import opened Progress

  // ----- Priorities -----

  /** A promotion exchanges two stored priorities and leaves the rest of every config alone; of the
      other documents it changes only the desired state of the promoted group. */
  lemma PromoteTransposes(docs: Groups, mg: string)
    requires Promotable(docs, mg)
    ensures var o := Incumbent(docs, mg); var after := ExecPromote(docs, mg).docs;
      && after.Keys == docs.Keys
      && {mg, o} <= Entries(after)
      && Priority(after, mg) == Priority(docs, o) && Priority(after, o) == Priority(docs, mg)
      && after[mg].config.doc.roles == docs[mg].config.doc.roles && after[o].config.doc.roles == docs[o].config.doc.roles
      && (forall n <- docs | n != mg && n != o :: after[n] == docs[n])
      && (forall n <- docs | n != mg :: after[n].desired == docs[n].desired)
      && Entries(after) == Entries(docs)
  {
    hide Incumbent, NoActiveGroup;
  }

  ghost predicate DistinctPositive(docs: Groups, s: set<string>)
    requires s <= Entries(docs)
  {
    && (forall n <- s :: Priority(docs, n) > 0)
    && forall n, m | n in s && m in s && Priority(docs, n) == Priority(docs, m) :: n == m
  }

  lemma IncumbentIsLeast(docs: Groups, mg: string)
    requires mg in Entries(docs)
    ensures forall n <- Entries(docs) :: Priority(docs, Incumbent(docs, mg)) <= Priority(docs, n)
  {
    assert IsBest(docs, Entries(docs), Best(docs, Entries(docs)));
  }

  /** With distinct positive priorities the promoted group ends with the strictly least one. */
  lemma PromotedIsFirst(docs: Groups, mg: string)
    requires Promotable(docs, mg) && DistinctPositive(docs, Entries(docs))
    ensures var after := ExecPromote(docs, mg).docs;
      && Entries(after) == Entries(docs) && DistinctPositive(after, Entries(after))
      && forall n <- Entries(after) | n != mg :: Priority(after, mg) < Priority(after, n)
  {
    hide Incumbent, ExecPromote;
    PromoteTransposes(docs, mg);
    IncumbentIsLeast(docs, mg);
    var o, after := Incumbent(docs, mg), ExecPromote(docs, mg).docs;
    forall n <- Entries(after) ensures Priority(after, n) == if n == mg then Priority(docs, o) else if n == o then Priority(docs, mg) else Priority(docs, n) {}
  }

  ghost function Promoted(w: World, mg: string): World {
    w.(docs := ExecPromote(w.docs, mg).docs)
  }

  /** A promoted group is managed, and if it is available then it is what the next cycle targets. */
  lemma {:induction false} PromotedIsTarget(w: World, cg: string, mg: string)
    requires mg in Visible(w.docs) && Promotable(w.docs, mg)
    requires Visible(w.docs) <= Entries(w.docs) && DistinctPositive(w.docs, Entries(w.docs))
    ensures var w' := Promoted(w, mg); var groups := Runtimes(w', cg);
      && mg in Visible(w'.docs) && Rt(w', cg, mg).managed
      && (Rt(w', cg, mg).Available() ==> Target(groups).Some? && groups[Target(groups).value].name == mg)
  {
    hide Runtimes, GroupState, ExecPromote, RuntimeOf;
    var w' := Promoted(w, mg);
    PromotedIsFirst(w.docs, mg);
    PromotedManaged(w.docs, mg);
    PromoteTransposes(w.docs, mg);
    assert Visible(w'.docs) == Visible(w.docs);
    RuntimesAreRt(w', cg);
    var groups := Runtimes(w', cg);
    forall n <- Visible(w'.docs)
      ensures Rt(w', cg, n).priority == Priority(w'.docs, n)
      ensures Rt(w', cg, n).managed == ReadDesired(w'.docs[n]).managed
    {
      Reading(w', cg, n);
    }
    if Rt(w', cg, mg).Available() {
      assert Rt(w', cg, mg).Eligible();
      var t := groups[Target(groups).value];
      assert t in groups && t.priority <= Rt(w', cg, mg).priority;
    }
  }

  lemma PromotedManaged(docs: Groups, mg: string)
    requires Promotable(docs, mg)
    ensures mg in ExecPromote(docs, mg).docs && ExecPromote(docs, mg).docs[mg].listed
    ensures ReadDesired(ExecPromote(docs, mg).docs[mg]) ==
      DesiredDoc(if NoActiveGroup(docs) then DesiredActive else DesiredPassive, true)
  {
    hide Incumbent, IsBest;
    var o := Incumbent(docs, mg);
    var swapped := if o == mg then docs else Transpose(docs, mg, o);
    assert NoActiveGroup(swapped) <==> NoActiveGroup(docs) by {
      assert Listed(swapped) == Listed(docs);
      assert forall n <- docs :: Owns(swapped[n]) == Owns(docs[n]);
    }
  }

  lemma Reading(w: World, cg: string, n: string)
    requires n in Visible(w.docs) && n in Entries(w.docs) && Priority(w.docs, n) > 0
    ensures Rt(w, cg, n).priority == Priority(w.docs, n)
    ensures Rt(w, cg, n).managed == ReadDesired(w.docs[n]).managed
  {
    hide GroupState;
  }

  // ----- In terms of the documents -----

  /** A listed group that is told to be active and managed. */
  ghost predicate SomeoneOwns(docs: Groups) {
    exists n <- docs :: docs[n].listed && docs[n].desired == Decoded(DesiredDoc(DesiredActive, true))
  }

  /** `o` holds the least priority that a listed group has, the promoted one winning ties, and
      otherwise the first in order. It exchanges priorities with the promoted group, which is told to
      be active if nobody was, and otherwise to be passive and managed. */
  ghost predicate PromotedOver(docs: Groups, after: Groups, mg: string, o: string) {
    && mg in docs && docs[mg].config.Decoded? && o in docs && docs[o].listed && docs[o].config.Decoded?
    && (forall n <- docs | docs[n].listed && docs[n].config.Decoded? ::
          docs[o].config.doc.priority < docs[n].config.doc.priority
          || (docs[o].config.doc.priority == docs[n].config.doc.priority && (o == mg || (n != mg && (n == o || Leq(o, n))))))
    && after.Keys == docs.Keys && (forall n <- docs | n != mg && n != o :: after[n] == docs[n])
    && after[mg] == docs[mg].(
         config := Decoded(docs[mg].config.doc.(priority := docs[o].config.doc.priority)),
         desired := Decoded(DesiredDoc(if SomeoneOwns(docs) then DesiredPassive else DesiredActive, true)))
    && (o != mg ==> after[o] == docs[o].(config := Decoded(docs[o].config.doc.(priority := docs[mg].config.doc.priority))))
  }

  /** A promotion is carried out exactly for a listed group whose config decodes to a priority that is
      not negative, and otherwise changes nothing. */
  lemma PromoteMeans(docs: Groups, mg: string)
    ensures var result := ExecPromote(docs, mg);
      && (result.ok <==> mg in docs && docs[mg].listed && docs[mg].config.Decoded? && docs[mg].config.doc.priority >= 0)
      && (if result.ok then exists o :: PromotedOver(docs, result.docs, mg, o) else result.docs == docs)
  {
    hide Leq, Incumbent;
    if Promotable(docs, mg) {
      var o := Incumbent(docs, mg);
      IncumbentComes(docs, mg);
      OwnersAre(docs);
      PromotedManaged(docs, mg);
      PromoteTransposes(docs, mg);
      PromoteWrites(docs, mg);
      assert PromotedOver(docs, ExecPromote(docs, mg).docs, mg, o);
    }
  }

  lemma PromoteWrites(docs: Groups, mg: string)
    requires Promotable(docs, mg)
    ensures var o := Incumbent(docs, mg); var after := ExecPromote(docs, mg).docs;
      && mg in after && o in after && after[mg].desired.Decoded?
      && after[mg].desired.doc == ReadDesired(after[mg])
      && after[mg] == docs[mg].(config := Decoded(docs[mg].config.doc.(priority := Priority(docs, o))), desired := after[mg].desired)
      && (o != mg ==> after[o] == docs[o].(config := Decoded(docs[o].config.doc.(priority := Priority(docs, mg)))))
  {
    hide Incumbent, NoActiveGroup, IsBest;
    assert docs[mg] == docs[mg].(config := Decoded(docs[mg].config.doc.(priority := Priority(docs, mg))));
  }

  lemma IncumbentComes(docs: Groups, mg: string)
    requires mg in Entries(docs)
    ensures var o := Incumbent(docs, mg);
      forall n <- docs | docs[n].listed && docs[n].config.Decoded? ::
        docs[o].config.doc.priority < docs[n].config.doc.priority
        || (docs[o].config.doc.priority == docs[n].config.doc.priority && (o == mg || (n != mg && (n == o || Leq(o, n)))))
  {
    hide Leq;
    assert forall n <- docs | docs[n].listed && docs[n].config.Decoded? :: n in Entries(docs) && Priority(docs, n) == docs[n].config.doc.priority;
    assert IsBest(docs, Entries(docs), Best(docs, Entries(docs)));
  }

  lemma OwnersAre(docs: Groups)
    ensures NoActiveGroup(docs) <==> !SomeoneOwns(docs)
  {
    if !NoActiveGroup(docs) {
      var n :| n in Listed(docs) && Owns(docs[n]);
      assert docs[n].desired == Decoded(DesiredDoc(DesiredActive, true));
    }
  }

  /** A group that a demotion can choose: listed, managed, passive and healthy, with a config. */
  ghost predicate SomeoneReplaces(docs: Groups, mg: string) {
    exists n <- docs :: n != mg && docs[n].listed && docs[n].desired.Decoded? && docs[n].desired.doc.managed
      && docs[n].actual.Decoded? && docs[n].actual.doc.state == ActualPassive
      && docs[n].health.Decoded? && docs[n].health.doc.status == HealthOK && docs[n].config.Decoded?
  }

  /** Exactly when a demotion is carried out. A group that is already to be passive only becomes
      managed; a demotion that fails changes nothing. */
  lemma DemoteMeans(docs: Groups, mg: string)
    ensures var result := ExecDemote(docs, mg);
      var known := mg in docs && docs[mg].desired.Decoded?;
      && (result.ok <==> known && (docs[mg].desired.doc.state == DesiredPassive || (docs[mg].config.Decoded? && SomeoneReplaces(docs, mg))))
      && (!result.ok ==> result.docs == docs)
      && (known && docs[mg].desired.doc.state == DesiredPassive ==>
            result.docs == docs[mg := docs[mg].(desired := Decoded(DesiredDoc(DesiredPassive, true)), listed := true)])
  {
    if n :| n in docs && n != mg && CanReplace(docs[n]) {
      assert n in Replacements(docs, mg);
    }
    if Replacements(docs, mg) != {} {
      var n :| n in Replacements(docs, mg);
      assert n in docs && CanReplace(docs[n]);
    }
  }

  // ----- Ownership -----

  /** A promotion leaves the cluster group without an owner exactly when the promoted group was its
      only owner: the group that should be first is told to stop. */
  lemma PromoteUnseatsOwner(docs: Groups, mg: string)
    requires Promotable(docs, mg)
    ensures NoActiveGroup(ExecPromote(docs, mg).docs) <==>
      Owns(docs[mg]) && forall n <- Listed(docs) | n != mg :: !Owns(docs[n])
  {
    hide Incumbent, ExecPromote;
    var after := ExecPromote(docs, mg).docs;
    PromoteTransposes(docs, mg);
    PromotedManaged(docs, mg);
    forall n <- docs | n != mg ensures Owns(after[n]) == Owns(docs[n]) {}
    assert Listed(after) == Listed(docs) by {
      forall n <- docs ensures after[n].listed == docs[n].listed { PromoteKeepsListing(docs, mg, n); }
    }
    assert Owns(after[mg]) <==> NoActiveGroup(docs);
  }

  lemma PromoteKeepsListing(docs: Groups, mg: string, n: string)
    requires Promotable(docs, mg) && n in docs && n in ExecPromote(docs, mg).docs
    ensures ExecPromote(docs, mg).docs[n].listed == docs[n].listed
  {
    hide Incumbent, NoActiveGroup;
  }

  // ----- disable and enable -----

  /** Enable undoes a disable exactly for a group that was listed and known to be managed. */
  lemma EnableUndoesDisable(docs: Groups, mg: string)
    ensures ExecEnable(ExecDisable(docs, mg).docs, mg).docs == docs <==>
      mg in docs && docs[mg].listed && docs[mg].desired.Decoded? && docs[mg].desired.doc.managed
  {
    var after := ExecEnable(ExecDisable(docs, mg).docs, mg).docs;
    assert mg in after && after[mg].listed && after[mg].desired == Decoded(DesiredDoc(ReadDesired(Get(docs, mg)).state, true));
    if mg in docs && docs[mg].listed && docs[mg].desired.Decoded? && docs[mg].desired.doc.managed {
      assert after[mg] == docs[mg];
    }
  }

  // ----- Live groups -----

  ghost predicate OtherLive(w: World, cg: string, but: set<string>) {
    exists n <- Visible(w.docs) - but :: Live(Rt(w, cg, n))
  }

  /** The state the controller would see in a group once it is, or is not, under management. */
  ghost function StateUnder(w: World, cg: string, mg: string, managed: bool): ActualState {
    GroupState(w.registry, cg, mg, WithDesired(Get(w.docs, mg), DesiredPassive, managed)).state
  }

  ghost predicate LiveUnder(w: World, cg: string, mg: string, state: DesiredState, managed: bool) {
    (state == DesiredActive && managed) || (state == DesiredPassive && Busy(StateUnder(w, cg, mg, managed)))
  }

  /** Changing only one group, or adding it, keeps at most one group live exactly when that group is
      not live afterwards or no other group is. */
  lemma {:induction false} OneGroupChanged(w: World, w': World, cg: string, mg: string)
    requires AtMostOneLive(w, cg) && Visible(w'.docs) == Visible(w.docs) + {mg}
    requires forall n <- Visible(w.docs) | n != mg :: Live(Rt(w', cg, n)) == Live(Rt(w, cg, n))
    ensures AtMostOneLive(w', cg) <==> !(Live(Rt(w', cg, mg)) && OtherLive(w, cg, {mg}))
  {
    hide Live, GroupState, RuntimeOf, Rt, Visible;
    if Live(Rt(w', cg, mg)) && OtherLive(w, cg, {mg}) {
      var n :| n in Visible(w.docs) - {mg} && Live(Rt(w, cg, n));
      assert Live(Rt(w', cg, n)) && n != mg;
    }
  }

  lemma {:induction false} RewrittenRuntime(w: World, w': World, cg: string, mg: string, state: DesiredState, managed: bool)
    requires mg in Visible(w'.docs) && w'.registry == w.registry
    requires ReadDesired(w'.docs[mg]) == DesiredDoc(state, managed)
    requires w'.docs[mg].roleActual == Get(w.docs, mg).roleActual && w'.docs[mg].roleHealth == Get(w.docs, mg).roleHealth
    ensures Live(Rt(w', cg, mg)) <==> LiveUnder(w, cg, mg, state, managed)
  {
    hide AggregateOf;
    SameLoss(w.registry, cg, mg, Get(w.docs, mg), w'.docs[mg]);
    SameLoss(w.registry, cg, mg, Get(w.docs, mg), WithDesired(Get(w.docs, mg), DesiredPassive, managed));
  }

  lemma {:induction false} SameLive(w: World, w': World, cg: string, n: string)
    requires n in Visible(w.docs) && n in Visible(w'.docs) && w'.registry == w.registry
    requires w'.docs[n].desired == w.docs[n].desired
    requires w'.docs[n].roleActual == w.docs[n].roleActual && w'.docs[n].roleHealth == w.docs[n].roleHealth
    ensures Live(Rt(w', cg, n)) == Live(Rt(w, cg, n))
  {
    hide AggregateOf;
    SameLoss(w.registry, cg, n, w.docs[n], w'.docs[n]);
  }

  /** Exactly when writing one desired document keeps at most one group live. */
  lemma {:induction false} Overwrite(w: World, cg: string, mg: string, state: DesiredState, managed: bool)
    requires AtMostOneLive(w, cg) && !IsSystemKey(mg)
    ensures AtMostOneLive(w.(docs := WriteDesired(w.docs, mg, state, managed)), cg) <==>
      !(LiveUnder(w, cg, mg, state, managed) && OtherLive(w, cg, {mg}))
  {
    hide GroupState, Live, RuntimeOf, LiveUnder, IsSystemKey;
    var w' := w.(docs := WriteDesired(w.docs, mg, state, managed));
    assert Visible(w'.docs) == Visible(w.docs) + {mg};
    RewrittenRuntime(w, w', cg, mg, state, managed);
    OneGroupChanged(w, w', cg, mg);
  }

  /** Exactly when disable keeps at most one group live: taken out of management, a group to be
      passive may show activity that the loss of an agent had covered. */
  lemma {:induction false} DisableAndLiveness(w: World, cg: string, mg: string)
    requires AtMostOneLive(w, cg) && !IsSystemKey(mg)
    ensures AtMostOneLive(w.(docs := ExecDisable(w.docs, mg).docs), cg) <==>
      !(ReadDesired(Get(w.docs, mg)).state == DesiredPassive && Busy(StateUnder(w, cg, mg, false)) && OtherLive(w, cg, {mg}))
  {
    hide GroupState, Live, RuntimeOf, StateUnder;
    Overwrite(w, cg, mg, ReadDesired(Get(w.docs, mg)).state, false);
  }

  /** Exactly when enable keeps at most one group live. */
  lemma {:induction false} EnableAndLiveness(w: World, cg: string, mg: string)
    requires AtMostOneLive(w, cg) && !IsSystemKey(mg)
    ensures var state := ReadDesired(Get(w.docs, mg)).state;
      AtMostOneLive(w.(docs := ExecEnable(w.docs, mg).docs), cg) <==>
      !((state == DesiredActive || (state == DesiredPassive && Busy(StateUnder(w, cg, mg, true)))) && OtherLive(w, cg, {mg}))
  {
    hide GroupState, Live, RuntimeOf, StateUnder;
    Overwrite(w, cg, mg, ReadDesired(Get(w.docs, mg)).state, true);
  }

  /** Exactly when a force_passive that runs keeps at most one group live: telling an unmanaged
      group to stop while it is busy adds it to the live ones. */
  lemma {:induction false} ForcePassiveAndLiveness(w: World, cg: string, mg: string)
    requires AtMostOneLive(w, cg) && !IsSystemKey(mg) && ExecForcePassive(w.docs, mg).ok
    ensures AtMostOneLive(w.(docs := ExecForcePassive(w.docs, mg).docs), cg) <==>
      !(Busy(StateUnder(w, cg, mg, true)) && OtherLive(w, cg, {mg}))
  {
    hide GroupState, Live, RuntimeOf, StateUnder;
    Overwrite(w, cg, mg, DesiredPassive, true);
  }

  /** What a promotion leaves of the group documents that liveness depends on. */
  lemma {:induction false} PromoteLeaves(docs: Groups, mg: string)
    requires Promotable(docs, mg)
    ensures ExecPromote(docs, mg).docs.Keys == docs.Keys
    ensures forall n <- docs :: var d, d' := docs[n], ExecPromote(docs, mg).docs[n];
      d'.listed == d.listed && d'.roleActual == d.roleActual && d'.roleHealth == d.roleHealth && (n != mg ==> d'.desired == d.desired)
    ensures ReadDesired(ExecPromote(docs, mg).docs[mg]) == DesiredDoc(if NoActiveGroup(docs) then DesiredActive else DesiredPassive, true)
  {
    hide ExecPromote, Incumbent, NoActiveGroup;
    PromoteTransposes(docs, mg);
    PromotedManaged(docs, mg);
    forall n <- docs
      ensures ExecPromote(docs, mg).docs[n].listed == docs[n].listed
      ensures ExecPromote(docs, mg).docs[n].roleActual == docs[n].roleActual && ExecPromote(docs, mg).docs[n].roleHealth == docs[n].roleHealth
    {
      PromoteKeepsListing(docs, mg, n);
      PromoteKeepsRoles(docs, mg, n);
    }
  }

  /** Exactly when a promotion keeps at most one group live: nothing else is live, or the promoted
      group is neither activated at once nor still busy. */
  lemma {:induction false} PromoteAndLiveness(w: World, cg: string, mg: string)
    requires AtMostOneLive(w, cg) && !IsSystemKey(mg) && Promotable(w.docs, mg)
    ensures AtMostOneLive(Promoted(w, mg), cg) <==>
      !((NoActiveGroup(w.docs) || Busy(StateUnder(w, cg, mg, true))) && OtherLive(w, cg, {mg}))
  {
    hide ExecPromote, GroupState, Live, NoActiveGroup, RuntimeOf, Incumbent, StateUnder, IsSystemKey;
    var w' := Promoted(w, mg);
    PromoteLeaves(w.docs, mg);
    assert Visible(w'.docs) == Visible(w.docs) && mg in Visible(w.docs);
    RewrittenRuntime(w, w', cg, mg, ReadDesired(w'.docs[mg]).state, true);
    forall n <- Visible(w.docs) | n != mg ensures Live(Rt(w', cg, n)) == Live(Rt(w, cg, n)) {
      SameLive(w, w', cg, n);
    }
    OneGroupChanged(w, w', cg, mg);
  }

  lemma PromoteKeepsRoles(docs: Groups, mg: string, n: string)
    requires Promotable(docs, mg) && n in docs && n in ExecPromote(docs, mg).docs
    ensures ExecPromote(docs, mg).docs[n].roleActual == docs[n].roleActual
    ensures ExecPromote(docs, mg).docs[n].roleHealth == docs[n].roleHealth
  {
    hide Incumbent, NoActiveGroup;
  }

  /** A demotion that runs finds a replacement, unless the group is to be passive already. */
  predicate Replaces(docs: Groups, mg: string) {
    && Get(docs, mg).desired.Decoded? && Get(docs, mg).desired.doc.state != DesiredPassive
    && Replacements(docs, mg) != {} && Get(docs, mg).config.Decoded?
  }

  /** What a replacing demotion leaves of the group documents that liveness depends on. */
  lemma {:induction false} DemoteLeaves(docs: Groups, mg: string)
    requires Replaces(docs, mg)
    ensures var best := Best(docs, Replacements(docs, mg)); var after := ExecDemote(docs, mg).docs;
      && after.Keys == docs.Keys && {mg, best} <= after.Keys && best != mg && docs[best].listed && docs[best].config.Decoded?
      && ReadDesired(after[mg]) == DesiredDoc(DesiredPassive, true) && ReadDesired(after[best]) == DesiredDoc(DesiredActive, true)
      && after[mg].listed && after[best].listed
      && (forall n <- docs :: after[n].roleActual == docs[n].roleActual && after[n].roleHealth == docs[n].roleHealth)
      && (forall n <- docs | n != mg && n != best :: after[n] == docs[n])
  {
    hide IsBest, Replacements, Best, GivenTo;
    ReplacementIsEntry(docs, mg);
    GivenLeaves(docs, mg, Best(docs, Replacements(docs, mg)));
  }

  lemma {:induction false} GivenLeaves(docs: Groups, mg: string, best: string)
    requires best != mg && {mg, best} <= docs.Keys && docs[mg].config.Decoded? && docs[best].config.Decoded?
    ensures var after := GivenTo(docs, mg, best);
      && after.Keys == docs.Keys && after[mg].listed && after[best].listed
      && ReadDesired(after[mg]) == DesiredDoc(DesiredPassive, true) && ReadDesired(after[best]) == DesiredDoc(DesiredActive, true)
      && (forall n <- docs :: after[n].roleActual == docs[n].roleActual && after[n].roleHealth == docs[n].roleHealth)
      && (forall n <- docs | n != mg && n != best :: after[n] == docs[n])
  {}

  lemma ReplacementIsEntry(docs: Groups, mg: string)
    requires Replacements(docs, mg) != {}
    ensures var best := Best(docs, Replacements(docs, mg)); best in Entries(docs) && best != mg
  {
    hide IsBest, Replacements;
    BestIsMember(docs, Replacements(docs, mg));
  }

  /** Exactly when a replacing demotion keeps at most one group live. It activates the replacement at
      once; so it does so only if the demoted group is not busy and nothing else is live. */
  lemma {:induction false} DemoteAndLiveness(w: World, cg: string, mg: string)
    requires AtMostOneLive(w, cg) && Replaces(w.docs, mg)
    ensures var best := Best(w.docs, Replacements(w.docs, mg));
      var demoted := !IsSystemKey(mg) && Busy(StateUnder(w, cg, mg, true));
      AtMostOneLive(w.(docs := ExecDemote(w.docs, mg).docs), cg) <==>
      && !(demoted && !IsSystemKey(best))
      && !((demoted || !IsSystemKey(best)) && OtherLive(w, cg, {mg, best}))
  {
    hide GroupState, Live, RuntimeOf, StateUnder, IsBest, ExecDemote, IsSystemKey, Replacements, Best;
    var best := Best(w.docs, Replacements(w.docs, mg));
    var w' := w.(docs := ExecDemote(w.docs, mg).docs);
    DemoteLeaves(w.docs, mg);
    if mg in Visible(w'.docs) { RewrittenRuntime(w, w', cg, mg, DesiredPassive, true); }
    if best in Visible(w'.docs) { RewrittenRuntime(w, w', cg, best, DesiredActive, true); }
    forall n <- Visible(w.docs) | n != mg && n != best ensures n in Visible(w'.docs) && Live(Rt(w', cg, n)) == Live(Rt(w, cg, n)) {
      SameLive(w, w', cg, n);
    }
    TwoGroupsChanged(w, w', cg, mg, best);
  }

  /** Changing two groups. */
  lemma {:induction false} TwoGroupsChanged(w: World, w': World, cg: string, a: string, b: string)
    requires AtMostOneLive(w, cg) && a != b
    requires Visible(w'.docs) - {a, b} == Visible(w.docs) - {a, b}
    requires forall n <- Visible(w.docs) - {a, b} :: Live(Rt(w', cg, n)) == Live(Rt(w, cg, n))
    ensures var liveA, liveB := a in Visible(w'.docs) && Live(Rt(w', cg, a)), b in Visible(w'.docs) && Live(Rt(w', cg, b));
      AtMostOneLive(w', cg) <==> !(liveA && liveB) && !((liveA || liveB) && OtherLive(w, cg, {a, b}))
  {
    hide Live, GroupState, RuntimeOf, Rt, Visible;
    if OtherLive(w, cg, {a, b}) {
      var n :| n in Visible(w.docs) - {a, b} && Live(Rt(w, cg, n));
      assert n in Visible(w'.docs) - {a, b};
      assert Live(Rt(w', cg, n));
    }
    forall x <- Visible(w'.docs) ensures x == a || x == b || x in Visible(w.docs) - {a, b} {
      assert x != a && x != b ==> x in Visible(w'.docs) - {a, b};
    }
  }

  lemma BestIsMember(docs: Groups, s: set<string>)
    requires s <= Entries(docs) && s != {}
    ensures Best(docs, s) in s
  {}
}
