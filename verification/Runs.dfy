/** At most one live group, over whole runs of cycles, commands and reports in any order. */
module Runs {
  import opened Model
  import opened Aggregation
  import opened Policy
  import opened Cycle
  import opened Commands
  import opened Safety
  import opened CommandEffects

  datatype Command =
    | Disable(mg: string)
    | Enable(mg: string)
    | ForcePassive(mg: string)
    | Promote(mg: string)
    | Demote(mg: string)

  /** Any name may be given: disable is queued and executed whether or not the group exists. */
  ghost function Executed(docs: Groups, c: Command): Outcome {
    match c
    case Disable(mg) => ExecDisable(docs, mg)
    case Enable(mg) => ExecEnable(docs, mg)
    case ForcePassive(mg) => ExecForcePassive(docs, mg)
    case Promote(mg) => ExecPromote(docs, mg)
    case Demote(mg) => ExecDemote(docs, mg)
  }

  datatype Step =
    | Reconcile(now: int)
    | Execute(command: Command)
    | Report

  ghost predicate Next(cfg: Config, cg: string, w: World, s: Step, w': World) {
    match s
    case Reconcile(now) => w' == CycleOf(cfg, cg, w, now)
    case Execute(c) => w' == w.(docs := Executed(w.docs, c).docs)
    case Report => Safety.Reports(w, w') && NoFreshActivity(w, w', cg)
  }

  ghost predicate IsRun(cfg: Config, cg: string, ws: seq<World>, steps: seq<Step>) {
    |ws| == |steps| + 1 && forall i :: 0 <= i < |steps| ==> Next(cfg, cg, ws[i], steps[i], ws[i + 1])
  }

  // ----- When a command may be executed -----

  /** A desired document may be written: its group is known or has a config, and it does not become
      a second live group. Below a reserved name the controller sees nothing of it. */
  ghost predicate MayWrite(w: World, cg: string, mg: string, state: DesiredState, managed: bool) {
    || IsSystemKey(mg)
    || (&& (mg in Visible(w.docs) || Get(w.docs, mg).config.Decoded?)
        && state in {DesiredActive, DesiredPassive}
        && !(LiveUnder(w, cg, mg, state, managed) && OtherLive(w, cg, {mg})))
  }

  /** The priority of a group as read once two groups have exchanged theirs. */
  function ExchangedPriority(docs: Groups, a: string, b: string, n: string): int
    requires {a, b, n} <= docs.Keys
  {
    ReadPriority(docs[if n == a then b else if n == b then a else n])
  }

  ghost predicate StillDiffer(docs: Groups, a: string, b: string, among: set<string>)
    requires among + {a, b} <= docs.Keys
  {
    exists x, y :: x in among && y in among && ExchangedPriority(docs, a, b, x) != ExchangedPriority(docs, a, b, y)
  }

  ghost predicate MayPromote(w: World, cg: string, mg: string)
    requires Promotable(w.docs, mg)
  {
    && (IsSystemKey(mg) || !((NoActiveGroup(w.docs) || Busy(StateUnder(w, cg, mg, true))) && OtherLive(w, cg, {mg})))
    && StillDiffer(w.docs, mg, Incumbent(w.docs, mg), Visible(w.docs))
  }

  function VisibleAfter(docs: Groups, mg: string): set<string> {
    if IsSystemKey(mg) then Visible(docs) else Visible(docs) + {mg}
  }

  ghost predicate MayDemote(w: World, cg: string, mg: string)
    requires Replaces(w.docs, mg)
  {
    var best := Best(w.docs, Replacements(w.docs, mg));
    var demoted := !IsSystemKey(mg) && Busy(StateUnder(w, cg, mg, true));
    && !(demoted && !IsSystemKey(best))
    && !((demoted || !IsSystemKey(best)) && OtherLive(w, cg, {mg, best}))
    && StillDiffer(w.docs, mg, best, VisibleAfter(w.docs, mg))
  }

  /** What can be checked before a command is executed. */
  ghost predicate Guard(w: World, cg: string, c: Command) {
    match c
    case Disable(mg) => MayWrite(w, cg, mg, ReadDesired(Get(w.docs, mg)).state, false)
    case Enable(mg) => MayWrite(w, cg, mg, ReadDesired(Get(w.docs, mg)).state, true)
    case ForcePassive(mg) => ExecForcePassive(w.docs, mg).ok ==> MayWrite(w, cg, mg, DesiredPassive, true)
    case Promote(mg) => Promotable(w.docs, mg) ==> MayPromote(w, cg, mg)
    case Demote(mg) =>
      var desired := Get(w.docs, mg).desired;
      if desired.Decoded? && desired.doc.state == DesiredPassive then MayWrite(w, cg, mg, DesiredPassive, true)
      else Replaces(w.docs, mg) ==> MayDemote(w, cg, mg)
  }

  // ----- Each command -----

  lemma {:induction false} HiddenWrite(w: World, w': World, cg: string)
    requires Safe(w, cg) && w'.registry == w.registry && Visible(w'.docs) == Visible(w.docs)
    requires forall n <- Visible(w.docs) :: w'.docs[n] == w.docs[n]
    ensures Safe(w', cg)
  {
    hide GroupState, ReadPriority;
  }

  /** Writing one desired document keeps a safe world safe exactly when it may be written. */
  lemma {:induction false} WriteKeepsSafe(w: World, cg: string, mg: string, state: DesiredState, managed: bool)
    requires Safe(w, cg)
    ensures Safe(w.(docs := WriteDesired(w.docs, mg, state, managed)), cg) <==> MayWrite(w, cg, mg, state, managed)
  {
    hide AtMostOneLive, ActivePassive, KnownDesired, IsSystemKey, LiveUnder, OtherLive, GroupState;
    var w' := w.(docs := WriteDesired(w.docs, mg, state, managed));
    if IsSystemKey(mg) {
      HiddenWrite(w, w', cg);
    } else {
      Overwrite(w, cg, mg, state, managed);
      WriteConfigs(w, mg, state, managed);
      WriteKnown(w, mg, state, managed);
    }
  }

  lemma {:induction false} WriteConfigs(w: World, mg: string, state: DesiredState, managed: bool)
    requires ActivePassive(w) && !IsSystemKey(mg)
    ensures ActivePassive(w.(docs := WriteDesired(w.docs, mg, state, managed))) <==>
      mg in Visible(w.docs) || Get(w.docs, mg).config.Decoded?
  {
    hide IsSystemKey, ReadPriority;
    var w' := w.(docs := WriteDesired(w.docs, mg, state, managed));
    var x, y :| x in Visible(w.docs) && y in Visible(w.docs) && ReadPriority(w.docs[x]) != ReadPriority(w.docs[y]);
    assert Visible(w'.docs) == Visible(w.docs) + {mg};
    forall n <- Visible(w.docs) ensures w'.docs[n].config == w.docs[n].config && ReadPriority(w'.docs[n]) == ReadPriority(w.docs[n]) {
      SameConfigReads(w.docs[n], w'.docs[n]);
    }
  }

  lemma SameConfigReads(d: GroupDocs, d': GroupDocs)
    ensures d'.config == d.config ==> ReadPriority(d') == ReadPriority(d)
  {}

  lemma {:induction false} WriteKnown(w: World, mg: string, state: DesiredState, managed: bool)
    requires KnownDesired(w) && !IsSystemKey(mg)
    ensures KnownDesired(w.(docs := WriteDesired(w.docs, mg, state, managed))) <==> state in {DesiredActive, DesiredPassive}
  {
    hide IsSystemKey;
    var w' := w.(docs := WriteDesired(w.docs, mg, state, managed));
    assert mg in Visible(w'.docs) && ReadDesired(w'.docs[mg]).state == state;
    assert forall n <- Visible(w'.docs) | n != mg :: n in Visible(w.docs) && w'.docs[n] == w.docs[n];
  }

  /** Two visible groups exchange their priorities: they still differ. */
  lemma {:induction false} ExchangeKeepsDifferent(w: World, a: string, b: string)
    requires ActivePassive(w) && {a, b} <= Visible(w.docs)
    ensures StillDiffer(w.docs, a, b, Visible(w.docs))
  {
    hide ReadPriority;
    var x, y :| x in Visible(w.docs) && y in Visible(w.docs) && ReadPriority(w.docs[x]) != ReadPriority(w.docs[y]);
    var x' := if x == a then b else if x == b then a else x;
    var y' := if y == a then b else if y == b then a else y;
    assert ExchangedPriority(w.docs, a, b, x') != ExchangedPriority(w.docs, a, b, y');
  }

  /** Configs after an exchange. */
  lemma {:induction false} ExchangedConfigs(docs: Groups, w': World, a: string, b: string)
    requires Visible(w'.docs) + {a, b} <= docs.Keys && docs.Keys <= w'.docs.Keys
    requires forall n <- Visible(w'.docs) :: w'.docs[n].config.Decoded?
    requires forall n <- Visible(w'.docs) :: ReadPriority(w'.docs[n]) == ExchangedPriority(docs, a, b, n)
    ensures ActivePassive(w') <==> StillDiffer(docs, a, b, Visible(w'.docs))
  {
    hide ReadPriority, ExchangedPriority, Visible;
  }

  lemma {:induction false} PromotedReads(docs: Groups, mg: string, n: string)
    requires Promotable(docs, mg) && n in docs && n in ExecPromote(docs, mg).docs
    ensures ReadPriority(ExecPromote(docs, mg).docs[n]) == ExchangedPriority(docs, mg, Incumbent(docs, mg), n)
    ensures ExecPromote(docs, mg).docs[n].config.Decoded? == docs[n].config.Decoded?
  {
    hide Incumbent, NoActiveGroup;
  }

  lemma {:induction false} PromoteKeepsSafe(w: World, cg: string, mg: string)
    requires Safe(w, cg) && Promotable(w.docs, mg)
    ensures Safe(Promoted(w, mg), cg) <==> MayPromote(w, cg, mg)
  {
    hide AtMostOneLive, ActivePassive, IsSystemKey, OtherLive, StateUnder, Incumbent, ExecPromote, NoActiveGroup, StillDiffer, Busy;
    var w' := Promoted(w, mg);
    PromoteLeaves(w.docs, mg);
    assert Visible(w'.docs) == Visible(w.docs);
    PromotedDiffer(w, mg);
    assert KnownDesired(w') by { PromotedKnown(w, mg); }
    if IsSystemKey(mg) {
      assert AtMostOneLive(w', cg) by { PromotedUnseen(w, cg, mg); }
    } else {
      PromoteAndLiveness(w, cg, mg);
    }
  }

  lemma {:induction false} PromotedDiffer(w: World, mg: string)
    requires ActivePassive(w) && Promotable(w.docs, mg)
    ensures Visible(Promoted(w, mg).docs) == Visible(w.docs)
    ensures ActivePassive(Promoted(w, mg)) <==> StillDiffer(w.docs, mg, Incumbent(w.docs, mg), Visible(w.docs))
  {
    hide IsSystemKey, Incumbent, ExecPromote, NoActiveGroup, StillDiffer, ReadPriority, ExchangedPriority;
    var w' := Promoted(w, mg);
    PromoteLeaves(w.docs, mg);
    forall n <- Visible(w'.docs)
      ensures w'.docs[n].config.Decoded?
      ensures ReadPriority(w'.docs[n]) == ExchangedPriority(w.docs, mg, Incumbent(w.docs, mg), n)
    {
      PromotedReads(w.docs, mg, n);
    }
    ExchangedConfigs(w.docs, w', mg, Incumbent(w.docs, mg));
  }

  lemma {:induction false} PromotedKnown(w: World, mg: string)
    requires KnownDesired(w) && Promotable(w.docs, mg)
    ensures KnownDesired(Promoted(w, mg))
  {
    hide IsSystemKey, ExecPromote, NoActiveGroup;
    PromoteLeaves(w.docs, mg);
  }

  lemma {:induction false} PromotedUnseen(w: World, cg: string, mg: string)
    requires AtMostOneLive(w, cg) && Promotable(w.docs, mg) && IsSystemKey(mg)
    ensures AtMostOneLive(Promoted(w, mg), cg)
  {
    hide IsSystemKey, ExecPromote, NoActiveGroup, GroupState, Live, RuntimeOf;
    var w' := Promoted(w, mg);
    PromoteLeaves(w.docs, mg);
    assert Visible(w'.docs) == Visible(w.docs) && mg !in Visible(w.docs);
    forall n <- Visible(w.docs) ensures Live(Rt(w', cg, n)) == Live(Rt(w, cg, n)) { SameLive(w, w', cg, n); }
  }

  lemma {:induction false} DemotedReads(docs: Groups, mg: string, n: string)
    requires Replaces(docs, mg) && n in docs && n in ExecDemote(docs, mg).docs
    ensures ReadPriority(ExecDemote(docs, mg).docs[n]) == ExchangedPriority(docs, mg, Best(docs, Replacements(docs, mg)), n)
    ensures ExecDemote(docs, mg).docs[n].config.Decoded? == docs[n].config.Decoded?
  {
    hide IsBest;
    BestIsMember(docs, Replacements(docs, mg));
  }

  lemma {:induction false} DemoteKeepsSafe(w: World, cg: string, mg: string)
    requires Safe(w, cg) && Replaces(w.docs, mg)
    ensures Safe(w.(docs := ExecDemote(w.docs, mg).docs), cg) <==> MayDemote(w, cg, mg)
  {
    hide AtMostOneLive, ActivePassive, IsSystemKey, OtherLive, StateUnder, ExecDemote, StillDiffer, Busy, KnownDesired, Replacements, Best;
    DemotedDiffer(w, mg);
    DemotedKnown(w, mg);
    DemoteAndLiveness(w, cg, mg);
  }

  lemma {:induction false} DemotedDiffer(w: World, mg: string)
    requires ActivePassive(w) && Replaces(w.docs, mg)
    ensures VisibleAfter(w.docs, mg) <= w.docs.Keys
    ensures ActivePassive(w.(docs := ExecDemote(w.docs, mg).docs)) <==>
      StillDiffer(w.docs, mg, Best(w.docs, Replacements(w.docs, mg)), VisibleAfter(w.docs, mg))
  {
    hide IsSystemKey, ExecDemote, StillDiffer, ReadPriority, ExchangedPriority, Replacements, Best;
    var w' := w.(docs := ExecDemote(w.docs, mg).docs);
    DemoteLeaves(w.docs, mg);
    assert Visible(w'.docs) == VisibleAfter(w.docs, mg);
    forall n <- Visible(w'.docs)
      ensures w'.docs[n].config.Decoded?
      ensures ReadPriority(w'.docs[n]) == ExchangedPriority(w.docs, mg, Best(w.docs, Replacements(w.docs, mg)), n)
    {
      DemotedReads(w.docs, mg, n);
    }
    ExchangedConfigs(w.docs, w', mg, Best(w.docs, Replacements(w.docs, mg)));
  }

  lemma {:induction false} DemotedKnown(w: World, mg: string)
    requires KnownDesired(w) && Replaces(w.docs, mg)
    ensures KnownDesired(w.(docs := ExecDemote(w.docs, mg).docs))
  {
    hide IsSystemKey, ExecDemote, Replacements, Best;
    DemoteLeaves(w.docs, mg);
  }

  /** A command keeps a safe world safe exactly when its guard holds. */
  lemma {:induction false} CommandKeepsSafe(w: World, cg: string, c: Command)
    requires Safe(w, cg)
    ensures Safe(w.(docs := Executed(w.docs, c).docs), cg) <==> Guard(w, cg, c)
  {
    hide Safe, MayWrite, MayPromote, MayDemote, Replacements, Best, NoActiveGroup;
    assert w.(docs := w.docs) == w;
    match c
    case Disable(mg) => WriteKeepsSafe(w, cg, mg, ReadDesired(Get(w.docs, mg)).state, false);
    case Enable(mg) => WriteKeepsSafe(w, cg, mg, ReadDesired(Get(w.docs, mg)).state, true);
    case ForcePassive(mg) =>
      if ExecForcePassive(w.docs, mg).ok { WriteKeepsSafe(w, cg, mg, DesiredPassive, true); }
    case Promote(mg) =>
      if Promotable(w.docs, mg) { PromoteKeepsSafe(w, cg, mg); }
    case Demote(mg) =>
      if Replaces(w.docs, mg) { DemoteKeepsSafe(w, cg, mg); } else { DemoteElse(w, cg, mg); }
  }

  lemma {:induction false} DemoteElse(w: World, cg: string, mg: string)
    requires Safe(w, cg) && !Replaces(w.docs, mg)
    ensures Safe(w.(docs := ExecDemote(w.docs, mg).docs), cg) <==> Guard(w, cg, Demote(mg))
  {
    hide Safe, MayWrite, MayDemote, Replacements;
    assert w.(docs := w.docs) == w;
    WriteKeepsSafe(w, cg, mg, DesiredPassive, true);
  }

  /** A disable keeps a safe world safe exactly when its group is visible, or reserved, or has a
      config, and when it does not uncover activity beside another live group. */
  lemma {:induction false} DisableKeepsSafe(w: World, cg: string, mg: string)
    requires Safe(w, cg)
    ensures Safe(w.(docs := ExecDisable(w.docs, mg).docs), cg) <==>
      || IsSystemKey(mg)
      || (&& (mg in Visible(w.docs) || (Get(w.docs, mg).config.Decoded? && ReadDesired(Get(w.docs, mg)).state in {DesiredActive, DesiredPassive}))
          && !(ReadDesired(Get(w.docs, mg)).state == DesiredPassive && Busy(StateUnder(w, cg, mg, false)) && OtherLive(w, cg, {mg})))
  {
    hide AtMostOneLive, ActivePassive, IsSystemKey, StateUnder, OtherLive;
    CommandKeepsSafe(w, cg, Disable(mg));
    if mg in Visible(w.docs) { assert Get(w.docs, mg) == w.docs[mg]; }
  }

  // ----- Whole runs -----

  lemma {:induction false} StepIsSafe(cfg: Config, cg: string, w: World, s: Step, w': World)
    requires Safe(w, cg) && Next(cfg, cg, w, s, w')
    ensures Safe(w', cg) <==> (s.Execute? ==> Guard(w, cg, s.command))
  {
    hide Safe, CycleOf, Executed, Guard, Safety.Reports, NoFreshActivity;
    match s
    case Reconcile(now) => CycleIsSafe(cfg, cg, w, now);
    case Execute(c) => CommandKeepsSafe(w, cg, c);
    case Report => ReportIsSafe(cg, w, w');
  }

  /** Safety over whole runs: whatever the reports, the order of the steps and the failover mode, a
      run that starts with at most one live group never has two, if its commands are guarded. */
  lemma {:induction false} NeverTwoLive(cfg: Config, cg: string, ws: seq<World>, steps: seq<Step>, i: nat)
    requires IsRun(cfg, cg, ws, steps) && i < |ws| && Safe(ws[0], cg)
    requires forall j :: 0 <= j < i && steps[j].Execute? ==> Guard(ws[j], cg, steps[j].command)
    ensures Safe(ws[i], cg)
  {
    hide Safe, Next, Guard;
    if i > 0 {
      NeverTwoLive(cfg, cg, ws, steps, i - 1);
      StepIsSafe(cfg, cg, ws[i - 1], steps[i - 1], ws[i]);
    }
  }

  /** And only then: a run stays safe exactly when the guard of each of its commands holds. */
  lemma {:induction false} SafeExactly(cfg: Config, cg: string, ws: seq<World>, steps: seq<Step>)
    requires IsRun(cfg, cg, ws, steps) && Safe(ws[0], cg)
    ensures (forall i :: 0 <= i < |ws| ==> Safe(ws[i], cg)) <==>
      (forall j :: 0 <= j < |steps| && steps[j].Execute? ==> Guard(ws[j], cg, steps[j].command))
  {
    hide Safe, Next, Guard;
    if forall i :: 0 <= i < |ws| ==> Safe(ws[i], cg) {
      forall j | 0 <= j < |steps| && steps[j].Execute? ensures Guard(ws[j], cg, steps[j].command) {
        StepIsSafe(cfg, cg, ws[j], steps[j], ws[j + 1]);
      }
    }
    if forall j :: 0 <= j < |steps| && steps[j].Execute? ==> Guard(ws[j], cg, steps[j].command) {
      forall i | 0 <= i < |ws| ensures Safe(ws[i], cg) { NeverTwoLive(cfg, cg, ws, steps, i); }
    }
  }
}
