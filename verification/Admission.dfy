/** The checks an API command passes before it is queued, and how they relate to its execution. */
module Admission {
  import opened Model
  import opened Order
  import opened Commands
  import Etcd

  // HTTP status codes of a refusal; 0 stands for acceptance.
  const ACCEPTED := 0
  const BAD_REQUEST := 400
  const CONFLICT := 409
  const SERVER_ERROR := 500

  // ----- What each check means -----

  predicate RecordedAs(d: GroupDocs, s: ActualState) {
    d.actual.Decoded? && d.actual.doc.state == s
  }

  /** An unmanaged group on record as running: the controller could not drain it. */
  predicate Undrainable(d: GroupDocs) {
    !ReadDesired(d).managed && (RecordedAs(d, ActualActive) || RecordedAs(d, ActualStarting))
  }

  ghost predicate AdmitPromote(docs: Groups, mg: string) {
    mg in Listed(docs) && forall n <- Listed(docs) | n != mg :: !Undrainable(docs[n])
  }

  predicate Transitioning(d: GroupDocs) {
    RecordedAs(d, ActualStarting) || RecordedAs(d, ActualStopping)
  }

  predicate ToBePassive(d: GroupDocs) {
    d.desired.Decoded? && d.desired.doc.state == DesiredPassive
  }

  /** A replacement as the API sees it: it does not look at the config. */
  predicate LooksReplaceable(d: GroupDocs) {
    && d.listed
    && d.desired.Decoded? && d.desired.doc.managed
    && RecordedAs(d, ActualPassive)
    && d.health.Decoded? && d.health.doc.status == HealthOK
  }

  ghost predicate AdmitDemote(docs: Groups, mg: string) {
    && mg in Listed(docs)
    && (ToBePassive(docs[mg]) ||
        ((forall n <- Listed(docs) :: !Transitioning(docs[n])) &&
         exists n <- Listed(docs) :: n != mg && LooksReplaceable(docs[n])))
  }

  /** There is something to enable: the group is known to be unmanaged. */
  predicate AdmitEnable(docs: Groups, mg: string) {
    var d := Get(docs, mg);
    d.desired.Decoded? && !d.desired.doc.managed
  }

  predicate AdmitForcePassive(docs: Groups, mg: string) {
    var d := Get(docs, mg);
    d.desired.Decoded? && !d.desired.doc.managed && d.desired.doc.state == DesiredActive
  }

  // ----- The checks -----

  class Server {
    const store: Etcd.Client

    constructor (store: Etcd.Client)
      ensures this.store == store
    {
      this.store := store;
    }

    /** What a promotion looks at: the management flag and the recorded state of every listed group. */
    method GroupInfos(cg: string, children: seq<string>) returns (infos: map<string, GroupInfo>)
      requires forall n <- children :: n in store.Docs(cg)
      ensures infos.Keys == Elements(children)
      ensures forall n <- infos :: infos[n] == Info(store.Docs(cg)[n])
    {
      var docs := store.Docs(cg);
      infos := map[];
      for i := 0 to |children|
        invariant infos.Keys == Elements(children[..i])
        invariant forall n <- infos :: n in docs && infos[n] == Info(docs[n])
      {
        assert children[..i + 1] == children[..i] + [children[i]];
        assert children[i] in children;
        var d := docs[children[i]];
        var managed, actual := false, None;
        if d.desired.Decoded? {
          managed := d.desired.doc.managed;
        }
        if d.actual.Decoded? {
          actual := Some(d.actual.doc.state);
        }
        infos := infos[children[i] := GroupInfo(managed, actual)];
      }
      assert children[..|children|] == children;
    }

    method ValidatePromote(cg: string, mg: string) returns (code: int)
      ensures code == if mg !in Listed(store.Docs(cg)) then BAD_REQUEST
        else if AdmitPromote(store.Docs(cg), mg) then ACCEPTED else CONFLICT
      ensures var docs := store.Docs(cg);
        && code in {0, 400, 409}
        && (code == 400 <==> !(mg in docs && docs[mg].listed))
        && (code == 409 <==> mg in docs && docs[mg].listed && exists n <- docs ::
              && n != mg && docs[n].listed && !(docs[n].desired.Decoded? && docs[n].desired.doc.managed)
              && docs[n].actual.Decoded? && docs[n].actual.doc.state in {ActualActive, ActualStarting})
    {
      hide Leq, Sorted;
      var docs := store.Docs(cg);
      var children := store.ListChildren(cg);
      SortedNamesOf(Listed(docs));
      if |children| == 0 {
        return BAD_REQUEST;
      }
      var infos := GroupInfos(cg, children);
      assert infos.Keys == Listed(docs);
      if mg !in infos {
        return BAD_REQUEST;
      }
      var todo := infos.Keys;
      while todo != {}
        invariant forall n <- infos.Keys - todo | n != mg :: !Undrainable(docs[n])
        decreases todo
      {
        var n :| n in todo;
        todo := todo - {n};
        if n != mg && !infos[n].managed && (infos[n].actual == Some(ActualActive) || infos[n].actual == Some(ActualStarting)) {
          assert Undrainable(docs[n]);
          return CONFLICT;
        }
      }
      return ACCEPTED;
    }

    method ValidateDemote(cg: string, mg: string) returns (code: int)
      ensures code == if mg !in Listed(store.Docs(cg)) then BAD_REQUEST
        else if AdmitDemote(store.Docs(cg), mg) then ACCEPTED else CONFLICT
      ensures var docs := store.Docs(cg);
        && code in {0, 400, 409}
        && (code == 400 <==> !(mg in docs && docs[mg].listed))
        && (code == 0 <==> (
              && mg in docs && docs[mg].listed
              && ((docs[mg].desired.Decoded? && docs[mg].desired.doc.state == DesiredPassive)
                  || ((forall n <- docs | docs[n].listed && docs[n].actual.Decoded? ::
                         docs[n].actual.doc.state != ActualStarting && docs[n].actual.doc.state != ActualStopping)
                      && exists n <- docs ::
                           n != mg && docs[n].listed && docs[n].desired.Decoded? && docs[n].desired.doc.managed
                           && docs[n].actual.Decoded? && docs[n].actual.doc.state == ActualPassive
                           && docs[n].health.Decoded? && docs[n].health.doc.status == HealthOK))))
    {
      hide Leq, Sorted;
      var docs := store.Docs(cg);
      var children := store.ListChildren(cg);
      SortedNamesOf(Listed(docs));
      if |children| == 0 {
        return BAD_REQUEST;
      }
      var targetFound, targetDesired := false, None;
      for i := 0 to |children|
        invariant mg !in children[..i]
      {
        if children[i] == mg {
          targetFound := true;
          assert children[i] in children;
          if docs[mg].desired.Decoded? {
            targetDesired := Some(docs[mg].desired.doc.state);
          }
          break;
        }
      }
      if !targetFound {
        return BAD_REQUEST;
      }
      if targetDesired == Some(DesiredPassive) {
        return ACCEPTED;
      }
      var busy, hasCandidate := FindCandidate(cg, children, mg);
      assert forall n :: n in Listed(docs) <==> n in children;
      if busy || !hasCandidate {
        return CONFLICT;
      }
      return ACCEPTED;
    }

    /** Whether some group is starting or stopping, and if not, whether one looks replaceable. */
    method FindCandidate(cg: string, children: seq<string>, mg: string) returns (busy: bool, hasCandidate: bool)
      requires forall n <- children :: n in store.Docs(cg) && store.Docs(cg)[n].listed
      ensures busy <==> exists n <- children :: Transitioning(store.Docs(cg)[n])
      ensures !busy ==> (hasCandidate <==> exists n <- children :: n != mg && LooksReplaceable(store.Docs(cg)[n]))
    {
      var docs := store.Docs(cg);
      hasCandidate := false;
      for i := 0 to |children|
        invariant forall j :: 0 <= j < i ==> !Transitioning(docs[children[j]])
        invariant hasCandidate <==> exists j :: 0 <= j < i && children[j] != mg && LooksReplaceable(docs[children[j]])
      {
        assert children[i] in children;
        var d := docs[children[i]];
        if d.actual.Decoded? && (d.actual.doc.state == ActualStarting || d.actual.doc.state == ActualStopping) {
          return true, false;
        }
        if children[i] == mg || d.desired.Missing? || !RecordedAs(d, ActualPassive) {
          continue;
        }
        if d.desired.Undecodable? || !d.desired.doc.managed || !d.health.Decoded? || d.health.doc.status != HealthOK {
          continue;
        }
        hasCandidate := true;
      }
      assert forall j :: 0 <= j < |children| ==> children[j] in children;
      return false, hasCandidate;
    }

    method ValidateEnable(cg: string, mg: string) returns (code: int)
      ensures code in {ACCEPTED, BAD_REQUEST, CONFLICT, SERVER_ERROR}
      ensures code == ACCEPTED <==> AdmitEnable(store.Docs(cg), mg)
      ensures code == BAD_REQUEST <==> Get(store.Docs(cg), mg).desired.Missing?
      ensures code == SERVER_ERROR <==> Get(store.Docs(cg), mg).desired.Undecodable?
      ensures var docs := store.Docs(cg);
        code == 0 <==> mg in docs && docs[mg].desired.Decoded? && !docs[mg].desired.doc.managed
    {
      var d := Get(store.Docs(cg), mg);
      if d.desired.Missing? {
        return BAD_REQUEST;
      }
      if d.desired.Undecodable? {
        return SERVER_ERROR;
      }
      if d.desired.doc.managed {
        return CONFLICT;
      }
      return ACCEPTED;
    }

    method ValidateForcePassive(cg: string, mg: string) returns (code: int)
      ensures code == ACCEPTED <==> AdmitForcePassive(store.Docs(cg), mg)
      ensures code == BAD_REQUEST <==> Get(store.Docs(cg), mg).desired.Missing?
      ensures code == SERVER_ERROR <==> Get(store.Docs(cg), mg).desired.Undecodable?
      ensures code in {ACCEPTED, BAD_REQUEST, CONFLICT, SERVER_ERROR}
      ensures var docs := store.Docs(cg);
        code == 0 <==> mg in docs && docs[mg].desired == Decoded(DesiredDoc(DesiredActive, false))
    {
      var d := Get(store.Docs(cg), mg);
      if d.desired.Missing? {
        return BAD_REQUEST;
      }
      if d.desired.Undecodable? {
        return SERVER_ERROR;
      }
      if d.desired.doc.managed {
        return CONFLICT;
      }
      if d.desired.doc.state != DesiredActive {
        return CONFLICT;
      }
      return ACCEPTED;
    }
  }

  datatype GroupInfo = GroupInfo(managed: bool, actual: Option<ActualState>)

  function Info(d: GroupDocs): GroupInfo {
    GroupInfo(ReadDesired(d).managed, if d.actual.Decoded? then Some(d.actual.doc.state) else None)
  }

  // ----- Admission and execution -----

  /** Exactly when an admitted demotion is carried out: what the API does not check is whether the
      desired document decodes and whether the configs involved do. */
  lemma DemoteAdmittedRuns(docs: Groups, mg: string)
    requires AdmitDemote(docs, mg)
    ensures ExecDemote(docs, mg).ok <==>
      && docs[mg].desired.Decoded?
      && (ToBePassive(docs[mg]) ||
          (docs[mg].config.Decoded? && exists n <- Listed(docs) :: n != mg && LooksReplaceable(docs[n]) && docs[n].config.Decoded?))
  {
    if n :| n in Listed(docs) && n != mg && LooksReplaceable(docs[n]) && docs[n].config.Decoded? {
      assert n in Replacements(docs, mg);
    }
    if Replacements(docs, mg) != {} {
      var n :| n in Replacements(docs, mg);
      assert n in Listed(docs) && LooksReplaceable(docs[n]);
    }
  }

  /** Every listed group has a decodable desired document and config. */
  ghost predicate Complete(docs: Groups) {
    forall n <- Listed(docs) :: docs[n].desired.Decoded? && docs[n].config.Decoded?
  }

  /** On complete documents admission and execution agree, except that the API alone refuses to
      demote while some group is starting or stopping. */
  lemma DemoteAgrees(docs: Groups, mg: string)
    requires Complete(docs) && mg in Listed(docs)
    ensures AdmitDemote(docs, mg) <==>
      ExecDemote(docs, mg).ok && (ToBePassive(docs[mg]) || forall n <- Listed(docs) :: !Transitioning(docs[n]))
  {
    if Replacements(docs, mg) != {} {
      var n :| n in Replacements(docs, mg);
      assert n in Listed(docs) && LooksReplaceable(docs[n]);
    }
    if n :| n in Listed(docs) && n != mg && LooksReplaceable(docs[n]) {
      assert n in Replacements(docs, mg);
    }
  }

  /** A successful demotion of a group that is not already to be passive hands its place to the
      lowest-numbered replacement: the two priorities change places, nothing else of any config. */
  lemma DemoteHandsOver(docs: Groups, mg: string)
    requires ExecDemote(docs, mg).ok && !ToBePassive(Get(docs, mg))
    ensures mg in Configured(docs) && exists best <- Replacements(docs, mg) ::
      HandedOver(docs, ExecDemote(docs, mg).docs, mg, best) &&
      forall n <- Replacements(docs, mg) | n != best ::
        Priority(docs, best) < Priority(docs, n) || (Priority(docs, best) == Priority(docs, n) && Leq(best, n))
  {
    BestIn(docs, Replacements(docs, mg));
    var best := Best(docs, Replacements(docs, mg));
    assert docs[best].config.Decoded?;
    hide IsBest, Replacements, Best, GivenTo;
    GivenHandsOver(docs, mg, best);
  }

  lemma GivenHandsOver(docs: Groups, mg: string, best: string)
    requires best != mg && {mg, best} <= Configured(docs)
    ensures HandedOver(docs, GivenTo(docs, mg, best), mg, best)
  {}

  lemma BestIn(docs: Groups, s: set<string>)
    requires s <= Entries(docs) && s != {}
    ensures var best := Best(docs, s);
      && best in s
      && forall n <- s | n != best :: Priority(docs, best) < Priority(docs, n) || (Priority(docs, best) == Priority(docs, n) && Leq(best, n))
  {}

  /** Groups with a decodable config, listed or not. */
  function Configured(docs: Groups): set<string> {
    set n | n in docs && docs[n].config.Decoded?
  }

  ghost predicate HandedOver(docs: Groups, after: Groups, from: string, to: string)
    requires {from, to} <= Configured(docs)
  {
    && after.Keys == docs.Keys && from != to
    && (forall n <- docs | n != from && n != to :: after[n] == docs[n])
    && after[from] == WithDesired(docs[from].(config := Decoded(docs[from].config.doc.(priority := Priority(docs, to)))), DesiredPassive, true)
    && after[to] == WithDesired(docs[to].(config := Decoded(docs[to].config.doc.(priority := Priority(docs, from)))), DesiredActive, true)
  }

  /** An admitted promotion is carried out exactly when the group has a config that decodes to a
      priority that is not negative; so always, on complete documents with positive priorities. */
  lemma PromoteAdmittedRuns(docs: Groups, mg: string)
    requires AdmitPromote(docs, mg)
    ensures ExecPromote(docs, mg).ok <==> docs[mg].config.Decoded? && docs[mg].config.doc.priority >= 0
  {}

  /** force_passive runs exactly on the admitted groups and on unmanaged ones not meant to be active. */
  lemma ForcePassiveAgrees(docs: Groups, mg: string)
    ensures AdmitForcePassive(docs, mg) ==> ExecForcePassive(docs, mg).ok
    ensures ExecForcePassive(docs, mg).ok && !AdmitForcePassive(docs, mg) ==>
      Get(docs, mg).desired.Decoded? && Get(docs, mg).desired.doc.state != DesiredActive
  {}

  /** What a disable leaves behind is always admitted to be enabled, and nothing admitted is without
      effect: enable is refused exactly where it would change nothing or where there is nothing to read. */
  lemma EnableAgrees(docs: Groups, mg: string)
    ensures AdmitEnable(ExecDisable(docs, mg).docs, mg)
    ensures mg in docs && docs[mg].listed ==>
      (AdmitEnable(docs, mg) <==> docs[mg].desired.Decoded? && ExecEnable(docs, mg).docs != docs)
  {
    if mg in docs && docs[mg].listed && docs[mg].desired.Decoded? {
      assert ExecEnable(docs, mg).docs[mg].desired == Decoded(DesiredDoc(docs[mg].desired.doc.state, true));
      if docs[mg].desired.doc.managed { assert ExecEnable(docs, mg).docs[mg] == docs[mg]; }
    }
  }
}
