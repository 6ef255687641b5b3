/** The operator commands, as functions on the documents of a cluster group. */
module Commands {
  import opened Model
  import opened Order

  /** Documents after a command, and whether it was reported as completed. */
  datatype Outcome = Outcome(docs: Groups, ok: bool)

  function Get(docs: Groups, mg: string): GroupDocs {
    if mg in docs then docs[mg] else NO_GROUP
  }

  function Listed(docs: Groups): set<string> {
    set mg | mg in docs && docs[mg].listed
  }

  function WriteDesired(docs: Groups, mg: string, state: DesiredState, managed: bool): Groups {
    docs[mg := WithDesired(Get(docs, mg), state, managed)]
  }

  function SetPriority(docs: Groups, mg: string, priority: int): Groups
    requires mg in docs && docs[mg].config.Decoded?
  {
    docs[mg := docs[mg].(config := Decoded(docs[mg].config.doc.(priority := priority)))]
  }

  /** The stored priority of a group whose config decodes. */
  function Priority(docs: Groups, mg: string): int
    requires mg in docs && docs[mg].config.Decoded?
  {
    docs[mg].config.doc.priority
  }

  /** Listed groups with a decodable config: the ones a promotion compares. */
  function Entries(docs: Groups): set<string> {
    set mg | mg in docs && docs[mg].listed && docs[mg].config.Decoded?
  }

  // ----- disable, enable, force_passive -----

  function ExecDisable(docs: Groups, mg: string): Outcome {
    Outcome(WriteDesired(docs, mg, ReadDesired(Get(docs, mg)).state, false), true)
  }

  function ExecEnable(docs: Groups, mg: string): Outcome {
    Outcome(WriteDesired(docs, mg, ReadDesired(Get(docs, mg)).state, true), true)
  }

  function ExecForcePassive(docs: Groups, mg: string): Outcome {
    match Get(docs, mg).desired
    case Decoded(doc) =>
      if doc.managed then Outcome(docs, false)
      else Outcome(WriteDesired(docs, mg, DesiredPassive, true), true)
    case _ => Outcome(docs, false)
  }

  // ----- promote -----

  predicate Owns(d: GroupDocs) {
    d.desired.Decoded? && d.desired.doc.state == DesiredActive && d.desired.doc.managed
  }

  ghost predicate NoActiveGroup(docs: Groups) {
    forall mg <- Listed(docs) :: !Owns(docs[mg])
  }

  ghost function ActivateTarget(docs: Groups, mg: string): Groups {
    WriteDesired(docs, mg, if NoActiveGroup(docs) then DesiredActive else DesiredPassive, true)
  }

  /** `n` has the least priority among the names of `s`, and comes first in order among equals. */
  ghost predicate IsBest(docs: Groups, s: set<string>, n: string)
    requires s <= Entries(docs)
  {
    && n in s
    && (forall m <- s :: Priority(docs, n) <= Priority(docs, m))
    && (forall m <- s | m != n && Priority(docs, m) == Priority(docs, n) :: Leq(n, m))
  }

  lemma {:induction false} BestExists(docs: Groups, s: set<string>)
    requires s <= Entries(docs) && s != {}
    ensures exists n :: IsBest(docs, s, n)
  {
    var x :| x in s;
    var rest := s - {x};
    if rest == {} {
      forall m <- s ensures m == x { assert m != x ==> m in rest; }
      assert IsBest(docs, s, x);
    } else {
      BestExists(docs, rest);
      var n :| IsBest(docs, rest, n);
      LeqTotal(x, n);
      if Priority(docs, n) < Priority(docs, x) || (Priority(docs, n) == Priority(docs, x) && Leq(n, x)) {
        forall m <- s ensures m == x || m in rest {}
        assert IsBest(docs, s, n);
      } else {
        forall m <- s | m != x && Priority(docs, m) == Priority(docs, x) ensures Leq(x, m) {
          if m != n { LeqTransitive(x, n, m); }
        }
        assert IsBest(docs, s, x);
      }
    }
  }

  ghost function Best(docs: Groups, s: set<string>): (n: string)
    requires s <= Entries(docs) && s != {}
    ensures IsBest(docs, s, n)
  {
    BestExists(docs, s);
    var n :| IsBest(docs, s, n);
    n
  }

  lemma BestUnique(docs: Groups, s: set<string>, n: string, m: string)
    requires s <= Entries(docs) && IsBest(docs, s, n) && IsBest(docs, s, m)
    ensures n == m
  {
    if n != m { LeqAntisymmetric(n, m); }
  }

  /** Exchange the stored priorities of two groups. */
  function Transpose(docs: Groups, a: string, b: string): Groups
    requires {a, b} <= Entries(docs)
  {
    var pa, pb := Priority(docs, a), Priority(docs, b);
    SetPriority(SetPriority(docs, a, pb), b, pa)
  }

  predicate Promotable(docs: Groups, mg: string) {
    mg in Entries(docs) && Priority(docs, mg) >= 0
  }

  /** The group a promotion exchanges with: the best entry, unless the promoted one is as good. */
  ghost function Incumbent(docs: Groups, mg: string): (n: string)
    requires mg in Entries(docs)
    ensures n in Entries(docs)
  {
    var n := Best(docs, Entries(docs));
    if Priority(docs, n) < Priority(docs, mg) then n else mg
  }

  ghost function ExecPromote(docs: Groups, mg: string): Outcome {
    if !Promotable(docs, mg) then Outcome(docs, false)
    else if Incumbent(docs, mg) == mg then Outcome(ActivateTarget(docs, mg), true)
    else Outcome(ActivateTarget(Transpose(docs, mg, Incumbent(docs, mg)), mg), true)
  }

  // ----- demote -----

  /** A group that can take over: managed, passive and healthy on record, with a readable config. */
  predicate CanReplace(d: GroupDocs) {
    && d.listed
    && d.desired.Decoded? && d.desired.doc.managed
    && d.actual.Decoded? && d.actual.doc.state == ActualPassive
    && d.health.Decoded? && d.health.doc.status == HealthOK
    && d.config.Decoded?
  }

  function Replacements(docs: Groups, mg: string): (s: set<string>)
    ensures s <= Entries(docs) && mg !in s
  {
    set n | n in docs && n != mg && CanReplace(docs[n])
  }

  /** A group exchanges its priority with another one, which takes over from it. */
  function GivenTo(docs: Groups, mg: string, best: string): Groups
    requires best != mg && {mg, best} <= docs.Keys && docs[mg].config.Decoded? && docs[best].config.Decoded?
  {
    var swapped := SetPriority(SetPriority(docs, best, Priority(docs, mg)), mg, Priority(docs, best));
    WriteDesired(WriteDesired(swapped, mg, DesiredPassive, true), best, DesiredActive, true)
  }

  ghost function ExecDemote(docs: Groups, mg: string): Outcome {
    var d := Get(docs, mg);
    if !d.desired.Decoded? then Outcome(docs, false)
    else if d.desired.doc.state == DesiredPassive then Outcome(WriteDesired(docs, mg, DesiredPassive, true), true)
    else if Replacements(docs, mg) == {} || !d.config.Decoded? then Outcome(docs, false)
    else Outcome(GivenTo(docs, mg, Best(docs, Replacements(docs, mg))), true)
  }
}
