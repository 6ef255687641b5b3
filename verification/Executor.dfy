/** The command executors, run against etcd. */
module Executor {
  import opened Model
  import opened Order
  import opened Commands
  import Etcd

  datatype Entry = Entry(mg: string, priority: int)

  /** Of all documents of a cluster group, only the desired one of this group has changed. */
  predicate OnlyDesired(before: Groups, after: Groups, mg: string) {
    && after.Keys == before.Keys + {mg}
    && after[mg] == Get(before, mg).(desired := after[mg].desired, listed := true)
    && forall n <- before | n != mg :: after[n] == before[n]
  }

  /** The desired state that disable and enable keep: passive where none can be read. */
  function Kept(before: Groups, mg: string): DesiredState {
    if Get(before, mg).desired.Decoded? then Get(before, mg).desired.doc.state else DesiredPassive
  }

  class CommandConsumer {
    const etcd: Etcd.Client

    constructor (etcd: Etcd.Client)
      ensures this.etcd == etcd
    {
      this.etcd := etcd;
    }

    method PutDesired(cg: string, mg: string, state: DesiredState, managed: bool)
      modifies etcd`groups, etcd`puts
      ensures etcd.Docs(cg) == WriteDesired(old(etcd.Docs(cg)), mg, state, managed)
      ensures forall c | c != cg :: etcd.Docs(c) == old(etcd.Docs(c))
    {
      etcd.Put(cg, mg, WithDesired(Get(etcd.Docs(cg), mg), state, managed));
    }

    method WritePriority(cg: string, mg: string, priority: int) returns (ok: bool)
      modifies etcd`groups, etcd`puts
      ensures ok == (mg in old(etcd.Docs(cg)) && old(etcd.Docs(cg))[mg].config.Decoded?)
      ensures etcd.Docs(cg) == if ok then SetPriority(old(etcd.Docs(cg)), mg, priority) else old(etcd.Docs(cg))
      ensures forall c | c != cg :: etcd.Docs(c) == old(etcd.Docs(c))
    {
      var d := Get(etcd.Docs(cg), mg);
      if !d.config.Decoded? {
        return false;
      }
      etcd.Put(cg, mg, d.(config := Decoded(d.config.doc.(priority := priority))));
      return true;
    }

    // ----- disable, enable, force_passive -----

    method RunDisable(cg: string, mg: string) returns (ok: bool)
      modifies etcd`groups, etcd`puts
      ensures ok && OnlyDesired(old(etcd.Docs(cg)), etcd.Docs(cg), mg)
      ensures etcd.Docs(cg)[mg].desired == Decoded(DesiredDoc(Kept(old(etcd.Docs(cg)), mg), false))
      ensures Outcome(etcd.Docs(cg), ok) == ExecDisable(old(etcd.Docs(cg)), mg)
      ensures forall c | c != cg :: etcd.Docs(c) == old(etcd.Docs(c))
    {
      var state := DesiredPassive;
      var d := Get(etcd.Docs(cg), mg);
      if d.desired.Decoded? {
        state := d.desired.doc.state;
      }
      PutDesired(cg, mg, state, false);
      return true;
    }

    method RunEnable(cg: string, mg: string) returns (ok: bool)
      modifies etcd`groups, etcd`puts
      ensures ok && OnlyDesired(old(etcd.Docs(cg)), etcd.Docs(cg), mg)
      ensures etcd.Docs(cg)[mg].desired == Decoded(DesiredDoc(Kept(old(etcd.Docs(cg)), mg), true))
      ensures Outcome(etcd.Docs(cg), ok) == ExecEnable(old(etcd.Docs(cg)), mg)
      ensures forall c | c != cg :: etcd.Docs(c) == old(etcd.Docs(c))
    {
      var state := DesiredPassive;
      var d := Get(etcd.Docs(cg), mg);
      if d.desired.Decoded? {
        state := d.desired.doc.state;
      }
      PutDesired(cg, mg, state, true);
      return true;
    }

    method RunForcePassive(cg: string, mg: string) returns (ok: bool)
      modifies etcd`groups, etcd`puts
      ensures ok <==> Get(old(etcd.Docs(cg)), mg).desired.Decoded? && !Get(old(etcd.Docs(cg)), mg).desired.doc.managed
      ensures !ok ==> etcd.Docs(cg) == old(etcd.Docs(cg))
      ensures ok ==> OnlyDesired(old(etcd.Docs(cg)), etcd.Docs(cg), mg) && etcd.Docs(cg)[mg].desired == Decoded(DesiredDoc(DesiredPassive, true))
      ensures Outcome(etcd.Docs(cg), ok) == ExecForcePassive(old(etcd.Docs(cg)), mg)
      ensures forall c | c != cg :: etcd.Docs(c) == old(etcd.Docs(c))
    {
      var d := Get(etcd.Docs(cg), mg);
      if !d.desired.Decoded? || d.desired.doc.managed {
        return false;
      }
      PutDesired(cg, mg, DesiredPassive, true);
      return true;
    }

    // ----- promote -----

    method HasNoActiveGroup(cg: string) returns (none: bool)
      ensures none == NoActiveGroup(etcd.Docs(cg))
    {
      var docs := etcd.Docs(cg);
      var names := etcd.ListChildren(cg);
      SortedNamesOf(Listed(docs));
      for i := 0 to |names|
        invariant forall j :: 0 <= j < i ==> names[j] in docs && !Owns(docs[names[j]])
      {
        assert names[i] in names;
        if Owns(docs[names[i]]) {
          return false;
        }
      }
      return true;
    }

    method RunActivateTarget(cg: string, mg: string)
      modifies etcd`groups, etcd`puts
      ensures etcd.Docs(cg) == ActivateTarget(old(etcd.Docs(cg)), mg)
      ensures forall c | c != cg :: etcd.Docs(c) == old(etcd.Docs(c))
    {
      var none := HasNoActiveGroup(cg);
      if none {
        PutDesired(cg, mg, DesiredActive, true);
      } else {
        PutDesired(cg, mg, DesiredPassive, true);
      }
    }

    /** The listed groups with a decodable config, in listing order. */
    method ListEntries(cg: string) returns (entries: seq<Entry>)
      ensures InOrder(entries)
      ensures forall e <- entries :: e.mg in Entries(etcd.Docs(cg)) && e.priority == Priority(etcd.Docs(cg), e.mg)
      ensures forall mg <- Entries(etcd.Docs(cg)) :: exists e <- entries :: e.mg == mg
    {
      hide Leq;
      var docs := etcd.Docs(cg);
      var names := etcd.ListChildren(cg);
      SortedNamesOf(Listed(docs));
      entries := [];
      for i := 0 to |names|
        invariant InOrder(entries)
        invariant forall e <- entries :: e.mg in names[..i] && e.mg in Entries(docs) && e.priority == Priority(docs, e.mg)
        invariant forall n <- names[..i] | n in Entries(docs) :: exists e <- entries :: e.mg == n
      {
        assert names[..i + 1] == names[..i] + [names[i]];
        assert names[i] in names;
        if docs[names[i]].config.Decoded? {
          entries := entries + [Entry(names[i], docs[names[i]].config.doc.priority)];
        }
      }
      assert names[..|names|] == names;
    }

    /** The group to exchange with: the first entry of the least priority, the target winning ties. */
    method FindIncumbent(cg: string, mg: string, entries: seq<Entry>, targetPri: int) returns (minGroup: string, minPri: int)
      requires InOrder(entries)
      requires forall e <- entries :: e.mg in Entries(etcd.Docs(cg)) && e.priority == Priority(etcd.Docs(cg), e.mg)
      requires forall n <- Entries(etcd.Docs(cg)) :: exists e <- entries :: e.mg == n
      requires mg in Entries(etcd.Docs(cg)) && targetPri == Priority(etcd.Docs(cg), mg)
      ensures minGroup == Incumbent(etcd.Docs(cg), mg) && minPri == Priority(etcd.Docs(cg), minGroup)
    {
      hide Leq;
      ghost var docs := etcd.Docs(cg);
      minPri, minGroup := targetPri, mg;
      ghost var at := 0;
      for i := 0 to |entries|
        invariant minPri <= targetPri && forall j :: 0 <= j < i ==> minPri <= entries[j].priority
        invariant minPri == targetPri ==> minGroup == mg
        invariant minPri < targetPri ==> at < i && entries[at] == Entry(minGroup, minPri)
        invariant minPri < targetPri ==> forall j :: 0 <= j < at ==> minPri < entries[j].priority
      {
        assert entries[i] in entries;
        if entries[i].priority < minPri {
          minPri := entries[i].priority;
          minGroup := entries[i].mg;
          at := i;
        }
      }
      ghost var best := Best(docs, Entries(docs));
      ghost var b :| b in entries && b.mg == best;
      if minPri < targetPri {
        FirstIsBest(docs, entries, at, Entries(docs));
        BestUnique(docs, Entries(docs), minGroup, best);
      } else {
        assert Priority(docs, best) == targetPri;
      }
    }

    method RunPromote(cg: string, mg: string) returns (ok: bool)
      modifies etcd`groups, etcd`puts
      ensures Outcome(etcd.Docs(cg), ok) == ExecPromote(old(etcd.Docs(cg)), mg)
      ensures forall c | c != cg :: etcd.Docs(c) == old(etcd.Docs(c))
    {
      hide Leq, ActivateTarget, Incumbent;
      ghost var docs := etcd.Docs(cg);
      var entries := ListEntries(cg);
      var targetPri := -1;
      for i := 0 to |entries|
        invariant forall j :: 0 <= j < i ==> entries[j].mg != mg
      {
        assert entries[i] in entries;
        if entries[i].mg == mg {
          targetPri := entries[i].priority;
          break;
        }
      }
      if targetPri < 0 {
        assert !Promotable(docs, mg);
        return false;
      }
      assert Promotable(docs, mg) && targetPri == Priority(docs, mg);
      var minGroup, minPri := FindIncumbent(cg, mg, entries, targetPri);
      if minGroup == mg {
        RunActivateTarget(cg, mg);
        return true;
      }
      ok := WritePriority(cg, mg, minPri);
      assert ok;
      ok := WritePriority(cg, minGroup, targetPri);
      assert ok;
      assert etcd.Docs(cg) == Transpose(docs, mg, minGroup);
      RunActivateTarget(cg, mg);
      return true;
    }

    // ----- demote -----

    method FindReplacement(cg: string, mg: string) returns (best: Option<Entry>)
      ensures best.None? <==> Replacements(etcd.Docs(cg), mg) == {}
      ensures best.Some? ==> best.value.mg == Best(etcd.Docs(cg), Replacements(etcd.Docs(cg), mg))
      ensures best.Some? ==> best.value.priority == Priority(etcd.Docs(cg), best.value.mg)
    {
      hide Leq, IsBest, Sorted, SortedNames;
      var docs := etcd.Docs(cg);
      ghost var replacements := Replacements(docs, mg);
      NoneSoFar(docs, replacements);
      var names := etcd.ListChildren(cg);
      SortedNamesOf(Listed(docs));
      best := None;
      ghost var at := 0;
      assert names[..0] == [];
      hide BestOf;
      for i := 0 to |names|
        invariant BestOf(docs, names[..i], replacements, best, at)
      {
        assert names[i] in names;
        BestOfMore(docs, names, i, replacements, best, at);
        assert names[i] in replacements <==> names[i] != mg && CanReplace(docs[names[i]]);
        var d := docs[names[i]];
        if names[i] == mg || !d.desired.Decoded? || !d.desired.doc.managed {
          continue;
        }
        if !d.actual.Decoded? || d.actual.doc.state != ActualPassive {
          continue;
        }
        if !d.health.Decoded? || d.health.doc.status != HealthOK || !d.config.Decoded? {
          continue;
        }
        if best.None? || d.config.doc.priority < best.value.priority {
          best := Some(Entry(names[i], d.config.doc.priority));
          at := i;
        }
      }
      assert names[..|names|] == names;
      assert forall n <- replacements :: n in names;
      assert forall n <- names :: n in Listed(docs);
      NoneOf(docs, names, replacements, best, at);
      if best.Some? {
        FirstNameIsBest(docs, names, at, replacements);
        BestUnique(docs, replacements, names[at], Best(docs, replacements));
      }
    }

    method RunDemote(cg: string, mg: string) returns (ok: bool)
      modifies etcd`groups, etcd`puts
      ensures Outcome(etcd.Docs(cg), ok) == ExecDemote(old(etcd.Docs(cg)), mg)
      ensures forall c | c != cg :: etcd.Docs(c) == old(etcd.Docs(c))
    {
      hide Leq, Replacements, CanReplace;
      ghost var docs := etcd.Docs(cg);
      var d := Get(etcd.Docs(cg), mg);
      if !d.desired.Decoded? {
        return false;
      }
      if d.desired.doc.state == DesiredPassive {
        PutDesired(cg, mg, DesiredPassive, true);
        return true;
      }
      var best := FindReplacement(cg, mg);
      if best.None? {
        return false;
      }
      if !d.config.Decoded? {
        return false;
      }
      assert best.value.mg in Entries(docs) && best.value.mg != mg by { ReplacementIsEntry(docs, mg, best.value.mg); }
      ok := WritePriority(cg, best.value.mg, d.config.doc.priority);
      assert ok;
      ok := WritePriority(cg, mg, best.value.priority);
      assert ok;
      PutDesired(cg, mg, DesiredPassive, true);
      PutDesired(cg, best.value.mg, DesiredActive, true);
      return true;
    }
  }

  /** The first name with the least priority among those of the set. */
  predicate BestOf(docs: Groups, names: seq<string>, s: set<string>, best: Option<Entry>, at: nat)
    requires s <= Entries(docs)
  {
    if best.None? then forall j :: 0 <= j < |names| ==> names[j] !in s
    else
      && at < |names| && names[at] in s && best == Some(Entry(names[at], Priority(docs, names[at])))
      && forall j :: 0 <= j < |names| && names[j] in s ==>
           best.value.priority <= Priority(docs, names[j]) && (j < at ==> best.value.priority < Priority(docs, names[j]))
  }

  lemma BestOfMore(docs: Groups, names: seq<string>, i: nat, s: set<string>, best: Option<Entry>, at: nat)
    requires s <= Entries(docs) && i < |names| && BestOf(docs, names[..i], s, best, at)
    ensures if names[i] in s && (best.None? || Priority(docs, names[i]) < best.value.priority)
      then BestOf(docs, names[..i + 1], s, Some(Entry(names[i], Priority(docs, names[i]))), i)
      else BestOf(docs, names[..i + 1], s, best, at)
  {
    assert forall j :: 0 <= j < i ==> names[..i + 1][j] == names[..i][j];
  }

  lemma NoneOf(docs: Groups, names: seq<string>, s: set<string>, best: Option<Entry>, at: nat)
    requires s <= Entries(docs) && BestOf(docs, names, s, best, at) && forall n <- s :: n in names
    ensures best.None? <==> s == {}
    ensures best.Some? ==> at < |names| && names[at] in s && best == Some(Entry(names[at], Priority(docs, names[at])))
    ensures best.Some? ==> forall j :: 0 <= j < |names| && names[j] in s ==>
      (Priority(docs, names[at]) <= Priority(docs, names[j]) && (j < at ==> Priority(docs, names[at]) < Priority(docs, names[j])))
  {}

  lemma NoneSoFar(docs: Groups, s: set<string>)
    requires s <= Entries(docs)
    ensures BestOf(docs, [], s, None, 0)
  {}

  lemma ReplacementIsEntry(docs: Groups, mg: string, n: string)
    requires n in Replacements(docs, mg)
    ensures n in Entries(docs) && n != mg
  {}

  predicate InOrder(entries: seq<Entry>) {
    forall i, j :: 0 <= i < j < |entries| ==> entries[i].mg != entries[j].mg && Leq(entries[i].mg, entries[j].mg)
  }

  lemma FirstNameIsBest(docs: Groups, names: seq<string>, k: nat, s: set<string>)
    requires Sorted(names) && k < |names| && s <= Entries(docs) && names[k] in s
    requires forall n <- s :: n in names
    requires forall j :: 0 <= j < |names| && names[j] in s ==> Priority(docs, names[k]) <= Priority(docs, names[j])
    requires forall j :: 0 <= j < k && names[j] in s ==> Priority(docs, names[k]) < Priority(docs, names[j])
    ensures IsBest(docs, s, names[k])
  {
    hide Leq;
    forall n <- s
      ensures Priority(docs, names[k]) <= Priority(docs, n)
      ensures n != names[k] && Priority(docs, n) == Priority(docs, names[k]) ==> Leq(names[k], n)
    {
      var j :| 0 <= j < |names| && names[j] == n;
    }
  }

  lemma FirstIsBest(docs: Groups, entries: seq<Entry>, k: nat, s: set<string>)
    requires InOrder(entries) && k < |entries| && s <= Entries(docs)
    requires forall e <- entries :: e.mg in s && e.priority == Priority(docs, e.mg)
    requires forall n <- s :: exists e <- entries :: e.mg == n
    requires forall j :: 0 <= j < |entries| ==> entries[k].priority <= entries[j].priority
    requires forall j :: 0 <= j < k ==> entries[k].priority < entries[j].priority
    ensures IsBest(docs, s, entries[k].mg)
  {
    hide Leq;
    assert entries[k] in entries;
    forall n <- s
      ensures Priority(docs, entries[k].mg) <= Priority(docs, n)
      ensures n != entries[k].mg && Priority(docs, n) == Priority(docs, entries[k].mg) ==> Leq(entries[k].mg, n)
    {
      var e :| e in entries && e.mg == n;
      var j :| 0 <= j < |entries| && entries[j] == e;
    }
  }
}
