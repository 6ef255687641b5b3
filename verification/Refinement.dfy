/** The tree of the store against the flat map of etcd. */
module Refinement {
  import opened Paths
  import opened Tree
  import opened Store
  import Keys

  type FlatMap = map<string, Bytes>

  /** What the same event does to etcd. */
  function EtcdApplied(f: FlatMap, event: Event): FlatMap {
    match event
    case Put(key, value, _) => f[key := value]
    case Delete(key, _) => f - {key}
  }

  function EtcdAll(f: FlatMap, events: seq<Event>): FlatMap {
    if events == [] then f else EtcdApplied(EtcdAll(f, events[..|events| - 1]), events[|events| - 1])
  }

  /** The form that every key builder gives a key. */
  predicate Canonical(key: string) {
    AllNames(Split(key)) && Split(key) != [] && key == KeyOf(Split(key))
  }

  /** The valued nodes of the tree are exactly the normalised entries of the flat map. */
  ghost predicate Agrees(v: View, f: FlatMap, json: Json) {
    && (forall k <- f :: Canonical(k) && Split(k) in v && v[Split(k)] == json.Normalize(f[k]))
    && (forall p <- v | v[p] != [] :: AllNames(p) && KeyOf(p) in f)
  }

  predicate LiesBelow(k: string, key: string) { key + "/" <= k }

  /** No stored key extends this one: the proviso under which the tree's delete is etcd's. */
  predicate NothingStoredBelow(f: FlatMap, key: string) {
    forall k <- f :: !LiesBelow(k, key)
  }

  lemma BelowIsPrefix(k: string, key: string)
    requires Canonical(k) && Canonical(key)
    ensures LiesBelow(k, key) <==> Split(key) < Split(k)
  {
    var p, q := Split(key), Split(k);
    hide Split, AllNames, Join;
    if p < q {
      assert q == p + q[|p|..];
      JoinConcat(p, q[|p|..]);
    }
    if LiesBelow(k, key) { KeyPrefix(p, q); }
  }

  lemma SameKey(k: string, key: string)
    requires Canonical(k) && Canonical(key) && Split(k) == Split(key)
    ensures k == key
  {}

  // ----- One event -----

  lemma PutAgrees(v: View, f: FlatMap, json: Json, key: string, value: Bytes)
    requires json.Sound() && Agrees(v, f, json) && Canonical(key)
    ensures Agrees(Inserted(v, Split(key), json.Normalize(value)), f[key := value], json)
  {
    hide Split, KeyOf, AllNames, Prefixes;
    var p := Split(key);
    var v' := Inserted(v, p, json.Normalize(value));
    forall k <- f[key := value] ensures Split(k) in v' && v'[Split(k)] == json.Normalize(f[key := value][k]) {
      if k != key && Split(k) == p { SameKey(k, key); }
    }
  }

  /** A delete does to the tree what it does to etcd exactly when nothing is stored below its key. */
  lemma DeleteAgrees(v: View, f: FlatMap, json: Json, key: string)
    requires json.Sound() && Agrees(v, f, json) && Canonical(key)
    ensures Agrees(Deleted(v, Split(key)), f - {key}, json) <==> NothingStoredBelow(f, key)
  {
    hide Split, KeyOf, AllNames, LiesBelow;
    var p := Split(key);
    var v', f' := Deleted(v, p), f - {key};
    if NothingStoredBelow(f, key) {
      forall k <- f' ensures Split(k) in v' && v'[Split(k)] == json.Normalize(f'[k]) {
        BelowIsPrefix(k, key);
        if Split(k) == p { SameKey(k, key); }
      }
      forall q <- v' | v'[q] != [] ensures KeyOf(q) in f' {
        if KeyOf(q) == key { KeySplit(q, key); }
      }
    } else {
      var k :| k in f && LiesBelow(k, key);
      BelowIsPrefix(k, key);
      assert k in f' && Split(k) !in v';
    }
  }

  lemma KeySplit(q: Path, key: string)
    requires AllNames(q) && KeyOf(q) == key
    ensures Split(key) == q
  {
    SplitKey(q);
  }

  /** What a delete takes from the tree in any case: the entries at its key and below it. */
  lemma {:induction false} DeleteIsSubtree(v: View, f: FlatMap, json: Json, key: string)
    requires json.Sound() && Agrees(v, f, json) && Canonical(key)
    ensures Agrees(Deleted(v, Split(key)), map k | k in f && k != key && !LiesBelow(k, key) :: f[k], json)
  {
    hide Split, KeyOf, AllNames, LiesBelow;
    var p := Split(key);
    var f' := map k | k in f && k != key && !LiesBelow(k, key) :: f[k];
    forall k <- f' ensures Split(k) in Deleted(v, p) {
      BelowIsPrefix(k, key);
      if Split(k) == p { SameKey(k, key); }
    }
    forall q <- Deleted(v, p) | Deleted(v, p)[q] != [] ensures KeyOf(q) in f' {
      KeySplit(q, KeyOf(q));
      BelowIsPrefix(KeyOf(q), key);
    }
  }

  // ----- Whole runs -----

  /** Canonical keys, and no delete of a key below which something is stored at that time. */
  ghost predicate Tame(f: FlatMap, events: seq<Event>) {
    forall i :: 0 <= i < |events| ==>
      (Canonical(events[i].key) && (events[i].Delete? ==> NothingStoredBelow(EtcdAll(f, events[..i]), events[i].key)))
  }

  /** After any tame run of events the tree still holds exactly what etcd holds. */
  lemma {:induction false} RunAgrees(v: View, f: FlatMap, events: seq<Event>, json: Json)
    requires json.Sound() && Agrees(v, f, json) && Tame(f, events)
    ensures Agrees(AppliedAll(v, events, json), EtcdAll(f, events), json)
  {
    hide Agrees, Canonical, NothingStoredBelow, Split, KeyOf, EtcdApplied, Applied, Tame;
    if events != [] {
      TameBefore(f, events);
      var before, last := events[..|events| - 1], events[|events| - 1];
      RunAgrees(v, f, before, json);
      EventAgrees(AppliedAll(v, before, json), EtcdAll(f, before), json, last);
    }
  }

  lemma TameBefore(f: FlatMap, events: seq<Event>)
    requires Tame(f, events) && events != []
    ensures var before, last := events[..|events| - 1], events[|events| - 1];
      Tame(f, before) && Canonical(last.key) && (last.Delete? ==> NothingStoredBelow(EtcdAll(f, before), last.key))
  {
    hide Canonical, NothingStoredBelow, EtcdAll;
    var n := |events| - 1;
    assert forall i :: 0 <= i < n ==> events[..n][i] == events[i] && events[..n][..i] == events[..i];
  }

  lemma EventAgrees(v: View, f: FlatMap, json: Json, event: Event)
    requires json.Sound() && Agrees(v, f, json) && Canonical(event.key)
    requires event.Delete? ==> NothingStoredBelow(f, event.key)
    ensures Agrees(Applied(v, event, json), EtcdApplied(f, event), json)
  {
    hide Agrees, Canonical, NothingStoredBelow, Split, KeyOf;
    match event
    case Put(key, value, _) => PutAgrees(v, f, json, key, value);
    case Delete(key, _) => DeleteAgrees(v, f, json, key);
  }

  /** A loaded snapshot holds exactly what etcd held. */
  lemma SnapshotAgrees(v: View, items: FlatMap, json: Json)
    requires json.Sound() && IsLoaded(v, items, json) && forall k <- items :: Canonical(k)
    ensures Agrees(v, items, json)
  {
    hide Split, KeyOf, AllNames, IsLoaded;
    forall k <- items ensures Split(k) in v && v[Split(k)] == json.Normalize(items[k]) {
      LoadedAt(v, items, json, k);
      var k' := LoadedFrom(v, items, json, Split(k));
      SameKey(k', k);
    }
    forall p <- v | v[p] != [] ensures AllNames(p) && KeyOf(p) in items {
      var k := LoadedFrom(v, items, json, p);
    }
  }

  lemma LoadedAt(v: View, items: FlatMap, json: Json, k: string)
    requires IsLoaded(v, items, json) && k in items
    ensures Split(k) in v && v[Split(k)] != []
  {
    hide Split, Closed;
  }

  lemma {:induction false} LoadedFrom(v: View, items: FlatMap, json: Json, p: Path) returns (k: string)
    requires IsLoaded(v, items, json) && p in v && v[p] != []
    ensures k in items && Split(k) == p && v[p] == json.Normalize(items[k])
  {
    hide Split, Closed;
    k :| k in items && Split(k) == p && v[p] == json.Normalize(items[k]);
  }

  // ----- What the queries then return -----

  /** Get on a canonical key answers from etcd's map. */
  lemma GetAgrees(v: View, f: FlatMap, json: Json, key: string)
    requires json.Sound() && Agrees(v, f, json) && Canonical(key)
    ensures Split(key) in Flat(v) <==> key in f
    ensures key in f ==> Flat(v)[Split(key)] == json.Normalize(f[key])
  {
    hide Split, KeyOf, AllNames;
    if key in f { json.NormalizeSound(f[key]); }
  }

  lemma {:induction false} KeyUnderCanonical(p: Path, below: Path)
    requires AllNames(p) && AllNames(below) && p != []
    ensures KeyUnder(KeyOf(p), below) == KeyOf(p + below)
    decreases |below|
  {
    if below == [] {
      assert p + below == p;
    } else {
      JoinEnds(p);
      assert TrimRight(KeyOf(p)) == KeyOf(p);
      JoinConcat(p, [below[0]]);
      JoinShort(below[0]);
      assert KeyOf(p) + "/" + below[0] == KeyOf(p + [below[0]]);
      assert below[0] in below;
      KeyUnderCanonical(p + [below[0]], below[1..]);
      assert p + [below[0]] + below[1..] == p + below;
    }
  }

  lemma {:induction false} WalkedKey(v: View, f: FlatMap, json: Json, key: string, q: Path)
    requires json.Sound() && Agrees(v, f, json) && Canonical(key) && q in Subtree(v, Split(key)) && v[q] != []
    ensures KeyUnder(key, q[|Split(key)|..]) == KeyOf(q) && Split(KeyOf(q)) == q && (KeyOf(q) == key || LiesBelow(KeyOf(q), key))
  {
    hide Split, KeyOf, KeyUnder, LiesBelow;
    var p := Split(key);
    assert p + q[|p|..] == q;
    assert AllNames(q) && AllNames(q[|p|..]);
    hide AllNames;
    KeyUnderCanonical(p, q[|p|..]);
    KeySplit(q, KeyOf(q));
    if q != p {
      assert p < q;
      BelowIsPrefix(KeyOf(q), key);
    }
  }

  /** A prefix query on a canonical key returns the normalised entries of etcd at or below it. */
  lemma {:induction false} PrefixAgrees(v: View, f: FlatMap, json: Json, key: string, out: FlatMap)
    requires json.Sound() && Agrees(v, f, json) && Canonical(key)
    requires Walked(v, key, Split(key), map[], out)
    ensures out == map k | k in f && (k == key || LiesBelow(k, key)) :: json.Normalize(f[k])
  {
    hide Split, KeyOf, KeyUnder, LiesBelow;
    var p := Split(key);
    forall q <- Subtree(v, p) | v[q] != []
      ensures KeyUnder(key, q[|p|..]) == KeyOf(q) && Split(KeyOf(q)) == q && (KeyOf(q) == key || LiesBelow(KeyOf(q), key))
    {
      WalkedKey(v, f, json, key, q);
    }
    forall k <- f | k == key || LiesBelow(k, key) ensures k in out {
      BelowIsPrefix(k, key);
      json.NormalizeSound(f[k]);
      assert Split(k) in Subtree(v, p);
    }
    forall k <- out ensures k in f && (k == key || LiesBelow(k, key)) && out[k] == json.Normalize(f[k]) {
      assert IsEntry(v, key, p, k, out[k]);
      var q :| q in Subtree(v, p) && v[q] != [] && KeyUnder(key, q[|p|..]) == k && v[q] == out[k];
    }
  }

  // ----- With keys from the schema -----

  ghost predicate FromSchema(id: string, key: string) {
    exists e :: Keys.WellNamed(e) && Keys.KeyFor(id, e) == key
  }

  lemma SchemaCanonical(id: string, key: string)
    requires IsName(id) && FromSchema(id, key)
    ensures Canonical(key)
  {
    hide Split, KeyOf, AllNames;
    var e :| Keys.WellNamed(e) && Keys.KeyFor(id, e) == key;
    Keys.KeyForPath(id, e);
    KeySplit(Keys.PathFor(id, e), key);
  }

  lemma SchemaNothingBelow(id: string, f: FlatMap, key: string)
    requires IsName(id) && FromSchema(id, key) && forall k <- f :: FromSchema(id, k)
    ensures NothingStoredBelow(f, key)
  {
    forall k <- f ensures !LiesBelow(k, key) {
      var e :| Keys.WellNamed(e) && Keys.KeyFor(id, e) == key;
      var d :| Keys.WellNamed(d) && Keys.KeyFor(id, d) == k;
      Keys.KeysPrefixFree(id, e, d);
    }
  }

  lemma {:induction false} EtcdFromSchema(id: string, f: FlatMap, events: seq<Event>)
    requires forall k <- f :: FromSchema(id, k)
    requires forall e <- events :: FromSchema(id, e.key)
    ensures forall k <- EtcdAll(f, events) :: FromSchema(id, k)
  {
    hide FromSchema;
    if events != [] {
      var n := |events| - 1;
      assert forall e <- events[..n] :: e in events;
      EtcdFromSchema(id, f, events[..n]);
      assert events[n] in events;
    }
  }

  /** The store is etcd: from a snapshot and any run of events on keys of the schema, the tree holds
      exactly the entries of etcd, however puts and deletes are mixed. */
  lemma {:induction false} StoreIsEtcd(id: string, v: View, items: FlatMap, events: seq<Event>, json: Json)
    requires IsName(id) && json.Sound() && IsLoaded(v, items, json)
    requires (forall k <- items :: FromSchema(id, k)) && forall e <- events :: FromSchema(id, e.key)
    ensures Agrees(AppliedAll(v, events, json), EtcdAll(items, events), json)
  {
    hide FromSchema, Canonical, NothingStoredBelow, IsLoaded, Agrees;
    forall k <- items ensures Canonical(k) { SchemaCanonical(id, k); }
    SnapshotAgrees(v, items, json);
    forall i | 0 <= i < |events|
      ensures Canonical(events[i].key) && NothingStoredBelow(EtcdAll(items, events[..i]), events[i].key)
    {
      assert events[i] in events;
      SchemaCanonical(id, events[i].key);
      assert forall e <- events[..i] :: e in events;
      EtcdFromSchema(id, items, events[..i]);
      SchemaNothingBelow(id, EtcdAll(items, events[..i]), events[i].key);
    }
    RunAgrees(v, items, events, json);
  }

  // ----- Which nodes there are -----

  /** A put reached p, or something below it, and no later delete covers p. */
  ghost predicate Reached(events: seq<Event>, p: Path) {
    exists i :: 0 <= i < |events| && events[i].Put? && p <= Split(events[i].key) && Uncovered(events[i + 1..], p)
  }

  ghost predicate Uncovered(events: seq<Event>, p: Path) {
    forall i :: 0 <= i < |events| && events[i].Delete? ==> Split(events[i].key) == [] || !(Split(events[i].key) <= p)
  }

  lemma UncoveredMore(events: seq<Event>, e: Event, p: Path)
    ensures Uncovered(events + [e], p) <==> Uncovered(events, p) && Uncovered([e], p)
  {
    hide Split;
    assert forall i :: 0 <= i < |events| ==> (events + [e])[i] == events[i];
    assert (events + [e])[|events|] == e && [e][0] == e;
  }

  lemma ReachedMore(events: seq<Event>, e: Event, p: Path)
    ensures Reached(events + [e], p) <==>
      (Reached(events, p) && Uncovered([e], p)) || (e.Put? && p <= Split(e.key))
  {
    hide Split, Uncovered;
    var all := events + [e];
    forall i | 0 <= i < |events| ensures all[i] == events[i] && (Uncovered(all[i + 1..], p) <==> Uncovered(events[i + 1..], p) && Uncovered([e], p)) {
      assert all[i + 1..] == events[i + 1..] + [e];
      UncoveredMore(events[i + 1..], e, p);
    }
    assert all[|events|] == e && all[|events| + 1..] == [];
    assert Uncovered([], p) by { NothingCovers(p); }
    if e.Put? && p <= Split(e.key) { assert all[|events|].Put?; }
    if Reached(events, p) && Uncovered([e], p) {
      var i :| 0 <= i < |events| && events[i].Put? && p <= Split(events[i].key) && Uncovered(events[i + 1..], p);
      assert all[i].Put? && p <= Split(all[i].key) && Uncovered(all[i + 1..], p);
    }
    if Reached(all, p) {
      var i :| 0 <= i < |all| && all[i].Put? && p <= Split(all[i].key) && Uncovered(all[i + 1..], p);
      assert i < |events| ==> events[i].Put? && p <= Split(events[i].key);
    }
  }

  lemma NothingCovers(p: Path)
    ensures Uncovered([], p)
  {}

  /** A name is listed below its parent exactly as long as the last put that reached it has not been
      undone by a delete at or above it: an interior node outlives the last key below it. */
  lemma {:induction false} NodesAfter(events: seq<Event>, json: Json, p: Path)
    requires p != []
    ensures p in AppliedAll(EMPTY, events, json) <==> Reached(events, p)
  {
    hide Split, Reached, Uncovered;
    if events == [] {
      assert !Reached(events, p) by { NothingReached(p); }
    } else {
      var n := |events| - 1;
      var before, e := events[..n], events[n];
      NodesAfter(before, json, p);
      assert events == before + [e];
      ReachedMore(before, e, p);
      UncoveredOne(e, p);
      match e
      case Put(key, value, _) =>
        InPrefixes(Split(key), p);
        InPrefixes(Split(key), Split(key));
      case Delete(key, _) =>
    }
  }

  lemma NothingReached(p: Path)
    ensures !Reached([], p)
  {}

  lemma UncoveredOne(e: Event, p: Path)
    ensures Uncovered([e], p) <==> e.Put? || Split(e.key) == [] || !(Split(e.key) <= p)
  {
    hide Split;
    assert [e][0] == e;
  }
}
