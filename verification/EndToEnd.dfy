/** From the events of etcd to the view of the API. */
module EndToEnd {
  import opened Model
  import opened Paths
  import opened Tree
  import opened Store
  import opened Keys
  import opened Refinement
  import opened StateView

  lemma {:induction false} AppliedClosed(v: View, events: seq<Event>, json: Json)
    requires Closed(v)
    ensures Closed(AppliedAll(v, events, json))
  {
    hide Closed, Split;
    if events != [] {
      var n := |events| - 1;
      AppliedClosed(v, events[..n], json);
      var before := AppliedAll(v, events[..n], json);
      match events[n]
      case Put(key, value, _) => InsertedClosed(before, Split(key), json.Normalize(value));
      case Delete(key, _) => DeletedClosed(before, Split(key));
    }
  }

  /** A tree that agrees with a flat map of schema keys holds documents of entities only. */
  lemma {:induction false} AgreeingIsSchemaOnly(id: string, v: View, f: FlatMap, json: Json)
    requires IsName(id) && Closed(v) && Agrees(v, f, json) && forall k <- f :: FromSchema(id, k)
    ensures SchemaOnly(v, id)
  {
    hide Closed, KeyOf, WellNamed, PathFor, KeyFor, AllNames;
    forall p <- Flat(v) ensures exists e :: WellNamed(e) && p == PathFor(id, e) {
      assert KeyOf(p) in f && AllNames(p);
      var e :| WellNamed(e) && KeyFor(id, e) == KeyOf(p);
      KeyForPath(id, e);
      KeyInjective(p, PathFor(id, e));
    }
  }

  lemma {:induction false} StoredInEtcd(id: string, v: View, f: FlatMap, json: Json, e: Entity)
    requires IsName(id) && json.Sound() && Agrees(v, f, json) && WellNamed(e)
    ensures Stored(v, id, e) <==> KeyFor(id, e) in f
  {
    hide KeyOf, PathFor, KeyFor, AllNames, Split, WellNamed;
    var p := PathFor(id, e);
    KeyForPath(id, e);
    KeySplit(p, KeyFor(id, e));
    if KeyFor(id, e) in f { json.NormalizeSound(f[KeyFor(id, e)]); }
  }

  lemma LoadedClosed(v: View, items: FlatMap, json: Json)
    requires IsLoaded(v, items, json)
    ensures Closed(v)
  {
    hide Closed;
  }

  /** The view shows a role at a node of a group exactly while etcd holds a document of that role
      under the key built for it: from any snapshot, after any run of events on schema keys. */
  lemma {:induction false} ViewShowsEtcd(id: string, loaded: View, items: FlatMap, events: seq<Event>, json: Json,
                      cg: string, mg: string, node: string, role: string)
    requires IsName(id) && json.Sound() && IsLoaded(loaded, items, json)
    requires (forall k <- items :: FromSchema(id, k)) && forall e <- events :: FromSchema(id, e.key)
    requires ClusterGroupName(cg) && MemberName(mg) && MemberName(node) && MemberName(role)
    ensures var f := EtcdAll(items, events);
      Shown(ClusterAt(AppliedAll(loaded, events, json), id), cg, mg, node, role) <==>
      RoleActual(id, cg, mg, node, role) in f || RoleHealth(id, cg, mg, node, role) in f
  {
    hide FromSchema, Shown, ClusterAt, Agrees, SchemaOnly, Stored, JoinPath, RoleActual, RoleHealth, Closed, IsLoaded, IsName,
      IsSystemKey, IsManagementSystemKey, AppliedAll, EtcdAll;
    LoadedClosed(loaded, items, json);
    var v, f := AppliedAll(loaded, events, json), EtcdAll(items, events);
    StoreIsEtcd(id, loaded, items, events, json);
    EtcdFromSchema(id, items, events);
    AppliedClosed(loaded, events, json);
    AgreeingIsSchemaOnly(id, v, f, json);
    ViewRoundTrip(v, id, cg, mg, node, role);
    StoredInEtcd(id, v, f, json, ERoleActual(cg, mg, node, role));
    StoredInEtcd(id, v, f, json, ERoleHealth(cg, mg, node, role));
  }
}
