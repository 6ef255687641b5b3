/** How the states reported for the roles of a management group become the state of the group. */
module Aggregation {
  import opened Model

  type RoleStates = map<RoleKey, Doc<ActualDoc>>

  datatype Aggregate = Aggregate(state: ActualState, health: HealthStatus, details: string)

  // ----- Declarative rule -----

  /** The node name of a registration, or its key where the document leaves the name empty. */
  function NodeOf(key: string, reg: Registration): string {
    if reg.nodeId == "" then key else reg.nodeId
  }

  predicate Lists(m: Membership, cg: string, mg: string, role: string) {
    m.clusterGroup == cg && m.managementGroup == mg && role in m.roles
  }

  ghost predicate AnyLists(ms: seq<Membership>, cg: string, mg: string, role: string) {
    exists i :: 0 <= i < |ms| && Lists(ms[i], cg, mg, role)
  }

  ghost predicate ExpectedBy(key: string, entry: Doc<Registration>, cg: string, mg: string, k: RoleKey) {
    entry.Decoded? && NodeOf(key, entry.doc) == k.node && AnyLists(entry.doc.memberships, cg, mg, k.role)
  }

  /** Some registered node is to run this role for the group. */
  ghost predicate Expected(registry: Registry, cg: string, mg: string, k: RoleKey) {
    exists key <- registry :: ExpectedBy(key, registry[key], cg, mg, k)
  }

  /** Both documents of a role are stored, whether or not they decode. */
  predicate Reports(d: GroupDocs, k: RoleKey) {
    k in d.roleActual && !d.roleActual[k].Missing? && k in d.roleHealth && !d.roleHealth[k].Missing?
  }

  ghost predicate AgentLost(registry: Registry, cg: string, mg: string, d: GroupDocs) {
    exists k :: Expected(registry, cg, mg, k) && !Reports(d, k)
  }

  predicate InState(roles: RoleStates, k: RoleKey, s: ActualState) {
    k in roles && roles[k].Decoded? && roles[k].doc.state == s
  }

  ghost predicate Sees(roles: RoleStates, s: ActualState) {
    exists k :: InState(roles, k, s)
  }

  /** Some starting report is later than the zero time and than every stopping report. */
  ghost predicate StartsLast(roles: RoleStates) {
    exists k | InState(roles, k, ActualStarting) ::
      roles[k].doc.updatedAt > 0 &&
      forall j | InState(roles, j, ActualStopping) :: roles[j].doc.updatedAt < roles[k].doc.updatedAt
  }

  ghost function AggregateOf(roles: RoleStates, lost: bool): Aggregate {
    if lost then Aggregate(ActualFailed, HealthFailed, "agent lost")
    else if Sees(roles, ActualFailed) then
      Aggregate(ActualFailed, HealthFailed, "one or more roles are failed")
    else if Sees(roles, ActualStarting) && (!Sees(roles, ActualStopping) || StartsLast(roles)) then
      Aggregate(ActualStarting, HealthWarning, "one or more roles are starting")
    else if Sees(roles, ActualStopping) then
      Aggregate(ActualStopping, HealthWarning, "one or more roles are stopping")
    else if Sees(roles, ActualActive) && Sees(roles, ActualPassive) then
      Aggregate(ActualFailed, HealthFailed, "mixed active and passive roles")
    else if Sees(roles, ActualActive) then Aggregate(ActualActive, HealthOK, "")
    else Aggregate(ActualPassive, HealthOK, "")
  }

  ghost function GroupState(registry: Registry, cg: string, mg: string, d: GroupDocs): (a: Aggregate)
    ensures a.health == HealthFailed <==> a.state == ActualFailed
    ensures a.health == HealthWarning <==> a.state in {ActualStarting, ActualStopping}
    ensures !a.state.ActualOther? && !a.health.HealthOther?
  {
    AggregateOf(d.roleActual, ReadDesired(d).managed && AgentLost(registry, cg, mg, d))
  }

  // ----- What the controller runs -----

  method ExpectedRoleStates(registry: Registry, cg: string, mg: string) returns (out: seq<RoleKey>)
    ensures forall k :: k in out <==> Expected(registry, cg, mg, k)
  {
    out := [];
    var todo := registry.Keys;
    while todo != {}
      invariant todo <= registry.Keys
      invariant forall k :: k in out <==> exists key <- registry.Keys - todo :: ExpectedBy(key, registry[key], cg, mg, k)
      decreases todo
    {
      var key :| key in todo;
      ghost var visited := registry.Keys - todo;
      todo := todo - {key};
      assert registry.Keys - todo == visited + {key};
      ghost var sofar := out;
      if registry[key].Decoded? {
        var reg := registry[key].doc;
        for i := 0 to |reg.memberships|
          invariant forall k :: k in out <==>
            k in sofar || (k.node == NodeOf(key, reg) && AnyLists(reg.memberships[..i], cg, mg, k.role))
        {
          var m := reg.memberships[i];
          AnyListsOneMore(reg.memberships, i, cg, mg);
          if m.clusterGroup == cg && m.managementGroup == mg {
            ghost var added := out;
            for j := 0 to |m.roles|
              invariant forall k :: k in out <==>
                k in added || (k.node == NodeOf(key, reg) && k.role in m.roles[..j])
            {
              out := out + [RoleKey(NodeOf(key, reg), m.roles[j])];
            }
          }
        }
        assert reg.memberships[..|reg.memberships|] == reg.memberships;
      }
      assert forall k :: k in out <==> k in sofar || ExpectedBy(key, registry[key], cg, mg, k);
    }
  }

  lemma AnyListsOneMore(ms: seq<Membership>, i: nat, cg: string, mg: string)
    requires i < |ms|
    ensures forall role :: AnyLists(ms[..i + 1], cg, mg, role) <==>
      AnyLists(ms[..i], cg, mg, role) || Lists(ms[i], cg, mg, role)
  {
    forall role ensures AnyLists(ms[..i + 1], cg, mg, role) <==> AnyLists(ms[..i], cg, mg, role) || Lists(ms[i], cg, mg, role) {
      if AnyLists(ms[..i], cg, mg, role) {
        var j :| 0 <= j < i && Lists(ms[..i][j], cg, mg, role);
        assert ms[..i + 1][j] == ms[..i][j];
      }
      if Lists(ms[i], cg, mg, role) { assert ms[..i + 1][i] == ms[i]; }
      if AnyLists(ms[..i + 1], cg, mg, role) {
        var j :| 0 <= j < i + 1 && Lists(ms[..i + 1][j], cg, mg, role);
        if j < i { assert ms[..i][j] == ms[..i + 1][j]; }
      }
    }
  }

  method MissingExpectedRoleStates(registry: Registry, cg: string, mg: string, d: GroupDocs)
    returns (missing: seq<RoleKey>)
    ensures forall k :: k in missing <==> Expected(registry, cg, mg, k) && !Reports(d, k)
    ensures missing != [] <==> AgentLost(registry, cg, mg, d)
  {
    var expected := ExpectedRoleStates(registry, cg, mg);
    missing := [];
    for i := 0 to |expected|
      invariant forall k :: k in missing <==> k in expected[..i] && !Reports(d, k)
    {
      if !Reports(d, expected[i]) {
        missing := missing + [expected[i]];
      }
    }
    assert missing != [] ==> missing[0] in missing;
  }

  /** The latest of the zero time and the reports in state s. */
  ghost predicate IsLatest(roles: RoleStates, s: ActualState, t: int) {
    && 0 <= t
    && (forall k | InState(roles, k, s) :: roles[k].doc.updatedAt <= t)
    && (t > 0 ==> exists k :: InState(roles, k, s) && roles[k].doc.updatedAt == t)
  }

  /** What the flags and the two latest times say about the documents visited so far. */
  ghost predicate Summary(seen: RoleStates, roles: bool, active: bool, passive: bool, starting: bool, stopping: bool,
                          startingAt: int, stoppingAt: int)
  {
    && !Sees(seen, ActualFailed)
    && (active <==> Sees(seen, ActualActive))
    && (passive <==> Sees(seen, ActualPassive))
    && (starting <==> Sees(seen, ActualStarting))
    && (stopping <==> Sees(seen, ActualStopping))
    && (!roles ==> !active && !passive && !starting && !stopping)
    && IsLatest(seen, ActualStarting, startingAt)
    && IsLatest(seen, ActualStopping, stoppingAt)
  }

  /** Visits the role documents in any order, as ranging over a map does. */
  method AggregateRoles(roles: RoleStates, lost: bool) returns (r: Aggregate)
    ensures r == AggregateOf(roles, lost)
  {
    if lost {
      return Aggregate(ActualFailed, HealthFailed, "agent lost");
    }
    var seenRoles, seenActive, seenPassive, seenStarting, seenStopping := false, false, false, false, false;
    var latestStartingAt, latestStoppingAt := 0, 0;
    var todo := roles.Keys;
    ghost var seen: RoleStates := map[];
    while todo != {}
      invariant todo <= roles.Keys && seen == (map k | k in roles && k !in todo :: roles[k])
      invariant Summary(seen, seenRoles, seenActive, seenPassive, seenStarting, seenStopping,
                        latestStartingAt, latestStoppingAt)
      decreases todo
    {
      var key :| key in todo;
      todo := todo - {key};
      var d := roles[key];
      SeesOneMore(seen, key, d);
      LatestOneMore(seen, key, d, ActualStarting, latestStartingAt);
      LatestOneMore(seen, key, d, ActualStopping, latestStoppingAt);
      seen := seen[key := d];
      if d.Decoded? {
        seenRoles := true;
        match d.doc.state {
          case ActualFailed =>
            assert InState(roles, key, ActualFailed);
            return Aggregate(ActualFailed, HealthFailed, "one or more roles are failed");
          case ActualActive => seenActive := true;
          case ActualPassive => seenPassive := true;
          case ActualStarting =>
            seenStarting := true;
            if d.doc.updatedAt > latestStartingAt { latestStartingAt := d.doc.updatedAt; }
          case ActualStopping =>
            seenStopping := true;
            if d.doc.updatedAt > latestStoppingAt { latestStoppingAt := d.doc.updatedAt; }
          case ActualOther(_) =>
        }
      }
    }
    assert seen == roles;
    LatestDecides(roles, latestStartingAt, latestStoppingAt);
    if !seenRoles {
      r := Aggregate(ActualPassive, HealthOK, "");
    } else if seenStarting || seenStopping {
      if seenStarting && seenStopping {
        r := if latestStartingAt > latestStoppingAt
          then Aggregate(ActualStarting, HealthWarning, "one or more roles are starting")
          else Aggregate(ActualStopping, HealthWarning, "one or more roles are stopping");
      } else if seenStarting {
        r := Aggregate(ActualStarting, HealthWarning, "one or more roles are starting");
      } else {
        r := Aggregate(ActualStopping, HealthWarning, "one or more roles are stopping");
      }
    } else if seenActive && !seenPassive {
      r := Aggregate(ActualActive, HealthOK, "");
    } else if seenPassive && !seenActive {
      r := Aggregate(ActualPassive, HealthOK, "");
    } else if seenActive && seenPassive {
      r := Aggregate(ActualFailed, HealthFailed, "mixed active and passive roles");
    } else {
      r := Aggregate(ActualPassive, HealthOK, "");
    }
  }

  lemma SeesOneMore(before: RoleStates, key: RoleKey, d: Doc<ActualDoc>)
    requires key !in before
    ensures forall s :: Sees(before[key := d], s) <==> Sees(before, s) || (d.Decoded? && d.doc.state == s)
  {
    var after := before[key := d];
    forall s ensures Sees(after, s) <==> Sees(before, s) || (d.Decoded? && d.doc.state == s) {
      if Sees(before, s) {
        var k :| InState(before, k, s);
        assert InState(after, k, s);
      }
      if d.Decoded? && d.doc.state == s { assert InState(after, key, s); }
      if Sees(after, s) {
        var k :| InState(after, k, s);
        assert k != key ==> InState(before, k, s);
      }
    }
  }

  lemma LatestOneMore(before: RoleStates, key: RoleKey, d: Doc<ActualDoc>, s: ActualState, t: int)
    requires key !in before && IsLatest(before, s, t)
    ensures IsLatest(before[key := d], s,
      if d.Decoded? && d.doc.state == s && d.doc.updatedAt > t then d.doc.updatedAt else t)
  {
    var after := before[key := d];
    forall k ensures InState(after, k, s) <==> InState(before, k, s) || (k == key && d.Decoded? && d.doc.state == s) {}
    if d.Decoded? && d.doc.state == s && d.doc.updatedAt > t {
      assert InState(after, key, s) && after[key].doc.updatedAt == d.doc.updatedAt;
    } else if t > 0 {
      var k :| InState(before, k, s) && before[k].doc.updatedAt == t;
      assert InState(after, k, s) && after[k].doc.updatedAt == t;
    }
  }

  lemma LatestDecides(roles: RoleStates, starting: int, stopping: int)
    requires IsLatest(roles, ActualStarting, starting) && IsLatest(roles, ActualStopping, stopping)
    ensures starting > stopping <==> StartsLast(roles)
  {
    if starting > stopping {
      var k :| InState(roles, k, ActualStarting) && roles[k].doc.updatedAt == starting;
    }
  }

  // ----- Consequences -----

  /** A group is shown active exactly when no agent of it is lost, some role is active, and no
      decodable role document says anything else that the controller knows. */
  lemma ActiveMeansAllActive(registry: Registry, cg: string, mg: string, d: GroupDocs)
    ensures GroupState(registry, cg, mg, d).state == ActualActive <==>
      && (ReadDesired(d).managed ==> forall k | Expected(registry, cg, mg, k) :: Reports(d, k))
      && Sees(d.roleActual, ActualActive)
      && forall k | k in d.roleActual && d.roleActual[k].Decoded? ::
           d.roleActual[k].doc.state !in {ActualPassive, ActualStarting, ActualStopping, ActualFailed}
  {
    var roles := d.roleActual;
    forall s | s in {ActualPassive, ActualStarting, ActualStopping, ActualFailed}
      ensures Sees(roles, s) <==> !forall k | k in roles && roles[k].Decoded? :: roles[k].doc.state != s
    {
      if k :| k in roles && roles[k].Decoded? && roles[k].doc.state == s { assert InState(roles, k, s); }
    }
  }

  /** A registered node is to run some role for the group and has not stored both documents of it. */
  ghost predicate SomeoneMissing(registry: Registry, cg: string, mg: string, d: GroupDocs) {
    exists key, i, role :: MissingAt(registry, cg, mg, d, key, i, role)
  }

  ghost predicate MissingAt(registry: Registry, cg: string, mg: string, d: GroupDocs, key: string, i: int, role: string) {
    && key in registry && registry[key].Decoded? && 0 <= i < |registry[key].doc.memberships|
    && (var reg := registry[key].doc;
        var m, k := reg.memberships[i], RoleKey(if reg.nodeId == "" then key else reg.nodeId, role);
        m.clusterGroup == cg && m.managementGroup == mg && role in m.roles &&
        !(k in d.roleActual && !d.roleActual[k].Missing? && k in d.roleHealth && !d.roleHealth[k].Missing?))
  }

  lemma LostMeans(registry: Registry, cg: string, mg: string, d: GroupDocs)
    ensures AgentLost(registry, cg, mg, d) <==> SomeoneMissing(registry, cg, mg, d)
  {
    if k :| Expected(registry, cg, mg, k) && !Reports(d, k) {
      var key :| key in registry && ExpectedBy(key, registry[key], cg, mg, k);
      var i :| 0 <= i < |registry[key].doc.memberships| && Lists(registry[key].doc.memberships[i], cg, mg, k.role);
      assert MissingAt(registry, cg, mg, d, key, i, k.role);
    }
    if key, i, role :| MissingAt(registry, cg, mg, d, key, i, role) {
      var k := RoleKey(NodeOf(key, registry[key].doc), role);
      assert Lists(registry[key].doc.memberships[i], cg, mg, role);
      assert ExpectedBy(key, registry[key], cg, mg, k);
      assert Expected(registry, cg, mg, k) && !Reports(d, k);
    }
  }

  /** Exactly when a group is failed: an expected role of a managed group is missing, a role has failed,
      or some roles are active and some passive, with none on the way. */
  lemma FailedMeans(registry: Registry, cg: string, mg: string, d: GroupDocs)
    ensures GroupState(registry, cg, mg, d).state == ActualFailed <==>
      || (ReadDesired(d).managed && SomeoneMissing(registry, cg, mg, d))
      || Sees(d.roleActual, ActualFailed)
      || (Sees(d.roleActual, ActualActive) && Sees(d.roleActual, ActualPassive) &&
          !Sees(d.roleActual, ActualStarting) && !Sees(d.roleActual, ActualStopping))
  {
    hide Sees, AgentLost, SomeoneMissing, StartsLast;
    LostMeans(registry, cg, mg, d);
  }

  /** Nothing is lost or failed. */
  ghost predicate Intact(registry: Registry, cg: string, mg: string, d: GroupDocs) {
    !(ReadDesired(d).managed && SomeoneMissing(registry, cg, mg, d)) && !Sees(d.roleActual, ActualFailed)
  }

  /** Starting: of the roles on the way, one that is starting reported last, later than the zero time. */
  lemma StartingMeans(registry: Registry, cg: string, mg: string, d: GroupDocs)
    ensures GroupState(registry, cg, mg, d).state == ActualStarting <==>
      && Intact(registry, cg, mg, d) && Sees(d.roleActual, ActualStarting)
      && (Sees(d.roleActual, ActualStopping) ==>
            exists k :: InState(d.roleActual, k, ActualStarting) && d.roleActual[k].doc.updatedAt > 0 &&
              forall j | InState(d.roleActual, j, ActualStopping) :: d.roleActual[j].doc.updatedAt < d.roleActual[k].doc.updatedAt)
  {
    hide Sees, AgentLost, SomeoneMissing, InState;
    LostMeans(registry, cg, mg, d);
  }

  /** Stopping: of the roles on the way, one that is stopping reported last, or as late as any. */
  lemma StoppingMeans(registry: Registry, cg: string, mg: string, d: GroupDocs)
    ensures GroupState(registry, cg, mg, d).state == ActualStopping <==>
      && Intact(registry, cg, mg, d) && Sees(d.roleActual, ActualStopping)
      && forall k | InState(d.roleActual, k, ActualStarting) :: d.roleActual[k].doc.updatedAt <= 0 ||
           exists j :: InState(d.roleActual, j, ActualStopping) && d.roleActual[j].doc.updatedAt >= d.roleActual[k].doc.updatedAt
  {
    hide AgentLost, SomeoneMissing, InState;
    LostMeans(registry, cg, mg, d);
  }

  /** Passive: intact, and no role in any of the other states that the controller knows. */
  lemma PassiveMeans(registry: Registry, cg: string, mg: string, d: GroupDocs)
    ensures GroupState(registry, cg, mg, d).state == ActualPassive <==>
      Intact(registry, cg, mg, d) && forall s | s in {ActualActive, ActualStarting, ActualStopping} :: !Sees(d.roleActual, s)
  {
    hide Sees, AgentLost, SomeoneMissing, StartsLast;
    LostMeans(registry, cg, mg, d);
  }

  /** What is said with the state. */
  lemma DetailsMean(registry: Registry, cg: string, mg: string, d: GroupDocs)
    ensures var a := GroupState(registry, cg, mg, d);
      && (a.details == "agent lost" <==> ReadDesired(d).managed && SomeoneMissing(registry, cg, mg, d))
      && (a.details == "mixed active and passive roles" <==> a.state == ActualFailed && Intact(registry, cg, mg, d))
      && (a.details == "one or more roles are starting" <==> a.state == ActualStarting)
      && (a.details == "one or more roles are stopping" <==> a.state == ActualStopping)
      && (a.details == "" <==> a.state in {ActualActive, ActualPassive})
      && a.details in {"agent lost", "one or more roles are failed", "mixed active and passive roles",
                       "one or more roles are starting", "one or more roles are stopping", ""}
  {
    hide Sees, AgentLost, SomeoneMissing, StartsLast;
    LostMeans(registry, cg, mg, d);
  }

  /** What putting a group under management can do to its aggregate: nothing, or failed. */
  lemma ManagingOnlyFails(registry: Registry, cg: string, mg: string, d: GroupDocs, state: DesiredState)
    ensures GroupState(registry, cg, mg, WithDesired(d, state, true)).state in
      {GroupState(registry, cg, mg, d).state, ActualFailed}
  {}
}
