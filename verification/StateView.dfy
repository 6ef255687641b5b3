/** The view that the API gives of a snapshot of the tree. */
module StateView {
  import opened Model
  import opened Order
  import opened Paths
  import opened Tree
  import opened Store
  import opened Keys

  datatype RoleView = RoleView(id: string, actual: Option<Bytes>, health: Option<Bytes>)
  datatype NodeView = NodeView(id: string, roles: map<string, RoleView>)
  datatype ManagementGroupView = ManagementGroupView(
    id: string, config: Option<Bytes>, desired: Option<Bytes>, actual: Option<Bytes>, health: Option<Bytes>,
    nodes: map<string, NodeView>)
  datatype ClusterGroupView = ClusterGroupView(id: string, managementGroups: map<string, ManagementGroupView>)
  datatype ClusterView = ClusterView(id: string, groups: map<string, ClusterGroupView>)

  // ----- What the view of a tree is -----

  function ValueAt(v: View, p: Path): Option<Bytes> {
    if p in v && v[p] != [] then Some(v[p]) else None
  }

  function RoleAt(v: View, p: Path, role: string): RoleView {
    RoleView(role, ValueAt(v, p + [role, "actual"]), ValueAt(v, p + [role, "health"]))
  }

  /** The roles below p with a state or a health document, among the given names. */
  function RolesAmong(v: View, p: Path, among: set<string>): map<string, RoleView> {
    map r | r in among && !IsManagementSystemKey(r) && (RoleAt(v, p, r).actual.Some? || RoleAt(v, p, r).health.Some?)
      :: RoleAt(v, p, r)
  }

  function RolesAt(v: View, p: Path): map<string, RoleView> { RolesAmong(v, p, ChildNames(v, p)) }

  /** Some child has a node for a state or a health document below it. */
  predicate HoldsRoles(v: View, p: Path) {
    exists r <- ChildNames(v, p) :: !IsManagementSystemKey(r) && (p + [r, "actual"] in v || p + [r, "health"] in v)
  }

  function NodesAmong(v: View, p: Path, among: set<string>): map<string, NodeView> {
    map n | n in among && !IsManagementSystemKey(n) && HoldsRoles(v, p + [n]) :: NodeView(n, RolesAt(v, p + [n]))
  }

  /** The nodes of a management group: its children that hold roles, and the group itself if it does. */
  function NodesAt(v: View, p: Path, mg: string): map<string, NodeView> {
    var nodes := NodesAmong(v, p, ChildNames(v, p));
    if HoldsRoles(v, p) then nodes[mg := NodeView(mg, RolesAt(v, p))] else nodes
  }

  function ManagementGroupAt(v: View, p: Path, mg: string, config: Option<Bytes>): ManagementGroupView {
    ManagementGroupView(mg, config, ValueAt(v, p + ["desired"]), ValueAt(v, p + ["actual"]), ValueAt(v, p + ["health"]),
                        NodesAt(v, p, mg))
  }

  function ConfigAt(v: View, root: Path, cg: string, mg: string): Option<Bytes> {
    if mg == "_meta" then None else ValueAt(v, root + ["config", "cluster_groups", cg, mg])
  }

  function GroupsAmong(v: View, root: Path, cg: string, among: set<string>): map<string, ManagementGroupView> {
    map mg | mg in among && !IsManagementSystemKey(mg) ::
      ManagementGroupAt(v, root + [cg, mg], mg, ConfigAt(v, root, cg, mg))
  }

  function ClusterGroupAt(v: View, root: Path, cg: string): ClusterGroupView {
    ClusterGroupView(cg, GroupsAmong(v, root, cg, ChildNames(v, root + [cg])))
  }

  function ClusterGroupsAmong(v: View, root: Path, among: set<string>): map<string, ClusterGroupView> {
    map cg | cg in among && !IsSystemKey(cg) :: ClusterGroupAt(v, root, cg)
  }

  function ClusterAt(v: View, id: string): ClusterView {
    ClusterView(id, ClusterGroupsAmong(v, RootPath(id), ChildNames(v, RootPath(id))))
  }

  // One more name to visit.

  lemma RolesMore(v: View, p: Path, among: set<string>, r: string)
    ensures RolesAmong(v, p, among + {r}) ==
      if !IsManagementSystemKey(r) && (RoleAt(v, p, r).actual.Some? || RoleAt(v, p, r).health.Some?)
      then RolesAmong(v, p, among)[r := RoleAt(v, p, r)] else RolesAmong(v, p, among)
  {
    hide RoleAt;
  }

  lemma NodesMore(v: View, p: Path, among: set<string>, n: string)
    ensures NodesAmong(v, p, among + {n}) ==
      if !IsManagementSystemKey(n) && HoldsRoles(v, p + [n])
      then NodesAmong(v, p, among)[n := NodeView(n, RolesAt(v, p + [n]))] else NodesAmong(v, p, among)
  {
    hide RolesAt, HoldsRoles;
  }

  lemma GroupsMore(v: View, root: Path, cg: string, among: set<string>, mg: string)
    ensures GroupsAmong(v, root, cg, among + {mg}) ==
      if IsManagementSystemKey(mg) then GroupsAmong(v, root, cg, among)
      else GroupsAmong(v, root, cg, among)[mg := ManagementGroupAt(v, root + [cg, mg], mg, ConfigAt(v, root, cg, mg))]
  {
    hide ManagementGroupAt, ConfigAt;
  }

  lemma ClusterGroupsMore(v: View, root: Path, among: set<string>, cg: string)
    ensures ClusterGroupsAmong(v, root, among + {cg}) ==
      if IsSystemKey(cg) then ClusterGroupsAmong(v, root, among)
      else ClusterGroupsAmong(v, root, among)[cg := ClusterGroupAt(v, root, cg)]
  {
    hide ClusterGroupAt;
  }

  lemma NoneAmong(v: View, p: Path, cg: string)
    ensures RolesAmong(v, p, {}) == map[] && NodesAmong(v, p, {}) == map[]
    ensures GroupsAmong(v, p, cg, {}) == map[] && ClusterGroupsAmong(v, p, {}) == map[]
  {}

  // ----- Building it from the nodes of a snapshot -----

  /** The node of a child, if there is one. */
  method ChildOf(node: TreeNode?, name: string, ghost nodes: Nodes, ghost p: Path) returns (child: TreeNode?)
    requires IsTree(nodes, [])
    requires node == null <==> p !in nodes
    requires node != null ==> nodes[p] == node
    ensures child == null <==> p + [name] !in nodes
    ensures child != null ==> nodes[p + [name]] == child
  {
    InTree(nodes, p, name);
    if node == null || name !in node.children {
      return null;
    }
    return node.children[name];
  }

  /** How children and nodes by path relate. */
  lemma InTree(nodes: Nodes, p: Path, name: string)
    requires IsTree(nodes, [])
    ensures p + [name] in nodes ==> p in nodes && name in nodes[p].children
    ensures p in nodes && name in nodes[p].children ==> p + [name] in nodes && nodes[p + [name]] == nodes[p].children[name]
  {
    assert Child(p, name) == p + [name];
    ChildInit(p, name);
    if p + [name] in nodes { UpAt(nodes, LinksOf(nodes), [], p + [name]); }
    if p in nodes && name in nodes[p].children { DownAt(nodes, LinksOf(nodes), p, name); }
  }

  lemma ChildNamesOf(nodes: Nodes, p: Path)
    requires IsTree(nodes, []) && p in nodes
    ensures ChildNames(ViewOf(nodes), p) == nodes[p].children.Keys
  {
    hide Linked, Init, Last;
    forall name <- nodes[p].children ensures name in ChildNames(ViewOf(nodes), p) {
      InTree(nodes, p, name);
      ChildInit(p, name);
      assert p + [name] == Child(p, name);
      assert Child(p, name) in ViewOf(nodes);
    }
    forall q <- nodes | q != [] && Init(q) == p ensures Last(q) in nodes[p].children {
      InitChild(q);
      assert q == p + [Last(q)];
      InTree(nodes, p, Last(q));
    }
  }

  method ValueOf(node: TreeNode?, ghost nodes: Nodes, ghost p: Path) returns (value: Option<Bytes>)
    requires node == null <==> p !in nodes
    requires node != null ==> nodes[p] == node
    ensures value == ValueAt(ViewOf(nodes), p)
  {
    if node == null || |node.value| == 0 {
      return None;
    }
    return Some(node.value);
  }

  method ChildValue(node: TreeNode?, name: string, ghost nodes: Nodes, ghost p: Path) returns (value: Option<Bytes>)
    requires IsTree(nodes, [])
    requires node == null <==> p !in nodes
    requires node != null ==> nodes[p] == node
    ensures value == ValueAt(ViewOf(nodes), p + [name])
  {
    var child := ChildOf(node, name, nodes, p);
    value := ValueOf(child, nodes, p + [name]);
  }

  method BuildRole(role: string, node: TreeNode, ghost nodes: Nodes, ghost p: Path) returns (r: RoleView)
    requires IsTree(nodes, []) && p + [role] in nodes && nodes[p + [role]] == node
    ensures r == RoleAt(ViewOf(nodes), p, role)
  {
    hide IsTree;
    assert p + [role] + ["actual"] == p + [role, "actual"] && p + [role] + ["health"] == p + [role, "health"];
    var actual := ChildValue(node, "actual", nodes, p + [role]);
    var health := ChildValue(node, "health", nodes, p + [role]);
    r := RoleView(role, actual, health);
  }

  method BuildNode(id: string, node: TreeNode, ghost nodes: Nodes, ghost p: Path) returns (r: NodeView)
    requires IsTree(nodes, []) && p in nodes && nodes[p] == node
    ensures r == NodeView(id, RolesAt(ViewOf(nodes), p))
  {
    hide IsTree, RoleAt, ViewOf, ChildNames, IsManagementSystemKey, RolesAmong, Elements, SortedNames;
    ghost var v := ViewOf(nodes);
    var roles: map<string, RoleView> := map[];
    NoneAmong(v, p, "");
    ChildNamesOf(nodes, p);
    var names := Sort(node.children.Keys);
    ElementsEnds(node.children.Keys);
    for i := 0 to |names|
      invariant roles == RolesAmong(v, p, Elements(names[..i]))
    {
      ElementsMore(names, i);
      RolesMore(v, p, Elements(names[..i]), names[i]);
      InTree(nodes, p, names[i]);
      if !IsManagementSystemKey(names[i]) {
        var role := BuildRole(names[i], node.children[names[i]], nodes, p);
        if role.actual.Some? || role.health.Some? {
          roles := roles[names[i] := role];
        }
      }
    }
    r := NodeView(id, roles);
  }

  method LooksLikeRoleContainer(node: TreeNode, ghost nodes: Nodes, ghost p: Path) returns (r: bool)
    requires IsTree(nodes, []) && p in nodes && nodes[p] == node
    ensures r == HoldsRoles(ViewOf(nodes), p)
  {
    hide IsTree, IsManagementSystemKey, ChildNames, Leq, Sorted, SortedNames;
    ghost var v := ViewOf(nodes);
    ChildNamesOf(nodes, p);
    var names := Sort(node.children.Keys);
    SortedNamesOf(node.children.Keys);
    for i := 0 to |names|
      invariant forall j :: 0 <= j < i ==>
        IsManagementSystemKey(names[j]) || (p + [names[j], "actual"] !in v && p + [names[j], "health"] !in v)
    {
      assert names[i] in names;
      InTree(nodes, p, names[i]);
      if !IsManagementSystemKey(names[i]) {
        var role := node.children[names[i]];
        assert p + [names[i]] + ["actual"] == p + [names[i], "actual"] && p + [names[i]] + ["health"] == p + [names[i], "health"];
        var actual := ChildOf(role, "actual", nodes, p + [names[i]]);
        var health := ChildOf(role, "health", nodes, p + [names[i]]);
        if actual != null || health != null {
          return true;
        }
      }
    }
    return false;
  }

  method BuildManagementGroup(mg: string, node: TreeNode, config: Option<Bytes>, ghost nodes: Nodes, ghost p: Path)
    returns (r: ManagementGroupView)
    requires IsTree(nodes, []) && p in nodes && nodes[p] == node
    ensures r == ManagementGroupAt(ViewOf(nodes), p, mg, config)
  {
    hide IsTree, HoldsRoles, RolesAt, IsManagementSystemKey, ViewOf;
    var desired := ChildValue(node, "desired", nodes, p);
    var actual := ChildValue(node, "actual", nodes, p);
    var health := ChildValue(node, "health", nodes, p);
    var nodeViews := BuildNodes(mg, node, nodes, p);
    r := ManagementGroupView(mg, config, desired, actual, health, nodeViews);
  }

  /** The node views of a group: first its children, then the group itself over a child of its name. */
  method BuildNodes(mg: string, node: TreeNode, ghost nodes: Nodes, ghost p: Path) returns (r: map<string, NodeView>)
    requires IsTree(nodes, []) && p in nodes && nodes[p] == node
    ensures r == NodesAt(ViewOf(nodes), p, mg)
  {
    hide IsTree, HoldsRoles, RolesAt, IsManagementSystemKey, ViewOf, ChildNames, NodesAmong, Elements, SortedNames;
    ghost var v := ViewOf(nodes);
    r := map[];
    NoneAmong(v, p, "");
    ChildNamesOf(nodes, p);
    var names := Sort(node.children.Keys);
    ElementsEnds(node.children.Keys);
    for i := 0 to |names|
      invariant r == NodesAmong(v, p, Elements(names[..i]))
    {
      ElementsMore(names, i);
      NodesMore(v, p, Elements(names[..i]), names[i]);
      InTree(nodes, p, names[i]);
      if !IsManagementSystemKey(names[i]) {
        var child := node.children[names[i]];
        var container := LooksLikeRoleContainer(child, nodes, p + [names[i]]);
        if container {
          var view := BuildNode(names[i], child, nodes, p + [names[i]]);
          r := r[names[i] := view];
        }
      }
    }
    var container := LooksLikeRoleContainer(node, nodes, p);
    if container {
      var view := BuildNode(mg, node, nodes, p);
      r := r[mg := view];
    }
  }

  method BuildClusterGroup(cg: string, node: TreeNode, configs: TreeNode?, ghost nodes: Nodes, ghost root: Path)
    returns (r: ClusterGroupView)
    requires IsTree(nodes, []) && root + [cg] in nodes && nodes[root + [cg]] == node
    requires configs == null <==> root + ["config", "cluster_groups", cg] !in nodes
    requires configs != null ==> nodes[root + ["config", "cluster_groups", cg]] == configs
    ensures r == ClusterGroupAt(ViewOf(nodes), root, cg)
  {
    hide IsTree, IsManagementSystemKey, ManagementGroupAt, ViewOf, ChildNames, ConfigAt, GroupsAmong, Elements, SortedNames;
    ghost var v, p := ViewOf(nodes), root + [cg];
    var groups: map<string, ManagementGroupView> := map[];
    NoneAmong(v, root, cg);
    ChildNamesOf(nodes, p);
    var names := Sort(node.children.Keys);
    ElementsEnds(node.children.Keys);
    for i := 0 to |names|
      invariant groups == GroupsAmong(v, root, cg, Elements(names[..i]))
    {
      ElementsMore(names, i);
      GroupsMore(v, root, cg, Elements(names[..i]), names[i]);
      InTree(nodes, p, names[i]);
      assert p + [names[i]] == root + [cg, names[i]];
      if !IsManagementSystemKey(names[i]) {
        var config := ConfigOf(configs, names[i], nodes, root, cg);
        var group := BuildManagementGroup(names[i], node.children[names[i]], config, nodes, root + [cg, names[i]]);
        groups := groups[names[i] := group];
      }
    }
    r := ClusterGroupView(cg, groups);
  }

  method ConfigOf(configs: TreeNode?, mg: string, ghost nodes: Nodes, ghost root: Path, ghost cg: string) returns (config: Option<Bytes>)
    requires IsTree(nodes, [])
    requires configs == null <==> root + ["config", "cluster_groups", cg] !in nodes
    requires configs != null ==> nodes[root + ["config", "cluster_groups", cg]] == configs
    ensures config == ConfigAt(ViewOf(nodes), root, cg, mg)
  {
    hide IsTree;
    if mg == "_meta" {
      return None;
    }
    assert root + ["config", "cluster_groups", cg] + [mg] == root + ["config", "cluster_groups", cg, mg];
    config := ChildValue(configs, mg, nodes, root + ["config", "cluster_groups", cg]);
  }

  /** The groups of the cluster, as served by the API. */
  method BuildStateView(id: string, root: TreeNode, ghost nodes: Nodes) returns (r: ClusterView)
    requires IsTree(nodes, []) && nodes[[]] == root
    ensures r == ClusterAt(ViewOf(nodes), id)
  {
    hide IsTree, IsSystemKey, ClusterGroupAt, ViewOf, ChildNames, ClusterGroupsAmong, Elements, SortedNames;
    ghost var v, rp := ViewOf(nodes), RootPath(id);
    RootThere(nodes);
    assert [] + [id] == [id] && [id] + ["cluster"] == rp;
    var clusterRoot := ChildOf(root, id, nodes, []);
    var clusterNode := ChildOf(clusterRoot, "cluster", nodes, [id]);
    var groups: map<string, ClusterGroupView> := map[];
    NoneAmong(v, rp, "");
    if clusterNode == null {
      NoChildrenAt(nodes, rp);
      return ClusterView(id, map[]);
    }
    var configRoot := ChildOf(clusterNode, "config", nodes, rp);
    assert rp + ["config"] + ["cluster_groups"] == rp + ["config", "cluster_groups"];
    var allConfigs := ChildOf(configRoot, "cluster_groups", nodes, rp + ["config"]);
    ChildNamesOf(nodes, rp);
    var names := Sort(clusterNode.children.Keys);
    ElementsEnds(clusterNode.children.Keys);
    for i := 0 to |names|
      invariant groups == ClusterGroupsAmong(v, rp, Elements(names[..i]))
    {
      ElementsMore(names, i);
      ClusterGroupsMore(v, rp, Elements(names[..i]), names[i]);
      InTree(nodes, rp, names[i]);
      if !IsSystemKey(names[i]) {
        assert rp + ["config", "cluster_groups"] + [names[i]] == rp + ["config", "cluster_groups", names[i]];
        var configs := ChildOf(allConfigs, names[i], nodes, rp + ["config", "cluster_groups"]);
        var group := BuildClusterGroup(names[i], clusterNode.children[names[i]], configs, nodes, rp);
        groups := groups[names[i] := group];
      }
    }
    r := ClusterView(id, groups);
  }

  lemma RootThere(nodes: Nodes)
    requires IsTree(nodes, [])
    ensures [] in nodes
  {}

  lemma NoChildrenAt(nodes: Nodes, p: Path)
    requires IsTree(nodes, []) && p !in nodes
    ensures ChildNames(ViewOf(nodes), p) == {}
  {
    forall q <- nodes | q != [] ensures Init(q) != p { UpAt(nodes, LinksOf(nodes), [], q); }
  }

  // ----- Round trip -----

  predicate Shown(view: ClusterView, cg: string, mg: string, node: string, role: string) {
    && cg in view.groups && mg in view.groups[cg].managementGroups
    && node in view.groups[cg].managementGroups[mg].nodes
    && role in view.groups[cg].managementGroups[mg].nodes[node].roles
  }

  ghost predicate Stored(v: View, id: string, e: Entity) {
    WellNamed(e) && PathFor(id, e) in Flat(v)
  }

  /** Everything stored was stored under the key of some entity. */
  ghost predicate SchemaOnly(v: View, id: string) {
    Closed(v) && forall p <- Flat(v) :: exists e :: WellNamed(e) && p == PathFor(id, e)
  }

  lemma ChildOfClosed(v: View, p: Path, name: string)
    requires Closed(v) && p + [name] in v
    ensures p in v && name in ChildNames(v, p)
  {
    assert Init(p + [name]) == p && Last(p + [name]) == name;
  }

  /** Who can own a document below the children of a cluster group. */
  lemma OwnerBelow(v: View, id: string, below: Path)
    requires SchemaOnly(v, id) && RootPath(id) + below in Flat(v)
    ensures exists e :: WellNamed(e) && Below(e) == below
  {
    var e :| WellNamed(e) && RootPath(id) + below == PathFor(id, e);
    assert PathFor(id, e)[2..] == Below(e) && (RootPath(id) + below)[2..] == below;
  }

  lemma RoleOwner(e: Entity, cg: string, mg: string, node: string, role: string, leaf: string)
    requires WellNamed(e) && leaf in {"actual", "health"} && !IsSystemKey(cg)
    requires node != mg && Below(e) == [cg, mg, node, role, leaf]
    ensures e == if leaf == "actual" then ERoleActual(cg, mg, node, role) else ERoleHealth(cg, mg, node, role)
  {
    var b := Below(e);
    assert b[0] == cg && b[1] == mg && b[2] == node && b[3] == role && b[4] == leaf && |b| == 5;
  }

  lemma CollapsedRoleOwner(e: Entity, cg: string, mg: string, role: string, leaf: string)
    requires WellNamed(e) && leaf in {"actual", "health"} && !IsSystemKey(cg)
    requires Below(e) == [cg, mg, role, leaf]
    ensures e == if leaf == "actual" then ERoleActual(cg, mg, mg, role) else ERoleHealth(cg, mg, mg, role)
  {
    var b := Below(e);
    assert b[0] == cg && b[1] == mg && b[2] == role && b[3] == leaf && |b| == 4;
  }

  lemma DoubledNode(e: Entity, cg: string, mg: string, role: string, leaf: string)
    requires WellNamed(e) && !IsSystemKey(cg)
    ensures Below(e) != [cg, mg, mg, role, leaf]
  {
    var b := Below(e);
    assert |b| == 5 ==> b[1] != b[2];
  }

  /** A document of a role that is stored shows the role, at the node it was stored for. */
  lemma StoredIsShown(v: View, id: string, cg: string, mg: string, node: string, role: string)
    requires Closed(v)
    requires Stored(v, id, ERoleActual(cg, mg, node, role)) || Stored(v, id, ERoleHealth(cg, mg, node, role))
    ensures Shown(ClusterAt(v, id), cg, mg, node, role)
  {
    hide *;
    StoredLeaf(v, id, cg, mg, node, role);
    NamesOnTheWay(v, RootPath(id), cg, mg, node);
    ShownWhere(v, id, cg, mg, node, role);
  }

  lemma NamesOnTheWay(v: View, rp: Path, cg: string, mg: string, node: string)
    requires Closed(v) && rp + NodePath(cg, mg, node) in v
    ensures cg in ChildNames(v, rp) && mg in ChildNames(v, rp + [cg]) && (node != mg ==> node in ChildNames(v, rp + [cg, mg]))
    ensures rp + NodePath(cg, mg, node) == if node == mg then rp + [cg, mg] else rp + [cg, mg] + [node]
  {
    hide Closed, ChildNames;
    var p := rp + [cg, mg];
    assert rp + NodePath(cg, mg, node) == if node == mg then p else p + [node];
    if node != mg { ChildOfClosed(v, p, node); }
    assert p == rp + [cg] + [mg];
    ChildOfClosed(v, rp + [cg], mg);
    ChildOfClosed(v, rp, cg);
  }

  lemma ShownWhere(v: View, id: string, cg: string, mg: string, node: string, role: string)
    requires var rp := RootPath(id);
      && cg in ChildNames(v, rp) && mg in ChildNames(v, rp + [cg]) && (node != mg ==> node in ChildNames(v, rp + [cg, mg]))
      && (var np := if node == mg then rp + [cg, mg] else rp + [cg, mg] + [node]; HoldsRoles(v, np) && role in RolesAt(v, np))
    requires !IsSystemKey(cg) && !IsManagementSystemKey(mg) && !IsManagementSystemKey(node)
    ensures Shown(ClusterAt(v, id), cg, mg, node, role)
  {
    hide HoldsRoles, RolesAt, IsManagementSystemKey, IsSystemKey, ChildNames, RootPath, NodesAt;
    NodeIsShown(v, RootPath(id) + [cg, mg], mg, node, role);
  }

  /** The role holds the node of its path. */
  lemma StoredLeaf(v: View, id: string, cg: string, mg: string, node: string, role: string)
    requires Closed(v)
    requires Stored(v, id, ERoleActual(cg, mg, node, role)) || Stored(v, id, ERoleHealth(cg, mg, node, role))
    ensures var np := RootPath(id) + NodePath(cg, mg, node); np in v && HoldsRoles(v, np) && role in RolesAt(v, np)
    ensures !IsSystemKey(cg) && !IsManagementSystemKey(mg) && !IsManagementSystemKey(node)
  {
    hide Closed, ChildNames, IsName;
    var leaf := if Stored(v, id, ERoleActual(cg, mg, node, role)) then "actual" else "health";
    var np := RootPath(id) + NodePath(cg, mg, node);
    assert RootPath(id) + (NodePath(cg, mg, node) + [role, leaf]) == np + [role] + [leaf];
    assert np + [role] + [leaf] == np + [role, leaf];
    ChildOfClosed(v, np + [role], leaf);
    ChildOfClosed(v, np, role);
  }

  lemma NodeIsShown(v: View, p: Path, mg: string, node: string, role: string)
    requires var np := if node == mg then p else p + [node]; HoldsRoles(v, np) && role in RolesAt(v, np)
    requires node != mg ==> node in ChildNames(v, p) && !IsManagementSystemKey(node)
    ensures node in NodesAt(v, p, mg) && role in NodesAt(v, p, mg)[node].roles
  {
    hide HoldsRoles, RolesAt, IsManagementSystemKey, ChildNames;
  }

  /** A role that is shown has a document stored, for that node of that group and no other. */
  lemma {:induction false} ShownIsStored(v: View, id: string, cg: string, mg: string, node: string, role: string)
    requires SchemaOnly(v, id) && Shown(ClusterAt(v, id), cg, mg, node, role)
    ensures Stored(v, id, ERoleActual(cg, mg, node, role)) || Stored(v, id, ERoleHealth(cg, mg, node, role))
  {
    hide SchemaOnly, HoldsRoles, ChildNames, RoleAt, Below;
    ShownAt(v, id, cg, mg, node, role);
    var rp := RootPath(id);
    var p := rp + [cg, mg];
    var at := if node == mg && HoldsRoles(v, p) then p else p + [node];
    var leaf := RoleLeaf(v, at, role);
    var below := if at == p then [cg, mg, role, leaf] else [cg, mg, node, role, leaf];
    assert at + [role, leaf] == rp + below;
    OwnerBelow(v, id, below);
    var e :| WellNamed(e) && Below(e) == below;
    if at == p {
      CollapsedRoleOwner(e, cg, mg, role, leaf);
    } else if node == mg {
      DoubledNode(e, cg, mg, role, leaf);
      assert false;
    } else {
      RoleOwner(e, cg, mg, node, role, leaf);
    }
  }

  /** Where the documents of a role that is shown must be. */
  lemma {:induction false} ShownAt(v: View, id: string, cg: string, mg: string, node: string, role: string)
    requires Shown(ClusterAt(v, id), cg, mg, node, role)
    ensures var p := RootPath(id) + [cg, mg];
      && !IsSystemKey(cg)
      && role in RolesAt(v, if node == mg && HoldsRoles(v, p) then p else p + [node])
      && ClusterAt(v, id).groups[cg].managementGroups[mg].nodes[node].roles
         == RolesAt(v, if node == mg && HoldsRoles(v, p) then p else p + [node])
  {
    hide HoldsRoles, RolesAt, ChildNames, IsManagementSystemKey;
  }

  lemma RoleLeaf(v: View, at: Path, role: string) returns (leaf: string)
    requires role in RolesAt(v, at)
    ensures leaf in {"actual", "health"} && at + [role, leaf] in Flat(v)
  {
    hide ChildNames;
    leaf := if RoleAt(v, at, role).actual.Some? then "actual" else "health";
  }

  /** Round trip: the view shows role r at node n of a group exactly when a document of r was stored
      under the key built for just that node and group, the collapsed layout included. */
  lemma ViewRoundTrip(v: View, id: string, cg: string, mg: string, node: string, role: string)
    requires SchemaOnly(v, id)
    ensures Shown(ClusterAt(v, id), cg, mg, node, role) <==>
      Stored(v, id, ERoleActual(cg, mg, node, role)) || Stored(v, id, ERoleHealth(cg, mg, node, role))
  {
    if Shown(ClusterAt(v, id), cg, mg, node, role) { ShownIsStored(v, id, cg, mg, node, role); }
    if Stored(v, id, ERoleActual(cg, mg, node, role)) || Stored(v, id, ERoleHealth(cg, mg, node, role)) {
      StoredIsShown(v, id, cg, mg, node, role);
    }
  }

  /** The documents shown with a role are the ones stored for it. */
  lemma {:induction false} ViewValues(v: View, id: string, cg: string, mg: string, node: string, role: string)
    requires SchemaOnly(v, id) && Shown(ClusterAt(v, id), cg, mg, node, role)
    ensures var r := ClusterAt(v, id).groups[cg].managementGroups[mg].nodes[node].roles[role];
      && r.actual == ValueAt(v, PathFor(id, ERoleActual(cg, mg, node, role)))
      && r.health == ValueAt(v, PathFor(id, ERoleHealth(cg, mg, node, role)))
  {
    hide SchemaOnly, HoldsRoles, ChildNames, IsManagementSystemKey, RolesAt, ClusterAt, WellNamed, ValueAt;
    ShownIsStored(v, id, cg, mg, node, role);
    ShownAt(v, id, cg, mg, node, role);
    var p := RootPath(id) + [cg, mg];
    var np := RootPath(id) + NodePath(cg, mg, node);
    if node == mg { RoleHolds(v, id, cg, mg, role); }
    assert np == if node == mg then p else p + [node];
    RolesAtIs(v, np, role);
    assert np + [role, "actual"] == PathFor(id, ERoleActual(cg, mg, node, role));
    assert np + [role, "health"] == PathFor(id, ERoleHealth(cg, mg, node, role));
  }

  lemma RolesAtIs(v: View, p: Path, role: string)
    requires role in RolesAt(v, p)
    ensures RolesAt(v, p)[role] == RoleAt(v, p, role)
  {
    hide ChildNames;
  }

  lemma RoleHolds(v: View, id: string, cg: string, mg: string, role: string)
    requires SchemaOnly(v, id)
    requires Stored(v, id, ERoleActual(cg, mg, mg, role)) || Stored(v, id, ERoleHealth(cg, mg, mg, role))
    ensures HoldsRoles(v, RootPath(id) + [cg, mg])
  {
    hide Stored, HoldsRoles, RolesAt;
    StoredLeaf(v, id, cg, mg, mg, role);
  }

  /** The groups shown are those with a node of their own below a cluster group, whatever it holds. */
  lemma GroupIsShown(v: View, id: string, cg: string, mg: string)
    requires Closed(v)
    ensures var view := ClusterAt(v, id);
      cg in view.groups && mg in view.groups[cg].managementGroups <==>
      RootPath(id) + [cg, mg] in v && mg !in {"desired", "actual", "health"} &&
      cg !in {"leadership", "commands", "commands_history", "registry", "session", "config"}
  {
    hide ManagementGroupAt;
    assert IsSystemKey(cg) <==> cg in {"leadership", "commands", "commands_history", "registry", "session", "config"};
    assert IsManagementSystemKey(mg) <==> mg in {"desired", "actual", "health"};
    hide IsSystemKey, IsManagementSystemKey;
    var rp := RootPath(id);
    assert rp + [cg, mg] == rp + [cg] + [mg];
    if rp + [cg, mg] in v {
      ChildOfClosed(v, rp + [cg], mg);
      ChildOfClosed(v, rp, cg);
    }
    if mg in ChildNames(v, rp + [cg]) {
      var q :| q in v && q != [] && Init(q) == rp + [cg] && Last(q) == mg;
      assert q == Init(q) + [Last(q)];
    }
  }

  /** A group is shown with the documents stored under its keys. */
  lemma GroupValues(v: View, id: string, cg: string, mg: string)
    requires var view := ClusterAt(v, id); cg in view.groups && mg in view.groups[cg].managementGroups
    ensures var group := ClusterAt(v, id).groups[cg].managementGroups[mg];
      && group.id == mg && ClusterAt(v, id).groups[cg].id == cg && ClusterAt(v, id).id == id
      && group.desired == ValueAt(v, PathFor(id, EDesired(cg, mg)))
      && group.actual == ValueAt(v, PathFor(id, EActual(cg, mg)))
      && group.health == ValueAt(v, PathFor(id, EHealth(cg, mg)))
      && (mg != "_meta" ==> group.config == ValueAt(v, PathFor(id, EManagementGroupConfig(cg, mg))))
      && (mg == "_meta" ==> group.config == None)
  {
    hide ValueAt, NodesAt, ChildNames, IsSystemKey, IsManagementSystemKey;
    var rp := RootPath(id);
    assert rp + [cg, mg] + ["desired"] == rp + [cg, mg, "desired"];
    assert rp + [cg, mg] + ["actual"] == rp + [cg, mg, "actual"];
    assert rp + [cg, mg] + ["health"] == rp + [cg, mg, "health"];
  }
}
