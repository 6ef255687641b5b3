/** The key schema: the builders of every key, and the paths they build. */
module Keys {
  import opened Model
  import opened Paths

  // ----- Builders -----

  function Root(id: string): (r: string)
    ensures Rooted(r)
  {
    JoinPath(["/", id, "cluster"])
  }

  function Leadership(id: string): string { JoinPath([Root(id), "leadership"]) }

  function RegistryRoot(id: string): (r: string) ensures Rooted(r) { JoinPath([Root(id), "registry"]) }

  function Registry(id: string, node: string): string { JoinPath([RegistryRoot(id), node]) }

  function SessionRoot(id: string): (r: string) ensures Rooted(r) { JoinPath([Root(id), "session"]) }

  function Session(id: string, node: string): string { JoinPath([SessionRoot(id), node]) }

  function ConfigRoot(id: string): (r: string) ensures Rooted(r) { JoinPath([Root(id), "config"]) }

  function ConfigMeta(id: string): string { JoinPath([ConfigRoot(id), "_meta"]) }

  function ConfigNodeRoot(id: string): (r: string) ensures Rooted(r) { JoinPath([ConfigRoot(id), "nodes"]) }

  function ConfigNode(id: string, node: string): string { JoinPath([ConfigNodeRoot(id), node]) }

  function ConfigRoleRoot(id: string): (r: string) ensures Rooted(r) { JoinPath([ConfigRoot(id), "roles"]) }

  function ConfigRole(id: string, role: string): string { JoinPath([ConfigRoleRoot(id), role]) }

  function ConfigClusterGroupRoot(id: string): (r: string)
    ensures Rooted(r)
  {
    JoinPath([ConfigRoot(id), "cluster_groups"])
  }

  function ConfigClusterGroupMeta(id: string, cg: string): string {
    JoinPath([ConfigClusterGroupRoot(id), cg, "_meta"])
  }

  function ManagementGroupConfig(id: string, cg: string, mg: string): string {
    JoinPath([ConfigClusterGroupRoot(id), cg, mg])
  }

  function ClusterGroup(id: string, cg: string): (r: string) ensures Rooted(r) { JoinPath([Root(id), cg]) }

  function ManagementGroup(id: string, cg: string, mg: string): (r: string)
    ensures Rooted(r)
  {
    JoinPath([ClusterGroup(id, cg), mg])
  }

  function Desired(id: string, cg: string, mg: string): string { JoinPath([ManagementGroup(id, cg, mg), "desired"]) }

  function Actual(id: string, cg: string, mg: string): string { JoinPath([ManagementGroup(id, cg, mg), "actual"]) }

  function Health(id: string, cg: string, mg: string): string { JoinPath([ManagementGroup(id, cg, mg), "health"]) }

  /** A node named like its management group is not spelled out. */
  function Node(id: string, cg: string, mg: string, node: string): (r: string)
    ensures Rooted(r)
  {
    if mg == node then ManagementGroup(id, cg, mg) else JoinPath([ManagementGroup(id, cg, mg), node])
  }

  function Role(id: string, cg: string, mg: string, node: string, role: string): (r: string)
    ensures Rooted(r)
  {
    JoinPath([Node(id, cg, mg, node), role])
  }

  function RoleActual(id: string, cg: string, mg: string, node: string, role: string): string {
    JoinPath([Role(id, cg, mg, node, role), "actual"])
  }

  function RoleHealth(id: string, cg: string, mg: string, node: string, role: string): string {
    JoinPath([Role(id, cg, mg, node, role), "health"])
  }

  function CommandsKey(id: string): (r: string) ensures Rooted(r) { JoinPath([Root(id), "commands"]) }

  function CommandKey(id: string, command: string): string { JoinPath([CommandsKey(id), command]) }

  function CommandHistoryKey(id: string, command: string): string {
    JoinPath([Root(id), "commands_history", command])
  }

  // ----- Entities -----

  /** Whatever is stored under a key of its own. */
  datatype Entity =
    | ELeadership
    | ERegistry(node: string)
    | ESession(node: string)
    | EConfigMeta
    | EConfigNode(node: string)
    | EConfigRole(role: string)
    | EConfigClusterGroupMeta(cg: string)
    | EManagementGroupConfig(cg: string, mg: string)
    | EDesired(cg: string, mg: string)
    | EActual(cg: string, mg: string)
    | EHealth(cg: string, mg: string)
    | ERoleActual(cg: string, mg: string, node: string, role: string)
    | ERoleHealth(cg: string, mg: string, node: string, role: string)
    | ECommand(command: string)
    | ECommandHistory(command: string)

  predicate IsManagementSystemKey(name: string) {
    name in {"desired", "actual", "health"}
  }

  predicate ClusterGroupName(cg: string) { IsName(cg) && !IsSystemKey(cg) }

  predicate MemberName(name: string) { IsName(name) && !IsManagementSystemKey(name) }

  /** Names an entity may carry: none that the schema uses itself at the same place. */
  predicate WellNamed(e: Entity) {
    match e
    case ELeadership => true
    case ERegistry(node) => IsName(node)
    case ESession(node) => IsName(node)
    case EConfigMeta => true
    case EConfigNode(node) => IsName(node)
    case EConfigRole(role) => IsName(role)
    case EConfigClusterGroupMeta(cg) => IsName(cg)
    case EManagementGroupConfig(cg, mg) => IsName(cg) && IsName(mg) && mg != "_meta"
    case EDesired(cg, mg) => ClusterGroupName(cg) && MemberName(mg)
    case EActual(cg, mg) => ClusterGroupName(cg) && MemberName(mg)
    case EHealth(cg, mg) => ClusterGroupName(cg) && MemberName(mg)
    case ERoleActual(cg, mg, node, role) =>
      ClusterGroupName(cg) && MemberName(mg) && MemberName(node) && MemberName(role)
    case ERoleHealth(cg, mg, node, role) =>
      ClusterGroupName(cg) && MemberName(mg) && MemberName(node) && MemberName(role)
    case ECommand(command) => IsName(command)
    case ECommandHistory(command) => IsName(command)
  }

  function KeyFor(id: string, e: Entity): string {
    match e
    case ELeadership => Leadership(id)
    case ERegistry(node) => Registry(id, node)
    case ESession(node) => Session(id, node)
    case EConfigMeta => ConfigMeta(id)
    case EConfigNode(node) => ConfigNode(id, node)
    case EConfigRole(role) => ConfigRole(id, role)
    case EConfigClusterGroupMeta(cg) => ConfigClusterGroupMeta(id, cg)
    case EManagementGroupConfig(cg, mg) => ManagementGroupConfig(id, cg, mg)
    case EDesired(cg, mg) => Desired(id, cg, mg)
    case EActual(cg, mg) => Actual(id, cg, mg)
    case EHealth(cg, mg) => Health(id, cg, mg)
    case ERoleActual(cg, mg, node, role) => RoleActual(id, cg, mg, node, role)
    case ERoleHealth(cg, mg, node, role) => RoleHealth(id, cg, mg, node, role)
    case ECommand(command) => CommandKey(id, command)
    case ECommandHistory(command) => CommandHistoryKey(id, command)
  }

  // ----- Paths -----

  function RootPath(id: string): Path { [id, "cluster"] }

  function NodePath(cg: string, mg: string, node: string): Path {
    if mg == node then [cg, mg] else [cg, mg, node]
  }

  /** The path of an entity below the cluster root. */
  function Below(e: Entity): Path {
    match e
    case ELeadership => ["leadership"]
    case ERegistry(node) => ["registry", node]
    case ESession(node) => ["session", node]
    case EConfigMeta => ["config", "_meta"]
    case EConfigNode(node) => ["config", "nodes", node]
    case EConfigRole(role) => ["config", "roles", role]
    case EConfigClusterGroupMeta(cg) => ["config", "cluster_groups", cg, "_meta"]
    case EManagementGroupConfig(cg, mg) => ["config", "cluster_groups", cg, mg]
    case EDesired(cg, mg) => [cg, mg, "desired"]
    case EActual(cg, mg) => [cg, mg, "actual"]
    case EHealth(cg, mg) => [cg, mg, "health"]
    case ERoleActual(cg, mg, node, role) => NodePath(cg, mg, node) + [role, "actual"]
    case ERoleHealth(cg, mg, node, role) => NodePath(cg, mg, node) + [role, "health"]
    case ECommand(command) => ["commands", command]
    case ECommandHistory(command) => ["commands_history", command]
  }

  function PathFor(id: string, e: Entity): Path { RootPath(id) + Below(e) }

  lemma PathNames(id: string, e: Entity)
    requires IsName(id) && WellNamed(e)
    ensures AllNames(PathFor(id, e))
  {
    assert IsName("cluster");
    BelowNames(e);
    hide IsName, Below;
  }

  lemma BelowNames(e: Entity)
    requires WellNamed(e)
    ensures AllNames(Below(e))
  {
    FixedNames();
    hide IsName, IsSystemKey, IsManagementSystemKey;
  }

  lemma FixedNames()
    ensures forall n <- ["leadership", "registry", "session", "config", "_meta", "nodes", "roles", "cluster_groups",
                         "desired", "actual", "health", "commands", "commands_history"] :: IsName(n)
  {}

  // ----- Builders build paths -----

  lemma RootKey(id: string)
    requires IsName(id)
    ensures Root(id) == KeyOf(RootPath(id))
  {
    JoinShort("");
    assert KeyOf([]) == "/";
    assert ["/", id, "cluster"] == [KeyOf([])] + [id, "cluster"];
    JoinBelow([], [id, "cluster"]);
    assert [] + [id, "cluster"] == RootPath(id);
  }

  /** One builder step: joining names to the key of a path. */
  lemma Step(key: string, p: Path, names: Path)
    requires key == KeyOf(p) && AllNames(p) && AllNames(names) && names != []
    ensures Rooted(key) && JoinPath([key] + names) == KeyOf(p + names)
    ensures AllNames(p + names)
  {
    JoinBelow(p, names);
  }

  lemma Step1(key: string, p: Path, name: string)
    requires key == KeyOf(p) && AllNames(p) && IsName(name)
    ensures Rooted(key) && JoinPath([key, name]) == KeyOf(p + [name])
    ensures AllNames(p + [name])
  {
    Step(key, p, [name]);
    assert [key] + [name] == [key, name];
  }

  lemma Step2(key: string, p: Path, name: string, name': string)
    requires key == KeyOf(p) && AllNames(p) && IsName(name) && IsName(name')
    ensures Rooted(key) && JoinPath([key, name, name']) == KeyOf(p + [name, name'])
  {
    Step(key, p, [name, name']);
    assert [key] + [name, name'] == [key, name, name'];
  }

  lemma ManagementGroupKey(id: string, cg: string, mg: string)
    requires IsName(id) && IsName(cg) && IsName(mg)
    ensures ManagementGroup(id, cg, mg) == KeyOf(RootPath(id) + [cg, mg]) && AllNames(RootPath(id) + [cg, mg])
  {
    RootKey(id);
    Step1(Root(id), RootPath(id), cg);
    Step1(ClusterGroup(id, cg), RootPath(id) + [cg], mg);
    assert RootPath(id) + [cg] + [mg] == RootPath(id) + [cg, mg];
  }

  lemma UnderManagementGroup(id: string, cg: string, mg: string, name: string)
    requires IsName(id) && IsName(cg) && IsName(mg) && IsName(name)
    ensures JoinPath([ManagementGroup(id, cg, mg), name]) == KeyOf(RootPath(id) + [cg, mg, name])
  {
    ManagementGroupKey(id, cg, mg);
    Step1(ManagementGroup(id, cg, mg), RootPath(id) + [cg, mg], name);
    assert RootPath(id) + [cg, mg] + [name] == RootPath(id) + [cg, mg, name];
  }

  lemma UnderRole(id: string, cg: string, mg: string, node: string, role: string, name: string)
    requires IsName(id) && IsName(cg) && IsName(mg) && IsName(node) && IsName(role) && IsName(name)
    ensures JoinPath([Role(id, cg, mg, node, role), name]) == KeyOf(RootPath(id) + (NodePath(cg, mg, node) + [role, name]))
  {
    ManagementGroupKey(id, cg, mg);
    var base := RootPath(id) + NodePath(cg, mg, node);
    if mg != node {
      Step1(ManagementGroup(id, cg, mg), RootPath(id) + [cg, mg], node);
      assert RootPath(id) + [cg, mg] + [node] == base;
    }
    assert Node(id, cg, mg, node) == KeyOf(base) && AllNames(base);
    Step1(Node(id, cg, mg, node), base, role);
    Step1(Role(id, cg, mg, node, role), base + [role], name);
    assert base + [role] + [name] == RootPath(id) + (NodePath(cg, mg, node) + [role, name]);
  }

  lemma UnderRoot(id: string, a: string, b: string)
    requires IsName(id) && IsName(a) && IsName(b)
    ensures JoinPath([JoinPath([Root(id), a]), b]) == KeyOf(RootPath(id) + [a, b])
    ensures JoinPath([Root(id), a, b]) == KeyOf(RootPath(id) + [a, b])
  {
    RootKey(id);
    Step1(Root(id), RootPath(id), a);
    Step1(JoinPath([Root(id), a]), RootPath(id) + [a], b);
    Step2(Root(id), RootPath(id), a, b);
    assert RootPath(id) + [a] + [b] == RootPath(id) + [a, b];
  }

  lemma UnderConfig(id: string, kind: string, name: string)
    requires IsName(id) && IsName(kind) && IsName(name)
    ensures JoinPath([JoinPath([ConfigRoot(id), kind]), name]) == KeyOf(RootPath(id) + ["config", kind, name])
    ensures AllNames(RootPath(id) + ["config", kind])
    ensures JoinPath([ConfigRoot(id), kind]) == KeyOf(RootPath(id) + ["config", kind])
  {
    RootKey(id);
    Step1(Root(id), RootPath(id), "config");
    Step1(ConfigRoot(id), RootPath(id) + ["config"], kind);
    assert RootPath(id) + ["config"] + [kind] == RootPath(id) + ["config", kind];
    Step1(JoinPath([ConfigRoot(id), kind]), RootPath(id) + ["config", kind], name);
    assert RootPath(id) + ["config", kind] + [name] == RootPath(id) + ["config", kind, name];
  }

  lemma UnderClusterGroups(id: string, cg: string, name: string)
    requires IsName(id) && IsName(cg) && IsName(name)
    ensures JoinPath([ConfigClusterGroupRoot(id), cg, name]) == KeyOf(RootPath(id) + ["config", "cluster_groups", cg, name])
  {
    UnderConfig(id, "cluster_groups", cg);
    Step2(ConfigClusterGroupRoot(id), RootPath(id) + ["config", "cluster_groups"], cg, name);
    assert RootPath(id) + ["config", "cluster_groups"] + [cg, name] == RootPath(id) + ["config", "cluster_groups", cg, name];
  }

  /** Every builder yields the canonical key of its entity's path. */
  lemma {:induction false} KeyForPath(id: string, e: Entity)
    requires IsName(id) && WellNamed(e)
    ensures KeyFor(id, e) == KeyOf(PathFor(id, e))
    ensures AllNames(PathFor(id, e))
  {
    hide JoinPath, KeyOf;
    PathNames(id, e);
    match e
    case ELeadership =>
      RootKey(id);
      Step1(Root(id), RootPath(id), "leadership");
    case ERegistry(node) => UnderRoot(id, "registry", node);
    case ESession(node) => UnderRoot(id, "session", node);
    case EConfigMeta => UnderRoot(id, "config", "_meta");
    case EConfigNode(node) => UnderConfig(id, "nodes", node);
    case EConfigRole(role) => UnderConfig(id, "roles", role);
    case EConfigClusterGroupMeta(cg) => UnderClusterGroups(id, cg, "_meta");
    case EManagementGroupConfig(cg, mg) => UnderClusterGroups(id, cg, mg);
    case EDesired(cg, mg) => UnderManagementGroup(id, cg, mg, "desired");
    case EActual(cg, mg) => UnderManagementGroup(id, cg, mg, "actual");
    case EHealth(cg, mg) => UnderManagementGroup(id, cg, mg, "health");
    case ERoleActual(cg, mg, node, role) => UnderRole(id, cg, mg, node, role, "actual");
    case ERoleHealth(cg, mg, node, role) => UnderRole(id, cg, mg, node, role, "health");
    case ECommand(command) => UnderRoot(id, "commands", command);
    case ECommandHistory(command) => UnderRoot(id, "commands_history", command);
  }

  // ----- The schema, name by name -----

  lemma KeyIs(id: string, e: Entity, p: Path)
    requires IsName(id) && WellNamed(e) && RootPath(id) + Below(e) == p
    ensures KeyFor(id, e) == KeyOf(p)
  {
    KeyForPath(id, e);
  }

  lemma ClusterKeysAre(id: string, node: string, role: string, command: string)
    requires IsName(id) && IsName(node) && IsName(role) && IsName(command)
    ensures Leadership(id) == KeyOf([id, "cluster", "leadership"])
    ensures Registry(id, node) == KeyOf([id, "cluster", "registry", node])
    ensures Session(id, node) == KeyOf([id, "cluster", "session", node])
    ensures ConfigMeta(id) == KeyOf([id, "cluster", "config", "_meta"])
    ensures ConfigNode(id, node) == KeyOf([id, "cluster", "config", "nodes", node])
    ensures ConfigRole(id, role) == KeyOf([id, "cluster", "config", "roles", role])
    ensures CommandKey(id, command) == KeyOf([id, "cluster", "commands", command])
    ensures CommandHistoryKey(id, command) == KeyOf([id, "cluster", "commands_history", command])
  {
    hide JoinPath, KeyOf, IsName;
    KeyIs(id, ELeadership, [id, "cluster", "leadership"]);
    KeyIs(id, ERegistry(node), [id, "cluster", "registry", node]);
    KeyIs(id, ESession(node), [id, "cluster", "session", node]);
    KeyIs(id, EConfigMeta, [id, "cluster", "config", "_meta"]);
    KeyIs(id, EConfigNode(node), [id, "cluster", "config", "nodes", node]);
    KeyIs(id, EConfigRole(role), [id, "cluster", "config", "roles", role]);
    KeyIs(id, ECommand(command), [id, "cluster", "commands", command]);
    KeyIs(id, ECommandHistory(command), [id, "cluster", "commands_history", command]);
  }

  lemma GroupKeysAre(id: string, cg: string, mg: string)
    requires IsName(id) && ClusterGroupName(cg) && MemberName(mg)
    ensures ConfigClusterGroupMeta(id, cg) == KeyOf([id, "cluster", "config", "cluster_groups", cg, "_meta"])
    ensures mg != "_meta" ==> ManagementGroupConfig(id, cg, mg) == KeyOf([id, "cluster", "config", "cluster_groups", cg, mg])
    ensures Desired(id, cg, mg) == KeyOf([id, "cluster", cg, mg, "desired"])
    ensures Actual(id, cg, mg) == KeyOf([id, "cluster", cg, mg, "actual"])
    ensures Health(id, cg, mg) == KeyOf([id, "cluster", cg, mg, "health"])
  {
    hide JoinPath, KeyOf, IsName, IsSystemKey, IsManagementSystemKey;
    KeyIs(id, EConfigClusterGroupMeta(cg), [id, "cluster", "config", "cluster_groups", cg, "_meta"]);
    if mg != "_meta" { KeyIs(id, EManagementGroupConfig(cg, mg), [id, "cluster", "config", "cluster_groups", cg, mg]); }
    KeyIs(id, EDesired(cg, mg), [id, "cluster", cg, mg, "desired"]);
    KeyIs(id, EActual(cg, mg), [id, "cluster", cg, mg, "actual"]);
    KeyIs(id, EHealth(cg, mg), [id, "cluster", cg, mg, "health"]);
  }

  /** A role on the node that is named like the group has its keys right below the group's. */
  lemma RoleKeysAre(id: string, cg: string, mg: string, node: string, role: string)
    requires IsName(id) && ClusterGroupName(cg) && MemberName(mg) && MemberName(node) && MemberName(role)
    ensures RoleActual(id, cg, mg, node, role) ==
      KeyOf(if node == mg then [id, "cluster", cg, mg, role, "actual"] else [id, "cluster", cg, mg, node, role, "actual"])
    ensures RoleHealth(id, cg, mg, node, role) ==
      KeyOf(if node == mg then [id, "cluster", cg, mg, role, "health"] else [id, "cluster", cg, mg, node, role, "health"])
  {
    hide JoinPath, KeyOf, IsName, IsSystemKey, IsManagementSystemKey;
    if node == mg {
      KeyIs(id, ERoleActual(cg, mg, node, role), [id, "cluster", cg, mg, role, "actual"]);
      KeyIs(id, ERoleHealth(cg, mg, node, role), [id, "cluster", cg, mg, role, "health"]);
    } else {
      KeyIs(id, ERoleActual(cg, mg, node, role), [id, "cluster", cg, mg, node, role, "actual"]);
      KeyIs(id, ERoleHealth(cg, mg, node, role), [id, "cluster", cg, mg, node, role, "health"]);
    }
  }

  // ----- Injective and prefix-free -----

  /** No path of an entity is a prefix of the path of another one. */
  lemma BelowPrefixFree(e: Entity, f: Entity)
    requires WellNamed(e) && WellNamed(f) && Below(e) <= Below(f)
    ensures e == f
  {
    var p, q := Below(e), Below(f);
    assert forall i :: 0 <= i < |p| ==> p[i] == q[i];
    assert p[0] == q[0];
    assert |p| > 1 ==> p[1] == q[1];
    assert |p| > 2 ==> p[2] == q[2];
    assert |p| > 3 ==> p[3] == q[3];
    assert |p| > 4 ==> p[4] == q[4];
  }

  lemma PathsPrefixFree(id: string, e: Entity, f: Entity)
    requires WellNamed(e) && WellNamed(f) && PathFor(id, e) <= PathFor(id, f)
    ensures e == f
  {
    assert PathFor(id, e)[2..] == Below(e) && PathFor(id, f)[2..] == Below(f);
    assert Below(e) <= Below(f);
    BelowPrefixFree(e, f);
  }

  /** Distinct entities have distinct keys, and no key lies below the key of another entity. */
  lemma KeysPrefixFree(id: string, e: Entity, f: Entity)
    requires IsName(id) && WellNamed(e) && WellNamed(f)
    ensures KeyFor(id, e) == KeyFor(id, f) ==> e == f
    ensures !(KeyFor(id, e) + "/" <= KeyFor(id, f))
  {
    hide KeyFor, Below;
    KeyForPath(id, e);
    KeyForPath(id, f);
    var p, q := PathFor(id, e), PathFor(id, f);
    if KeyFor(id, e) == KeyFor(id, f) {
      KeyInjective(p, q);
      PathsPrefixFree(id, e, f);
    }
    if KeyFor(id, e) + "/" <= KeyFor(id, f) {
      KeyPrefix(p, q);
      PathsPrefixFree(id, e, f);
      assert false;
    }
  }

  /** Reserved names do collide: a node named "desired" puts its roles below a desired document. */
  lemma ReservedNodeCollides(id: string, cg: string, mg: string, role: string)
    requires IsName(id) && ClusterGroupName(cg) && IsName(mg) && IsName(role) && mg != "desired"
    ensures PathFor(id, EDesired(cg, mg)) < PathFor(id, ERoleActual(cg, mg, "desired", role))
  {}
}
