/** Domain types of the cluster: states, and the documents kept under one management group. */
module Model {
  datatype Option<+T> = None | Some(value: T)

  /** A stored document: its key may be absent, or hold bytes that do not decode. */
  datatype Doc<+T> = Missing | Undecodable | Decoded(doc: T)

  // States are strings in the JSON documents, so a decodable document may hold an unknown one.
  datatype DesiredState = DesiredActive | DesiredPassive | DesiredOther(text: string)

  datatype ActualState =
    ActualActive | ActualPassive | ActualStarting | ActualStopping | ActualFailed | ActualOther(text: string)

  datatype HealthStatus = HealthOK | HealthWarning | HealthFailed | HealthOther(text: string)

  datatype DesiredDoc = DesiredDoc(state: DesiredState, managed: bool)
  datatype ActualDoc = ActualDoc(state: ActualState, updatedAt: int, details: string)
  datatype HealthDoc = HealthDoc(status: HealthStatus, details: string)
  datatype ConfigDoc = ConfigDoc(priority: int, roles: seq<string>)

  datatype Membership = Membership(clusterGroup: string, managementGroup: string, roles: seq<string>)
  datatype Registration = Registration(nodeId: string, memberships: seq<Membership>)
  type Registry = map<string, Doc<Registration>>

  /** One role on one node. */
  datatype RoleKey = RoleKey(node: string, role: string)

  /** Everything stored for one management group. `listed` says that the group has a node in the
      state tree below its cluster group, so that it shows up in a listing of that cluster group. */
  datatype GroupDocs = GroupDocs(
    listed: bool,
    desired: Doc<DesiredDoc>,
    config: Doc<ConfigDoc>,
    actual: Doc<ActualDoc>,
    health: Doc<HealthDoc>,
    roleActual: map<RoleKey, Doc<ActualDoc>>,
    roleHealth: map<RoleKey, Doc<HealthDoc>>)

  /** The management groups of one cluster group. */
  type Groups = map<string, GroupDocs>

  const NO_GROUP := GroupDocs(false, Missing, Missing, Missing, Missing, map[], map[])

  const DEFAULT_PRIORITY := 1000

  predicate IsSystemKey(name: string) {
    name in {"leadership", "commands", "commands_history", "registry", "session", "config"}
  }

  /** A group without a decodable desired document is passive and unmanaged. */
  function ReadDesired(d: GroupDocs): DesiredDoc {
    match d.desired
    case Decoded(doc) => doc
    case _ => DesiredDoc(DesiredPassive, false)
  }

  function ReadPriority(d: GroupDocs): (p: int)
    ensures p > 0
  {
    match d.config
    case Decoded(doc) => if doc.priority <= 0 then DEFAULT_PRIORITY else doc.priority
    case _ => DEFAULT_PRIORITY
  }

  function WithDesired(d: GroupDocs, state: DesiredState, managed: bool): GroupDocs {
    d.(desired := Decoded(DesiredDoc(state, managed)), listed := true)
  }
}
