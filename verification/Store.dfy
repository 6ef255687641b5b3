/** The in-memory store: a mutable tree of nodes that stands for etcd's flat map. */
module Store {
  import opened Model
  import opened Paths
  import opened Tree
  import opened Order

  /** encoding/json, as far as the store needs it: which bytes are valid JSON, and how to quote. */
  datatype Json = Json(valid: Bytes -> bool, quote: Bytes -> Bytes) {
    ghost predicate Sound() {
      !valid([]) && forall b :: valid(quote(b))
    }

    function Normalize(b: Bytes): Bytes {
      if valid(b) then b else quote(b)
    }

    lemma NormalizeSound(b: Bytes)
      requires Sound()
      ensures Normalize(b) != [] && Normalize(Normalize(b)) == Normalize(b)
    {
      assert valid(quote(b));
    }
  }

  datatype Event =
    | Put(key: string, value: Bytes, revision: int)
    | Delete(key: string, revision: int)

  class TreeNode {
    const name: string
    var value: Bytes
    var children: map<string, TreeNode>

    constructor (name: string)
      ensures this.name == name && value == [] && children == map[]
    {
      this.name := name;
      value, children := [], map[];
    }
  }

  // ----- Trees of nodes -----

  type Nodes = map<Path, TreeNode>
  type Links = map<Path, map<string, TreeNode>>

  /** The node at p hangs below the node at the path before it, under its own name. */
  ghost predicate HasUp(nodes: Nodes, links: Links, p: Path)
    requires p in nodes && p != []
  {
    && nodes[p].name == Last(p)
    && Init(p) in nodes && Init(p) in links
    && Last(p) in links[Init(p)]
    && links[Init(p)][Last(p)] == nodes[p]
  }

  ghost predicate HasDown(nodes: Nodes, links: Links, p: Path, c: string)
    requires p in links && c in links[p]
  {
    Child(p, c) in nodes && nodes[Child(p, c)] == links[p][c]
  }

  ghost predicate Injective(nodes: Nodes) {
    forall p, q | p in nodes && q in nodes && nodes[p] == nodes[q] :: p == q
  }

  ghost predicate Ups(nodes: Nodes, links: Links, top: Path) {
    forall p <- nodes | p != top :: p != [] && HasUp(nodes, links, p)
  }

  ghost predicate Downs(nodes: Nodes, links: Links) {
    forall p, c | p in links && c in links[p] :: HasDown(nodes, links, p, c)
  }

  ghost predicate Under(nodes: Nodes, top: Path) {
    forall p <- nodes :: top <= p
  }

  /** Nodes by path, linked into one tree with its root at `top`. */
  ghost predicate Linked(nodes: Nodes, links: Links, top: Path) {
    && links.Keys == nodes.Keys && top in nodes
    && Under(nodes, top) && Injective(nodes)
    && Ups(nodes, links, top) && Downs(nodes, links)
  }

  function Hung(links: Links, p: Path, name: string, child: TreeNode): Links
    requires p in links
  {
    links[Child(p, name) := map[]][p := links[p][name := child]]
  }

  lemma {:induction false} LinkChild(nodes: Nodes, links: Links, p: Path, name: string, child: TreeNode)
    requires Linked(nodes, links, []) && p in nodes && name !in links[p]
    requires child !in nodes.Values && child.name == name
    ensures Child(p, name) !in nodes
    ensures Linked(nodes[Child(p, name) := child], Hung(links, p, name, child), [])
  {
    hide Child, Init, Last, HasUp, HasDown, Ups, Downs;
    NotThere(nodes, links, p, name);
    LinkChildUps(nodes, links, p, name, child);
    LinkChildDowns(nodes, links, p, name, child);
  }

  lemma NotThere(nodes: Nodes, links: Links, p: Path, name: string)
    requires Ups(nodes, links, []) && p in links && name !in links[p]
    ensures Child(p, name) !in nodes
  {
    hide Child, Init, Last;
    ChildInit(p, name);
    if Child(p, name) in nodes {
      UpAt(nodes, links, [], Child(p, name));
      assert false;
    }
  }

  lemma LinkChildUps(nodes: Nodes, links: Links, p: Path, name: string, child: TreeNode)
    requires Ups(nodes, links, []) && links.Keys == nodes.Keys && p in nodes && name !in links[p]
    requires Child(p, name) !in nodes && child.name == name
    ensures Ups(nodes[Child(p, name) := child], Hung(links, p, name, child), [])
  {
    hide Child, Init, Last, Ups;
    var q := Child(p, name);
    var nodes', links' := nodes[q := child], Hung(links, p, name, child);
    ChildInit(p, name);
    forall r <- nodes' | r != [] ensures HasUp(nodes', links', r) {
      if r != q {
        UpAt(nodes, links, [], r);
        InitChild(r);
      }
    }
    UpsFrom(nodes', links', []);
  }

  lemma UpAt(nodes: Nodes, links: Links, top: Path, p: Path)
    requires Ups(nodes, links, top) && p in nodes && p != top
    ensures p != [] && HasUp(nodes, links, p)
  {
    hide HasUp;
  }

  lemma UpsFrom(nodes: Nodes, links: Links, top: Path)
    requires forall p <- nodes | p != top :: p != [] && HasUp(nodes, links, p)
    ensures Ups(nodes, links, top)
  {
    hide HasUp;
  }

  lemma DownAt(nodes: Nodes, links: Links, p: Path, c: string)
    requires Downs(nodes, links) && p in links && c in links[p]
    ensures HasDown(nodes, links, p, c)
  {
    hide HasDown;
  }

  lemma DownsFrom(nodes: Nodes, links: Links)
    requires forall p, c | p in links && c in links[p] :: HasDown(nodes, links, p, c)
    ensures Downs(nodes, links)
  {
    hide HasDown;
  }

  lemma LinkChildDowns(nodes: Nodes, links: Links, p: Path, name: string, child: TreeNode)
    requires Downs(nodes, links) && links.Keys == nodes.Keys && p in nodes && name !in links[p]
    requires Child(p, name) !in nodes
    ensures Downs(nodes[Child(p, name) := child], Hung(links, p, name, child))
  {
    hide Child, Downs;
    var q := Child(p, name);
    var nodes', links' := nodes[q := child], Hung(links, p, name, child);
    forall r, c | r in links' && c in links'[r] ensures HasDown(nodes', links', r, c) {
      if !(r == p && c == name) { DownAt(nodes, links, r, c); }
    }
    DownsFrom(nodes', links');
  }

  function Kept(nodes: Nodes, parts: Path): Nodes {
    map p | p in nodes && !(parts <= p) :: nodes[p]
  }

  function Cut(links: Links, parts: Path): Links
    requires parts != []
  {
    map p | p in links && !(parts <= p) :: if p == Init(parts) then links[p] - {Last(parts)} else links[p]
  }

  lemma {:induction false} UnlinkChild(nodes: Nodes, links: Links, parts: Path)
    requires Linked(nodes, links, []) && parts != [] && Init(parts) in nodes
    ensures Linked(Kept(nodes, parts), Cut(links, parts), [])
  {
    hide Child, Init, Last, HasUp, HasDown, Ups, Downs;
    UnlinkUps(nodes, links, parts);
    UnlinkDowns(nodes, links, parts);
  }

  lemma {:induction false} UnlinkUps(nodes: Nodes, links: Links, parts: Path)
    requires Ups(nodes, links, []) && links.Keys == nodes.Keys && parts != []
    ensures Ups(Kept(nodes, parts), Cut(links, parts), [])
  {
    hide Child, Init, Last, Ups;
    var nodes', links' := Kept(nodes, parts), Cut(links, parts);
    InitChild(parts);
    forall p <- nodes' | p != [] ensures HasUp(nodes', links', p) {
      UpAt(nodes, links, [], p);
      InitChild(p);
      InitBelow(parts, p);
    }
    UpsFrom(nodes', links', []);
  }

  lemma UnlinkDowns(nodes: Nodes, links: Links, parts: Path)
    requires Downs(nodes, links) && parts != []
    ensures Downs(Kept(nodes, parts), Cut(links, parts))
  {
    hide Child, Init, Last, Downs;
    var nodes', links' := Kept(nodes, parts), Cut(links, parts);
    forall p, c | p in links' && c in links'[p] ensures HasDown(nodes', links', p, c) {
      DownAt(nodes, links, p, c);
      if parts <= Child(p, c) {
        ChildBelow(parts, p, c);
        assert false;
      }
    }
    DownsFrom(nodes', links');
  }

  ghost function LinksOf(nodes: Nodes): Links
    reads nodes.Values`children
  {
    map p | p in nodes :: nodes[p].children
  }

  /** The links and the view of the nodes once the child is in place. */
  lemma Relinked(before: Nodes, links: Links, view: View, p: Path, name: string, child: TreeNode)
    requires p in before && p in links && Injective(before) && links.Keys == before.Keys == view.Keys
    requires Child(p, name) !in before && child.children == map[] && child.value == []
    requires before[p].children == links[p][name := child]
    requires forall q <- before :: before[q].value == view[q] && (q != p ==> before[q].children == links[q])
    ensures LinksOf(before[Child(p, name) := child]) == Hung(links, p, name, child)
    ensures ViewOf(before[Child(p, name) := child]) == view[Child(p, name) := []]
  {
    hide Child, ViewOf;
    RelinkedView(before, view, Child(p, name), child);
    var nodes, after := before[Child(p, name) := child], Hung(links, p, name, child);
    forall q <- nodes ensures q in after && nodes[q].children == after[q] {}
  }

  lemma RelinkedView(before: Nodes, view: View, q: Path, child: TreeNode)
    requires before.Keys == view.Keys && child.value == [] && forall p <- before :: before[p].value == view[p]
    ensures ViewOf(before[q := child]) == view[q := []]
  {}

  lemma LinkedInjective(nodes: Nodes)
    requires IsTree(nodes, [])
    ensures [] in nodes && Injective(nodes)
  {
    hide Ups, Downs;
  }

  lemma RootStays(nodes: Nodes, parts: Path)
    requires [] in nodes && parts != []
    ensures [] in Kept(nodes, parts) && Kept(nodes, parts)[[]] == nodes[[]]
    ensures Kept(nodes, parts).Values <= nodes.Values
  {}

  ghost predicate IsTree(nodes: Nodes, top: Path)
    reads nodes.Values`children
  {
    Linked(nodes, LinksOf(nodes), top)
  }

  ghost function ViewOf(nodes: map<Path, TreeNode>): View
    reads nodes.Values`value
  {
    map p | p in nodes :: nodes[p].value
  }

  class StateStore {
    const json: Json
    var root: TreeNode
    var revision: int
    var ready: bool
    ghost var nodes: map<Path, TreeNode>

    ghost predicate Valid()
      reads this, nodes.Values`children
    {
      json.Sound() && IsTree(nodes, []) && nodes[[]] == root
    }

    ghost function Contents(): View
      reads this, nodes.Values`value
    {
      ViewOf(nodes)
    }

    constructor (json: Json)
      requires json.Sound()
      ensures Valid() && fresh(nodes.Values) && this.json == json
      ensures Contents() == EMPTY && !ready && revision == 0
    {
      this.json := json;
      revision, ready := 0, false;
      var r := new TreeNode("");
      root := r;
      nodes := map[[] := r];
    }

    // ----- Changing the tree -----

    method NewChild(node: TreeNode, name: string, ghost p: Path) returns (child: TreeNode)
      requires Valid() && p in nodes && nodes[p] == node && name !in node.children
      modifies this`nodes, node
      ensures Valid() && root == old(root)
      ensures fresh(child) && nodes == old(nodes)[Child(p, name) := child]
      ensures Contents() == old(Contents())[Child(p, name) := []]
    {
      hide Child, Init, Last, Linked, Hung;
      ghost var before, links, view := nodes, LinksOf(nodes), Contents();
      LinkedInjective(nodes);
      child := new TreeNode(name);
      LinkChild(nodes, links, p, name, child);
      node.children := node.children[name := child];
      nodes := nodes[Child(p, name) := child];
      Relinked(before, links, view, p, name, child);
    }

    method InsertLocked(key: string, value: Bytes)
      requires Valid()
      modifies this`nodes, nodes.Values
      ensures Valid() && root == old(root) && fresh(nodes.Values - old(nodes.Values))
      ensures Contents() == Inserted(old(Contents()), Split(key), json.Normalize(value))
    {
      hide Child, Init, Last, Grown, Split, IsTree;
      var parts := Split(key);
      var node := root;
      ghost var v := Contents();
      ValidMeans();
      GrownNone(v);
      assert parts[..0] == [];
      for i := 0 to |parts|
        invariant Valid() && root == old(root) && fresh(nodes.Values - old(nodes.Values))
        invariant parts[..i] in nodes && nodes[parts[..i]] == node
        invariant Contents() == Grown(v, parts[..i])
      {
        ghost var p := parts[..i];
        ChildOnPath(parts, i);
        GrownMore(v, parts, i);
        ChildThere(p, parts[i]);
        if parts[i] !in node.children {
          assert parts[..i + 1] !in Grown(v, p);
          assert parts[..i + 1] !in v by { GrownKeeps(v, p); }
          node := NewChild(node, parts[i], p);
        } else {
          node := node.children[parts[i]];
          assert parts[..i + 1] in Grown(v, p);
          GrownReaches(v, parts, i);
        }
      }
      assert parts[..|parts|] == parts;
      SetValue(node, json.Normalize(value), parts);
    }

    method SetValue(node: TreeNode, value: Bytes, ghost p: Path)
      requires Valid() && p in nodes && nodes[p] == node
      modifies node`value
      ensures Valid() && root == old(root)
      ensures Contents() == old(Contents())[p := value]
    {
      hide IsTree;
      assert forall q <- nodes | q != p :: nodes[q] != node by { ValidMeans(); }
      node.value := value;
    }

    /** Whether a node has a child can be read off its children. */
    lemma ChildThere(p: Path, c: string)
      requires Valid() && p in nodes
      ensures c in nodes[p].children <==> Child(p, c) in nodes
      ensures c in nodes[p].children ==> nodes[Child(p, c)] == nodes[p].children[c]
    {
      hide Child, Init, Last;
      ChildInit(p, c);
      if Child(p, c) in nodes { UpAt(nodes, LinksOf(nodes), [], Child(p, c)); }
      if c in nodes[p].children { DownAt(nodes, LinksOf(nodes), p, c); }
    }

    lemma ValidMeans()
      requires Valid()
      ensures [] in nodes && nodes[[]] == root && Closed(Contents()) && Injective(nodes)
    {
      forall p <- nodes | p != [] ensures Init(p) in nodes { UpAt(nodes, LinksOf(nodes), [], p); }
    }

    method DeleteLocked(key: string)
      requires Valid()
      modifies this`nodes, nodes.Values
      ensures Valid() && root == old(root) && nodes.Values <= old(nodes.Values)
      ensures Contents() == Deleted(old(Contents()), Split(key))
    {
      hide Child, Init, Last, Split, IsTree, Closed;
      var parts := Split(key);
      if |parts| == 0 {
        return;
      }
      var node := root;
      ValidMeans();
      assert parts[..0] == [];
      for i := 0 to |parts| - 1
        modifies {}
        invariant parts[..i] in nodes && nodes[parts[..i]] == node
      {
        ChildOnPath(parts, i);
        ChildThere(parts[..i], parts[i]);
        if parts[i] !in node.children {
          NothingBelow(Contents(), parts, i + 1);
          return;
        }
        node := node.children[parts[i]];
      }
      InitOnPath(parts);
      Remove(node, parts);
    }

    /** Removes the subtree of a path whose parent node is at hand. */
    method Remove(node: TreeNode, parts: Path)
      requires Valid() && parts != [] && Init(parts) in nodes && nodes[Init(parts)] == node
      modifies this`nodes, node
      ensures Valid() && root == old(root) && nodes.Values <= old(nodes.Values)
      ensures Contents() == Deleted(old(Contents()), parts)
    {
      hide Child, Init, Last, Linked;
      LinkedInjective(nodes);
      RootStays(nodes, parts);
      ghost var links := LinksOf(nodes);
      UnlinkChild(nodes, links, parts);
      node.children := node.children - {Last(parts)};
      nodes := Kept(nodes, parts);
      assert LinksOf(nodes) == Cut(links, parts);
    }

    // ----- Reading it -----

    method FindLocked(key: string) returns (node: TreeNode?)
      requires Valid()
      ensures node == null <==> Split(key) !in nodes
      ensures node != null ==> Split(key) in nodes && node == nodes[Split(key)]
    {
      hide Child, Init, Last, Split, IsTree;
      var parts := Split(key);
      node := root;
      ValidMeans();
      assert parts[..0] == [];
      for i := 0 to |parts|
        invariant parts[..i] in nodes && nodes[parts[..i]] == node
      {
        ChildOnPath(parts, i);
        ChildThere(parts[..i], parts[i]);
        if parts[i] !in node.children {
          NothingBelow(Contents(), parts, i + 1);
          return null;
        }
        node := node.children[parts[i]];
      }
      assert parts[..|parts|] == parts;
    }

    method Get(key: string) returns (value: Option<Bytes>)
      requires Valid()
      ensures value == if Split(key) in Flat(Contents()) then Some(Flat(Contents())[Split(key)]) else None
    {
      var node := FindLocked(key);
      if node == null || |node.value| == 0 {
        return None;
      }
      return Some(node.value);
    }

    method ListChildren(prefix: string) returns (names: seq<string>)
      requires Valid()
      ensures names == SortedNames(ChildNames(Contents(), Split(prefix)))
    {
      var node := FindLocked(prefix);
      if node == null {
        ValidMeans();
        assert ChildNames(Contents(), Split(prefix)) == {};
        return [];
      }
      names := Sort(node.children.Keys);
      ChildrenAre(Split(prefix));
    }

    lemma ChildrenAre(p: Path)
      requires Valid() && p in nodes
      ensures nodes[p].children.Keys == ChildNames(Contents(), p)
    {
      hide Child, Init, Last;
      forall c <- nodes[p].children ensures c in ChildNames(Contents(), p) {
        ChildInit(p, c);
        DownAt(nodes, LinksOf(nodes), p, c);
        assert Child(p, c) in Contents();
      }
      forall q <- nodes | q != [] && Init(q) == p ensures Last(q) in nodes[p].children { UpAt(nodes, LinksOf(nodes), [], q); }
    }

    /** Every entry at or below a key, under the keys that the walk spells out for them. */
    method Prefix(prefix: string) returns (out: map<string, Bytes>)
      requires Valid()
      ensures Walked(Contents(), prefix, Split(prefix), map[], out)
    {
      var node := FindLocked(prefix);
      if node == null {
        ValidMeans();
        NothingWalked(Contents(), prefix, Split(prefix));
        return map[];
      }
      out := Walk(prefix, node, map[], nodes, Split(prefix));
    }

    /** A deep copy on nodes of its own. */
    method Snapshot() returns (copy: TreeNode, ghost copies: Nodes)
      requires Valid()
      ensures fresh(copies.Values) && IsTree(copies, []) && copies[[]] == copy
      ensures ViewOf(copies) == Contents()
    {
      hide IsTree, Subtree, SameValues, ViewOf;
      LinkedInjective(nodes);
      copy, copies := CloneNode(root, nodes, []);
      SameView(copies, nodes);
    }

    // ----- Loading and following etcd -----

    /** Starts over with a root of its own. */
    method Clear()
      requires Valid()
      modifies this`root, this`nodes
      ensures Valid() && fresh(nodes.Values) && Contents() == EMPTY
    {
      hide IsTree, ViewOf;
      var r := new TreeNode("");
      root := r;
      nodes := map[[] := r];
      SingleNode(r);
    }

    method LoadSnapshot(items: map<string, Bytes>, revision: int)
      requires Valid()
      modifies this
      ensures Valid() && fresh(nodes.Values) && ready && this.revision == revision
      ensures IsLoaded(Contents(), items, json)
    {
      hide Split, IsLoaded, Inserted, IsTree, ViewOf;
      Clear();
      NothingLoaded(Contents(), json);
      var todo := items.Keys;
      ghost var done: map<string, Bytes> := map[];
      while todo != {}
        invariant Valid() && fresh(nodes.Values)
        invariant todo <= items.Keys && done == (map k | k in items && k !in todo :: items[k])
        invariant IsLoaded(Contents(), done, json)
        decreases todo
      {
        var key :| key in todo;
        LoadedMore(Contents(), done, key, items[key], json);
        InsertLocked(key, items[key]);
        DoneMore(items, todo, done, key);
        todo := todo - {key};
        done := done[key := items[key]];
      }
      assert done == items;
      ghost var v := Contents();
      this.revision := revision;
      ready := true;
      assert Contents() == v;
    }

    method Apply(event: Event)
      requires Valid()
      modifies this`nodes, this`revision, nodes.Values
      ensures Valid() && root == old(root) && fresh(nodes.Values - old(nodes.Values))
      ensures Contents() == Applied(old(Contents()), event, json) && revision == event.revision
    {
      hide Split, IsTree, Inserted, Deleted, ViewOf;
      match event {
        case Put(key, value, _) => InsertLocked(key, value);
        case Delete(key, _) => DeleteLocked(key);
      }
      revision := event.revision;
    }
  }

  // ----- Walking and copying -----

  /** The key that a walk from `prefix` gives to what lies `below` it. */
  function KeyUnder(prefix: string, below: Path): string
    decreases |below|
  {
    if below == [] then prefix else KeyUnder(TrimRight(prefix) + "/" + below[0], below[1..])
  }

  function Subtree(v: View, p: Path): set<Path> {
    set q | q in v && p <= q
  }

  /** A walk adds the entries of the subtree at p, each under its key, and nothing else. */
  ghost predicate Walked(v: View, prefix: string, p: Path, out: map<string, Bytes>, out': map<string, Bytes>) {
    && (forall q <- Subtree(v, p) | v[q] != [] :: KeyUnder(prefix, q[|p|..]) in out')
    && (forall k <- out :: k in out')
    && (forall k <- out' :: (k in out && out'[k] == out[k]) || IsEntry(v, prefix, p, k, out'[k]))
  }

  ghost predicate IsEntry(v: View, prefix: string, p: Path, k: string, value: Bytes) {
    exists q <- Subtree(v, p) :: v[q] != [] && KeyUnder(prefix, q[|p|..]) == k && v[q] == value
  }

  lemma NothingWalked(v: View, prefix: string, p: Path)
    requires Closed(v) && p !in v
    ensures Walked(v, prefix, p, map[], map[])
  {
    forall q <- v ensures !(p <= q) { if p <= q { PrefixIn(v, p, q); } }
  }

  lemma PrefixNode(nodes: Nodes, links: Links, p: Path, q: Path)
    requires Ups(nodes, links, []) && q in nodes && p <= q
    ensures p in nodes
    decreases |q|
  {
    if p != q {
      UpAt(nodes, links, [], q);
      PrefixNode(nodes, links, p, Init(q));
    }
  }

  /** In a tree, what lies strictly below p lies at or below one of its children. */
  lemma {:induction false} BelowChild(nodes: Nodes, links: Links, p: Path, q: Path)
    requires Linked(nodes, links, []) && p in nodes && q in nodes && p < q
    ensures q[|p|] in links[p] && Child(p, q[|p|]) in nodes && Child(p, q[|p|]) <= q
  {
    hide Ups, Downs, Injective, Under;
    var r := q[..|p| + 1];
    PrefixNode(nodes, links, r, q);
    UpAt(nodes, links, [], r);
    assert Init(r) == p && Last(r) == q[|p|] && Child(p, q[|p|]) == r;
  }

  lemma SubtreeShrinks(v: View, p: Path, c: string)
    requires p in v
    ensures Subtree(v, Child(p, c)) < Subtree(v, p)
  {
    assert p in Subtree(v, p) && p !in Subtree(v, Child(p, c));
  }

  method Walk(prefix: string, node: TreeNode, out: map<string, Bytes>, ghost nodes: Nodes, ghost p: Path)
    returns (out': map<string, Bytes>)
    requires IsTree(nodes, []) && p in nodes && nodes[p] == node
    ensures Walked(ViewOf(nodes), prefix, p, out, out')
    decreases Subtree(ViewOf(nodes), p)
  {
    hide Linked, KeyUnder, Walked, Child, Subtree;
    ghost var v := ViewOf(nodes);
    out' := out;
    if |node.value| > 0 {
      out' := out'[prefix := node.value];
    }
    WalkStart(v, prefix, p, out, out');
    var todo := node.children.Keys;
    while todo != {}
      invariant todo <= node.children.Keys
      invariant WalkedSome(v, prefix, p, node.children.Keys - todo, out, out')
      decreases todo
    {
      var name :| name in todo;
      todo := todo - {name};
      DownAtTree(nodes, p, name);
      SubtreeShrinks(v, p, name);
      ghost var before := out';
      out' := Walk(TrimRight(prefix) + "/" + name, node.children[name], out', nodes, Child(p, name));
      WalkMore(v, prefix, p, node.children.Keys - todo - {name}, name, out, before, out');
      assert node.children.Keys - todo - {name} + {name} == node.children.Keys - todo;
    }
    WalkEnd(nodes, prefix, p, out, out');
  }

  lemma DownAtTree(nodes: Nodes, p: Path, c: string)
    requires IsTree(nodes, []) && p in nodes && c in nodes[p].children
    ensures Child(p, c) in nodes && nodes[Child(p, c)] == nodes[p].children[c]
  {
    hide Child, Ups;
    DownAt(nodes, LinksOf(nodes), p, c);
  }

  /** The node itself and the subtrees of the given children have been walked. */
  ghost predicate WalkedSome(v: View, prefix: string, p: Path, names: set<string>, out: map<string, Bytes>, out': map<string, Bytes>) {
    && (forall q <- Subtree(v, p) | v[q] != [] && (q == p || q[|p|] in names) :: KeyUnder(prefix, q[|p|..]) in out')
    && (forall k <- out :: k in out')
    && (forall k <- out' :: (k in out && out'[k] == out[k]) || IsEntry(v, prefix, p, k, out'[k]))
  }

  lemma WalkStart(v: View, prefix: string, p: Path, out: map<string, Bytes>, out': map<string, Bytes>)
    requires p in v && out' == if |v[p]| > 0 then out[prefix := v[p]] else out
    ensures WalkedSome(v, prefix, p, {}, out, out')
  {
    assert p in Subtree(v, p) && KeyUnder(prefix, p[|p|..]) == prefix;
  }

  lemma KeyBelow(prefix: string, p: Path, c: string, q: Path)
    requires Child(p, c) <= q
    ensures KeyUnder(TrimRight(prefix) + "/" + c, q[|p| + 1..]) == KeyUnder(prefix, q[|p|..])
  {
    assert q[|p|..] == [c] + q[|p| + 1..];
    assert q[|p|..][1..] == q[|p| + 1..];
  }

  lemma WalkMore(v: View, prefix: string, p: Path, names: set<string>, c: string,
                 out: map<string, Bytes>, before: map<string, Bytes>, out': map<string, Bytes>)
    requires WalkedSome(v, prefix, p, names, out, before)
    requires Walked(v, TrimRight(prefix) + "/" + c, Child(p, c), before, out')
    ensures WalkedSome(v, prefix, p, names + {c}, out, out')
  {
    hide KeyUnder, Child, IsEntry;
    forall q <- Subtree(v, p) | v[q] != [] && (q == p || q[|p|] in names + {c}) ensures KeyUnder(prefix, q[|p|..]) in out' {
      if q != p && q[|p|] == c {
        InChildSubtree(v, p, c, q);
        KeyBelow(prefix, p, c, q);
      }
    }
    forall k <- out' ensures (k in out && out'[k] == out[k]) || IsEntry(v, prefix, p, k, out'[k]) {
      if !(k in before && out'[k] == before[k]) {
        EntryAbove(v, prefix, p, c, k, out'[k]);
      }
    }
  }

  lemma InChildSubtree(v: View, p: Path, c: string, q: Path)
    requires q in Subtree(v, p) && q != p && q[|p|] == c
    ensures q in Subtree(v, Child(p, c)) && |Child(p, c)| == |p| + 1 && Child(p, c) <= q
  {
    assert Child(p, c) == q[..|p| + 1];
  }

  lemma EntryAbove(v: View, prefix: string, p: Path, c: string, k: string, value: Bytes)
    requires IsEntry(v, TrimRight(prefix) + "/" + c, Child(p, c), k, value)
    ensures IsEntry(v, prefix, p, k, value)
  {
    hide KeyUnder;
    var q :| q in Subtree(v, Child(p, c)) && v[q] != [] && KeyUnder(TrimRight(prefix) + "/" + c, q[|Child(p, c)|..]) == k && v[q] == value;
    KeyBelow(prefix, p, c, q);
    assert q in Subtree(v, p);
  }

  lemma {:induction false} WalkEnd(nodes: Nodes, prefix: string, p: Path, out: map<string, Bytes>, out': map<string, Bytes>)
    requires IsTree(nodes, []) && p in nodes
    requires WalkedSome(ViewOf(nodes), prefix, p, nodes[p].children.Keys, out, out')
    ensures Walked(ViewOf(nodes), prefix, p, out, out')
  {
    hide KeyUnder, Child;
    var v := ViewOf(nodes);
    forall q <- Subtree(v, p) | q != p ensures q[|p|] in nodes[p].children { BelowChild(nodes, LinksOf(nodes), p, q); }
  }

  method CloneNode(node: TreeNode, ghost nodes: Nodes, ghost p: Path) returns (copy: TreeNode, ghost copies: Nodes)
    requires IsTree(nodes, []) && p in nodes && nodes[p] == node
    ensures fresh(copies.Values) && IsTree(copies, p) && p in copies && copies[p] == copy && copy.name == node.name
    ensures copies.Keys == Subtree(ViewOf(nodes), p) && SameValues(copies, nodes)
    decreases Subtree(ViewOf(nodes), p)
  {
    hide *;
    copy := new TreeNode(node.name);
    if |node.value| > 0 {
      copy.value := node.value;
    }
    copies := map[p := copy];
    OneNode(copies, nodes, p);
    PathsAtStart(nodes, p);
    assert copy.children.Keys == {};
    var todo := node.children.Keys;
    while todo != {}
      modifies copy`children
      invariant forall q <- copies :: fresh(copies[q])
      invariant IsTree(copies, p) && p in copies && copies[p] == copy
      invariant todo !! copy.children.Keys && todo + copy.children.Keys == node.children.Keys
      invariant copies.Keys == PathsAt(ViewOf(nodes), p, copy.children.Keys) && SameValues(copies, nodes)
      decreases todo
    {
      var name :| name in todo;
      ghost var done, before := copy.children.Keys, todo;
      copies := CopyChild(copy, node, name, copies, nodes, p);
      todo := todo - {name};
      NameMoves(before, done, node.children.Keys, name);
    }
    assert copy.children.Keys == node.children.Keys;
    PathsAtEnd(nodes, p);
  }

  lemma NameMoves(todo: set<string>, done: set<string>, all: set<string>, name: string)
    requires todo !! done && todo + done == all && name in todo
    ensures todo - {name} !! done + {name} && (todo - {name}) + (done + {name}) == all
  {}

  /** Clones one child and puts it under the copy of its parent. */
  method CopyChild(copy: TreeNode, node: TreeNode, name: string, ghost copies: Nodes, ghost nodes: Nodes, ghost p: Path)
    returns (ghost copies': Nodes)
    requires IsTree(nodes, []) && p in nodes && nodes[p] == node && name in node.children && copy !in nodes.Values
    requires IsTree(copies, p) && p in copies && copies[p] == copy && name !in copy.children
    requires copies.Keys == PathsAt(ViewOf(nodes), p, copy.children.Keys) && SameValues(copies, nodes)
    modifies copy`children
    ensures IsTree(copies', p) && p in copies' && copies'[p] == copy
    ensures forall q <- copies' :: (q in copies && copies'[q] == copies[q]) || fresh(copies'[q])
    ensures copy.children.Keys == old(copy.children.Keys) + {name}
    ensures copies'.Keys == PathsAt(ViewOf(nodes), p, copy.children.Keys) && SameValues(copies', nodes)
    decreases Subtree(ViewOf(nodes), p), 0
  {
    hide *;
    DownAtTree(nodes, p, name);
    NameBelow(nodes, p, name);
    ViewHas(nodes, p);
    SubtreeShrinks(ViewOf(nodes), p, name);
    var child, below := CloneNode(node.children[name], nodes, Child(p, name));
    PathsMore(ViewOf(nodes), p, copy.children.Keys, name);
    ValuesPlus(copies, below, nodes);
    Hang(copy, name, child, copies, p, below);
    copies' := copies + below;
    assert forall q <- below :: below[q] in below.Values;
  }

  lemma ViewHas(nodes: Nodes, p: Path)
    requires p in nodes
    ensures p in ViewOf(nodes)
  {}

  /** Puts the copy of a child under the copy of its parent. */
  method Hang(copy: TreeNode, name: string, child: TreeNode, ghost copies: Nodes, ghost p: Path, ghost below: Nodes)
    requires IsTree(copies, p) && p in copies && copies[p] == copy && name !in copy.children
    requires IsTree(below, Child(p, name)) && Child(p, name) in below && below[Child(p, name)] == child && child.name == name
    requires copies.Values !! below.Values && copies.Keys !! below.Keys
    modifies copy`children
    ensures IsTree(copies + below, p)
    ensures copy.children.Keys == old(copy.children.Keys) + {name}
  {
    hide Child, Linked;
    ghost var links1, links2 := LinksOf(copies), LinksOf(below);
    GraftLinked(copies, links1, p, name, below, links2);
    OthersDiffer(copies, links1, p);
    copy.children := copy.children[name := child];
    assert LinksOf(below) == links2;
    GraftLinks(copies, links1, below, links2, p, name, child);
  }

  lemma OthersDiffer(nodes: Nodes, links: Links, top: Path)
    requires Linked(nodes, links, top)
    ensures top in nodes && links.Keys == nodes.Keys && forall q <- nodes | q != top :: nodes[q] != nodes[top]
  {
    hide Ups, Downs;
  }

  ghost predicate SameValues(copies: Nodes, nodes: Nodes)
    reads copies.Values`value, nodes.Values`value
  {
    forall q <- copies :: q in nodes && copies[q].value == nodes[q].value
  }

  lemma ValuesPlus(copies: Nodes, below: Nodes, nodes: Nodes)
    requires SameValues(copies, nodes) && SameValues(below, nodes)
    ensures SameValues(copies + below, nodes)
    ensures (copies + below).Values <= copies.Values + below.Values
    ensures (copies + below).Keys == copies.Keys + below.Keys
  {}

  lemma SameView(copies: Nodes, nodes: Nodes)
    requires copies.Keys == Subtree(ViewOf(nodes), []) && SameValues(copies, nodes)
    ensures ViewOf(copies) == ViewOf(nodes)
  {
    assert Subtree(ViewOf(nodes), []) == nodes.Keys;
  }

  lemma OneNode(copies: Nodes, nodes: Nodes, p: Path)
    requires p in copies && copies.Keys == {p} && copies[p].children == map[]
    requires p in nodes && copies[p].value == nodes[p].value
    ensures IsTree(copies, p) && SameValues(copies, nodes)
  {}

  /** The path p, and everything at or below the given children of it. */
  function PathsAt(v: View, p: Path, names: set<string>): set<Path> {
    set q | q in v && p <= q && (q == p || q[|p|] in names)
  }

  lemma PathsAtStart(nodes: Nodes, p: Path)
    requires p in nodes
    ensures PathsAt(ViewOf(nodes), p, {}) == {p}
  {}

  lemma PathsMore(v: View, p: Path, names: set<string>, c: string)
    requires c !in names
    ensures PathsAt(v, p, names + {c}) == PathsAt(v, p, names) + Subtree(v, Child(p, c))
    ensures PathsAt(v, p, names) !! Subtree(v, Child(p, c))
  {
    forall q <- v ensures Child(p, c) <= q <==> p <= q && q != p && q[|p|] == c {
      if p <= q && q != p && q[|p|] == c { assert q[..|p| + 1] == Child(p, c); }
    }
  }

  lemma {:induction false} PathsAtEnd(nodes: Nodes, p: Path)
    requires IsTree(nodes, []) && p in nodes
    ensures PathsAt(ViewOf(nodes), p, nodes[p].children.Keys) == Subtree(ViewOf(nodes), p)
  {
    hide Child;
    var v := ViewOf(nodes);
    forall q <- Subtree(v, p) | q != p ensures q[|p|] in nodes[p].children { BelowChild(nodes, LinksOf(nodes), p, q); }
  }

  lemma NameBelow(nodes: Nodes, p: Path, c: string)
    requires IsTree(nodes, []) && p in nodes && c in nodes[p].children
    ensures nodes[p].children[c].name == c
  {
    hide Child, Init, Last;
    DownAtTree(nodes, p, c);
    ChildInit(p, c);
    UpAt(nodes, LinksOf(nodes), [], Child(p, c));
  }

  /** Hanging the tree of a child below a node. */
  lemma {:induction false} GraftLinked(nodes1: Nodes, links1: Links, p: Path, c: string, nodes2: Nodes, links2: Links)
    requires Linked(nodes1, links1, p) && Linked(nodes2, links2, Child(p, c))
    requires nodes1.Values !! nodes2.Values && nodes1.Keys !! nodes2.Keys
    requires c !in links1[p] && nodes2[Child(p, c)].name == c
    ensures Linked(nodes1 + nodes2, (links1 + links2)[p := links1[p][c := nodes2[Child(p, c)]]], p)
  {
    hide Child, Init, Last, HasUp, HasDown, Ups, Downs;
    var nodes, links := nodes1 + nodes2, (links1 + links2)[p := links1[p][c := nodes2[Child(p, c)]]];
    GraftUps(nodes1, links1, p, c, nodes2, links2);
    GraftDowns(nodes1, links1, p, c, nodes2, links2);
    assert Under(nodes, p) by { ChildUnder(nodes2, p, c); }
    assert Injective(nodes) by {
      forall q, r | q in nodes && r in nodes && nodes[q] == nodes[r] ensures q == r {
        assert nodes[q] in (if q in nodes1 then nodes1.Values else nodes2.Values);
        assert nodes[r] in (if r in nodes1 then nodes1.Values else nodes2.Values);
        assert q in nodes1 <==> r in nodes1;
      }
    }
  }

  lemma ChildUnder(nodes: Nodes, p: Path, c: string)
    requires Under(nodes, Child(p, c))
    ensures Under(nodes, p)
  {}

  lemma {:induction false} GraftUps(nodes1: Nodes, links1: Links, p: Path, c: string, nodes2: Nodes, links2: Links)
    requires Ups(nodes1, links1, p) && Ups(nodes2, links2, Child(p, c))
    requires links1.Keys == nodes1.Keys && links2.Keys == nodes2.Keys && p in nodes1 && Child(p, c) in nodes2
    requires nodes1.Keys !! nodes2.Keys && c !in links1[p] && nodes2[Child(p, c)].name == c
    ensures Ups(nodes1 + nodes2, (links1 + links2)[p := links1[p][c := nodes2[Child(p, c)]]], p)
  {
    hide Child, Init, Last, Ups;
    var nodes, links := nodes1 + nodes2, (links1 + links2)[p := links1[p][c := nodes2[Child(p, c)]]];
    ChildInit(p, c);
    forall q <- nodes | q != p ensures q != [] && HasUp(nodes, links, q) {
      if q in nodes1 {
        UpAt(nodes1, links1, p, q);
      } else if q != Child(p, c) {
        UpAt(nodes2, links2, Child(p, c), q);
      }
    }
    UpsFrom(nodes, links, p);
  }

  lemma GraftDowns(nodes1: Nodes, links1: Links, p: Path, c: string, nodes2: Nodes, links2: Links)
    requires Downs(nodes1, links1) && Downs(nodes2, links2)
    requires links1.Keys == nodes1.Keys && links2.Keys == nodes2.Keys && p in nodes1 && Child(p, c) in nodes2
    requires nodes1.Keys !! nodes2.Keys
    ensures Downs(nodes1 + nodes2, (links1 + links2)[p := links1[p][c := nodes2[Child(p, c)]]])
  {
    hide Child, Downs;
    var nodes, links := nodes1 + nodes2, (links1 + links2)[p := links1[p][c := nodes2[Child(p, c)]]];
    forall q, d | q in links && d in links[q] ensures HasDown(nodes, links, q, d) {
      if q in nodes1 {
        if !(q == p && d == c) { DownAt(nodes1, links1, q, d); }
      } else {
        DownAt(nodes2, links2, q, d);
      }
    }
    DownsFrom(nodes, links);
  }

  lemma GraftLinks(nodes1: Nodes, links1: Links, nodes2: Nodes, links2: Links, p: Path, c: string, child: TreeNode)
    requires p in nodes1 && links1.Keys == nodes1.Keys && links2 == LinksOf(nodes2) && nodes1.Keys !! nodes2.Keys
    requires nodes1[p].children == links1[p][c := child]
    requires forall q <- nodes1 | q != p :: nodes1[q].children == links1[q]
    ensures LinksOf(nodes1 + nodes2) == (links1 + links2)[p := links1[p][c := child]]
  {}

  // ----- What loading and following mean -----

  function Applied(v: View, event: Event, json: Json): View {
    match event
    case Put(key, value, _) => Inserted(v, Split(key), json.Normalize(value))
    case Delete(key, _) => Deleted(v, Split(key))
  }

  function AppliedAll(v: View, events: seq<Event>, json: Json): View {
    if events == [] then v else Applied(AppliedAll(v, events[..|events| - 1], json), events[|events| - 1], json)
  }

  /** The tree of a snapshot: nodes exactly on the way to its keys, and at each key the value of one
      of the items with that path. */
  ghost predicate IsLoaded(v: View, items: map<string, Bytes>, json: Json) {
    Closed(v) && OnTheWay(v, items) && HoldsKeys(v, items) && HoldsValues(v, items, json)
  }

  /** Every node lies on the way to the key of an item. */
  ghost predicate OnTheWay(v: View, items: map<string, Bytes>) {
    forall p <- v :: p == [] || exists k <- items :: p <= Split(k)
  }

  ghost predicate HoldsKeys(v: View, items: map<string, Bytes>) {
    forall k <- items :: Split(k) in v && v[Split(k)] != []
  }

  ghost predicate HoldsValues(v: View, items: map<string, Bytes>, json: Json) {
    forall p <- v | v[p] != [] :: exists k <- items :: Split(k) == p && v[p] == json.Normalize(items[k])
  }

  lemma SingleNode(r: TreeNode)
    requires r.value == [] && r.children == map[]
    ensures IsTree(map[[] := r], []) && ViewOf(map[[] := r]) == EMPTY
  {}

  lemma NothingLoaded(v: View, json: Json)
    requires v == EMPTY
    ensures IsLoaded(v, map[], json)
  {}

  lemma DoneMore(items: map<string, Bytes>, todo: set<string>, done: map<string, Bytes>, key: string)
    requires key in todo && todo <= items.Keys && done == map k | k in items && k !in todo :: items[k]
    ensures done[key := items[key]] == map k | k in items && k !in todo - {key} :: items[k]
  {}

  lemma LoadedOnTheWay(v: View, items: map<string, Bytes>, key: string, value: Bytes, json: Json)
    requires OnTheWay(v, items)
    ensures OnTheWay(Inserted(v, Split(key), json.Normalize(value)), items[key := value])
  {
    hide Split, Prefixes;
    var p := Split(key);
    var items' := items[key := value];
    forall q <- Inserted(v, p, json.Normalize(value)) | q != [] ensures exists k <- items' :: q <= Split(k) {
      InPrefixes(p, q);
      assert key in items';
      if q in v {
        var k :| k in items && q <= Split(k);
        assert k in items';
      }
    }
  }

  lemma {:induction false} LoadedMore(v: View, items: map<string, Bytes>, key: string, value: Bytes, json: Json)
    requires json.Sound() && IsLoaded(v, items, json) && key !in items
    ensures IsLoaded(Inserted(v, Split(key), json.Normalize(value)), items[key := value], json)
  {
    hide Split, Inserted, Closed, OnTheWay, HoldsKeys, HoldsValues;
    InsertedClosed(v, Split(key), json.Normalize(value));
    LoadedOnTheWay(v, items, key, value, json);
    LoadedKeys(v, items, key, value, json);
    LoadedValues(v, items, key, value, json);
  }

  lemma {:induction false} LoadedKeys(v: View, items: map<string, Bytes>, key: string, value: Bytes, json: Json)
    requires json.Sound() && HoldsKeys(v, items)
    ensures HoldsKeys(Inserted(v, Split(key), json.Normalize(value)), items[key := value])
  {
    hide Split, Prefixes;
    json.NormalizeSound(value);
  }

  lemma {:induction false} LoadedValues(v: View, items: map<string, Bytes>, key: string, value: Bytes, json: Json)
    requires key !in items && HoldsValues(v, items, json)
    ensures HoldsValues(Inserted(v, Split(key), json.Normalize(value)), items[key := value], json)
  {
    hide Split, Prefixes;
    var v', items' := Inserted(v, Split(key), json.Normalize(value)), items[key := value];
    forall q <- v' | v'[q] != [] ensures exists k <- items' :: Split(k) == q && v'[q] == json.Normalize(items'[k]) {
      assert key in items' && items'[key] == value;
      if q != Split(key) {
        var k :| k in items && Split(k) == q && v[q] == json.Normalize(items[k]);
        assert k in items' && items'[k] == items[k];
      }
    }
  }
}
