/** The state tree as a value: which paths have a node, and the value at each. */
module Tree {
  import opened Paths

  newtype byte = x: int | 0 <= x < 256
  type Bytes = seq<byte>

  /** Every path that has a node, with its value; a node without a value has none. */
  type View = map<Path, Bytes>

  const EMPTY: View := map[[] := []]

  function Init(p: Path): Path
    requires p != []
  {
    p[..|p| - 1]
  }

  function Last(p: Path): string
    requires p != []
  {
    p[|p| - 1]
  }

  function Child(p: Path, name: string): Path { p + [name] }

  ghost predicate Closed(v: View) {
    [] in v && forall p <- v | p != [] :: Init(p) in v
  }

  /** The entries that the tree stands for. */
  function Flat(v: View): map<Path, Bytes> {
    map p | p in v && v[p] != [] :: v[p]
  }

  function Prefixes(p: Path): set<Path> {
    set i | 0 <= i <= |p| :: p[..i]
  }

  /** Adds a node at every missing path on the way to p. */
  function Grown(v: View, p: Path): View {
    map q | q in v.Keys + Prefixes(p) :: if q in v then v[q] else []
  }

  function Inserted(v: View, p: Path, value: Bytes): View {
    Grown(v, p)[p := value]
  }

  /** Drops the node at p and everything below; the root stays. */
  function Deleted(v: View, p: Path): View {
    if p == [] then v else map q | q in v && !(p <= q) :: v[q]
  }

  function ChildNames(v: View, p: Path): set<string> {
    set q | q in v && q != [] && Init(q) == p :: Last(q)
  }

  lemma ChildInit(p: Path, name: string)
    ensures Child(p, name) != [] && Init(Child(p, name)) == p && Last(Child(p, name)) == name
  {}

  lemma InitChild(p: Path)
    requires p != []
    ensures Child(Init(p), Last(p)) == p
  {}

  lemma InPrefixes(p: Path, q: Path)
    ensures q in Prefixes(p) <==> q <= p
  {
    if q <= p { assert p[..|q|] == q; }
  }

  lemma GrownMore(v: View, p: Path, i: nat)
    requires i < |p|
    ensures Grown(v, p[..i + 1]) ==
      if p[..i + 1] in v then Grown(v, p[..i]) else Grown(v, p[..i])[p[..i + 1] := []]
  {
    forall q ensures q in Prefixes(p[..i + 1]) <==> q in Prefixes(p[..i]) || q == p[..i + 1] {
      InPrefixes(p[..i + 1], q);
      InPrefixes(p[..i], q);
      if q <= p[..i + 1] && q != p[..i + 1] { assert q <= p[..i]; }
    }
  }

  lemma GrownNone(v: View)
    requires [] in v
    ensures Grown(v, []) == v
  {
    forall q ensures q in Prefixes([]) <==> q == [] { InPrefixes([], q); }
  }

  /** In a closed view the node below a missing one is missing too. */
  lemma {:induction false} PrefixIn(v: View, p: Path, q: Path)
    requires Closed(v) && q in v && p <= q
    ensures p in v
    decreases |q|
  {
    if p != q { PrefixIn(v, p, Init(q)); }
  }

  lemma InsertedClosed(v: View, p: Path, value: Bytes)
    requires Closed(v)
    ensures Closed(Inserted(v, p, value))
  {
    forall q <- Inserted(v, p, value) | q != [] ensures Init(q) in Inserted(v, p, value) {
      InPrefixes(p, q);
      InPrefixes(p, Init(q));
      InPrefixes(p, p);
    }
    InPrefixes(p, []);
  }

  lemma DeletedClosed(v: View, p: Path)
    requires Closed(v)
    ensures Closed(Deleted(v, p))
  {}

  lemma ChildOnPath(p: Path, i: nat)
    requires i < |p|
    ensures Child(p[..i], p[i]) == p[..i + 1]
  {}

  lemma InitOnPath(p: Path)
    requires p != []
    ensures Init(p) == p[..|p| - 1]
  {}

  lemma InitBelow(p: Path, q: Path)
    requires p != [] && q != [] && !(p <= q)
    ensures !(p <= Init(q))
  {}

  lemma ChildBelow(p: Path, q: Path, name: string)
    requires p != [] && p <= Child(q, name) && !(p <= q)
    ensures p == Child(q, name) && q == Init(p) && name == Last(p)
  {}

  lemma GrownKeeps(v: View, p: Path)
    ensures forall q <- v :: q in Grown(v, p)
  {}

  /** A node that is there although its path is longer than the grown one was there before. */
  lemma GrownReaches(v: View, p: Path, i: nat)
    requires i < |p| && p[..i + 1] in Grown(v, p[..i])
    ensures p[..i + 1] in v
  {
    InPrefixes(p[..i], p[..i + 1]);
  }

  /** A missing node has nothing below it, so deleting there changes nothing. */
  lemma NothingBelow(v: View, p: Path, k: nat)
    requires Closed(v) && 0 < k <= |p| && p[..k] !in v
    ensures p !in v && Deleted(v, p) == v
  {
    forall q <- v ensures !(p <= q) {
      if p <= q {
        assert p[..k] <= q;
        PrefixIn(v, p[..k], q);
        assert false;
      }
    }
  }
}
