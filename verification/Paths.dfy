/** Slash-separated keys and the lists of names they stand for. */
module Paths {
  type Path = seq<string>

  /** A name that a key can carry: not empty, without a slash, not a dot element. */
  predicate IsName(s: string) {
    s != "" && '/' !in s && s != "." && s != ".."
  }

  predicate AllNames(p: Path) {
    forall n <- p :: IsName(n)
  }

  // ----- strings.Split, strings.Join, strings.Trim with "/" -----

  function SplitSlash(s: string): (parts: Path)
    ensures parts != []
    ensures forall n <- parts :: '/' !in n
  {
    if s == "" then [""]
    else
      var rest := SplitSlash(s[1..]);
      if s[0] == '/' then [""] + rest else [[s[0]] + rest[0]] + rest[1..]
  }

  function Join(parts: Path): string {
    if parts == [] then ""
    else if |parts| == 1 then parts[0]
    else parts[0] + "/" + Join(parts[1..])
  }

  function TrimLeft(s: string): string {
    if s != "" && s[0] == '/' then TrimLeft(s[1..]) else s
  }

  function TrimRight(s: string): string {
    if s != "" && s[|s| - 1] == '/' then TrimRight(s[..|s| - 1]) else s
  }

  /** The names along a key; none for the root. */
  function Split(key: string): Path {
    var trimmed := TrimRight(TrimLeft(key));
    if trimmed == "" then [] else SplitSlash(trimmed)
  }

  /** The canonical key of a path. */
  function KeyOf(p: Path): string { "/" + Join(p) }

  /** A key is its names, each after a slash. */
  lemma KeyText(name: string, rest: Path)
    ensures KeyOf([]) == "/" && KeyOf([name]) == "/" + name
    ensures rest != [] ==> KeyOf([name] + rest) == "/" + name + KeyOf(rest)
  {}

  lemma {:induction false} SplitFirst(a: string, rest: string)
    requires '/' !in a
    ensures SplitSlash(a) == [a]
    ensures SplitSlash(a + "/" + rest) == [a] + SplitSlash(rest)
  {
    if a == "" {
      assert a + "/" + rest == "/" + rest;
      assert ("/" + rest)[1..] == rest;
    } else {
      SplitFirst(a[1..], rest);
      assert (a + "/" + rest)[1..] == a[1..] + "/" + rest;
      assert [a[0]] + a[1..] == a;
    }
  }

  lemma {:induction false} SplitJoin(parts: Path)
    requires parts != [] && forall n <- parts :: '/' !in n
    ensures SplitSlash(Join(parts)) == parts
  {
    if |parts| == 1 {
      SplitFirst(parts[0], "");
    } else {
      SplitJoin(parts[1..]);
      SplitFirst(parts[0], Join(parts[1..]));
    }
  }

  lemma {:induction false} JoinConcat(a: Path, b: Path)
    requires a != [] && b != []
    ensures Join(a + b) == Join(a) + "/" + Join(b)
  {
    if |a| == 1 {
      assert (a + b)[1..] == b;
    } else {
      JoinConcat(a[1..], b);
      assert (a + b)[1..] == a[1..] + b;
    }
  }

  lemma {:induction false} JoinEnds(p: Path)
    requires p != [] && AllNames(p)
    ensures var s := Join(p); s != "" && s[0] != '/' && s[|s| - 1] != '/'
  {
    assert p[0] in p;
    if |p| > 1 { JoinEnds(p[1..]); }
  }

  /** Splitting a canonical key gives its path back. */
  lemma SplitKey(p: Path)
    requires AllNames(p)
    ensures Split(KeyOf(p)) == p
  {
    if p == [] {
      assert TrimLeft("/") == TrimLeft("") == "";
    } else {
      JoinEnds(p);
      assert KeyOf(p)[1..] == Join(p);
      assert TrimLeft(KeyOf(p)) == TrimLeft(Join(p)) == Join(p);
      SplitJoin(p);
    }
  }

  lemma KeyInjective(p: Path, q: Path)
    requires AllNames(p) && AllNames(q) && KeyOf(p) == KeyOf(q)
    ensures p == q
  {
    SplitKey(p);
    SplitKey(q);
  }

  /** Slash-free parts are recovered from their concatenation. */
  lemma PairInjective(a: string, b: string, c: string, d: string)
    requires '/' !in a && '/' !in b && '/' !in c && '/' !in d && a + "/" + b == c + "/" + d
    ensures a == c && b == d
  {
    SplitFirst(a, b);
    SplitFirst(c, d);
    SplitFirst(b, "");
    SplitFirst(d, "");
    assert [a] + [b] == [c] + [d];
    assert ([a] + [b])[0] == ([c] + [d])[0] && ([a] + [b])[1] == ([c] + [d])[1];
  }

  /** On canonical keys, being below a key is extending its path. */
  lemma {:induction false} KeyPrefix(p: Path, q: Path)
    requires AllNames(p) && AllNames(q) && p != [] && KeyOf(p) + "/" <= KeyOf(q)
    ensures p < q
  {
    assert Join(p) + "/" <= Join(q) by {
      assert KeyOf(q)[1..] == Join(q) && (KeyOf(p) + "/")[1..] == Join(p) + "/";
    }
    var rest := Join(q)[|Join(p)| + 1..];
    assert Join(q) == Join(p) + "/" + rest;
    if q == [] {
      assert false;
    } else {
      SplitJoin(q);
      SplitBelow(p, rest);
      assert q == p + SplitSlash(rest);
    }
  }

  lemma Regroup(a: string, b: string, c: string)
    ensures a + "/" + b + "/" + c == a + "/" + (b + "/" + c)
  {}

  lemma {:induction false} SplitBelow(p: Path, rest: string)
    requires AllNames(p) && p != []
    ensures SplitSlash(Join(p) + "/" + rest) == p + SplitSlash(rest)
  {
    assert p[0] in p && '/' !in p[0];
    assert AllNames(p[1..]);
    hide AllNames, IsName, SplitSlash;
    if |p| == 1 {
      assert p == [p[0]];
      SplitFirst(p[0], rest);
    } else {
      var below := Join(p[1..]) + "/" + rest;
      SplitBelow(p[1..], rest);
      Regroup(p[0], Join(p[1..]), rest);
      SplitFirst(p[0], below);
      assert [p[0]] + (p[1..] + SplitSlash(rest)) == p + SplitSlash(rest);
    }
  }

  // ----- path.Join on rooted paths -----

  predicate Rooted(s: string) { s != "" && s[0] == '/' }

  /** Drops empty and dot elements, and resolves dot-dot against what precedes it. */
  function Reduce(parts: Path): Path {
    if parts == [] then [] else
      var before := Reduce(parts[..|parts| - 1]);
      var last := parts[|parts| - 1];
      if last == "" || last == "." then before
      else if last == ".." then (if before == [] then [] else before[..|before| - 1])
      else before + [last]
  }

  function Clean(s: string): (r: string)
    requires Rooted(s)
    ensures Rooted(r)
  {
    KeyOf(Reduce(SplitSlash(s)))
  }

  /** path.Join of elements of which the first is rooted. */
  function JoinPath(elems: seq<string>): (r: string)
    requires elems != [] && Rooted(elems[0])
    ensures Rooted(r)
  {
    Clean(Join(elems))
  }

  lemma {:induction false} ReduceNames(before: Path, names: Path)
    requires AllNames(names)
    ensures Reduce(before + names) == Reduce(before) + names
  {
    if names == [] {
      assert before + names == before;
    } else {
      var init := names[..|names| - 1];
      ReduceNames(before, init);
      assert (before + names)[..|before + names| - 1] == before + init;
      assert names == init + [names[|names| - 1]];
      assert names[|names| - 1] in names;
    }
  }

  lemma SplitRooted(s: string)
    ensures SplitSlash("/" + s) == [""] + SplitSlash(s)
  {
    assert ("/" + s)[1..] == s;
  }

  /** Joining names to a canonical key gives the canonical key of the longer path. */
  lemma JoinBelow(p: Path, names: Path)
    requires AllNames(p) && AllNames(names) && names != []
    ensures JoinPath([KeyOf(p)] + names) == KeyOf(p + names)
  {
    hide Reduce, SplitSlash, Join;
    JoinConcat([KeyOf(p)], names);
    JoinShort(KeyOf(p));
    if p == [] {
      assert Join([KeyOf(p)] + names) == "/" + ("/" + Join(names));
      SplitRooted("/" + Join(names));
      SplitRooted(Join(names));
      SplitJoin(names);
      assert [""] + ([""] + names) == ["", ""] + names;
      ReduceEmpty();
      ReduceNames(["", ""], names);
    } else {
      JoinConcat(p, names);
      assert Join([KeyOf(p)] + names) == "/" + Join(p + names);
      SplitRooted(Join(p + names));
      SplitJoin(p + names);
      ReduceEmpty();
      ReduceNames([""], p + names);
    }
    assert [] + (p + names) == p + names && [] + names == names;
  }

  lemma JoinShort(s: string)
    ensures Join([s]) == s && Join([]) == ""
  {}

  lemma ReduceEmpty()
    ensures Reduce([""]) == [] && Reduce(["", ""]) == []
  {
    assert [""][..0] == [] && ["", ""][..1] == [""];
  }
}
