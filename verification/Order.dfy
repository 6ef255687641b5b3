/** Names in the order of sort.Strings: by character code, a proper prefix first. */
module Order {
  predicate Leq(a: string, b: string) {
    a == "" || (b != "" && (a[0] < b[0] || (a[0] == b[0] && Leq(a[1..], b[1..]))))
  }

  /** The first character in which two names differ decides. */
  lemma {:induction false} LeqDecides(common: string, a: string, b: string)
    requires a != "" && b != "" && a[0] != b[0]
    ensures Leq(common, common + a) && (Leq(common + a, common + b) <==> a[0] < b[0]) && !Leq(common + a, common)
  {
    if common != "" {
      LeqDecides(common[1..], a, b);
      assert (common + a)[1..] == common[1..] + a && (common + b)[1..] == common[1..] + b;
    } else {
      assert common + a == a && common + b == b;
    }
  }

  lemma {:induction false} LeqTotal(a: string, b: string)
    ensures Leq(a, b) || Leq(b, a)
  {
    if a != "" && b != "" { LeqTotal(a[1..], b[1..]); }
  }

  lemma {:induction false} LeqAntisymmetric(a: string, b: string)
    requires Leq(a, b) && Leq(b, a)
    ensures a == b
  {
    if a != "" && b != "" {
      LeqAntisymmetric(a[1..], b[1..]);
      assert a == [a[0]] + a[1..] && b == [b[0]] + b[1..];
    }
  }

  lemma {:induction false} LeqTransitive(a: string, b: string, c: string)
    requires Leq(a, b) && Leq(b, c)
    ensures Leq(a, c)
  {
    if a != "" && a[0] == b[0] == c[0] { LeqTransitive(a[1..], b[1..], c[1..]); }
  }

  ghost predicate IsLeast(x: string, s: set<string>) {
    x in s && forall y <- s :: Leq(x, y)
  }

  lemma {:induction false} LeastExists(s: set<string>)
    requires s != {}
    ensures exists x :: IsLeast(x, s)
  {
    var x :| x in s;
    var rest := s - {x};
    LeqTotal(x, x);
    if rest == {} {
      forall y <- s ensures Leq(x, y) { assert y == x || y in rest; }
      assert IsLeast(x, s);
    } else {
      LeastExists(rest);
      var m :| IsLeast(m, rest);
      LeqTotal(x, m);
      if Leq(m, x) {
        forall y <- s ensures Leq(m, y) { assert y == x || y in rest; }
        assert IsLeast(m, s);
      } else {
        forall y <- s ensures Leq(x, y) { if y != x { LeqTransitive(x, m, y); } }
        assert IsLeast(x, s);
      }
    }
  }

  ghost function Least(s: set<string>): (x: string)
    requires s != {}
    ensures IsLeast(x, s)
  {
    LeastExists(s);
    var x :| IsLeast(x, s);
    x
  }

  /** The names of a set in order. */
  ghost function SortedNames(s: set<string>): seq<string> {
    if s == {} then [] else
      var x := Least(s);
      [x] + SortedNames(s - {x})
  }

  function Elements(names: seq<string>): set<string> {
    set n <- names
  }

  lemma ElementsMore(names: seq<string>, i: nat)
    requires i < |names|
    ensures names[i] in Elements(names)
    ensures Elements(names[..i + 1]) == Elements(names[..i]) + {names[i]}
  {
    assert names[..i + 1] == names[..i] + [names[i]];
  }

  /** The two ends of a traversal of the sorted names of a set. */
  lemma ElementsEnds(s: set<string>)
    ensures var names := SortedNames(s); Elements(names[..0]) == {} && Elements(names[..|names|]) == Elements(names) == s
  {
    SortedNamesOf(s);
    assert SortedNames(s)[..|SortedNames(s)|] == SortedNames(s);
  }

  predicate Sorted(names: seq<string>) {
    forall i, j :: 0 <= i < j < |names| ==> names[i] != names[j] && Leq(names[i], names[j])
  }

  lemma {:induction false} SortedNamesOf(s: set<string>)
    ensures forall x :: x in s <==> x in SortedNames(s)
    ensures Sorted(SortedNames(s))
  {
    if s != {} {
      hide Leq;
      var x := Least(s);
      SortedNamesOf(s - {x});
      assert SortedNames(s) == [x] + SortedNames(s - {x});
      forall j | 0 < j < |SortedNames(s)| ensures SortedNames(s)[j] != x && Leq(x, SortedNames(s)[j]) {
        assert SortedNames(s)[j] == SortedNames(s - {x})[j - 1];
        assert SortedNames(s - {x})[j - 1] in SortedNames(s - {x});
      }
    }
  }

  lemma SortedNamesStep(s: set<string>, x: string)
    requires IsLeast(x, s)
    ensures SortedNames(s) == [x] + SortedNames(s - {x})
  {
    LeqAntisymmetric(x, Least(s));
  }

  method FindLeast(s: set<string>) returns (least: string)
    requires s != {}
    ensures IsLeast(least, s)
  {
    least :| least in s;
    LeqTotal(least, least);
    var todo := s - {least};
    while todo != {}
      invariant todo <= s && least in s - todo
      invariant forall y <- s - todo :: Leq(least, y)
      decreases todo
    {
      var y :| y in todo;
      todo := todo - {y};
      LeqTotal(y, least);
      if Leq(y, least) {
        LeqTotal(y, y);
        forall z <- s - todo | z != y ensures Leq(y, z) { LeqTransitive(y, least, z); }
        least := y;
      }
    }
  }

  /** A selection sort standing for sort.Strings over the keys of a map. */
  method Sort(s: set<string>) returns (names: seq<string>)
    ensures names == SortedNames(s)
  {
    hide IsLeast;
    names := [];
    var rest := s;
    while rest != {}
      invariant names + SortedNames(rest) == SortedNames(s)
      decreases rest
    {
      var least := FindLeast(rest);
      SortedNamesStep(rest, least);
      names := names + [least];
      rest := rest - {least};
    }
  }

  function Filter(names: seq<string>, s: set<string>): (r: seq<string>)
    ensures forall n <- r :: n in names && n in s
  {
    if names == [] then [] else
      var rest := Filter(names[..|names| - 1], s);
      if names[|names| - 1] in s then rest + [names[|names| - 1]] else rest
  }

  lemma {:induction false} FilterConcat(a: seq<string>, b: seq<string>, s: set<string>)
    ensures Filter(a + b, s) == Filter(a, s) + Filter(b, s)
  {
    if b == [] {
      assert a + b == a;
    } else {
      assert (a + b)[..|a + b| - 1] == a + b[..|b| - 1];
      FilterConcat(a, b[..|b| - 1], s);
    }
  }

  /** Dropping names from a sorted listing gives the sorted listing of the rest. */
  lemma {:induction false} FilterSorted(all: set<string>, s: set<string>)
    requires s <= all
    ensures Filter(SortedNames(all), s) == SortedNames(s)
  {
    if all != {} {
      var x := Least(all);
      var rest := SortedNames(all - {x});
      assert IsLeast(x, all) && SortedNames(all) == [x] + rest;
      assert x in s ==> IsLeast(x, s);
      hide IsLeast, Filter, SortedNames, Sorted;
      FilterConcat([x], rest, s);
      FilterOne(x, s);
      if x in s {
        FilterSorted(all - {x}, s - {x});
        SortedNamesOf(all - {x});
        FilterSame(rest, s, s - {x});
        SortedNamesStep(s, x);
      } else {
        FilterSorted(all - {x}, s);
      }
    } else {
      NothingSorted();
      assert s == {};
    }
  }

  lemma NothingSorted()
    ensures SortedNames({}) == [] && forall s :: Filter([], s) == []
  {}

  lemma FilterOne(x: string, s: set<string>)
    ensures Filter([x], s) == if x in s then [x] else []
  {
    assert [x][..0] == [];
  }

  lemma {:induction false} FilterSame(names: seq<string>, s: set<string>, t: set<string>)
    requires forall n <- names :: n in s <==> n in t
    ensures Filter(names, s) == Filter(names, t)
  {
    if names != [] {
      assert names[|names| - 1] in names;
      FilterSame(names[..|names| - 1], s, t);
    }
  }
}
