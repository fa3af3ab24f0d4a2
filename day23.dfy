/**
  Day 23, LAN party: a list of `a-b` links between computers. Part one
  counts the distinct triangles of mutually linked computers that include
  one whose name starts with `t`. Part two finds a largest clique with a
  Bron-Kerbosch search and prints its names sorted and comma-joined.
 */
module Day23 {
  import opened Wrappers
  import opened Text
  import opened Sorting

  /** Each computer's set of directly linked computers. */
  type Graph = map<string, set<string>>

  // ---- the link list ------------------------------------------------------------------

  /** Line `i` of the list reads `a-b`. */
  ghost predicate Declared(ls: seq<string>, a: string, b: string)
  {
    exists i :: 0 <= i < |ls| && SplitOnce(ls[i], "-") == Some((a, b))
  }

  /** Some line links `a` and `b`, in either order. */
  ghost predicate Linked(ls: seq<string>, a: string, b: string)
  {
    Declared(ls, a, b) || Declared(ls, b, a)
  }

  /** Every line contains a `-`. */
  predicate WellFormed(ls: seq<string>)
  {
    forall i :: 0 <= i < |ls| ==> SplitOnce(ls[i], "-").Some?
  }

  /** `b` is among `a`'s connections exactly when a line links them. */
  ghost predicate Adjacency(ls: seq<string>, g: Graph)
  {
    forall a, b :: a in g && b in g[a] <==> Linked(ls, a, b)
  }

  /** The keys are the computers named on some line. */
  ghost predicate Named(ls: seq<string>, g: Graph)
  {
    forall a :: a in g <==> exists b :: Linked(ls, a, b)
  }

  /** `g` holds exactly the links of the list. */
  ghost predicate Built(ls: seq<string>, g: Graph)
  {
    Adjacency(ls, g) && Named(ls, g)
  }

  /** The adjacency goes both ways. */
  predicate Symmetric(g: Graph)
  {
    forall a, b :: a in g && b in g[a] ==> b in g && a in g[b]
  }

  /** The connections of `v`, empty for a computer the map does not know. */
  function Connections(g: Graph, v: string): (r: set<string>)
    ensures v in g ==> r == g[v]
    ensures v !in g ==> r == {}
  {
    if v in g then g[v] else {}
  }

  lemma DeclaredStep(ls: seq<string>, i: nat, a: string, b: string)
    requires i < |ls|
    ensures Declared(ls[..i + 1], a, b) <==> Declared(ls[..i], a, b) || SplitOnce(ls[i], "-") == Some((a, b))
  {
    var pre, cur := ls[..i], ls[..i + 1];
    if Declared(cur, a, b) {
      var k :| 0 <= k < |cur| && SplitOnce(cur[k], "-") == Some((a, b));
      if k < i {
        assert pre[k] == cur[k];
      }
    }
    if Declared(pre, a, b) {
      var k :| 0 <= k < |pre| && SplitOnce(pre[k], "-") == Some((a, b));
      assert cur[k] == pre[k];
    }
    if SplitOnce(ls[i], "-") == Some((a, b)) {
      assert cur[i] == ls[i];
    }
  }

  /** The links added by one line `left-right`, both ways round. */
  function AddLink(g: Graph, left: string, right: string): (g': Graph)
    ensures forall a, b :: a in g' && b in g'[a] <==>
      (a in g && b in g[a]) || (a, b) == (left, right) || (a, b) == (right, left)
    ensures g'.Keys == g.Keys + {left, right}
  {
    var g1 := g[left := Connections(g, left) + {right}];
    g1[right := Connections(g1, right) + {left}]
  }

  /** The first `i` lines are read: all of them split, and they give the links of `g`. */
  ghost predicate Partial(ls: seq<string>, i: nat, g: Graph)
    requires i <= |ls|
  {
    (forall k :: 0 <= k < i ==> SplitOnce(ls[k], "-").Some?) &&
    (forall a :: a in g ==> g[a] != {}) &&
    Adjacency(ls[..i], g)
  }

  /** Reading line `i`, `left-right`, adds its link both ways. */
  lemma PartialStep(ls: seq<string>, i: nat, g: Graph, left: string, right: string)
    requires i < |ls| && Partial(ls, i, g)
    requires SplitOnce(ls[i], "-") == Some((left, right))
    ensures Partial(ls, i + 1, AddLink(g, left, right))
  {
    forall a, b ensures Linked(ls[..i + 1], a, b) <==>
      Linked(ls[..i], a, b) || (a, b) == (left, right) || (a, b) == (right, left)
    {
      DeclaredStep(ls, i, a, b);
      DeclaredStep(ls, i, b, a);
    }
  }

  /** Once every line is read, `g` is the list's graph. */
  lemma PartialDone(ls: seq<string>, g: Graph)
    requires Partial(ls, |ls|, g)
    ensures WellFormed(ls) && Built(ls, g)
  {
    assert ls[..|ls|] == ls;
    forall a | exists b :: Linked(ls, a, b) ensures a in g {
      var b :| Linked(ls, a, b);
    }
  }

  /**
    Builds the adjacency from the lines, `None` where a line has no `-` and the
    source's `unwrap` panics.
   */
  method BuildComputers(input: string) returns (r: Option<Graph>)
    ensures r.Some? <==> WellFormed(Lines(input))
    ensures r.Some? ==> Built(Lines(input), r.value)
    ensures r.Some? ==> Symmetric(r.value)
  {
    var ls := Lines(input);
    var computers: Graph := map[];
    var i := 0;
    while i < |ls|
      invariant 0 <= i <= |ls| && Partial(ls, i, computers)
    {
      match SplitOnce(ls[i], "-")
      case None =>
        return None;
      case Some((left, right)) =>
        PartialStep(ls, i, computers, left, right);
        computers := AddLink(computers, left, right);
      i := i + 1;
    }
    PartialDone(ls, computers);
    BuiltSymmetric(ls, computers);
    r := Some(computers);
  }

  /** The list's links go both ways, so the built adjacency does too. */
  lemma BuiltSymmetric(ls: seq<string>, g: Graph)
    requires Adjacency(ls, g)
    ensures Symmetric(g)
  {
    forall a, b | a in g && b in g[a] ensures b in g && a in g[b] {
      assert Linked(ls, a, b);
      assert Linked(ls, b, a);
    }
  }

  // ---- part one: triangles ------------------------------------------------------------

  /**
    `vec![a, b, c].sort()`: the stable insertion of `b` and then `c` into `[a]`,
    which is what `SortBy` does on `[a, b, c]` (see SortThreeIsSortBy).
   */
  function SortThree(a: string, b: string, c: string): (string, string, string)
  {
    var (p, q) := if StrLess(b, a) then (b, a) else (a, b);
    if !StrLess(c, q) then (p, q, c)
    else if !StrLess(c, p) then (p, c, q)
    else (c, p, q)
  }

  /** The three names sorted and comma-joined, the key of a triangle. */
  function Key(a: string, b: string, c: string): string
  {
    var (x, y, z) := SortThree(a, b, c);
    x + "," + y + "," + z
  }

  /**
    The keys the innermost loop inserts for `comp` and `conn1`, with `conn2`
    ranging over `among`.
   */
  ghost function Closing(g: Graph, comp: string, conn1: string, among: set<string>): set<string>
  {
    set conn2 | conn2 in among && conn2 != comp && conn2 != conn1 && conn2 in Connections(g, conn1)
      :: Key(comp, conn1, conn2)
  }

  /** The keys the middle loop inserts for `comp`, with `conn1` ranging over `among`. */
  ghost function Around(g: Graph, comp: string, among: set<string>): set<string>
  {
    set conn1, conn2 | conn1 in among && conn1 != comp && conn2 in Connections(g, comp)
      && conn2 != comp && conn2 != conn1 && conn2 in Connections(g, conn1)
      :: Key(comp, conn1, conn2)
  }

  /** The keys the outer loop inserts, with `comp` ranging over the keys in `among`. */
  ghost function Triangles(g: Graph, among: set<string>): set<string>
  {
    set comp, conn1, conn2 | comp in among && comp in g && StartsWith(comp, "t")
      && conn1 in g[comp] && conn1 != comp && conn2 in g[comp]
      && conn2 != comp && conn2 != conn1 && conn2 in Connections(g, conn1)
      :: Key(comp, conn1, conn2)
  }

  /** One element more for the innermost loop: the key it inserts, if any. */
  lemma ClosingStep(g: Graph, comp: string, conn1: string, triplets: set<string>, done: set<string>,
                    r: set<string>, conn2: string)
    requires r == triplets + Closing(g, comp, conn1, done)
    ensures (if conn2 != comp && conn2 != conn1 && conn2 in Connections(g, conn1)
             then r + {Key(comp, conn1, conn2)} else r) == triplets + Closing(g, comp, conn1, done + {conn2})
  {
    if conn2 != comp && conn2 != conn1 && conn2 in Connections(g, conn1) {
      assert Closing(g, comp, conn1, done + {conn2}) == Closing(g, comp, conn1, done) + {Key(comp, conn1, conn2)};
    } else {
      assert Closing(g, comp, conn1, done + {conn2}) == Closing(g, comp, conn1, done);
    }
  }

  /** Collects the keys that close a triangle through `comp` and `conn1`. */
  method CloseTriangles(g: Graph, comp: string, conn1: string, triplets: set<string>)
    returns (r: set<string>)
    requires comp in g && conn1 in g
    ensures r == triplets + Closing(g, comp, conn1, g[comp])
  {
    r := triplets;
    var c1c := g[conn1];
    var rest := g[comp];
    ghost var done := {};
    while rest != {}
      invariant done + rest == g[comp]
      invariant r == triplets + Closing(g, comp, conn1, done)
      decreases |rest|
    {
      var conn2 :| conn2 in rest;
      ClosingStep(g, comp, conn1, triplets, done, r, conn2);
      if conn2 != comp && conn2 != conn1 && conn2 in c1c {
        r := r + {Key(comp, conn1, conn2)};
      }
      rest := rest - {conn2};
      done := done + {conn2};
    }
  }

  /** One connection more for the middle loop: the keys it closes, if any. */
  lemma AroundStep(g: Graph, comp: string, triplets: set<string>, done: set<string>,
                   r: set<string>, conn1: string)
    requires comp in g
    requires r == triplets + Around(g, comp, done)
    ensures (if conn1 != comp then r + Closing(g, comp, conn1, g[comp]) else r)
      == triplets + Around(g, comp, done + {conn1})
  {
    if conn1 != comp {
      assert Around(g, comp, done + {conn1}) == Around(g, comp, done) + Closing(g, comp, conn1, g[comp]);
    } else {
      assert Around(g, comp, done + {conn1}) == Around(g, comp, done);
    }
  }

  /** Collects the keys of all triangles through `comp`. */
  method AroundComputer(g: Graph, comp: string, triplets: set<string>) returns (r: set<string>)
    requires comp in g && Symmetric(g)
    ensures r == triplets + Around(g, comp, g[comp])
  {
    r := triplets;
    var rest := g[comp];
    ghost var done := {};
    while rest != {}
      invariant done + rest == g[comp]
      invariant r == triplets + Around(g, comp, done)
      decreases |rest|
    {
      var conn1 :| conn1 in rest;
      AroundStep(g, comp, triplets, done, r, conn1);
      if conn1 != comp {
        r := CloseTriangles(g, comp, conn1, r);
      }
      rest := rest - {conn1};
      done := done + {conn1};
    }
  }

  /** One computer more for the outer loop: the keys of its triangles, if it starts with `t`. */
  lemma TrianglesStep(g: Graph, triplets: set<string>, done: set<string>, comp: string)
    requires comp in g
    requires triplets == Triangles(g, done)
    ensures (if StartsWith(comp, "t") then triplets + Around(g, comp, g[comp]) else triplets)
      == Triangles(g, done + {comp})
  {
    if StartsWith(comp, "t") {
      assert Triangles(g, done + {comp}) == Triangles(g, done) + Around(g, comp, g[comp]);
    } else {
      assert Triangles(g, done + {comp}) == Triangles(g, done);
    }
  }

  /** The number of distinct triangle keys, `Some`, unless a line has no `-`. */
  method PartOne(input: string) returns (r: Option<nat>)
    ensures r.Some? <==> WellFormed(Lines(input))
    ensures r.Some? ==> exists g :: Built(Lines(input), g) && r.value == |Triangles(g, g.Keys)|
  {
    var built := BuildComputers(input);
    if built.None? {
      return None;
    }
    var computers := built.value;
    var triplets: set<string> := {};
    var rest := computers.Keys;
    ghost var done := {};
    while rest != {}
      invariant done + rest == computers.Keys
      invariant triplets == Triangles(computers, done)
      decreases |rest|
    {
      var comp :| comp in rest;
      TrianglesStep(computers, triplets, done, comp);
      if StartsWith(comp, "t") {
        triplets := AroundComputer(computers, comp, triplets);
      }
      rest := rest - {comp};
      done := done + {comp};
    }
    r := Some(|triplets|);
  }

  /** `x`, `y` and `z` are pairwise connected. */
  predicate Triad(g: Graph, x: string, y: string, z: string)
  {
    y in Connections(g, x) && z in Connections(g, x) && z in Connections(g, y)
  }

  /** One of the three names starts with `t`. */
  predicate Chief(x: string, y: string, z: string)
  {
    StartsWith(x, "t") || StartsWith(y, "t") || StartsWith(z, "t")
  }

  ghost predicate Triangle(g: Graph, k: string)
  {
    exists x, y, z :: StrLess(x, y) && StrLess(y, z) && Triad(g, x, y, z) && Chief(x, y, z)
      && k == x + "," + y + "," + z
  }

  /** Sorting three distinct names gives them in strictly ascending order. */
  lemma SortThreeAscending(a: string, b: string, c: string)
    requires a != b && b != c && a != c
    ensures var (x, y, z) := SortThree(a, b, c);
      StrLess(x, y) && StrLess(y, z) && multiset{x, y, z} == multiset{a, b, c}
  {
    StrLessTrichotomy(a, b);
    StrLessTrichotomy(a, c);
    StrLessTrichotomy(b, c);
    var (p, q) := if StrLess(b, a) then (b, a) else (a, b);
    assert StrLess(p, q);
    if StrLess(c, q) && !StrLess(c, p) {
      assert StrLess(p, c);
    }
    if StrLess(c, q) && StrLess(c, p) {
      assert StrLess(c, p);
    }
  }

  /** Three names in strictly ascending order are what sorting any arrangement of them gives. */
  lemma SortThreeUnique(a: string, b: string, c: string, x: string, y: string, z: string)
    requires StrLess(x, y) && StrLess(y, z)
    requires multiset{a, b, c} == multiset{x, y, z}
    ensures SortThree(a, b, c) == (x, y, z)
  {
    StrLessIrreflexive(x);
    StrLessIrreflexive(y);
    StrLessTransitive(x, y, z);
    StrLessTrichotomy(x, y);
    StrLessTrichotomy(y, z);
    StrLessTrichotomy(x, z);
    StrLessIrreflexive(z);
    assert a in multiset{x, y, z} && b in multiset{x, y, z} && c in multiset{x, y, z};
    assert a != b && b != c && a != c;
    SortThreeAscending(a, b, c);
    var (x', y', z') := SortThree(a, b, c);
    assert x' in multiset{x, y, z} && y' in multiset{x, y, z} && z' in multiset{x, y, z};
    StrLessTransitive(x', y', z');
  }

  /** Strictly ascending names are distinct and ordered. */
  lemma AscendingOrdered(x: string, y: string, z: string)
    requires StrLess(x, y) && StrLess(y, z)
    ensures Ordered([x, y, z], StrLess) && x != y && y != z && x != z
  {
    StrLessTransitive(x, y, z);
    StrLessTrichotomy(x, y);
    StrLessTrichotomy(y, z);
    StrLessTrichotomy(x, z);
  }

  /** `SortBy` on three names: ordered, with the same names. */
  lemma SortByThree(a: string, b: string, c: string)
    ensures var s := SortBy([a, b, c], StrLess);
      Ordered(s, StrLess) && multiset(s) == multiset{a, b, c} && Elems(s) == Elems([a, b, c])
  {
    var s := SortBy([a, b, c], StrLess);
    StrLessOrder(Elems([a, b, c]));
    SortByOrdered([a, b, c], StrLess);
    assert multiset(s) == multiset([a, b, c]) == multiset{a, b, c};
    forall e ensures e in Elems(s) <==> e in multiset(s) { }
    forall e ensures e in Elems([a, b, c]) <==> e in multiset([a, b, c]) { }
  }

  /** For distinct names the written-out sort agrees with `SortBy`. */
  lemma SortThreeIsSortBy(a: string, b: string, c: string)
    requires a != b && b != c && a != c
    ensures var (x, y, z) := SortThree(a, b, c); SortBy([a, b, c], StrLess) == [x, y, z]
  {
    SortThreeAscending(a, b, c);
    var (x, y, z) := SortThree(a, b, c);
    AscendingOrdered(x, y, z);
    SortByThree(a, b, c);
    StrLessOrder(Elems([a, b, c]));
    OrderedUnique(SortBy([a, b, c], StrLess), [x, y, z], StrLess);
  }

  /** Three pairwise connected names stay pairwise connected in any arrangement. */
  lemma TriadOf(g: Graph, a: string, b: string, c: string, x: string, y: string, z: string)
    requires Symmetric(g) && a in g && b in g[a] && c in g[a] && c in Connections(g, b)
    requires multiset{x, y, z} == multiset{a, b, c} && x != y && y != z && x != z
    ensures Triad(g, x, y, z)
  {
    assert forall u, v :: u in {a, b, c} && v in {a, b, c} && u != v ==> v in Connections(g, u);
    assert x in multiset{a, b, c} && y in multiset{a, b, c} && z in multiset{a, b, c};
  }

  /** A key part one inserts names an ascending triangle with a `t` computer. */
  lemma TriangleOfKey(g: Graph, a: string, b: string, c: string)
    requires Symmetric(g) && a in g && StartsWith(a, "t") && b in g[a] && b != a && c in g[a]
    requires c != a && c != b && c in Connections(g, b)
    ensures Triangle(g, Key(a, b, c))
  {
    SortThreeAscending(a, b, c);
    var (x, y, z) := SortThree(a, b, c);
    AscendingOrdered(x, y, z);
    TriadOf(g, a, b, c, x, y, z);
    assert Chief(x, y, z) by {
      assert a in multiset{x, y, z};
    }
  }

  /** An ascending triangle with a `t` computer has its key inserted by part one. */
  lemma KeyOfTriangle(g: Graph, x: string, y: string, z: string)
    requires Symmetric(g)
    requires StrLess(x, y) && StrLess(y, z) && Triad(g, x, y, z) && Chief(x, y, z)
    ensures x + "," + y + "," + z in Triangles(g, g.Keys)
  {
    AscendingOrdered(x, y, z);
    var (a, b, c) := if StartsWith(x, "t") then (x, y, z)
      else if StartsWith(y, "t") then (y, x, z) else (z, x, y);
    assert multiset{a, b, c} == multiset{x, y, z};
    SortThreeUnique(a, b, c, x, y, z);
    assert a in g && b in g[a] && c in g[a] && c in Connections(g, b);
  }

  /**
    The keys part one collects are exactly the comma-joined ascending names of
    the pairwise connected triples that include a `t` computer.
   */
  lemma TrianglesMeaning(g: Graph, k: string)
    requires Symmetric(g)
    ensures k in Triangles(g, g.Keys) <==> Triangle(g, k)
  {
    if k in Triangles(g, g.Keys) {
      var a, b, c :| a in g && StartsWith(a, "t") && b in g[a] && b != a && c in g[a]
        && c != a && c != b && c in Connections(g, b) && k == Key(a, b, c);
      TriangleOfKey(g, a, b, c);
    }
    if Triangle(g, k) {
      var x, y, z :| StrLess(x, y) && StrLess(y, z) && Triad(g, x, y, z) && Chief(x, y, z)
        && k == x + "," + y + "," + z;
      KeyOfTriangle(g, x, y, z);
    }
  }

  // ---- part two: the largest clique ---------------------------------------------------

  /** Every two distinct members are connected. */
  predicate Clique(g: Graph, k: set<string>)
  {
    forall a, b :: a in k && b in k && a != b ==> b in Connections(g, a)
  }

  /** `c` is connected to every member of `current`. */
  predicate Extends(g: Graph, current: set<string>, c: string)
  {
    forall a :: a in current ==> c in Connections(g, a)
  }

  /** No computer is linked to itself. */
  predicate Loopless(g: Graph)
  {
    forall a :: a in g ==> a !in g[a]
  }

  lemma SubsetSize<T>(a: set<T>, b: set<T>)
    requires a <= b
    ensures |a| <= |b|
  {
    assert b == a + (b - a);
  }

  /** No clique between `lo` and `hi` has more members than `mx`. */
  ghost predicate Covered(g: Graph, lo: set<string>, hi: set<string>, mx: set<string>)
  {
    forall k {:trigger Clique(g, k)} :: Clique(g, k) && lo <= k <= hi ==> |k| <= |mx|
  }

  /**
    No clique that extends `current` by candidates, one of them already
    explored (in `done`), has more members than `mx`.
   */
  ghost predicate CoveredThrough(g: Graph, current: set<string>, candidates: set<string>,
                                 done: set<string>, mx: set<string>)
  {
    forall k {:trigger Clique(g, k)} :: Clique(g, k) && current <= k <= current + candidates && k * done != {}
      ==> |k| <= |mx|
  }

  /** `mx'` is `mx`, or a strictly larger set drawn from `within`. */
  predicate Replaced(mx: set<string>, mx': set<string>, within: set<string>)
  {
    mx' == mx || (|mx'| > |mx| && mx' <= within)
  }

  /**
    Exploring candidate `v`: it is not yet in `current`, adding it keeps a
    clique, and the candidates left for the recursive call are fewer and all
    extend the larger clique.
   */
  lemma Branch(g: Graph, current: set<string>, candidates: set<string>, rest: set<string>, v: string)
    requires Symmetric(g) && Loopless(g) && Clique(g, current)
    requires forall c :: c in candidates ==> Extends(g, current, c)
    requires rest <= candidates && v in rest
    ensures v !in current && Clique(g, current + {v})
    ensures forall c :: c in rest * Connections(g, v) ==> Extends(g, current + {v}, c)
    ensures |rest * Connections(g, v)| < |candidates|
  {
    assert Extends(g, current, v);
    forall a, b | a in current + {v} && b in current + {v} && a != b
      ensures b in Connections(g, a)
    {
      if a == v {
        assert v in Connections(g, b);
      }
    }
    forall c | c in rest * Connections(g, v) ensures Extends(g, current + {v}, c) {
      assert Extends(g, current, c);
    }
    SubsetSize(rest * Connections(g, v), candidates - {v});
  }

  /** One more element explored: the remaining ones are still those not yet explored. */
  lemma Explored<T>(all: set<T>, done: set<T>, rest: set<T>, v: T)
    requires done <= all && rest == all - done && v in rest
    ensures done + {v} <= all && rest - {v} == all - (done + {v})
  {
  }

  /** After exploring `v`, the cliques through `v` are covered as well. */
  lemma CoverStep(g: Graph, current: set<string>, candidates: set<string>, done: set<string>,
                  v: string, mx: set<string>, mx': set<string>)
    requires v in candidates && v !in done && done <= candidates
    requires CoveredThrough(g, current, candidates, done, mx) && |mx| <= |mx'|
    requires Covered(g, current + {v}, current + {v} + (candidates - done) * Connections(g, v), mx')
    ensures CoveredThrough(g, current, candidates, done + {v}, mx')
  {
    forall k | Clique(g, k) && current <= k <= current + candidates && k * (done + {v}) != {}
      ensures |k| <= |mx'|
    {
      if k * done == {} {
        assert v in k;
        forall u | u in k && u !in current + {v}
          ensures u in (candidates - done) * Connections(g, v)
        {
          assert u !in done;
        }
      }
    }
  }

  /** `current` plus any one candidate is a covered clique, so `current` is smaller than `mx`. */
  lemma CurrentCovered(g: Graph, current: set<string>, candidates: set<string>, mx: set<string>)
    requires Symmetric(g) && Loopless(g) && Clique(g, current) && candidates != {}
    requires forall c :: c in candidates ==> Extends(g, current, c)
    requires CoveredThrough(g, current, candidates, candidates, mx)
    ensures |current| < |mx|
  {
    var v :| v in candidates;
    Branch(g, current, candidates, candidates, v);
    var bigger := current + {v};
    assert v in bigger * candidates;
    assert Clique(g, bigger) && current <= bigger <= current + candidates;
    assert |bigger| <= |mx|;
    assert |bigger| == |current| + 1;
  }

  /** With every candidate explored, all cliques between `current` and the candidates are covered. */
  lemma CoverDone(g: Graph, current: set<string>, candidates: set<string>, mx: set<string>)
    requires Symmetric(g) && Loopless(g) && Clique(g, current) && candidates != {}
    requires forall c :: c in candidates ==> Extends(g, current, c)
    requires CoveredThrough(g, current, candidates, candidates, mx)
    ensures Covered(g, current, current + candidates, mx)
  {
    CurrentCovered(g, current, candidates, mx);
    forall k | Clique(g, k) && current <= k <= current + candidates ensures |k| <= |mx| {
      if k * candidates == {} {
        assert k <= current;
        SubsetSize(k, current);
      }
    }
  }

  /**
    The Bron-Kerbosch search without pivoting. `current` and `max_clique` are
    the source's mutable references, passed in and handed back. Every call sees
    `current` as a clique and hands it back unchanged; `max_clique` stays a
    clique and is only ever replaced by a larger one. With nothing excluded (as
    at the top call, since intersecting the empty set keeps it empty), no clique
    between `current` and `current` plus the candidates is larger than the
    returned `max_clique`. A link from a computer to itself would make the
    recursion go on for ever, so the graph is required to have none.
   */
  method BronKerbosch(current: set<string>, candidates: set<string>, excluded: set<string>,
                      g: Graph, maxClique: set<string>)
    returns (current': set<string>, maxClique': set<string>)
    requires Symmetric(g) && Loopless(g)
    requires Clique(g, current) && Clique(g, maxClique)
    requires forall c :: c in candidates ==> Extends(g, current, c)
    ensures current' == current
    ensures Clique(g, maxClique')
    ensures Replaced(maxClique, maxClique', current + candidates)
    ensures excluded == {} ==> Covered(g, current, current + candidates, maxClique')
    decreases |candidates|, 1
  {
    current', maxClique' := current, maxClique;
    if candidates == {} && excluded == {} {
      if |current'| > |maxClique'| {
        maxClique' := current';
      }
      forall k | Clique(g, k) && current <= k <= current + candidates ensures |k| <= |maxClique'| {
        assert k == current;
      }
      return;
    }
    // `for v in candidates` visits, at each step, a member of `c_c`, the
    // candidates not yet explored, and then removes it from `c_c`.
    var cc := candidates;
    ghost var done := {};
    while cc != {}
      invariant done <= candidates && cc == candidates - done
      invariant current' == current && Clique(g, maxClique')
      invariant Replaced(maxClique, maxClique', current + candidates)
      invariant excluded == {} ==> CoveredThrough(g, current, candidates, done, maxClique')
      decreases |cc|
    {
      var v :| v in cc;
      ghost var before := maxClique';
      current', maxClique' := Explore(current', candidates, cc, v, excluded, g, maxClique');
      if excluded == {} {
        CoverStep(g, current, candidates, done, v, before, maxClique');
      }
      Explored(candidates, done, cc, v);
      cc := cc - {v};
      done := done + {v};
    }
    if excluded == {} {
      CoverDone(g, current, candidates, maxClique');
    }
  }

  /**
    One turn of the search loop: `v` joins `current`, the search recurses on
    the unexplored candidates connected to `v`, and `v` leaves `current` again.
   */
  method Explore(current: set<string>, ghost candidates: set<string>, cc: set<string>, v: string,
                 excluded: set<string>, g: Graph, maxClique: set<string>)
    returns (current': set<string>, maxClique': set<string>)
    requires Symmetric(g) && Loopless(g)
    requires Clique(g, current) && Clique(g, maxClique)
    requires forall c :: c in candidates ==> Extends(g, current, c)
    requires cc <= candidates && v in cc
    ensures current' == current
    ensures Clique(g, maxClique')
    ensures Replaced(maxClique, maxClique', current + candidates)
    ensures excluded == {} ==>
      Covered(g, current + {v}, current + {v} + cc * Connections(g, v), maxClique')
    decreases |cc|, 0
  {
    var conns := Connections(g, v);
    Branch(g, current, cc, cc, v);
    current' := current + {v};
    var nCand := cc * conns;
    var nEx := excluded * conns;
    current', maxClique' := BronKerbosch(current', nCand, nEx, g, maxClique);
    current' := current' - {v};
  }

  /** `s` is the ascending list of a clique's names joined by commas (`""` when it is empty). */
  function Render(names: seq<string>): string
  {
    if names == [] then "" else Join(names, ',')
  }

  /**
    The largest clique's names, sorted and comma-joined; `None` where a line has
    no `-` (the source panics) or links a computer to itself (the source's
    search does not terminate).
   */
  method PartTwo(input: string) returns (r: Option<string>, ghost g: Graph, ghost clique: set<string>,
                                         ghost names: seq<string>)
    ensures r.Some? <==> WellFormed(Lines(input)) && forall a :: !Declared(Lines(input), a, a)
    ensures r.Some? ==> Built(Lines(input), g) && Clique(g, clique) && clique <= g.Keys
    ensures r.Some? ==> Covered(g, {}, g.Keys, clique)
    ensures r.Some? ==> forall x :: x in names <==> x in clique
    ensures r.Some? ==> forall i, j :: 0 <= i < j < |names| ==> StrLess(names[i], names[j])
    ensures r.Some? ==> r.value == Render(names)
  {
    var built := BuildComputers(input);
    g, clique, names := map[], {}, [];
    if built.None? {
      return None, g, clique, names;
    }
    var computers := built.value;
    g := computers;
    if exists a :: a in computers && a in computers[a] {
      return None, g, clique, names;
    }
    forall a ensures !Declared(Lines(input), a, a) {
      assert Declared(Lines(input), a, a) ==> Linked(Lines(input), a, a);
    }
    var current, maxClique := BronKerbosch({}, computers.Keys, {}, computers, {});
    clique := maxClique;
    var sorted := SortStrings(maxClique);
    names := sorted;
    r := Some(Render(sorted));
  }

  // ---- a link from a computer to itself ------------------------------------------------

  /**
    The arguments of the recursive call the search makes for `v`, as written:
    `v` joins `current`, and the candidates and the excluded are cut down to
    the connections of `v`.
   */
  function AsWrittenCall(g: Graph, current: set<string>, cc: set<string>, excluded: set<string>, v: string)
    : (r: (set<string>, set<string>, set<string>))
    ensures r.0 == current + {v} && r.1 <= cc && r.2 <= excluded
  {
    (current + {v}, cc * Connections(g, v), excluded * Connections(g, v))
  }

  /**
    When `v` is linked to itself, `n_cand` keeps `v`: from the top call with `v`
    as the only computer, the search calls itself with `current == {v}` and
    candidates `{v}`, and that call makes exactly the same call again.
   */
  lemma AsWrittenSelfLinkRepeats(g: Graph, v: string)
    requires v in Connections(g, v)
    ensures AsWrittenCall(g, {}, {v}, {}, v) == ({v}, {v}, {})
    ensures AsWrittenCall(g, {v}, {v}, {}, v) == ({v}, {v}, {})
  {
    var none: set<string> := {};
    assert {v} * Connections(g, v) == {v} && none * Connections(g, v) == none;
    assert none + {v} == {v} && {v} + {v} == {v};
  }

  /** The graph with every link from a computer to itself dropped. */
  function Unlooped(g: Graph): (r: Graph)
    ensures r.Keys == g.Keys && Loopless(r)
    ensures forall a :: a in g ==> r[a] == g[a] - {a}
  {
    map a | a in g :: g[a] - {a}
  }

  lemma UnloopedSymmetric(g: Graph)
    requires Symmetric(g)
    ensures Symmetric(Unlooped(g))
  {
  }

  /** Dropping self-links changes no clique, since a clique only asks distinct members to be linked. */
  lemma UnloopedClique(g: Graph, k: set<string>)
    ensures Clique(Unlooped(g), k) <==> Clique(g, k)
  {
    var u := Unlooped(g);
    forall a, b | a != b ensures b in Connections(u, a) <==> b in Connections(g, a) {
      if a in g {
        assert Connections(u, a) == g[a] - {a};
      }
    }
  }

  /**
    `part_two` with a computer never a candidate of its own branch: the search runs
    on the graph with self-links dropped, which has the same cliques. The answer is
    the comma-joined, sorted names of a largest clique of the declared links.
   */
  method PartTwoLoopFree(input: string) returns (r: Option<string>, ghost g: Graph, ghost clique: set<string>,
                                                 ghost names: seq<string>)
    ensures r.Some? <==> WellFormed(Lines(input))
    ensures r.Some? ==> Built(Lines(input), g) && Clique(g, clique) && clique <= g.Keys
    ensures r.Some? ==> Covered(g, {}, g.Keys, clique)
    ensures r.Some? ==> forall x :: x in names <==> x in clique
    ensures r.Some? ==> forall i, j :: 0 <= i < j < |names| ==> StrLess(names[i], names[j])
    ensures r.Some? ==> r.value == Render(names)
  {
    var built := BuildComputers(input);
    g, clique, names := map[], {}, [];
    if built.None? {
      return None, g, clique, names;
    }
    var computers := built.value;
    g := computers;
    var loopFree := map a | a in computers :: computers[a] - {a};
    assert loopFree == Unlooped(g);
    UnloopedSymmetric(g);
    var current, maxClique := BronKerbosch({}, loopFree.Keys, {}, loopFree, {});
    UnloopedClique(g, maxClique);
    forall k | Clique(g, k) && {} <= k <= g.Keys ensures |k| <= |maxClique| {
      UnloopedClique(g, k);
    }
    clique := maxClique;
    var sorted := SortStrings(maxClique);
    names := sorted;
    r := Some(Render(sorted));
  }
}
