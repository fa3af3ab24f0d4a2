/**
  Sorting, as the solvers use Rust's `sort`, `sort_by` and itertools' `sorted`: a stable
  insertion sort over a caller-supplied "less than" relation, with the facts that make the
  result independent of which stable sorting algorithm produced it.
 */
module Sorting {

  /** The elements of a sequence, as a set. */
  function Elems<T>(s: seq<T>): set<T>
  {
    set x | x in s
  }

  /** No later element is less than an earlier one. */
  predicate Ordered<T>(s: seq<T>, less: (T, T) -> bool)
  {
    forall i, j :: 0 <= i < j < |s| ==> !less(s[j], s[i])
  }

  /**
    `less` behaves as a strict weak order on the given elements: it is irreflexive and
    asymmetric, and "not less" is transitive.
   */
  predicate StrictWeakOrder<T>(elems: set<T>, less: (T, T) -> bool)
  {
    (forall a, b :: a in elems && b in elems && less(a, b) ==> !less(b, a)) &&
    (forall a :: a in elems ==> !less(a, a)) &&
    (forall a, b, c :: a in elems && b in elems && c in elems && !less(a, b) && !less(b, c) ==> !less(a, c))
  }

  /** Distinct elements are always comparable: the order is total. */
  predicate Total<T(==)>(elems: set<T>, less: (T, T) -> bool)
  {
    forall a, b :: a in elems && b in elems && a != b ==> less(a, b) || less(b, a)
  }

  /** Places `x` after every element of `r` it is not less than (so ties keep input order). */
  function Insert<T>(r: seq<T>, x: T, less: (T, T) -> bool): (r': seq<T>)
    ensures multiset(r') == multiset(r) + multiset{x}
  {
    if r == [] then [x]
    else if less(x, r[|r| - 1]) then
      assert r == r[..|r| - 1] + [r[|r| - 1]];
      Insert(r[..|r| - 1], x, less) + [r[|r| - 1]]
    else r + [x]
  }

  /** Stable sort: inserts the elements one by one, in input order. */
  function SortBy<T>(s: seq<T>, less: (T, T) -> bool): (r: seq<T>)
    ensures multiset(r) == multiset(s)
    ensures |r| == |s|
  {
    if s == [] then []
    else
      assert s == s[..|s| - 1] + [s[|s| - 1]];
      assert |multiset(Insert(SortBy(s[..|s| - 1], less), s[|s| - 1], less))| == |multiset(s)|;
      Insert(SortBy(s[..|s| - 1], less), s[|s| - 1], less)
  }

  lemma {:induction false} InsertOrdered<T>(r: seq<T>, x: T, less: (T, T) -> bool, elems: set<T>)
    requires StrictWeakOrder(elems, less)
    requires x in elems && forall i :: 0 <= i < |r| ==> r[i] in elems
    requires Ordered(r, less)
    ensures Ordered(Insert(r, x, less), less)
  {
    if r != [] {
      var last := r[|r| - 1];
      if less(x, last) {
        var front := r[..|r| - 1];
        assert Ordered(front, less);
        InsertOrdered(front, x, less, elems);
        var ins := Insert(front, x, less);
        forall e | e in ins ensures !less(last, e) {
          assert e in multiset(ins);
          if e != x {
            assert e in multiset(front);
            var i :| 0 <= i < |front| && front[i] == e;
            assert r[i] == e && r[|r| - 1] == last;
          }
        }
        var r' := ins + [last];
        forall i, j | 0 <= i < j < |r'| ensures !less(r'[j], r'[i]) {
          if j == |r'| - 1 {
            assert r'[i] in ins;
          }
        }
      } else {
        var r' := r + [x];
        forall i, j | 0 <= i < j < |r'| ensures !less(r'[j], r'[i]) {
          if j == |r'| - 1 && i < |r| - 1 {
            assert !less(last, r[i]);
          }
        }
      }
    }
  }

  /** Under a strict weak order, the sort produces an ordered sequence. */
  lemma {:induction false} SortByOrdered<T>(s: seq<T>, less: (T, T) -> bool)
    requires StrictWeakOrder(Elems(s), less)
    ensures Ordered(SortBy(s, less), less)
  {
    if s != [] {
      var front := s[..|s| - 1];
      assert Elems(front) <= Elems(s);
      SortByOrdered(front, less);
      var sorted := SortBy(front, less);
      forall i | 0 <= i < |sorted| ensures sorted[i] in Elems(s) {
        assert sorted[i] in multiset(front);
      }
      InsertOrdered(sorted, s[|s| - 1], less, Elems(s));
    }
  }

  /** A sequence that is already ordered is left exactly as it is. */
  lemma {:induction false} SortByInOrder<T>(s: seq<T>, less: (T, T) -> bool)
    requires Ordered(s, less)
    ensures SortBy(s, less) == s
  {
    if s != [] {
      var front, last := s[..|s| - 1], s[|s| - 1];
      assert Ordered(front, less);
      SortByInOrder(front, less);
      assert SortBy(s, less) == Insert(front, last, less);
      if |front| > 0 {
        assert !less(last, front[|front| - 1]);
      }
      assert Insert(front, last, less) == front + [last];
      assert front + [last] == s;
    }
  }

  /**
    Under a total order, two ordered arrangements of the same elements are equal: every
    correct sort gives the same result.
   */
  lemma {:induction false} OrderedUnique<T>(a: seq<T>, b: seq<T>, less: (T, T) -> bool)
    requires multiset(a) == multiset(b)
    requires Ordered(a, less) && Ordered(b, less)
    requires Total(Elems(a), less)
    ensures a == b
    decreases |a|
  {
    assert |a| == |multiset(a)| == |b|;
    if a != [] {
      OrderedHeads(a, b, less);
      var a', b' := a[1..], b[1..];
      assert a == [a[0]] + a' && b == [b[0]] + b';
      assert multiset(a') == multiset(a) - multiset{a[0]};
      assert multiset(b') == multiset(b) - multiset{b[0]};
      assert Elems(a') <= Elems(a);
      OrderedUnique(a', b', less);
    }
  }

  lemma OrderedHeads<T>(a: seq<T>, b: seq<T>, less: (T, T) -> bool)
    requires multiset(a) == multiset(b) && a != []
    requires Ordered(a, less) && Ordered(b, less)
    requires Total(Elems(a), less)
    ensures b != [] && a[0] == b[0]
  {
    assert a[0] in multiset(b) && b[0] in multiset(a);
    var j :| 0 <= j < |b| && b[j] == a[0];
    var i :| 0 <= i < |a| && a[i] == b[0];
    assert a[0] in Elems(a) && a[i] in Elems(a);
    if a[0] != b[0] {
      assert false;
    }
  }

  // ---- strings -----------------------------------------------------------------------

  /** Rust's `Ord` on strings: character by character, a proper prefix first. */
  predicate StrLess(a: string, b: string)
    decreases |a|
  {
    if a == [] then b != []
    else if b == [] then false
    else if a[0] != b[0] then a[0] < b[0]
    else StrLess(a[1..], b[1..])
  }

  lemma {:induction false} StrLessIrreflexive(a: string)
    ensures !StrLess(a, a)
    decreases |a|
  {
    if a != [] {
      StrLessIrreflexive(a[1..]);
    }
  }

  /** Exactly one of `a < b`, `a == b`, `b < a`. */
  lemma {:induction false} StrLessTrichotomy(a: string, b: string)
    ensures a == b || StrLess(a, b) || StrLess(b, a)
    ensures !(StrLess(a, b) && StrLess(b, a))
    decreases |a|
  {
    if a != [] && b != [] && a[0] == b[0] {
      StrLessTrichotomy(a[1..], b[1..]);
      if a[1..] == b[1..] {
        assert a == [a[0]] + a[1..] && b == [b[0]] + b[1..];
      }
    }
  }

  lemma {:induction false} StrLessTransitive(a: string, b: string, c: string)
    requires StrLess(a, b) && StrLess(b, c)
    ensures StrLess(a, c)
    decreases |a|
  {
    if a != [] && a[0] == b[0] && b[0] == c[0] {
      StrLessTransitive(a[1..], b[1..], c[1..]);
    }
  }

  /** `StrLess` is a total strict order, so sorting by it has one possible result. */
  lemma StrLessOrder(elems: set<string>)
    ensures StrictWeakOrder(elems, StrLess) && Total(elems, StrLess)
  {
    forall a, b | StrLess(a, b) ensures !StrLess(b, a) {
      StrLessTrichotomy(a, b);
    }
    forall a ensures !StrLess(a, a) {
      StrLessIrreflexive(a);
    }
    forall a, b, c | !StrLess(a, b) && !StrLess(b, c) ensures !StrLess(a, c) {
      StrLessTrichotomy(a, b);
      StrLessTrichotomy(b, c);
      StrLessTrichotomy(a, c);
      if StrLess(a, c) && a != b && b != c {
        StrLessTransitive(c, b, a);
      }
    }
    forall a, b | a != b ensures StrLess(a, b) || StrLess(b, a) {
      StrLessTrichotomy(a, b);
    }
  }

  /**
    The strings of a set in ascending order, each once (what `sort` and itertools'
    `sorted` give for a collection without repeats).
   */
  method SortStrings(s: set<string>) returns (r: seq<string>)
    ensures forall x :: x in r <==> x in s
    ensures forall i, j :: 0 <= i < j < |r| ==> StrLess(r[i], r[j])
  {
    r := [];
    var rest := s;
    while rest != {}
      invariant Selection(s, r, rest)
      decreases |rest|
    {
      var m := Least(rest);
      SelectionStep(s, r, rest, m);
      r := r + [m];
      rest := rest - {m};
    }
  }

  /**
    Selection sort so far: `r` holds, in ascending order, strings of `s` each less than
    every string of `s` still in `rest`, and together they are `s`.
   */
  ghost predicate Selection(s: set<string>, r: seq<string>, rest: set<string>)
  {
    (forall x :: x in s <==> x in r || x in rest) &&
    (forall x :: x in r ==> x !in rest) &&
    (forall i, j :: 0 <= i < j < |r| ==> StrLess(r[i], r[j])) &&
    (forall i, x :: 0 <= i < |r| && x in rest ==> StrLess(r[i], x))
  }

  /** Moving the least string of `rest` to the end of `r` keeps the selection. */
  lemma SelectionStep(s: set<string>, r: seq<string>, rest: set<string>, m: string)
    requires Selection(s, r, rest)
    requires m in rest && forall x :: x in rest && x != m ==> StrLess(m, x)
    ensures Selection(s, r + [m], rest - {m})
  {
    var r', rest' := r + [m], rest - {m};
    forall x ensures x in s <==> x in r' || x in rest' {
      assert x in r' <==> x in r || x == m;
    }
    forall i, j | 0 <= i < j < |r'| ensures StrLess(r'[i], r'[j]) {
      if j == |r| {
        assert r'[i] == r[i];
      }
    }
    forall i, x | 0 <= i < |r'| && x in rest' ensures StrLess(r'[i], x) {
      if i < |r| {
        assert r'[i] == r[i];
      }
    }
  }

  /** The least string of a non-empty set. */
  method Least(s: set<string>) returns (m: string)
    requires s != {}
    ensures m in s && forall x :: x in s && x != m ==> StrLess(m, x)
  {
    m :| m in s;
    var rest := s - {m};
    ghost var seen := {m};
    while rest != {}
      invariant m in s && seen + rest == s && seen !! rest
      invariant forall x :: x in seen && x != m ==> StrLess(m, x)
      decreases |rest|
    {
      var x :| x in rest;
      StrLessTrichotomy(m, x);
      if StrLess(x, m) {
        forall y | y in seen && y != m ensures StrLess(x, y) {
          StrLessTransitive(x, m, y);
        }
        m := x;
      }
      seen := seen + {x};
      rest := rest - {x};
    }
  }

  /** The elements in the opposite order. */
  function Reverse<T>(s: seq<T>): (r: seq<T>)
    ensures |r| == |s| && forall i :: 0 <= i < |s| ==> r[i] == s[|s| - 1 - i]
  {
    seq(|s|, i requires 0 <= i < |s| => s[|s| - 1 - i])
  }

  /** Reversing twice gives the sequence back. */
  lemma ReverseReverse<T>(s: seq<T>)
    ensures Reverse(Reverse(s)) == s
  {
    var r := Reverse(s);
    forall i | 0 <= i < |s| ensures Reverse(r)[i] == s[i] {
      assert Reverse(r)[i] == r[|s| - 1 - i];
    }
  }

  /** Reversing moves the last element to the front. */
  lemma ReverseSnoc<T>(s: seq<T>, x: T)
    ensures Reverse(s + [x]) == [x] + Reverse(s)
  {
  }

  /** Reversing keeps every element with its multiplicity. */
  lemma {:induction false} ReverseMultiset<T>(s: seq<T>)
    ensures multiset(Reverse(s)) == multiset(s)
  {
    if s != [] {
      var front, x := s[..|s| - 1], s[|s| - 1];
      assert s == front + [x];
      ReverseMultiset(front);
      ReverseSnoc(front, x);
    }
  }

  lemma ReverseElems<T>(s: seq<T>)
    ensures forall x :: x in Reverse(s) <==> x in s
  {
    var r := Reverse(s);
    forall x | x in s ensures x in r {
      var i :| 0 <= i < |s| && s[i] == x;
      assert r[|s| - 1 - i] == x;
    }
  }
}
