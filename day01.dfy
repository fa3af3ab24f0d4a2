/**
  Day 1: two location-ID lists, one pair per line separated by three spaces. Part one pairs
  the lists up smallest with smallest and sums the distances; part two weights each left
  ID by how often it appears in the right list.
 */
module Day01 {
  import opened Wrappers
  import opened Text
  import opened Sorting

  const Sep: string := "   "

  /** A non-empty line splits at its first three spaces into two `i32`s. */
  predicate PairReadable(line: string)
  {
    var sp := SplitOnce(line, Sep);
    sp.Some? && IsI32(sp.value.0) && IsI32(sp.value.1)
  }

  predicate InputReadable(ls: seq<string>)
  {
    forall i :: 0 <= i < |ls| ==> ls[i] != [] ==> PairReadable(ls[i])
  }

  lemma InputReadablePrefix(ls: seq<string>, k: nat)
    requires InputReadable(ls) && k <= |ls|
    ensures InputReadable(ls[..k])
  {
    forall i | 0 <= i < k ensures ls[..k][i] == ls[i] { }
  }

  /** The line split at its first separator, the left part parsed. */
  function LeftValue(line: string): int
    requires PairReadable(line)
  {
    ParseInt(SplitOnce(line, Sep).value.0).value
  }

  /** The line split at its first separator, the right part parsed. */
  function RightValue(line: string): int
    requires PairReadable(line)
  {
    ParseInt(SplitOnce(line, Sep).value.1).value
  }

  /** The left column: one value per non-empty line, in line order. */
  function LeftColumn(ls: seq<string>): (col: seq<int>)
    requires InputReadable(ls)
  {
    if ls == [] then []
    else
      InputReadablePrefix(ls, |ls| - 1);
      var last := ls[|ls| - 1];
      LeftColumn(ls[..|ls| - 1]) + (if last == [] then [] else [LeftValue(last)])
  }

  function RightColumn(ls: seq<string>): (col: seq<int>)
    requires InputReadable(ls)
    ensures |col| == |LeftColumn(ls)|
  {
    if ls == [] then []
    else
      InputReadablePrefix(ls, |ls| - 1);
      var last := ls[|ls| - 1];
      RightColumn(ls[..|ls| - 1]) + (if last == [] then [] else [RightValue(last)])
  }

  /** The input has at least one pair (the source asserts the left list is not empty). */
  predicate HasPair(ls: seq<string>)
  {
    exists i :: 0 <= i < |ls| && ls[i] != []
  }

  lemma {:induction false} HasPairNonEmpty(ls: seq<string>)
    requires InputReadable(ls)
    ensures HasPair(ls) <==> |LeftColumn(ls)| > 0
  {
    if ls != [] {
      var front, last := ls[..|ls| - 1], ls[|ls| - 1];
      InputReadablePrefix(ls, |ls| - 1);
      HasPairNonEmpty(front);
      assert |LeftColumn(ls)| == |LeftColumn(front)| + (if last == [] then 0 else 1);
      if last == [] {
        PairInFront(ls);
      } else {
        assert HasPair(ls);
      }
    }
  }

  /** With an empty last line, the pairs are those of the lines before it. */
  lemma PairInFront(ls: seq<string>)
    requires ls != [] && ls[|ls| - 1] == []
    ensures HasPair(ls) <==> HasPair(ls[..|ls| - 1])
  {
    var front := ls[..|ls| - 1];
    if HasPair(ls) {
      var i :| 0 <= i < |ls| && ls[i] != [];
      assert front[i] == ls[i];
    }
    if HasPair(front) {
      var i :| 0 <= i < |front| && front[i] != [];
      assert ls[i] == front[i];
    }
  }

  lemma ColumnsStep(ls: seq<string>, k: nat)
    requires InputReadable(ls) && k < |ls|
    ensures InputReadable(ls[..k + 1])
    ensures LeftColumn(ls[..k + 1]) == LeftColumn(ls[..k]) + (if ls[k] == [] then [] else [LeftValue(ls[k])])
    ensures RightColumn(ls[..k + 1]) == RightColumn(ls[..k]) + (if ls[k] == [] then [] else [RightValue(ls[k])])
  {
    assert ls[..k + 1][..k] == ls[..k];
    InputReadablePrefix(ls, k + 1);
  }

  /** The reading loop both parts share: the two columns in line order. */
  method ReadColumns(input: string) returns (left: seq<int>, right: seq<int>)
    requires InputReadable(Lines(input))
    ensures left == LeftColumn(Lines(input)) && right == RightColumn(Lines(input))
  {
    var ls := Lines(input);
    left, right := [], [];
    var k := 0;
    while k < |ls|
      invariant 0 <= k <= |ls|
      invariant InputReadable(ls[..k])
      invariant left == LeftColumn(ls[..k]) && right == RightColumn(ls[..k])
    {
      var line := ls[k];
      ColumnsStep(ls, k);
      if line != [] {
        left := left + [LeftValue(line)];
        right := right + [RightValue(line)];
      }
      k := k + 1;
    }
    assert ls[..k] == ls;
  }

  // ---- part one -----------------------------------------------------------------------

  /** The ascending order on `i32` that `sort` uses. */
  function Less(a: int, b: int): bool
  {
    a < b
  }

  function Abs(v: int): nat
  {
    if v < 0 then -v else v
  }

  /** The sum of the position-wise distances between two equally long lists. */
  function Distance(a: seq<int>, b: seq<int>): nat
    requires |a| == |b|
  {
    if a == [] then 0
    else Distance(a[..|a| - 1], b[..|b| - 1]) + Abs(a[|a| - 1] - b[|b| - 1])
  }

  /** Two lists are at distance zero exactly when they are equal. */
  lemma {:induction false} DistanceZero(a: seq<int>, b: seq<int>)
    requires |a| == |b|
    ensures Distance(a, b) == 0 <==> a == b
  {
    if a != [] {
      DistanceZero(a[..|a| - 1], b[..|b| - 1]);
      assert a == a[..|a| - 1] + [a[|a| - 1]];
      assert b == b[..|b| - 1] + [b[|b| - 1]];
    }
  }

  /** Sorting depends only on which values occur how often, not on their order. */
  lemma SortDependsOnlyOnMultiset(a: seq<int>, b: seq<int>)
    requires multiset(a) == multiset(b)
    ensures SortBy(a, Less) == SortBy(b, Less)
  {
    SortByOrdered(a, Less);
    SortByOrdered(b, Less);
    OrderedUnique(SortBy(a, Less), SortBy(b, Less), Less);
  }

  /** `part_one`'s answer for the lines: the distance between the sorted columns. */
  function TotalDistance(ls: seq<string>): nat
    requires InputReadable(ls)
  {
    Distance(SortBy(LeftColumn(ls), Less), SortBy(RightColumn(ls), Less))
  }

  /** The total distance is zero exactly when both columns hold the same values equally often. */
  lemma TotalDistanceZero(ls: seq<string>)
    requires InputReadable(ls)
    ensures TotalDistance(ls) == 0 <==> multiset(LeftColumn(ls)) == multiset(RightColumn(ls))
  {
    var l, r := LeftColumn(ls), RightColumn(ls);
    DistanceZero(SortBy(l, Less), SortBy(r, Less));
    if multiset(l) == multiset(r) {
      SortDependsOnlyOnMultiset(l, r);
    }
  }

  /** `part_one`: sorts both columns and sums the distances of the aligned pairs. */
  method PartOne(input: string) returns (acc: int)
    requires InputReadable(Lines(input)) && HasPair(Lines(input))
    ensures acc == TotalDistance(Lines(input))
  {
    HasPairNonEmpty(Lines(input));
    var left, right := ReadColumns(input);
    left := SortBy(left, Less);
    right := SortBy(right, Less);
    acc := SumDistances(left, right);
  }

  /** `part_one`'s summing loop over the aligned pairs. */
  method SumDistances(left: seq<int>, right: seq<int>) returns (acc: int)
    requires |left| == |right|
    ensures acc == Distance(left, right)
  {
    acc := 0;
    var i := 0;
    while i < |left|
      invariant 0 <= i <= |left|
      invariant acc == Distance(left[..i], right[..i])
    {
      assert left[..i + 1][..i] == left[..i] && right[..i + 1][..i] == right[..i];
      acc := acc + Abs(left[i] - right[i]);
      i := i + 1;
    }
    assert left[..i] == left && right[..i] == right;
  }

  // ---- part two -----------------------------------------------------------------------

  /** The sum of each value times how often it occurs in `counts`. */
  function Similarity(l: seq<int>, counts: multiset<int>): int
  {
    if l == [] then 0 else Similarity(l[..|l| - 1], counts) + l[|l| - 1] * counts[l[|l| - 1]]
  }

  lemma {:induction false} SimilarityAppend(a: seq<int>, b: seq<int>, counts: multiset<int>)
    ensures Similarity(a + b, counts) == Similarity(a, counts) + Similarity(b, counts)
    decreases |b|
  {
    if b == [] {
      assert a + b == a;
    } else {
      var b' := b[..|b| - 1];
      var x := b[|b| - 1];
      assert (a + b)[..|a + b| - 1] == a + b';
      assert (a + b)[|a + b| - 1] == x;
      assert Similarity(a + b, counts) == Similarity(a + b', counts) + x * counts[x];
      SimilarityAppend(a, b', counts);
      assert Similarity(b, counts) == Similarity(b', counts) + b[|b| - 1] * counts[b[|b| - 1]];
    }
  }

  /** The similarity score does not depend on the order of the left list. */
  lemma {:induction false} SimilarityPermutation(a: seq<int>, b: seq<int>, counts: multiset<int>)
    requires multiset(a) == multiset(b)
    ensures Similarity(a, counts) == Similarity(b, counts)
    decreases |a|
  {
    assert |a| == |multiset(a)| == |b|;
    if a != [] {
      var x := a[|a| - 1];
      assert x in multiset(b);
      var j :| 0 <= j < |b| && b[j] == x;
      var a' := a[..|a| - 1];
      var b' := b[..j] + b[j + 1..];
      assert a == a' + [x];
      assert b == b[..j] + [x] + b[j + 1..];
      assert multiset(a') == multiset(a) - multiset{x};
      assert multiset(b') == multiset(b) - multiset{x};
      SimilarityPermutation(a', b', counts);
      SimilarityAppend(b[..j] + [x], b[j + 1..], counts);
      SimilarityAppend(b[..j], [x], counts);
      SimilarityAppend(b[..j], b[j + 1..], counts);
      assert Similarity([x], counts) == x * counts[x] by {
        assert [x][..0] == [];
      }
    }
  }

  /** The occurrence counts `right_map` holds: exactly the values seen, each with its count. */
  ghost predicate CountsOf(m: map<int, int>, r: seq<int>)
  {
    (forall v :: v in m <==> v in multiset(r)) &&
    (forall v :: v in m ==> m[v] == multiset(r)[v])
  }

  /** `part_two`'s answer for the lines. */
  function SimilarityScore(ls: seq<string>): int
    requires InputReadable(ls)
  {
    Similarity(SortBy(LeftColumn(ls), Less), multiset(RightColumn(ls)))
  }

  /** Sorting the left list first changes nothing: the score is that of the lines' order. */
  lemma SimilarityScoreUnsorted(ls: seq<string>)
    requires InputReadable(ls)
    ensures SimilarityScore(ls) == Similarity(LeftColumn(ls), multiset(RightColumn(ls)))
  {
    SimilarityPermutation(SortBy(LeftColumn(ls), Less), LeftColumn(ls), multiset(RightColumn(ls)));
  }

  /**
    `part_two`: counts the right column in a map while reading, sorts the left column,
    and sums each left value times its count (0 when absent).
   */
  method PartTwo(input: string) returns (acc: int)
    requires InputReadable(Lines(input)) && HasPair(Lines(input))
    ensures acc == SimilarityScore(Lines(input))
  {
    HasPairNonEmpty(Lines(input));
    var left, rightMap := ReadCounts(input);
    left := SortBy(left, Less);
    acc := SumSimilarity(left, rightMap, RightColumn(Lines(input)));
  }

  /** Counting one more value keeps the map in step with the column. */
  lemma CountsOfStep(m: map<int, int>, r: seq<int>, v: int)
    requires CountsOf(m, r)
    ensures CountsOf(m[v := (if v in m then m[v] else 0) + 1], r + [v])
  {
    assert multiset(r + [v]) == multiset(r) + multiset{v};
  }

  /** `part_two`'s reading loop: the left column, and the right column's counts. */
  method ReadCounts(input: string) returns (left: seq<int>, rightMap: map<int, int>)
    requires InputReadable(Lines(input))
    ensures left == LeftColumn(Lines(input))
    ensures CountsOf(rightMap, RightColumn(Lines(input)))
  {
    var ls := Lines(input);
    left := [];
    ghost var right: seq<int> := [];
    rightMap := map[];
    var k := 0;
    while k < |ls|
      invariant 0 <= k <= |ls|
      invariant InputReadable(ls[..k])
      invariant left == LeftColumn(ls[..k]) && right == RightColumn(ls[..k])
      invariant CountsOf(rightMap, right)
    {
      var line := ls[k];
      ColumnsStep(ls, k);
      if line != [] {
        left := left + [LeftValue(line)];
        var rightVal := RightValue(line);
        var seen := if rightVal in rightMap then rightMap[rightVal] else 0;
        CountsOfStep(rightMap, right, rightVal);
        rightMap := rightMap[rightVal := seen + 1];
        right := right + [rightVal];
      }
      k := k + 1;
    }
    assert ls[..k] == ls;
  }

  /** `part_two`'s summing loop: each value times its count, 0 for a value not counted. */
  method SumSimilarity(left: seq<int>, rightMap: map<int, int>, ghost right: seq<int>) returns (acc: int)
    requires CountsOf(rightMap, right)
    ensures acc == Similarity(left, multiset(right))
  {
    acc := 0;
    var i := 0;
    while i < |left|
      invariant 0 <= i <= |left|
      invariant acc == Similarity(left[..i], multiset(right))
    {
      assert left[..i + 1][..i] == left[..i];
      acc := acc + left[i] * (if left[i] in rightMap then rightMap[left[i]] else 0);
      i := i + 1;
    }
    assert left[..i] == left;
  }
}
