/**
  Day 19: towel patterns. A design can be made when it is a concatenation of available
  towel patterns; part one counts the designs that can be made, part two the number of
  ways to make each one.
 */
module Day19 {
  import opened Wrappers
  import opened Text

  /** Every towel is a non-empty pattern; an empty one would make both searches recurse forever. */
  predicate TowelsNonEmpty(towels: seq<string>)
  {
    forall i :: 0 <= i < |towels| ==> towels[i] != []
  }

  /** Towel `i` is a prefix of `p` and the rest of `p` can be made. */
  predicate MadeStartingWith(p: string, towels: seq<string>, i: nat)
    requires TowelsNonEmpty(towels) && i < |towels|
    decreases |p|, 0
  {
    StartsWith(p, towels[i]) && Decomposable(p[|towels[i]|..], towels)
  }

  /** The design is a concatenation of towels. */
  predicate Decomposable(p: string, towels: seq<string>)
    requires TowelsNonEmpty(towels)
    decreases |p|, 1
  {
    p == [] || exists i :: 0 <= i < |towels| && MadeStartingWith(p, towels, i)
  }

  /** Memo entries no longer than `p` are designs that cannot be made. */
  predicate MemoSoundUpTo(memo: set<string>, towels: seq<string>, n: nat)
    requires TowelsNonEmpty(towels)
  {
    forall k :: k in memo && |k| <= n ==> !Decomposable(k, towels)
  }

  /**
    `can_match`: whether the design can be made. The memo records designs found
    impossible; a memo hit answers `false`. The source records `pattern` as impossible as
    soon as one towel fails, before trying the others; that entry is only ever consulted
    for shorter designs' suffixes if the whole search for `pattern` fails, so answers stay
    right. The memo entries no longer than the design must be impossible designs.
   */
  method CanMatch(pattern: string, towels: seq<string>, memo: set<string>)
    returns (r: bool, memo': set<string>)
    requires TowelsNonEmpty(towels)
    requires MemoSoundUpTo(memo, towels, |pattern|)
    ensures r == Decomposable(pattern, towels)
    ensures forall k :: k in memo' ==> k in memo || |k| <= |pattern|
    ensures !r ==> MemoSoundUpTo(memo', towels, |pattern|)
    decreases |pattern|
  {
    memo' := memo;
    if pattern in memo {
      return false, memo';
    }
    if |pattern| == 0 {
      return true, memo';
    }
    var i := 0;
    while i < |towels|
      invariant 0 <= i <= |towels|
      invariant forall j :: 0 <= j < i ==> !MadeStartingWith(pattern, towels, j)
      invariant forall k :: k in memo' ==> k in memo || |k| <= |pattern|
      invariant forall k :: k in memo' && |k| < |pattern| ==> !Decomposable(k, towels)
      invariant forall k :: k in memo' && |k| == |pattern| ==> k in memo || k == pattern
    {
      var t := towels[i];
      if StartsWith(pattern, t) {
        var rest := RemoveFirst(pattern, t);
        RemoveFirstPrefix(pattern, t);
        var fm;
        fm, memo' := CanMatch(rest, towels, memo');
        if fm {
          assert MadeStartingWith(pattern, towels, i);
          return true, memo';
        } else {
          memo' := memo' + {pattern};
        }
      }
      i := i + 1;
    }
    assert !Decomposable(pattern, towels);
    r := false;
  }

  /**
    The number of ways to make the design: 1 for the empty design, otherwise the sum over
    towels that start it of the ways to make the rest.
   */
  function Ways(p: string, towels: seq<string>): nat
    requires TowelsNonEmpty(towels)
    decreases |p|, |towels| + 1
  {
    if p == [] then 1 else WaysFrom(p, towels, 0)
  }

  /** The ways to make `p` that start with towel `i` or a later one. */
  function WaysFrom(p: string, towels: seq<string>, i: nat): nat
    requires TowelsNonEmpty(towels) && i <= |towels|
    decreases |p|, |towels| - i
  {
    if i == |towels| then 0
    else
      (if StartsWith(p, towels[i]) then Ways(p[|towels[i]|..], towels) else 0)
      + WaysFrom(p, towels, i + 1)
  }

  /** A design can be made exactly when there is at least one way to make it. */
  lemma {:induction false} WaysPositiveIffDecomposable(p: string, towels: seq<string>)
    requires TowelsNonEmpty(towels)
    ensures Ways(p, towels) > 0 <==> Decomposable(p, towels)
    decreases |p|, |towels| + 1
  {
    if p != [] {
      WaysFromPositive(p, towels, 0);
      assert Ways(p, towels) == WaysFrom(p, towels, 0);
      assert Decomposable(p, towels) == (p == [] || exists i :: 0 <= i < |towels| && MadeStartingWith(p, towels, i));
      if Decomposable(p, towels) {
        var i :| 0 <= i < |towels| && MadeStartingWith(p, towels, i);
        assert exists j :: 0 <= j < |towels| && MadeStartingWith(p, towels, j);
        assert WaysFrom(p, towels, 0) > 0;
      }
      if Ways(p, towels) > 0 {
        var i :| 0 <= i < |towels| && MadeStartingWith(p, towels, i);
        assert Decomposable(p, towels);
      }
    }
  }

  lemma {:induction false} WaysFromPositive(p: string, towels: seq<string>, i: nat)
    requires TowelsNonEmpty(towels) && i <= |towels| && p != []
    ensures WaysFrom(p, towels, i) > 0 <==> exists j :: i <= j < |towels| && MadeStartingWith(p, towels, j)
    decreases |p|, |towels| - i
  {
    if i < |towels| {
      WaysFromPositive(p, towels, i + 1);
      var here := if StartsWith(p, towels[i]) then Ways(p[|towels[i]|..], towels) else 0;
      assert WaysFrom(p, towels, i) == here + WaysFrom(p, towels, i + 1);
      if StartsWith(p, towels[i]) {
        WaysPositiveIffDecomposable(p[|towels[i]|..], towels);
      }
      assert here > 0 <==> MadeStartingWith(p, towels, i);
      if WaysFrom(p, towels, i) > 0 {
        var j := if here > 0 then i else var j :| i + 1 <= j < |towels| && MadeStartingWith(p, towels, j); j;
        assert i <= j < |towels| && MadeStartingWith(p, towels, j);
        assert exists j :: i <= j < |towels| && MadeStartingWith(p, towels, j);
      }
      if exists j :: i <= j < |towels| && MadeStartingWith(p, towels, j) {
        var j :| i <= j < |towels| && MadeStartingWith(p, towels, j);
        if j > i {
          assert i + 1 <= j < |towels| && MadeStartingWith(p, towels, j);
          assert exists j' :: i + 1 <= j' < |towels| && MadeStartingWith(p, towels, j');
          assert WaysFrom(p, towels, i + 1) > 0;
        } else {
          assert here > 0;
        }
        assert WaysFrom(p, towels, i) > 0;
      }
    }
  }

  /** Every memo entry holds the number of ways to make its key. */
  predicate MemoExact(memo: map<string, nat>, towels: seq<string>)
    requires TowelsNonEmpty(towels)
  {
    forall k :: k in memo ==> memo[k] == Ways(k, towels)
  }

  /**
    `count_match`: the number of ways to make the design. Each remainder's count is taken
    from the memo when present, and computed and stored otherwise.
   */
  method CountMatch(pattern: string, towels: seq<string>, memo: map<string, nat>)
    returns (count: nat, memo': map<string, nat>)
    requires TowelsNonEmpty(towels)
    requires MemoExact(memo, towels)
    ensures count == Ways(pattern, towels)
    ensures MemoExact(memo', towels)
    decreases |pattern|
  {
    memo' := memo;
    if |pattern| == 0 {
      return 1, memo';
    }
    count := 0;
    var i := |towels|;
    while i > 0
      invariant 0 <= i <= |towels|
      invariant MemoExact(memo', towels)
      invariant count == WaysFrom(pattern, towels, i)
    {
      i := i - 1;
      var t := towels[i];
      var res := 0;
      if StartsWith(pattern, t) {
        var r := RemoveFirst(pattern, t);
        RemoveFirstPrefix(pattern, t);
        if r in memo' {
          res := memo'[r];
        } else {
          var fm;
          fm, memo' := CountMatch(r, towels, memo');
          memo' := memo'[r := fm];
          res := fm;
        }
      }
      count := res + count;
    }
  }

  /** The input: towels on the first paragraph (", "-separated), one design per line after the blank line. */
  predicate WellFormed(input: string)
  {
    var spl := SplitStr(input, "\n\n");
    |spl| >= 2 && TowelsNonEmpty(SplitStr(spl[0], ", "))
  }

  function Towels(input: string): (towels: seq<string>)
    requires WellFormed(input)
    ensures TowelsNonEmpty(towels)
  {
    SplitStr(SplitStr(input, "\n\n")[0], ", ")
  }

  function Designs(input: string): seq<string>
    requires WellFormed(input)
  {
    Lines(SplitStr(input, "\n\n")[1])
  }

  /** The number of designs in the list that can be made. */
  function CountPossible(ps: seq<string>, towels: seq<string>): nat
    requires TowelsNonEmpty(towels)
  {
    if ps == [] then 0
    else (if Decomposable(ps[0], towels) then 1 else 0) + CountPossible(ps[1..], towels)
  }

  /** The total number of ways over the list of designs. */
  function TotalWays(ps: seq<string>, towels: seq<string>): nat
    requires TowelsNonEmpty(towels)
  {
    if ps == [] then 0 else Ways(ps[0], towels) + TotalWays(ps[1..], towels)
  }

  /** `part_one`: the designs that can be made, each searched with a fresh memo. */
  method PartOne(input: string) returns (s: nat)
    requires WellFormed(input)
    ensures s == CountPossible(Designs(input), Towels(input))
  {
    var towels := Towels(input);
    var patterns := Designs(input);
    s := 0;
    var k := |patterns|;
    while k > 0
      invariant 0 <= k <= |patterns|
      invariant s == CountPossible(patterns[k..], towels)
    {
      k := k - 1;
      var ok, memo := CanMatch(patterns[k], towels, {});
      assert patterns[k..] == [patterns[k]] + patterns[k + 1..];
      s := (if ok then 1 else 0) + s;
    }
  }

  /** `part_two`: the total number of ways, with one memo shared by all designs. */
  method PartTwo(input: string) returns (s: nat)
    requires WellFormed(input)
    ensures s == TotalWays(Designs(input), Towels(input))
  {
    var towels := Towels(input);
    var patterns := Designs(input);
    var mm: map<string, nat> := map[];
    var ways := [];
    var k := 0;
    while k < |patterns|
      invariant 0 <= k <= |patterns| && |ways| == k
      invariant MemoExact(mm, towels)
      invariant forall j :: 0 <= j < k ==> ways[j] == Ways(patterns[j], towels)
    {
      var one;
      one, mm := CountMatch(patterns[k], towels, mm);
      ways := ways + [one];
      k := k + 1;
    }
    s := 0;
    k := |patterns|;
    while k > 0
      invariant 0 <= k <= |patterns|
      invariant s == TotalWays(patterns[k..], towels)
    {
      k := k - 1;
      assert patterns[k..] == [patterns[k]] + patterns[k + 1..];
      s := ways[k] + s;
    }
  }
}
