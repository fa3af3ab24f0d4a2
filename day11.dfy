/**
  Day 11: the stones that change at every blink. A stone engraved 0 becomes 1; a stone
  with an even number of decimal digits splits into its two halves; any other stone is
  multiplied by 2024. The solver counts the stones after a number of blinks, memoising
  the count for each (list of stones, blinks left) pair.
 */
module Day11 {
  import opened Text

  /** `split`: what one stone becomes after one blink; `SplitMeaning` says what the halves are. */
  function Split(n: nat): (r: seq<nat>)
    ensures 1 <= |r| <= 2
  {
    var ss := NatToString(n);
    if n == 0 then [1]
    else if |ss| % 2 == 0 then
      var half := |ss| / 2;
      var fst, scnd := ss[..half], ss[half..];
      assert ss == fst + scnd;
      DigitsOfNatToString(n);
      [ParseNat(fst).value, ParseNat(scnd).value]
    else [2024 * n]
  }

  /**
    A 0 becomes a 1; a stone of an even number of digits becomes the number written by its
    first half and the number written by its second half, which put together give the
    stone back; any other stone is multiplied by 2024.
   */
  lemma SplitMeaning(n: nat)
    ensures n == 0 ==> Split(n) == [1]
    ensures var ss, r := NatToString(n), Split(n);
      n != 0 && |ss| % 2 == 0 ==>
        |r| == 2 && r[0] * Pow10(|ss| / 2) + r[1] == n && r[1] < Pow10(|ss| / 2)
    ensures var ss := NatToString(n);
      n != 0 && |ss| % 2 == 1 ==> Split(n) == [2024 * n]
  {
    var ss := NatToString(n);
    if n != 0 && |ss| % 2 == 0 {
      var half := |ss| / 2;
      var fst, scnd := ss[..half], ss[half..];
      assert ss == fst + scnd;
      DigitsOfNatToString(n);
      DigitsValueAppend(fst, scnd);
      DigitsValueBound(scnd);
    }
  }

  /** One blink of the whole row: every stone replaced by what it becomes, in order. */
  function Blink(s: seq<nat>): seq<nat>
  {
    if s == [] then [] else Split(s[0]) + Blink(s[1..])
  }

  /** The row after `t` blinks. */
  function BlinkN(s: seq<nat>, t: nat): seq<nat>
    decreases t
  {
    if t == 0 then s else BlinkN(Blink(s), t - 1)
  }

  /**
    The count `find_split_len` computes: with `t` blinks left, each stone contributes the
    count of what it splits into with `t - 1` left; with none left, a stone counts one.
   */
  function SplitLen(s: seq<nat>, t: nat): nat
    decreases t, |s|
  {
    if t == 0 then |s|
    else if s == [] then 0
    else SplitLen(Split(s[0]), t - 1) + SplitLen(s[1..], t)
  }

  lemma {:induction false} BlinkAppend(a: seq<nat>, b: seq<nat>)
    ensures Blink(a + b) == Blink(a) + Blink(b)
  {
    if a != [] {
      assert (a + b)[1..] == a[1..] + b;
      BlinkAppend(a[1..], b);
    } else {
      assert a + b == b;
    }
  }

  lemma {:induction false} SplitLenAppend(a: seq<nat>, b: seq<nat>, t: nat)
    ensures SplitLen(a + b, t) == SplitLen(a, t) + SplitLen(b, t)
    decreases |a|
  {
    if t > 0 {
      if a != [] {
        assert (a + b)[1..] == a[1..] + b;
        SplitLenAppend(a[1..], b, t);
      } else {
        assert a + b == b;
      }
    }
  }

  /** The memoised count is the length of the row after `t` blinks. */
  lemma {:induction false} SplitLenCountsStones(s: seq<nat>, t: nat)
    ensures SplitLen(s, t) == |BlinkN(s, t)|
    decreases t
  {
    if t > 0 {
      SplitLenStep(s, t - 1);
      SplitLenCountsStones(Blink(s), t - 1);
    }
  }

  /** With blinks left, counting a row is counting its next row with one blink fewer. */
  lemma {:induction false} SplitLenStep(s: seq<nat>, u: nat)
    ensures SplitLen(s, u + 1) == SplitLen(Blink(s), u)
    decreases |s|
  {
    if s != [] {
      var head, tail := Split(s[0]), s[1..];
      SplitLenStep(tail, u);
      SplitLenAppend(head, Blink(tail), u);
    }
  }

  /** Counting the suffix of `s` from `i` is counting the stone at `i`, then the rest. */
  lemma SuffixStep(s: seq<nat>, i: nat, t: nat)
    requires i < |s| && t > 0
    ensures SplitLen(s[i..], t) == SplitLen(Split(s[i]), t - 1) + SplitLen(s[i + 1..], t)
  {
    var rest := s[i..];
    assert rest[0] == s[i] && rest[1..] == s[i + 1..];
  }

  /** Every cached count is the true count for its key. */
  predicate CacheValid(c: map<(seq<nat>, nat), nat>)
  {
    forall k :: k in c ==> c[k] == SplitLen(k.0, k.1)
  }

  /**
    `find_split_len`: the number of stones the row `s` becomes after `times` blinks,
    answered from the cache when the key is there and cached afterwards. With zero blinks
    left the source computes `times - 1` on a `u32` and panics, unless the row is empty.
   */
  method FindSplitLen(s: seq<nat>, times: nat, c: map<(seq<nat>, nat), nat>)
    returns (result: nat, c': map<(seq<nat>, nat), nat>)
    requires times >= 1 || s == []
    requires CacheValid(c)
    ensures result == SplitLen(s, times)
    ensures CacheValid(c') && (s, times) in c'
    decreases times
  {
    if (s, times) in c {
      return c[(s, times)], c;
    }
    c' := c;
    result := 0;
    var i := |s|;
    while i > 0
      invariant 0 <= i <= |s|
      invariant CacheValid(c')
      invariant result == SplitLen(s[i..], times)
    {
      i := i - 1;
      var parts := Split(s[i]);
      var n;
      if times == 1 {
        n := |parts|;
      } else {
        n, c' := FindSplitLen(parts, times - 1, c');
      }
      SuffixStep(s, i, times);
      result := n + result;
    }
    c' := c'[(s, times) := result];
  }

  /** `part_one` (25 blinks) and `part_two` (75 blinks) on the parsed row of stones. */
  method CountAfter(stones: seq<nat>, blinks: nat) returns (r: nat)
    requires blinks >= 1
    ensures r == |BlinkN(stones, blinks)|
  {
    var cache;
    r, cache := FindSplitLen(stones, blinks, map[]);
    SplitLenCountsStones(stones, blinks);
  }

  /** A stone with an even number of digits, 1000, splits into 10 and 0: the halves drop leading zeros. */
  lemma SplitExample()
    ensures Split(1000) == [10, 0]
    ensures Split(0) == [1]
    ensures Split(1) == [2024]
  {
    assert NatToString(1000) == "1000";
    assert "1000"[..2] == "10" && "1000"[2..] == "00";
    assert DigitsValue("10") == 10 && DigitsValue("00") == 0;
  }
}
