/**
  Day 22: the monkeys' pseudo-random secret numbers. A secret is a `u64`; each step mixes
  (XOR) a shifted copy into the secret and prunes it to 24 bits. Prices are last digits
  of successive secrets; a monkey is summarised by the price that first follows each
  window of four price changes.
 */
module Day22 {
  import opened Wrappers
  import opened Text

  /** A `u64`; the arithmetic below wraps modulo 2^64 as release builds do. */
  type Secret = bv64

  /** `mix`: XOR of a value into the secret. Mixing the same value again undoes it. */
  function Mix(value: Secret, secret: Secret): (r: Secret)
    ensures value ^ r == secret
  {
    value ^ secret
  }

  /** `prune`: the secret modulo 16777216. */
  function Prune(secret: Secret): (r: Secret)
    ensures r < 16777216
  {
    secret % 16777216
  }

  /** Pruning leaves a secret that is already below 16777216 unchanged. */
  lemma PruneSmall(secret: Secret)
    requires secret < 16777216
    ensures Prune(secret) == secret
  {
  }

  /**
    `next_number`: three mix-and-prune rounds, with the secret times 64, the secret divided
    by 32 and the secret times 2048. The middle round divides an already pruned secret
    (below 2^24), which a `f64` holds exactly, so its `floor` is integer division.
   */
  function NextNumber(secret: Secret): (r: Secret)
    ensures r < 16777216
  {
    var s1 := Prune(Mix(64 * secret, secret));
    var s2 := Prune(Mix(s1 / 32, s1));
    Prune(Mix(s2 * 2048, s2))
  }

  /** The secret after `n` steps. */
  function Iterate(s: Secret, n: nat): (r: Secret)
    ensures n >= 1 ==> r < 16777216
  {
    if n == 0 then s else NextNumber(Iterate(s, n - 1))
  }

  /** Stepping `a` times and then `b` times is stepping `a + b` times. */
  lemma {:induction false} IterateAdd(s: Secret, a: nat, b: nat)
    ensures Iterate(Iterate(s, a), b) == Iterate(s, a + b)
  {
    if b > 0 {
      IterateAdd(s, a, b - 1);
    }
  }

  /** `n_number`: applies `next_number` exactly `n` times. */
  method NNumber(s0: Secret, n: nat) returns (s: Secret)
    ensures s == Iterate(s0, n)
    ensures n >= 1 ==> s < 16777216
  {
    s := s0;
    var i := 0;
    while i < n
      invariant 0 <= i <= n
      invariant s == Iterate(s0, i)
    {
      s := NextNumber(s);
      i := i + 1;
    }
  }

  /** Specification of `prices`: the last digit of the secret after `i` steps, for i < n. */
  function PriceAt(s: Secret, i: nat): (p: int)
    ensures 0 <= p <= 9
  {
    Iterate(s, i) as int % 10
  }

  /** `prices`: one price per step, each the last decimal digit of the current secret. */
  method Prices(s0: Secret, n: nat) returns (p: seq<int>)
    ensures |p| == n
    ensures forall i :: 0 <= i < n ==> p[i] == PriceAt(s0, i) && 0 <= p[i] <= 9
  {
    p := [];
    var s := s0;
    var i := 0;
    while i < n
      invariant 0 <= i <= n && |p| == i
      invariant s == Iterate(s0, i)
      invariant forall k :: 0 <= k < i ==> p[k] == PriceAt(s0, k)
    {
      p := p + [s as int % 10];
      s := NextNumber(s);
      i := i + 1;
    }
  }

  /** `diffs`: the change from each price to the next. */
  method Diffs(prices: seq<int>) returns (res: seq<int>)
    ensures |prices| >= 1 ==> |res| == |prices| - 1
    ensures |prices| == 0 ==> res == []
    ensures forall i :: 0 <= i < |res| ==> res[i] == prices[i + 1] - prices[i]
  {
    res := [];
    var nn := 1;
    while nn < |prices|
      invariant 1 <= nn <= |prices| || (|prices| == 0 && nn == 1)
      invariant |res| == nn - 1
      invariant forall i :: 0 <= i < |res| ==> res[i] == prices[i + 1] - prices[i]
    {
      res := res + [prices[nn] - prices[nn - 1]];
      nn := nn + 1;
    }
  }

  /** The four changes ending at index `i`. */
  function Window(d: seq<int>, i: nat): (w: seq<int>)
    requires 3 <= i < |d|
    ensures |w| == 4 && w[3] == d[i] && w[0] == d[i - 3]
  {
    [d[i - 3], d[i - 2], d[i - 1], d[i]]
  }

  /** The first index `j >= from` (and `j >= 3`) whose window is `key`, if any. */
  function FirstWindow(d: seq<int>, key: seq<int>, from: nat): (r: Option<nat>)
    requires from >= 3
    ensures r.Some? ==> from <= r.value < |d| && Window(d, r.value) == key
    ensures r.Some? ==> forall j :: from <= j < r.value ==> Window(d, j) != key
    ensures r.None? ==> forall j :: from <= j < |d| ==> Window(d, j) != key
    decreases |d| - from
  {
    if from >= |d| then None
    else if Window(d, from) == key then Some(from)
    else FirstWindow(d, key, from + 1)
  }

  /**
    `precompute_monkey`: for every window of four changes, the price right after its FIRST
    occurrence; later occurrences do not overwrite it.
   */
  method PrecomputeMonkey(prices: seq<int>, d: seq<int>) returns (res: map<seq<int>, int>)
    requires |prices| > |d|
    ensures forall key :: key in res <==> FirstWindow(d, key, 3).Some?
    ensures forall key :: key in res ==> res[key] == prices[FirstWindow(d, key, 3).value + 1]
  {
    res := map[];
    var i := 3;
    while i < |d|
      invariant 3 <= i <= |d| || (|d| < 3 && i == 3)
      invariant forall key :: key in res <==>
        (var f := FirstWindow(d, key, 3); f.Some? && f.value < i)
      invariant forall key :: key in res ==> res[key] == prices[FirstWindow(d, key, 3).value + 1]
    {
      var s := Window(d, i);
      var v := prices[i + 1];
      if s !in res {
        FirstWindowAt(d, s, i);
        res := res[s := v];
      } else {
        assert FirstWindow(d, s, 3) != Some(i);
      }
      i := i + 1;
    }
  }

  /** When no window before `i` equals `Window(d, i)`, `i` is its first occurrence. */
  lemma FirstWindowAt(d: seq<int>, key: seq<int>, i: nat)
    requires 3 <= i < |d| && Window(d, i) == key
    requires !(var f := FirstWindow(d, key, 3); f.Some? && f.value < i)
    ensures FirstWindow(d, key, 3) == Some(i)
  {
  }

  /** The inline checks of the source: `mix(15, 42) = 37` and `prune(100000000) = 16113920`. */
  lemma MixPruneExamples()
    ensures Mix(15, 42) == 37
    ensures Prune(100000000) == 16113920
  {
  }

  /**
    The source's sub-test: the first ten prices from secret 123, and the window
    `[-1, -1, 0, 2]` of their changes, first seen before the price 6.
   */
  lemma PricesExample()
    ensures forall i :: 0 <= i < 10 ==> PriceAt(123, i) == [3, 0, 6, 5, 4, 4, 6, 4, 4, 2][i]
    ensures var p := [3, 0, 6, 5, 4, 4, 6, 4, 4, 2];
      var d := seq(9, i requires 0 <= i < 9 => p[i + 1] - p[i]);
      FirstWindow(d, [-1, -1, 0, 2], 3) == Some(5) && p[5 + 1] == 6
  {
    SecretsFrom123();
    WindowExample();
  }

  /** The first nine secrets after 123. */
  lemma SecretsFrom123()
    ensures Iterate(123, 0) == 123 && Iterate(123, 1) == 15887950 && Iterate(123, 2) == 16495136
    ensures Iterate(123, 3) == 527345 && Iterate(123, 4) == 704524 && Iterate(123, 5) == 1553684
    ensures Iterate(123, 6) == 12683156 && Iterate(123, 7) == 11100544 && Iterate(123, 8) == 12249484
    ensures Iterate(123, 9) == 7753432
  {
    SecretsFrom123Low();
    var s5 := NextNumber(1553684);
    assert s5 == 12683156;
    var s6 := NextNumber(s5);
    assert s6 == 11100544;
    var s7 := NextNumber(s6);
    assert s7 == 12249484;
    var s8 := NextNumber(s7);
    assert s8 == 7753432;
    assert Iterate(123, 6) == s5;
    assert Iterate(123, 7) == s6;
    assert Iterate(123, 8) == s7;
    assert Iterate(123, 9) == s8;
  }

  lemma SecretsFrom123Low()
    ensures Iterate(123, 0) == 123 && Iterate(123, 1) == 15887950 && Iterate(123, 2) == 16495136
    ensures Iterate(123, 3) == 527345 && Iterate(123, 4) == 704524 && Iterate(123, 5) == 1553684
  {
    var s0: Secret := 123;
    var s1 := NextNumber(s0);
    assert s1 == 15887950;
    var s2 := NextNumber(s1);
    assert s2 == 16495136;
    var s3 := NextNumber(s2);
    assert s3 == 527345;
    var s4 := NextNumber(s3);
    assert s4 == 704524;
    var s5 := NextNumber(s4);
    assert s5 == 1553684;
    assert Iterate(123, 1) == s1;
    assert Iterate(123, 2) == s2;
    assert Iterate(123, 3) == s3;
    assert Iterate(123, 4) == s4;
    assert Iterate(123, 5) == s5;
  }

  /** The changes of the first ten prices from 123, and where the window `[-1, -1, 0, 2]` first shows. */
  lemma WindowExample()
    ensures var p := [3, 0, 6, 5, 4, 4, 6, 4, 4, 2];
      var d := seq(9, i requires 0 <= i < 9 => p[i + 1] - p[i]);
      FirstWindow(d, [-1, -1, 0, 2], 3) == Some(5) && p[5 + 1] == 6
  {
    var p := [3, 0, 6, 5, 4, 4, 6, 4, 4, 2];
    var d := seq(9, i requires 0 <= i < 9 => p[i + 1] - p[i]);
    assert d == [-3, 6, -1, -1, 0, 2, -2, 0, -2];
    assert Window(d, 3) != [-1, -1, 0, 2];
    assert Window(d, 4) != [-1, -1, 0, 2];
    assert Window(d, 5) == [-1, -1, 0, 2];
  }

  /** Lines of the input that each hold a `u64` secret, as `part_one` unwraps them. */
  predicate SecretsReadable(input: string)
  {
    SecretLines(Lines(input))
  }

  predicate SecretLines(ls: seq<string>)
  {
    forall i :: 0 <= i < |ls| ==> ParseNat(ls[i]).Some? && ParseNat(ls[i]).value < 0x1_0000_0000_0000_0000
  }

  lemma SecretLinesSuffix(ls: seq<string>, k: nat)
    requires SecretLines(ls) && k <= |ls|
    ensures SecretLines(ls[k..])
  {
    forall i | 0 <= i < |ls| - k ensures ls[k..][i] == ls[i + k] { }
  }

  /** The sum, over the buyers, of each one's secret after `n` steps. */
  function SumIterated(ls: seq<string>, n: nat): int
    requires SecretLines(ls)
  {
    if ls == [] then 0
    else
      SecretLinesSuffix(ls, 1);
      Iterate(ParseNat(ls[0]).value as bv64, n) as int + SumIterated(ls[1..], n)
  }

  /** `part_one`: each line's secret stepped 2000 times, summed. */
  method PartOne(input: string) returns (r: int)
    requires SecretsReadable(input)
    ensures r == SumIterated(Lines(input), 2000)
  {
    r := SumAfter(Lines(input), 2000);
  }

  method SumAfter(ls: seq<string>, n: nat) returns (r: int)
    requires SecretLines(ls)
    ensures r == SumIterated(ls, n)
  {
    r := 0;
    var k := |ls|;
    SecretLinesSuffix(ls, k);
    while k > 0
      invariant 0 <= k <= |ls|
      invariant SecretLines(ls[k..]) && r == SumIterated(ls[k..], n)
    {
      k := k - 1;
      SecretLinesSuffix(ls, k);
      var s := NNumber(ParseNat(ls[k]).value as bv64, n);
      SumIteratedAt(ls, k, n);
      r := s as int + r;
    }
  }

  /** One more buyer from the back: its secret joins the sum over those after it. */
  lemma SumIteratedAt(ls: seq<string>, k: nat, n: nat)
    requires SecretLines(ls) && k < |ls|
    ensures SecretLines(ls[k..]) && SecretLines(ls[k + 1..])
    ensures SumIterated(ls[k..], n) == Iterate(ParseNat(ls[k]).value as bv64, n) as int + SumIterated(ls[k + 1..], n)
  {
    SecretLinesSuffix(ls, k);
    SecretLinesSuffix(ls, k + 1);
    assert ls[k..][1..] == ls[k + 1..];
  }
}
