/**
  Day 7: calibration equations. Each line gives a target and a list of numbers; operators
  are placed between the numbers and evaluated strictly left to right. Part one allows
  `*` and `+`, part two also decimal concatenation. A line counts its target when some
  placement of operators reaches it.
 */
module Day07 {
  import opened Wrappers
  import opened Text

  datatype Operator = Mult | Add | Comb

  /** `Operators::vars_1` and `Operators::vars_2`. */
  const Vars1: seq<Operator> := [Mult, Add]
  const Vars2: seq<Operator> := [Mult, Add, Comb]

  // ---- operator sequences ------------------------------------------------------------

  /** Each sequence of `prev` extended by each operator, in that nesting order. */
  function Extend(prev: seq<seq<Operator>>, ops: seq<Operator>): seq<seq<Operator>>
  {
    if prev == [] then [] else ExtendOne(prev[0], ops) + Extend(prev[1..], ops)
  }

  function ExtendOne(combo: seq<Operator>, ops: seq<Operator>): (r: seq<seq<Operator>>)
    ensures |r| == |ops| && forall i :: 0 <= i < |ops| ==> r[i] == combo + [ops[i]]
  {
    seq(|ops|, i requires 0 <= i < |ops| => combo + [ops[i]])
  }

  /** The sequences `generate_op_combinations` produces, in its order. */
  function Combos(length: nat, ops: seq<Operator>): seq<seq<Operator>>
  {
    if length == 0 then [[]] else Extend(Combos(length - 1, ops), ops)
  }

  lemma {:induction false} ExtendAppend(a: seq<seq<Operator>>, b: seq<seq<Operator>>, ops: seq<Operator>)
    ensures Extend(a + b, ops) == Extend(a, ops) + Extend(b, ops)
  {
    if a == [] {
      assert a + b == b;
    } else {
      assert (a + b)[1..] == a[1..] + b;
      ExtendAppend(a[1..], b, ops);
    }
  }

  lemma ExtendStep(prev: seq<seq<Operator>>, k: nat, ops: seq<Operator>)
    requires k < |prev|
    ensures Extend(prev[..k + 1], ops) == Extend(prev[..k], ops) + ExtendOne(prev[k], ops)
  {
    ExtendAppend(prev[..k], [prev[k]], ops);
    assert prev[..k + 1] == prev[..k] + [prev[k]];
  }

  /**
    `generate_op_combinations`: for length 0 the single empty sequence; otherwise every
    shorter combination extended by every operator.
   */
  method GenerateOpCombinations(length: nat, ops: seq<Operator>) returns (result: seq<seq<Operator>>)
    ensures result == Combos(length, ops)
    decreases length
  {
    if length == 0 {
      return [[]];
    }
    var minus := GenerateOpCombinations(length - 1, ops);
    result := [];
    var k := 0;
    while k < |minus|
      invariant 0 <= k <= |minus|
      invariant result == Extend(minus[..k], ops)
    {
      var combo := minus[k];
      var j := 0;
      ghost var before := result;
      ghost var one := ExtendOne(combo, ops);
      while j < |ops|
        invariant 0 <= j <= |ops|
        invariant result == before + one[..j]
      {
        assert one[..j + 1] == one[..j] + [combo + [ops[j]]];
        result := result + [combo + [ops[j]]];
        j := j + 1;
      }
      assert one[..j] == one;
      ExtendStep(minus, k, ops);
      k := k + 1;
    }
    assert minus[..k] == minus;
  }

  function Power(b: nat, e: nat): nat
  {
    if e == 0 then 1 else b * Power(b, e - 1)
  }

  lemma {:induction false} ExtendLength(prev: seq<seq<Operator>>, ops: seq<Operator>)
    ensures |Extend(prev, ops)| == |prev| * |ops|
  {
    if prev != [] {
      ExtendLength(prev[1..], ops);
    }
  }

  /** There are `|ops|^length` combinations. */
  lemma {:induction false} CombosCount(length: nat, ops: seq<Operator>)
    ensures |Combos(length, ops)| == Power(|ops|, length)
  {
    if length > 0 {
      CombosCount(length - 1, ops);
      ExtendLength(Combos(length - 1, ops), ops);
    }
  }

  /** A sequence of `length` operators, each drawn from `ops`. */
  predicate OverOps(c: seq<Operator>, length: nat, ops: seq<Operator>)
  {
    |c| == length && forall i :: 0 <= i < |c| ==> c[i] in ops
  }

  lemma {:induction false} ExtendMembers(prev: seq<seq<Operator>>, ops: seq<Operator>, c: seq<Operator>)
    ensures c in Extend(prev, ops) <==> |c| >= 1 && c[..|c| - 1] in prev && c[|c| - 1] in ops
  {
    if prev != [] {
      ExtendMembers(prev[1..], ops, c);
      if c in ExtendOne(prev[0], ops) {
        var i :| 0 <= i < |ops| && ExtendOne(prev[0], ops)[i] == c;
        assert c[..|c| - 1] == prev[0];
      }
      if |c| >= 1 && c[..|c| - 1] == prev[0] && c[|c| - 1] in ops {
        var i :| 0 <= i < |ops| && ops[i] == c[|c| - 1];
        assert c == prev[0] + [ops[i]];
        assert ExtendOne(prev[0], ops)[i] == c;
      }
      assert prev == [prev[0]] + prev[1..];
      if |c| >= 1 {
        var front := c[..|c| - 1];
        assert front in prev <==> front == prev[0] || front in prev[1..];
      }
    }
  }

  /** The combinations are exactly the operator sequences of the given length over `ops`. */
  lemma {:induction false} CombosExactly(length: nat, ops: seq<Operator>, c: seq<Operator>)
    ensures c in Combos(length, ops) <==> OverOps(c, length, ops)
  {
    if length == 0 {
      assert c in Combos(0, ops) <==> c == [];
    } else {
      CombosExactly(length - 1, ops, if |c| >= 1 then c[..|c| - 1] else c);
      ExtendMembers(Combos(length - 1, ops), ops, c);
      if |c| >= 1 {
        OverOpsSnoc(c, ops);
      }
    }
  }

  /** A sequence is over `ops` when its front is and its last operator is one of `ops`. */
  lemma OverOpsSnoc(c: seq<Operator>, ops: seq<Operator>)
    requires |c| >= 1
    ensures OverOps(c, |c|, ops) <==> OverOps(c[..|c| - 1], |c| - 1, ops) && c[|c| - 1] in ops
  {
    var front := c[..|c| - 1];
    if OverOps(front, |c| - 1, ops) && c[|c| - 1] in ops {
      forall i | 0 <= i < |c| ensures c[i] in ops {
        if i < |c| - 1 { assert c[i] == front[i]; }
      }
    }
  }

  // ---- evaluation ---------------------------------------------------------------------

  /** `format!("{}{}", acc, next).parse()`: decimal concatenation. */
  function Concat(a: nat, b: nat): nat
  {
    DigitsValue(NatToString(a) + NatToString(b))
  }

  /** Concatenation shifts the left number by the right one's digit count. */
  lemma ConcatShifts(a: nat, b: nat)
    ensures Concat(a, b) == a * Pow10(|NatToString(b)|) + b
  {
    DigitsValueAppend(NatToString(a), NatToString(b));
    DigitsOfNatToString(a);
    DigitsOfNatToString(b);
  }

  function Apply(op: Operator, acc: nat, next: nat): nat
  {
    match op
    case Mult => acc * next
    case Add => acc + next
    case Comb => Concat(acc, next)
  }

  /** Left-to-right evaluation: `numbers[0]`, then each operator applied with the next number. */
  function Eval(numbers: seq<nat>, ops: seq<Operator>): nat
    requires |numbers| >= |ops| + 1
  {
    if ops == [] then numbers[0]
    else Apply(ops[|ops| - 1], Eval(numbers, ops[..|ops| - 1]), numbers[|ops|])
  }

  lemma EvalStep(numbers: seq<nat>, ops: seq<Operator>, n: nat)
    requires n < |ops| && |numbers| >= |ops| + 1
    ensures Eval(numbers, ops[..n + 1]) == Apply(ops[n], Eval(numbers, ops[..n]), numbers[n + 1])
  {
    assert ops[..n + 1][..n] == ops[..n];
  }

  /**
    `eval_pairs`: folds the numbers left to right with the operators. Both `unwrap`s need
    a number for the start and one after every operator.
   */
  method EvalPairs(numbers: seq<nat>, ops: seq<Operator>) returns (acc: nat)
    requires |numbers| >= |ops| + 1
    ensures acc == Eval(numbers, ops)
  {
    acc := numbers[0];
    var n := 0;
    while n < |ops|
      invariant 0 <= n <= |ops|
      invariant acc == Eval(numbers, ops[..n])
    {
      var next := numbers[n + 1];
      EvalStep(numbers, ops, n);
      ghost var applied := Apply(ops[n], acc, next);
      match ops[n] {
        case Mult => acc := acc * next;
        case Add => acc := acc + next;
        case Comb => acc := Concat(acc, next);
      }
      assert acc == applied;
      n := n + 1;
    }
    assert ops[..n] == ops;
  }

  /** Some placement of operators from `ops` between the numbers reaches the target. */
  ghost predicate Solvable(target: nat, nums: seq<nat>, ops: seq<Operator>)
    requires |nums| >= 1
  {
    exists c :: OverOps(c, |nums| - 1, ops) && Eval(nums, c) == target
  }

  /**
    The check on one line: `any` over the generated combinations. `nums.len() - 1` needs at
    least one number.
   */
  method CheckLine(target: nat, nums: seq<nat>, ops: seq<Operator>) returns (found: bool)
    requires |nums| >= 1
    ensures found <==> Solvable(target, nums, ops)
  {
    var options := GenerateOpCombinations(|nums| - 1, ops);
    found := false;
    var k := 0;
    while k < |options| && !found
      invariant 0 <= k <= |options|
      invariant found ==> Solvable(target, nums, ops)
      invariant !found ==> NoneReaches(target, nums, options, k)
    {
      CombosExactly(|nums| - 1, ops, options[k]);
      var v := EvalPairs(nums, options[k]);
      if v == target {
        found := true;
      } else {
        NoneReachesStep(target, nums, options, k);
      }
      k := k + 1;
    }
    if !found {
      NoneSolvable(target, nums, ops, options);
    }
  }

  /** None of the first `k` combinations evaluates to the target. */
  ghost predicate NoneReaches(target: nat, nums: seq<nat>, options: seq<seq<Operator>>, k: nat)
    requires k <= |options|
  {
    forall j :: 0 <= j < k ==> |options[j]| + 1 <= |nums| ==> Eval(nums, options[j]) != target
  }

  lemma NoneReachesStep(target: nat, nums: seq<nat>, options: seq<seq<Operator>>, k: nat)
    requires k < |options| && NoneReaches(target, nums, options, k)
    requires |options[k]| + 1 <= |nums| ==> Eval(nums, options[k]) != target
    ensures NoneReaches(target, nums, options, k + 1)
  {
  }

  /** When no combination reaches the target, the line is not solvable. */
  lemma NoneSolvable(target: nat, nums: seq<nat>, ops: seq<Operator>, options: seq<seq<Operator>>)
    requires |nums| >= 1 && options == Combos(|nums| - 1, ops)
    requires NoneReaches(target, nums, options, |options|)
    ensures !Solvable(target, nums, ops)
  {
    if Solvable(target, nums, ops) {
      var c :| OverOps(c, |nums| - 1, ops) && Eval(nums, c) == target;
      CombosExactly(|nums| - 1, ops, c);
      assert false;
    }
  }

  // ---- the solver ---------------------------------------------------------------------

  /** A line `target: n1 n2 ...` as the solver unwraps it. */
  predicate LineReadable(line: string)
  {
    var spl := SplitStr(line, ": ");
    |spl| >= 2 && ParseNat(spl[0]).Some? &&
    var ws := Words(spl[1]);
    |ws| >= 1 && forall i :: 0 <= i < |ws| ==> ParseNat(ws[i]).Some?
  }

  function Target(line: string): nat
    requires LineReadable(line)
  {
    ParseNat(SplitStr(line, ": ")[0]).value
  }

  function Numbers(line: string): (nums: seq<nat>)
    requires LineReadable(line)
    ensures |nums| >= 1
  {
    var ws := Words(SplitStr(line, ": ")[1]);
    seq(|ws|, i requires 0 <= i < |ws| => ParseNat(ws[i]).value)
  }

  /** What a line contributes: its target when solvable, else 0. */
  ghost function LineValue(line: string, ops: seq<Operator>): nat
    requires LineReadable(line)
  {
    if Solvable(Target(line), Numbers(line), ops) then Target(line) else 0
  }

  ghost function TotalValue(ls: seq<string>, ops: seq<Operator>): nat
    requires forall i :: 0 <= i < |ls| ==> LineReadable(ls[i])
  {
    if ls == [] then 0 else LineValue(ls[0], ops) + TotalValue(ls[1..], ops)
  }

  /** `solver`: the sum of the solvable lines' targets (`part2` selects the operator set). */
  method Solver(input: string, part2: bool) returns (result: nat)
    requires forall i :: 0 <= i < |Lines(input)| ==> LineReadable(Lines(input)[i])
    ensures result == TotalValue(Lines(input), if part2 then Vars2 else Vars1)
  {
    var ls := Lines(input);
    var ops := if part2 then Vars2 else Vars1;
    result := 0;
    var k := |ls|;
    while k > 0
      invariant 0 <= k <= |ls|
      invariant forall i :: 0 <= i < |ls[k..]| ==> LineReadable(ls[k..][i])
      invariant result == TotalValue(ls[k..], ops)
    {
      k := k - 1;
      var line := ls[k];
      var found := CheckLine(Target(line), Numbers(line), ops);
      TotalSuffixStep(ls, k, ops);
      result := (if found then Target(line) else 0) + result;
    }
  }

  /** The total from line `k` on is line `k`'s value plus the total after it. */
  lemma TotalSuffixStep(ls: seq<string>, k: nat, ops: seq<Operator>)
    requires forall i :: 0 <= i < |ls| ==> LineReadable(ls[i])
    requires k < |ls|
    ensures forall i :: 0 <= i < |ls[k..]| ==> LineReadable(ls[k..][i])
    ensures TotalValue(ls[k..], ops) == LineValue(ls[k], ops) + TotalValue(ls[k + 1..], ops)
  {
    assert ls[k..][1..] == ls[k + 1..];
  }

  /** Allowing concatenation never loses a solution: part two's total is at least part one's. */
  lemma {:induction false} MoreOperatorsMoreSolutions(ls: seq<string>)
    requires forall i :: 0 <= i < |ls| ==> LineReadable(ls[i])
    ensures TotalValue(ls, Vars1) <= TotalValue(ls, Vars2)
  {
    if ls != [] {
      MoreOperatorsMoreSolutions(ls[1..]);
      var line := ls[0];
      if Solvable(Target(line), Numbers(line), Vars1) {
        var c :| OverOps(c, |Numbers(line)| - 1, Vars1) && Eval(Numbers(line), c) == Target(line);
        assert OverOps(c, |Numbers(line)| - 1, Vars2);
      }
    }
  }
}
