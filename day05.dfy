/**
  Day 5: print queue. The first paragraph lists ordering rules `a|b` (page `a` must come
  before page `b`); each line of the second is an update, a comma-separated list of pages.
  Each update is sorted with a comparator built from the rules. Part one sums the middle
  page of the updates that were already in order, part two that of the sorted updates
  that were not.
 */
module Day05 {
  import opened Wrappers
  import opened Text
  import opened Sorting

  /** `std::cmp::Ordering`. */
  datatype Ordering = Less | Equal | Greater

  /** The rule text `format!("{}|{}", a, b)`. */
  function RuleText(a: string, b: string): string
  {
    a + "|" + b
  }

  /** The comparator handed to `sort_by`: a rule `a|b` wins over a rule `b|a`. */
  function Compare(rules: set<string>, a: string, b: string): Ordering
  {
    if RuleText(a, b) in rules then Less
    else if RuleText(b, a) in rules then Greater
    else Equal
  }

  /** The rules never state both `a|b` and `b|a`. */
  ghost predicate Consistent(rules: set<string>)
  {
    forall a: string, b: string :: RuleText(a, b) in rules ==> RuleText(b, a) !in rules
  }

  /** `Equal` is symmetric, and `Greater` one way is `Less` the other way. */
  lemma CompareConverse(rules: set<string>, a: string, b: string)
    ensures Compare(rules, a, b) == Equal ==> Compare(rules, b, a) == Equal
    ensures Compare(rules, a, b) == Greater ==> Compare(rules, b, a) == Less
  {
  }

  /** With consistent rules, swapping the arguments reverses the comparator's answer. */
  lemma CompareSwap(rules: set<string>, a: string, b: string)
    requires Consistent(rules)
    ensures Compare(rules, a, b) == Less <==> Compare(rules, b, a) == Greater
  {
  }

  /** The "less than" relation the sort sees. */
  function Before(rules: set<string>): (less: (string, string) -> bool)
    ensures forall a, b :: less(a, b) <==> Compare(rules, a, b) == Less
  {
    (a: string, b: string) => Compare(rules, a, b) == Less
  }

  // ---- the input ----------------------------------------------------------------------

  /** Rule lines, whose left page `unwrap`s as an `i32`. */
  predicate RulesReadable(sortOrder: string)
  {
    var ls := Lines(sortOrder);
    forall i :: 0 <= i < |ls| ==> IsI32(Split(ls[i], '|')[0])
  }

  /** The set of rule lines the first loop builds. */
  function RuleSet(sortOrder: string): (rules: set<string>)
    ensures forall r :: r in rules <==> r in Lines(sortOrder)
  {
    set r | r in Lines(sortOrder)
  }

  /**
    The first loop: every rule line goes into the set. The left page is parsed (and, by a
    slip, so is the "right" page, again from the left part); the parsed pages land in a
    set that is never read, so only the parse's panic is observable.
   */
  method BuildRules(sortOrder: string) returns (rules: set<string>)
    requires RulesReadable(sortOrder)
    ensures rules == RuleSet(sortOrder)
  {
    var ls := Lines(sortOrder);
    rules := {};
    var k := 0;
    while k < |ls|
      invariant 0 <= k <= |ls|
      invariant rules == set r | r in ls[..k]
    {
      assert ls[..k + 1] == ls[..k] + [ls[k]];
      rules := rules + {ls[k]};
      k := k + 1;
    }
    assert ls[..k] == ls;
  }

  /** The pages of an update, in the order given. */
  function Pages(line: string): seq<string>
  {
    Split(line, ',')
  }

  /** The update sorted by the rules. */
  function Sorted(rules: set<string>, line: string): (s: seq<string>)
    ensures multiset(s) == multiset(Pages(line)) && |s| >= 1
  {
    SortBy(Pages(line), Before(rules))
  }

  /** Whether the part counts the update: unchanged for part one, changed for part two. */
  predicate Selected(rules: set<string>, line: string, second: bool)
  {
    var joined := Join(Sorted(rules, line), ',');
    (joined == line && !second) || (joined != line && second)
  }

  /** The page the source takes: the middle of the sorted update. */
  function Middle(rules: set<string>, line: string): string
  {
    var s := Sorted(rules, line);
    s[|s| / 2]
  }

  /** Every selected update's middle page `unwrap`s as a `u32`. */
  predicate UpdatesReadable(rules: set<string>, ls: seq<string>, second: bool)
  {
    forall i :: 0 <= i < |ls| ==> Selected(rules, ls[i], second) ==> IsU32(Middle(rules, ls[i]))
  }

  function LineValue(rules: set<string>, line: string, second: bool): nat
    requires Selected(rules, line, second) ==> IsU32(Middle(rules, line))
  {
    if Selected(rules, line, second) then ParseNat(Middle(rules, line)).value else 0
  }

  /** The sum of the selected updates' middle pages. */
  function Total(rules: set<string>, ls: seq<string>, second: bool): nat
    requires UpdatesReadable(rules, ls, second)
  {
    if ls == [] then 0
    else
      assert UpdatesReadable(rules, ls[..|ls| - 1], second) by {
        forall i | 0 <= i < |ls| - 1 ensures ls[..|ls| - 1][i] == ls[i] { }
      }
      Total(rules, ls[..|ls| - 1], second) + LineValue(rules, ls[|ls| - 1], second)
  }

  /** The input the source reads without panicking, for the given part. */
  predicate InputReadable(input: string, second: bool)
  {
    var ss := SplitStr(input, "\n\n");
    |ss| >= 2 && RulesReadable(ss[0]) &&
    UpdatesReadable(RuleSet(ss[0]), Lines(ss[1]), second)
  }

  function Rules(input: string): set<string>
  {
    RuleSet(SplitStr(input, "\n\n")[0])
  }

  function Updates(input: string): seq<string>
    requires |SplitStr(input, "\n\n")| >= 2
  {
    Lines(SplitStr(input, "\n\n")[1])
  }

  /** The loop body's sorted pages and joined text decide the line's contribution. */
  lemma LineValueOf(rules: set<string>, line: string, second: bool, spl: seq<string>, joined: string)
    requires Selected(rules, line, second) ==> IsU32(Middle(rules, line))
    requires spl == SortBy(Split(line, ','), Before(rules)) && joined == Join(spl, ',')
    ensures |spl| >= 1
    ensures Selected(rules, line, second) <==> (joined == line && !second) || (joined != line && second)
    ensures Selected(rules, line, second) ==> IsU32(spl[|spl| / 2])
    ensures Selected(rules, line, second) ==> LineValue(rules, line, second) == ParseNat(spl[|spl| / 2]).value
    ensures !Selected(rules, line, second) ==> LineValue(rules, line, second) == 0
  {
    assert spl == Sorted(rules, line);
  }

  /** The total of the first `k` updates. */
  ghost function TotalPrefix(rules: set<string>, ls: seq<string>, k: nat, second: bool): nat
    requires k <= |ls| && UpdatesReadable(rules, ls, second)
  {
    assert UpdatesReadable(rules, ls[..k], second) by {
      forall i | 0 <= i < k ensures ls[..k][i] == ls[i] { }
    }
    Total(rules, ls[..k], second)
  }

  lemma TotalStep(rules: set<string>, ls: seq<string>, k: nat, second: bool)
    requires k < |ls| && UpdatesReadable(rules, ls, second)
    ensures TotalPrefix(rules, ls, k + 1, second) == TotalPrefix(rules, ls, k, second) + LineValue(rules, ls[k], second)
  {
    assert ls[..k + 1][..k] == ls[..k];
    forall i | 0 <= i < k + 1 ensures ls[..k + 1][i] == ls[i] { }
  }

  /** One pass of the update loop: sort the pages, compare with the line, take the middle. */
  method LineContribution(rules: set<string>, line: string, second: bool) returns (value: nat)
    requires Selected(rules, line, second) ==> IsU32(Middle(rules, line))
    ensures value == LineValue(rules, line, second)
  {
    var spl := SortBy(Split(line, ','), Before(rules));
    var joined := Join(spl, ',');
    LineValueOf(rules, line, second, spl, joined);
    value := 0;
    if (joined == line && !second) || (joined != line && second) {
      value := ParseNat(spl[|spl| / 2]).value;
    }
  }

  /** `common_solution`: builds the rules, then sorts and selects each update. */
  method CommonSolution(input: string, second: bool) returns (acc: nat)
    requires InputReadable(input, second)
    ensures acc == Total(Rules(input), Updates(input), second)
  {
    var ss := SplitStr(input, "\n\n");
    var rules := BuildRules(ss[0]);
    var ls := Lines(ss[1]);
    acc := SumUpdates(rules, ls, second);
  }

  /** The update loop of `common_solution`: the contributions of the lines, summed in order. */
  method SumUpdates(rules: set<string>, ls: seq<string>, second: bool) returns (acc: nat)
    requires UpdatesReadable(rules, ls, second)
    ensures acc == Total(rules, ls, second)
  {
    acc := 0;
    var k := 0;
    while k < |ls|
      invariant 0 <= k <= |ls|
      invariant acc == TotalPrefix(rules, ls, k, second)
    {
      TotalStep(rules, ls, k, second);
      var value := LineContribution(rules, ls[k], second);
      acc := acc + value;
      k := k + 1;
    }
    assert ls[..k] == ls;
  }

  // ---- properties -----------------------------------------------------------------------

  /** Comparing the joined text with the line is comparing the sorted pages with the pages. */
  lemma JoinedIffUnchanged(rules: set<string>, line: string)
    ensures Join(Sorted(rules, line), ',') == line <==> Sorted(rules, line) == Pages(line)
  {
    var s := Sorted(rules, line);
    JoinSplit(line, ',');
    forall k | 0 <= k < |s| ensures ',' !in s[k] {
      assert s[k] in multiset(Pages(line));
    }
    SplitJoin(s, ',');
  }

  /**
    When the rules order an update's pages as a strict weak order, part one selects the
    update exactly when its pages already respect every rule between them.
   */
  lemma PartOneSelectsOrdered(rules: set<string>, line: string)
    requires StrictWeakOrder(Elems(Pages(line)), Before(rules))
    ensures Selected(rules, line, false) <==> Ordered(Pages(line), Before(rules))
  {
    JoinedIffUnchanged(rules, line);
    if Ordered(Pages(line), Before(rules)) {
      SortByInOrder(Pages(line), Before(rules));
    }
    SortByOrdered(Pages(line), Before(rules));
  }

  /**
    Between them the two parts count every update once: their totals add up to the sum of
    all sorted updates' middle pages.
   */
  lemma {:induction false} TotalsAddUp(rules: set<string>, ls: seq<string>)
    requires forall i :: 0 <= i < |ls| ==> IsU32(Middle(rules, ls[i]))
    ensures Total(rules, ls, false) + Total(rules, ls, true) == AllMiddles(rules, ls)
  {
    if ls != [] {
      var front := ls[..|ls| - 1];
      assert forall i :: 0 <= i < |front| ==> front[i] == ls[i];
      TotalsAddUp(rules, front);
    }
  }

  /** The sum of every update's sorted middle page. */
  function AllMiddles(rules: set<string>, ls: seq<string>): nat
    requires forall i :: 0 <= i < |ls| ==> IsU32(Middle(rules, ls[i]))
  {
    if ls == [] then 0
    else
      var front := ls[..|ls| - 1];
      var last := ls[|ls| - 1];
      assert forall i :: 0 <= i < |front| ==> front[i] == ls[i];
      assert IsU32(Middle(rules, last));
      AllMiddles(rules, front) + ParseNat(Middle(rules, last)).value
  }
}
