/**
  Day 2: reactor reports. A report (one line of integers) is safe when its levels are all
  increasing or all decreasing, by 1 to 3 at each step. Part two also accepts a report
  that becomes safe after removing one level.
 */
module Day02 {
  import opened Wrappers
  import opened Text

  /** `check_line`'s result: `Ok(true)`, or `Err` with the index of the first bad pair. */
  datatype LineCheck = Ok | Err(index: nat)

  function Abs(v: int): nat
  {
    if v < 0 then -v else v
  }

  /** The direction the source decides once per report: first level greater than last. */
  predicate Decreasing(n: seq<int>)
    requires |n| >= 1
  {
    n[0] > n[|n| - 1]
  }

  /** A pair passes when it goes the report's way and differs by 1 to 3. */
  predicate PairOk(a: int, b: int, decreasing: bool)
  {
    !((decreasing && b > a) || (!decreasing && a > b) || Abs(a - b) > 3 || Abs(a - b) < 1)
  }

  /** The first pair from `from` on that fails, if any. */
  function FirstBad(n: seq<int>, decreasing: bool, from: nat): (r: Option<nat>)
    requires from <= |n|
    ensures r.Some? ==> from <= r.value && r.value + 1 < |n| && !PairOk(n[r.value], n[r.value + 1], decreasing)
    ensures r.Some? ==> forall j :: from <= j < r.value ==> PairOk(n[j], n[j + 1], decreasing)
    ensures r.None? ==> forall j :: from <= j < |n| - 1 ==> PairOk(n[j], n[j + 1], decreasing)
    decreases |n| - from
  {
    if from + 1 >= |n| then None
    else if !PairOk(n[from], n[from + 1], decreasing) then Some(from)
    else FirstBad(n, decreasing, from + 1)
  }

  /** What `check_line` returns for a report; the source panics on an empty one. */
  function Check(n: seq<int>): (r: LineCheck)
    requires |n| >= 1
    ensures r.Ok? <==> forall i :: 0 <= i < |n| - 1 ==> PairOk(n[i], n[i + 1], Decreasing(n))
    ensures r.Err? ==> r.index < |n| - 1 && !PairOk(n[r.index], n[r.index + 1], Decreasing(n))
    ensures r.Err? ==> forall j :: 0 <= j < r.index ==> PairOk(n[j], n[j + 1], Decreasing(n))
  {
    match FirstBad(n, Decreasing(n), 0)
    case None => Ok
    case Some(i) => Err(i)
  }

  /** `check_line`: scans the pairs in order and stops at the first that fails. */
  method CheckLine(numbers: seq<int>) returns (r: LineCheck)
    requires |numbers| >= 1
    ensures r == Check(numbers)
  {
    var isDecreasing := numbers[0] > numbers[|numbers| - 1];
    var i := 0;
    while i < |numbers| - 1
      invariant 0 <= i <= |numbers| - 1
      invariant PairsOk(numbers, isDecreasing, i)
    {
      var a := numbers[i];
      var b := numbers[i + 1];
      var diff := Abs(a - b);
      if (isDecreasing && b > a) || (!isDecreasing && a > b) || diff > 3 || diff < 1 {
        CheckFails(numbers, i);
        return Err(i);
      }
      i := i + 1;
    }
    CheckPasses(numbers);
    return Ok;
  }

  /** Every pair before index `k` passes. */
  predicate PairsOk(n: seq<int>, decreasing: bool, k: nat)
    requires k < |n|
  {
    forall j :: 0 <= j < k ==> PairOk(n[j], n[j + 1], decreasing)
  }

  /** A failing pair after passing ones is what `Check` reports. */
  lemma CheckFails(n: seq<int>, i: nat)
    requires i + 1 < |n| && PairsOk(n, Decreasing(n), i) && !PairOk(n[i], n[i + 1], Decreasing(n))
    ensures Check(n) == Err(i)
  {
    FirstBadFrom(n, Decreasing(n), 0, i);
  }

  lemma CheckPasses(n: seq<int>)
    requires |n| >= 1 && PairsOk(n, Decreasing(n), |n| - 1)
    ensures Check(n) == Ok
  {
  }

  /** From `from` on, the first failing pair is `i` when the pairs between pass and `i` fails. */
  lemma {:induction false} FirstBadFrom(n: seq<int>, decreasing: bool, from: nat, i: nat)
    requires from <= i && i + 1 < |n| && !PairOk(n[i], n[i + 1], decreasing)
    requires forall j :: from <= j < i ==> PairOk(n[j], n[j + 1], decreasing)
    ensures FirstBad(n, decreasing, from) == Some(i)
    decreases i - from
  {
    if from < i {
      FirstBadFrom(n, decreasing, from + 1, i);
    }
  }

  // ---- the puzzle's notion of safety ------------------------------------------------

  /** Strictly increasing or strictly decreasing, by 1 to 3 at every step. */
  predicate Safe(n: seq<int>)
  {
    (forall i :: 0 <= i < |n| - 1 ==> 1 <= n[i + 1] - n[i] <= 3) ||
    (forall i :: 0 <= i < |n| - 1 ==> 1 <= n[i] - n[i + 1] <= 3)
  }

  lemma {:induction false} IncreasingEnds(n: seq<int>, j: nat)
    requires forall i :: 0 <= i < |n| - 1 ==> 1 <= n[i + 1] - n[i]
    requires 0 < j < |n|
    ensures n[0] < n[j]
  {
    if j > 1 {
      IncreasingEnds(n, j - 1);
    }
  }

  lemma {:induction false} DecreasingEnds(n: seq<int>, j: nat)
    requires forall i :: 0 <= i < |n| - 1 ==> 1 <= n[i] - n[i + 1]
    requires 0 < j < |n|
    ensures n[0] > n[j]
  {
    if j > 1 {
      DecreasingEnds(n, j - 1);
    }
  }

  /**
    Deciding the direction from the first and last levels loses nothing: `check_line`
    accepts exactly the safe reports.
   */
  lemma CheckOkIffSafe(n: seq<int>)
    requires |n| >= 1
    ensures Check(n).Ok? <==> Safe(n)
  {
    if Check(n).Ok? {
      OkIsSafe(n);
    }
    if Safe(n) {
      SafeIsOk(n);
    }
  }

  lemma OkIsSafe(n: seq<int>)
    requires |n| >= 1 && Check(n).Ok?
    ensures Safe(n)
  {
    var dec := Decreasing(n);
    if dec {
      forall i | 0 <= i < |n| - 1 ensures 1 <= n[i] - n[i + 1] <= 3 {
        assert PairOk(n[i], n[i + 1], dec);
      }
    } else {
      forall i | 0 <= i < |n| - 1 ensures 1 <= n[i + 1] - n[i] <= 3 {
        assert PairOk(n[i], n[i + 1], dec);
      }
    }
  }

  lemma SafeIsOk(n: seq<int>)
    requires |n| >= 1 && Safe(n)
    ensures Check(n).Ok?
  {
    var dec := Decreasing(n);
    if |n| >= 2 {
      if forall i :: 0 <= i < |n| - 1 ==> 1 <= n[i + 1] - n[i] <= 3 {
        IncreasingEnds(n, |n| - 1);
        assert !dec;
        forall i | 0 <= i < |n| - 1 ensures PairOk(n[i], n[i + 1], dec) {
          assert 1 <= n[i + 1] - n[i] <= 3;
        }
      } else {
        DecreasingEnds(n, |n| - 1);
        assert dec;
        forall i | 0 <= i < |n| - 1 ensures PairOk(n[i], n[i + 1], dec) {
          assert 1 <= n[i] - n[i + 1] <= 3;
        }
      }
    }
  }

  // ---- tolerating one bad level -------------------------------------------------------

  /** `Vec::remove`: the report without the level at index `k`. */
  function Remove(n: seq<int>, k: nat): (r: seq<int>)
    requires k < |n|
    ensures |r| == |n| - 1
    ensures forall i :: 0 <= i < |r| ==> r[i] == if i < k then n[i] else n[i + 1]
  {
    n[..k] + n[k + 1..]
  }

  /**
    The source's part-two rule: a report that fails at pair `i` is accepted when removing
    level `i` or level `i + 1` leaves a report `check_line` accepts.
   */
  predicate ToleratedAsWritten(n: seq<int>)
    requires |n| >= 1
  {
    match Check(n)
    case Ok => true
    case Err(i) => Check(Remove(n, i)).Ok? || Check(Remove(n, i + 1)).Ok?
  }

  /** The puzzle's part-two rule: safe, or safe after removing some single level. */
  predicate Dampened(n: seq<int>)
  {
    Safe(n) || exists k :: 0 <= k < |n| && Safe(Remove(n, k))
  }

  /** The source never accepts a report the puzzle's rule rejects. */
  lemma AsWrittenIsSound(n: seq<int>)
    requires |n| >= 1
    ensures ToleratedAsWritten(n) ==> Dampened(n)
  {
    CheckOkIffSafe(n);
    match Check(n)
    case Ok =>
    case Err(i) =>
      CheckOkIffSafe(Remove(n, i));
      CheckOkIffSafe(Remove(n, i + 1));
  }

  /**
    The report `1 3 2 1` becomes safe by removing its first level (`3 2 1`), but the
    source only tries removing the levels of the first failing pair (`3` and `2`), so it
    rejects it. Its first and last levels are equal, so the source also reads it as
    increasing.
   */
  lemma AsWrittenMissesFirstLevel()
    ensures !ToleratedAsWritten([1, 3, 2, 1])
    ensures Dampened([1, 3, 2, 1])
  {
    AsWrittenRejects();
    FirstRemovalSafe();
  }

  /** Both removals the source tries leave a failing report. */
  lemma AsWrittenRejects()
    ensures !ToleratedAsWritten([1, 3, 2, 1])
  {
    var n := [1, 3, 2, 1];
    FailsAtSecondPair();
    assert Remove(n, 1) == [1, 2, 1];
    assert Remove(n, 2) == [1, 3, 1];
    RemovalsFail();
  }

  /** Removing the first level leaves `3 2 1`, which is safe. */
  lemma FirstRemovalSafe()
    ensures Dampened([1, 3, 2, 1])
  {
    var n := [1, 3, 2, 1];
    assert Remove(n, 0) == [3, 2, 1];
    var r := [3, 2, 1];
    assert 1 <= r[0] - r[1] <= 3 && 1 <= r[1] - r[2] <= 3;
    assert Safe(r);
  }

  /** `1 3 2 1` reads as increasing, so its first failing pair is `3 2`. */
  lemma FailsAtSecondPair()
    ensures Check([1, 3, 2, 1]) == Err(1)
  {
    var n := [1, 3, 2, 1];
    assert !Decreasing(n);
    assert PairOk(n[0], n[1], false);
    assert !PairOk(n[1], n[2], false);
  }

  /** Removing either level of that pair leaves a report `check_line` rejects. */
  lemma RemovalsFail()
    ensures Check([1, 2, 1]).Err?
    ensures Check([1, 3, 1]).Err?
  {
    var a, b := [1, 2, 1], [1, 3, 1];
    assert !Decreasing(a) && !PairOk(a[1], a[2], false);
    assert !Decreasing(b) && !PairOk(b[1], b[2], false);
  }

  /** The corrected part-two check: the report as is, then every single removal. */
  method CheckDampened(n: seq<int>) returns (ok: bool)
    requires |n| >= 1
    ensures ok <==> Dampened(n)
  {
    var whole := CheckLine(n);
    CheckOkIffSafe(n);
    if whole.Ok? {
      return true;
    }
    assert |n| >= 2;
    ok := false;
    var k := 0;
    while k < |n| && !ok
      invariant 0 <= k <= |n|
      invariant ok ==> Dampened(n)
      invariant !ok ==> NoSafeRemoval(n, k)
    {
      ok := CheckRemoval(n, k);
      if ok {
        assert Safe(Remove(n, k));
      } else {
        NoSafeRemovalStep(n, k);
      }
      k := k + 1;
    }
    if !ok {
      NoSafeRemovalAll(n);
    }
  }

  /** Removing any one of the first `k` levels leaves an unsafe report. */
  predicate NoSafeRemoval(n: seq<int>, k: nat)
    requires k <= |n|
  {
    forall j :: 0 <= j < k ==> !Safe(Remove(n, j))
  }

  lemma NoSafeRemovalStep(n: seq<int>, k: nat)
    requires k < |n| && NoSafeRemoval(n, k) && !Safe(Remove(n, k))
    ensures NoSafeRemoval(n, k + 1)
  {
  }

  lemma NoSafeRemovalAll(n: seq<int>)
    requires !Safe(n) && NoSafeRemoval(n, |n|)
    ensures !Dampened(n)
  {
  }

  /** One round of the corrected check: `check_line` on the report without level `k`. */
  method CheckRemoval(n: seq<int>, k: nat) returns (ok: bool)
    requires k < |n| && |n| >= 2
    ensures ok <==> Safe(Remove(n, k))
  {
    var rest := Remove(n, k);
    var res := CheckLine(rest);
    CheckOkIffSafe(rest);
    ok := res.Ok?;
  }

  // ---- the processor -------------------------------------------------------------------

  /** A line of whitespace-separated `i32` levels, at least one. */
  predicate ReportReadable(line: string)
  {
    var ws := Words(line);
    |ws| >= 1 &&
    forall i :: 0 <= i < |ws| ==> IsI32(ws[i])
  }

  function Report(line: string): (n: seq<int>)
    requires ReportReadable(line)
    ensures |n| == |Words(line)| >= 1
  {
    var ws := Words(line);
    seq(|ws|, i requires 0 <= i < |ws| => ParseInt(ws[i]).value)
  }

  /** Every non-empty line is a report (empty lines are skipped). */
  predicate InputReadable(ls: seq<string>)
  {
    forall i :: 0 <= i < |ls| ==> ls[i] != [] ==> ReportReadable(ls[i])
  }

  /** Whether the source counts the line. */
  predicate Counted(line: string, failAllowed: bool)
    requires line != [] ==> ReportReadable(line)
  {
    line != [] &&
    (if failAllowed then ToleratedAsWritten(Report(line)) else Check(Report(line)).Ok?)
  }

  /** The number of lines the source counts, over a prefix of the lines. */
  function CountSafe(ls: seq<string>, failAllowed: bool): nat
    requires InputReadable(ls)
  {
    if ls == [] then 0
    else
      var last := ls[|ls| - 1];
      assert InputReadable(ls[..|ls| - 1]) by {
        forall i | 0 <= i < |ls| - 1 ensures ls[..|ls| - 1][i] == ls[i] { }
      }
      CountSafe(ls[..|ls| - 1], failAllowed) + (if Counted(last, failAllowed) then 1 else 0)
  }

  /** The body of `processor`'s loop for one report: `check_line`, then the two removals. */
  method CountReport(numbers: seq<int>, failAllowed: bool) returns (counted: bool)
    requires |numbers| >= 1
    ensures counted == if failAllowed then ToleratedAsWritten(numbers) else Check(numbers).Ok?
  {
    var res := CheckLine(numbers);
    counted := false;
    match res {
      case Ok => counted := true;
      case Err(index) =>
        if failAllowed {
          var resA := CheckLine(Remove(numbers, index));
          var resB := CheckLine(Remove(numbers, index + 1));
          counted := resA.Ok? || resB.Ok?;
        }
    }
  }

  /** One line of `processor`: empty lines are skipped, others checked. */
  method CountLine(line: string, failAllowed: bool) returns (counted: bool)
    requires line != [] ==> ReportReadable(line)
    ensures counted == Counted(line, failAllowed)
  {
    counted := false;
    if line != [] {
      counted := CountReport(Report(line), failAllowed);
    }
  }

  /** `CountSafe` over the first `k` lines. */
  ghost function CountSafePrefix(ls: seq<string>, k: nat, failAllowed: bool): nat
    requires k <= |ls| && InputReadable(ls)
  {
    assert InputReadable(ls[..k]) by {
      forall i | 0 <= i < k ensures ls[..k][i] == ls[i] { }
    }
    CountSafe(ls[..k], failAllowed)
  }

  lemma CountSafeStep(ls: seq<string>, k: nat, failAllowed: bool)
    requires k < |ls| && InputReadable(ls)
    ensures CountSafePrefix(ls, k + 1, failAllowed) == CountSafePrefix(ls, k, failAllowed) + if Counted(ls[k], failAllowed) then 1 else 0
  {
    assert ls[..k + 1][..k] == ls[..k];
    assert ls[..k + 1][k] == ls[k];
    assert forall i | 0 <= i < k + 1 :: ls[..k + 1][i] == ls[i];
  }

  /** `processor`: counts the reports accepted, with or without the tolerated removal. */
  method Processor(input: string, failAllowed: bool) returns (safe: nat)
    requires InputReadable(Lines(input))
    ensures safe == CountSafe(Lines(input), failAllowed)
  {
    safe := CountLines(Lines(input), failAllowed);
  }

  /** The loop of `processor` over the report lines: one more for each line it counts. */
  method CountLines(ls: seq<string>, failAllowed: bool) returns (safe: nat)
    requires InputReadable(ls)
    ensures safe == CountSafe(ls, failAllowed)
  {
    safe := 0;
    var k := 0;
    while k < |ls|
      invariant 0 <= k <= |ls|
      invariant safe == CountSafePrefix(ls, k, failAllowed)
    {
      var line := ls[k];
      CountSafeStep(ls, k, failAllowed);
      var counted := CountLine(line, failAllowed);
      if counted {
        safe := safe + 1;
      }
      k := k + 1;
    }
    assert ls[..k] == ls;
  }

  /** The number of non-empty lines whose report passes the puzzle's part-two rule. */
  function CountDampened(ls: seq<string>): nat
    requires InputReadable(ls)
  {
    if ls == [] then 0
    else
      var last := ls[|ls| - 1];
      assert InputReadable(ls[..|ls| - 1]) by {
        forall i | 0 <= i < |ls| - 1 ensures ls[..|ls| - 1][i] == ls[i] { }
      }
      CountDampened(ls[..|ls| - 1]) + (if last != [] && Dampened(Report(last)) then 1 else 0)
  }

  /** Part two under the corrected rule. */
  method PartTwoCorrected(input: string) returns (safe: nat)
    requires InputReadable(Lines(input))
    ensures safe == CountDampened(Lines(input))
  {
    var ls := Lines(input);
    safe := 0;
    var k := 0;
    while k < |ls|
      invariant 0 <= k <= |ls|
      invariant InputReadable(ls[..k])
      invariant safe == CountDampened(ls[..k])
    {
      var line := ls[k];
      assert ls[..k + 1][..k] == ls[..k];
      assert ls[..k + 1][k] == line;
      if line != [] {
        var ok := CheckDampened(Report(line));
        if ok {
          safe := safe + 1;
        }
      }
      k := k + 1;
    }
    assert ls[..k] == ls;
  }

  /**
    The counts are ordered: part one counts no more than the source's part two, which
    counts no more than the corrected part two.
   */
  lemma {:induction false} CountsOrdered(ls: seq<string>)
    requires InputReadable(ls)
    ensures CountSafe(ls, false) <= CountSafe(ls, true) <= CountDampened(ls)
  {
    if ls != [] {
      var front := ls[..|ls| - 1];
      assert InputReadable(front) by {
        forall i | 0 <= i < |ls| - 1 ensures front[i] == ls[i] { }
      }
      CountsOrdered(front);
      var last := ls[|ls| - 1];
      LineOrdered(last);
      assert CountSafe(ls, false) == CountSafe(front, false) + (if Counted(last, false) then 1 else 0);
      assert CountSafe(ls, true) == CountSafe(front, true) + (if Counted(last, true) then 1 else 0);
    }
  }

  /** One line: counted by part one, then by the source's part two, then by the corrected rule. */
  lemma LineOrdered(line: string)
    requires line != [] ==> ReportReadable(line)
    ensures Counted(line, false) ==> Counted(line, true)
    ensures Counted(line, true) ==> Dampened(Report(line))
  {
    if line != [] {
      AsWrittenIsSound(Report(line));
    }
  }
}
