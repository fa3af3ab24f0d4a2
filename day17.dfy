/**
  Day 17: a 3-bit computer. Three registers, a program of numbers read in pairs
  (opcode, operand), an instruction pointer and an output list. Part one runs the
  program to its end and prints the outputs joined by commas.
 */
module Day17 {
  import opened Wrappers
  import opened Text

  /** The registers are 64-bit signed integers; the model keeps them non-negative. */
  const Limit: int := 0x8000_0000_0000_0000

  predicate Word(x: int)
  {
    0 <= x < Limit
  }

  predicate AllWords(p: seq<int>)
  {
    forall i :: 0 <= i < |p| ==> Word(p[i])
  }

  /** `^` on two non-negative integers, bit by bit from the lowest. */
  function Xor(x: nat, y: nat): (r: nat)
    decreases x + y
  {
    if x == 0 && y == 0 then 0
    else 2 * Xor(x / 2, y / 2) + (if x % 2 != y % 2 then 1 else 0)
  }

  /** Two values below `2^k` have their `^` below `2^k` too. */
  lemma {:induction false} XorBound(x: nat, y: nat, k: nat)
    requires x < Pow2(k) && y < Pow2(k)
    ensures Xor(x, y) < Pow2(k)
    decreases k
  {
    if k > 0 && !(x == 0 && y == 0) {
      XorBound(x / 2, y / 2, k - 1);
    }
  }

  /** The `^` of two non-negative `i64`s is one. */
  lemma XorWord(x: nat, y: nat)
    requires Word(x) && Word(y)
    ensures Word(Xor(x, y))
  {
    Pow2Limit();
    XorBound(x, y, 63);
  }

  lemma Pow2Limit()
    ensures Pow2(63) == Limit
  {
    assert Pow2(8) == 256;
    assert Pow2(16) == 256 * 256 by { Pow2Add(8, 8); }
    assert Pow2(32) == 0x1_0000_0000 by { Pow2Add(16, 16); }
    assert Pow2(63) == 0x1_0000_0000 * Pow2(31) by { Pow2Add(32, 31); }
    assert Pow2(31) == 0x8000_0000 by { Pow2Add(16, 15); Pow2Add(8, 7); }
  }

  lemma {:induction false} Pow2Add(i: nat, j: nat)
    ensures Pow2(i + j) == Pow2(i) * Pow2(j)
  {
    if j > 0 {
      Pow2Add(i, j - 1);
      assert Pow2(i + j) == 2 * Pow2(i + j - 1);
    }
  }

  /** Applying the same `^` twice restores the value. */
  lemma {:induction false} XorTwice(x: nat, y: nat)
    ensures Xor(Xor(x, y), y) == x
    decreases x + y
  {
    if !(x == 0 && y == 0) {
      var h := Xor(x / 2, y / 2);
      var low := if x % 2 != y % 2 then 1 else 0;
      assert Xor(x, y) / 2 == h && Xor(x, y) % 2 == low;
      XorTwice(x / 2, y / 2);
      if Xor(x, y) == 0 {
        assert h == 0 && low == 0;
        XorZero(y);
      } else {
        var z := Xor(x, y);
        assert Xor(z, y) == 2 * Xor(h, y / 2) + (if low != y % 2 then 1 else 0);
      }
    } 
  }

  lemma {:induction false} XorZero(y: nat)
    ensures Xor(0, y) == y
    decreases y
  {
    if y > 0 {
      XorZero(y / 2);
    }
  }

  function Pow2(e: nat): (r: nat)
    ensures r >= 1
  {
    if e == 0 then 1 else 2 * Pow2(e - 1)
  }

  // ---- the machine as a value ---------------------------------------------------------

  datatype State = State(a: int, b: int, c: int, output: seq<int>, instuctions: seq<int>, pointer: nat)

  /** What the model covers: registers and program values are non-negative `i64`s. */
  predicate Good(s: State)
  {
    Word(s.a) && Word(s.b) && Word(s.c) && AllWords(s.instuctions)
  }

  /** `get_combo`: operands 0 to 3 stand for themselves, 4 to 6 for the registers; 7 panics (`None`). */
  function Combo(s: State, v: int): (r: Option<int>)
    ensures 0 <= v <= 3 ==> r == Some(v)
    ensures v == 4 ==> r == Some(s.a)
    ensures v == 5 ==> r == Some(s.b)
    ensures v == 6 ==> r == Some(s.c)
    ensures r.None? <==> !(0 <= v <= 6)
  {
    if 0 <= v <= 3 then Some(v)
    else if v == 4 then Some(s.a)
    else if v == 5 then Some(s.b)
    else if v == 6 then Some(s.c)
    else None
  }

  /**
    `division`: `a` divided by two to the power of the combo operand, rounded down. The
    exponent is the operand cast to `u32`; `2_i64.pow` panics (`None`) from exponent 63 on.
   */
  function DivisionOf(s: State, v: int): (r: Option<int>)
    requires Good(s)
    ensures r.Some? ==> 0 <= r.value <= s.a
    ensures r.None? <==> Combo(s, v).None? || Combo(s, v).value % 0x1_0000_0000 >= 63
  {
    match Combo(s, v)
    case None => None
    case Some(c) =>
      var e := c % 0x1_0000_0000;
      if e >= 63 then None
      else
        DivLess(s.a, Pow2(e));
        Some(s.a / Pow2(e))
  }

  lemma DivLess(a: nat, d: nat)
    requires d >= 1
    ensures 0 <= a / d <= a
  {
    var q := a / d;
    assert a == d * q + a % d;
    assert d * q == q + (d - 1) * q;
  }

  /** The result of the division is the largest `q` with `q * 2^e <= a`. */
  lemma DivisionFloor(s: State, v: int)
    requires Good(s) && DivisionOf(s, v).Some?
    ensures var q, e := DivisionOf(s, v).value, Combo(s, v).value % 0x1_0000_0000;
      q * Pow2(e) <= s.a < (q + 1) * Pow2(e)
  {
    var e := Combo(s, v).value % 0x1_0000_0000;
    assert DivisionOf(s, v).value == s.a / Pow2(e);
    FloorOfQuotient(s.a, Pow2(e));
  }

  /** Euclidean division: the quotient times the divisor is at most the dividend, and one more is too much. */
  lemma FloorOfQuotient(a: int, d: int)
    requires d >= 1
    ensures (a / d) * d <= a < (a / d + 1) * d
  {
    var q := a / d;
    assert a == d * q + a % d;
    assert (q + 1) * d == q * d + d;
  }

  /** The state after one instruction, or `Fault` where the source panics. */
  datatype Outcome = Running(s: State) | Halted(s: State) | Fault

  /** `instruction`: opcode `instr` with operand `literal`. */
  function Exec(s: State, instr: int, literal: int): (o: Outcome)
    requires Good(s) && Word(literal)
    ensures o.Running? || o.Fault?
  {
    var next := s.pointer + 2;
    if instr == 0 then
      match DivisionOf(s, literal)
      case None => Fault
      case Some(q) => Running(s.(a := q, pointer := next))
    else if instr == 1 then XorWord(s.b, literal); Running(s.(b := Xor(s.b, literal), pointer := next))
    else if instr == 2 then
      match Combo(s, literal)
      case None => Fault
      case Some(v) => Running(s.(b := v % 8, pointer := next))
    else if instr == 3 then
      if s.a != 0 then Running(s.(pointer := literal)) else Running(s.(pointer := next))
    else if instr == 4 then XorWord(s.b, s.c); Running(s.(b := Xor(s.b, s.c), pointer := next))
    else if instr == 5 then
      match Combo(s, literal)
      case None => Fault
      case Some(v) => Running(s.(output := s.output + [v % 8], pointer := next))
    else if instr == 6 then
      match DivisionOf(s, literal)
      case None => Fault
      case Some(q) => Running(s.(b := q, pointer := next))
    else if instr == 7 then
      match DivisionOf(s, literal)
      case None => Fault
      case Some(q) => Running(s.(c := q, pointer := next))
    else Fault
  }

  /**
    One turn of `run_to_end`: halts when no opcode is left (`get_next` gives `None`);
    an opcode without an operand panics in `get_next`.
   */
  function Step(s: State): (o: Outcome)
    requires Good(s)
  {
    if s.pointer >= |s.instuctions| then Halted(s)
    else if s.pointer + 1 >= |s.instuctions| then Fault
    else Exec(s, s.instuctions[s.pointer], s.instuctions[s.pointer + 1])
  }

  /** At most `fuel` turns of `run_to_end`; still `Running` when the fuel runs out first. */
  function Run(s: State, fuel: nat): (o: Outcome)
    requires Good(s)
    ensures o.Running? || o.Halted? ==> Good(o.s) && o.s.instuctions == s.instuctions
    decreases fuel
  {
    if fuel == 0 then Running(s)
    else
      match Step(s)
      case Running(t) => ExecKeeps(s, s.instuctions[s.pointer], s.instuctions[s.pointer + 1]); Run(t, fuel - 1)
      case Halted(t) => Halted(t)
      case Fault => Fault
  }

  // ---- properties of one instruction ----------------------------------------------------

  /** Registers stay non-negative `i64`s and the program is never written. */
  lemma ExecKeeps(s: State, instr: int, literal: int)
    requires Good(s) && Word(literal)
    ensures Exec(s, instr, literal).Running? ==>
      Good(Exec(s, instr, literal).s) && Exec(s, instr, literal).s.instuctions == s.instuctions
  {
    XorWord(s.b, literal);
    XorWord(s.b, s.c);
  }

  /** A jump taken (opcode 3 with `a != 0`) sets the pointer to the operand; any other instruction adds 2. */
  lemma ExecPointer(s: State, instr: int, literal: int)
    requires Good(s) && Word(literal) && Exec(s, instr, literal).Running?
    ensures var t := Exec(s, instr, literal).s;
      t.pointer == if instr == 3 && s.a != 0 then literal else s.pointer + 2
  {
  }

  /** Only opcode 5 writes output, and it appends one value from 0 to 7. */
  lemma ExecOutput(s: State, instr: int, literal: int)
    requires Good(s) && Word(literal) && Exec(s, instr, literal).Running?
    ensures var t := Exec(s, instr, literal).s;
      if instr == 5 then |t.output| == |s.output| + 1 && t.output[..|s.output|] == s.output && 0 <= t.output[|s.output|] < 8
      else t.output == s.output
  {
  }

  /** Opcode 1 sets `b` to `b ^ literal` and opcode 4 to `b ^ c`; nothing else changes but the pointer. */
  lemma ExecXor(s: State, literal: int)
    requires Good(s) && Word(literal)
    ensures Exec(s, 1, literal) == Running(s.(b := Xor(s.b, literal), pointer := s.pointer + 2))
    ensures Exec(s, 4, literal) == Running(s.(b := Xor(s.b, s.c), pointer := s.pointer + 2))
  {
  }

  /** Every value a run outputs lies in `[0, 7]`, and the outputs only grow. */
  lemma {:induction false} RunOutput(s: State, fuel: nat)
    requires Good(s) && (forall i :: 0 <= i < |s.output| ==> 0 <= s.output[i] < 8)
    ensures var o := Run(s, fuel);
      o.Running? || o.Halted? ==>
        |o.s.output| >= |s.output| && o.s.output[..|s.output|] == s.output &&
        forall i :: 0 <= i < |o.s.output| ==> 0 <= o.s.output[i] < 8
    decreases fuel
  {
    if fuel > 0 && Step(s).Running? {
      var instr, literal := s.instuctions[s.pointer], s.instuctions[s.pointer + 1];
      var t := Step(s).s;
      ExecOutput(s, instr, literal);
      ExecKeeps(s, instr, literal);
      assert forall i :: 0 <= i < |t.output| ==> 0 <= t.output[i] < 8 by {
        if instr == 5 {
          forall i | 0 <= i < |t.output| ensures 0 <= t.output[i] < 8 {
            if i < |s.output| {
              assert t.output[i] == t.output[..|s.output|][i];
            }
          }
        }
      }
      RunOutput(t, fuel - 1);
      var u := Run(t, fuel - 1);
      if u.Running? || u.Halted? {
        assert u.s.output[..|s.output|] == u.s.output[..|t.output|][..|s.output|];
      }
    }
  }

  /** The example program: `a` is halved and its last three bits printed, until it reaches 0. */
  const ExampleProgram: seq<int> := [0, 1, 5, 4, 3, 0]

  /** One pass through the example program. */
  lemma ExamplePass(s: State, f: nat)
    requires Good(s) && s.instuctions == ExampleProgram && s.pointer == 0
    ensures Run(s, f + 3) == Run(Pass(s), f)
  {
    var q := s.a / 2;
    assert Pow2(1) == 2;
    var s1 := s.(a := q, pointer := 2);
    assert Step(s) == Running(s1);
    var s2 := s1.(output := s.output + [q % 8], pointer := 4);
    assert Step(s1) == Running(s2);
    var s3 := s2.(pointer := if q != 0 then 0 else 6);
    assert Step(s2) == Running(s3);
    assert Run(s, f + 3) == Run(s1, f + 2) == Run(s2, f + 1) == Run(s3, f);
  }

  /** The values the example program prints from `a`: the last three bits of each halving. */
  function Halvings(a: nat): seq<int>
  {
    if a == 0 then [] else [(a / 2) % 8] + Halvings(a / 2)
  }

  /** The turns the example program takes from `a`: three per halving, one to halt. */
  function Turns(a: nat): nat
  {
    if a == 0 then 1 else 3 + Turns(a / 2)
  }

  /** Where the example program stops: `a` is 0 and `Halvings(a)` has been printed. */
  function Finish(s: State): State
    requires s.a >= 0
  {
    s.(a := 0, output := s.output + Halvings(s.a), pointer := 6)
  }

  /** The state after one pass of the example program. */
  function Pass(s: State): State
  {
    var q := s.a / 2;
    s.(a := q, output := s.output + [q % 8], pointer := if q != 0 then 0 else 6)
  }

  /** The example program halts after one pass per halving, having printed `Halvings(a)`. */
  lemma {:induction false} ExampleRuns(s: State)
    requires Good(s) && s.instuctions == ExampleProgram && s.pointer == 0 && s.a >= 1
    ensures Run(s, Turns(s.a)) == Halted(Finish(s))
    decreases s.a
  {
    var t := Pass(s);
    if t.a != 0 {
      ExampleRuns(t);
      PassThenFinish(s);
    } else {
      ExamplePass(s, 1);
      assert Run(t, 1) == Halted(t);
    }
  }

  lemma PassThenFinish(s: State)
    requires Good(s) && s.instuctions == ExampleProgram && s.pointer == 0 && s.a >= 2
    requires Run(Pass(s), Turns(s.a / 2)) == Halted(Finish(Pass(s)))
    ensures Run(s, Turns(s.a)) == Halted(Finish(s))
  {
    var q := s.a / 2;
    var f := Turns(q);
    assert Turns(s.a) == f + 3;
    ExamplePass(s, f);
    FinishAfterPass(s);
    calc {
      Run(s, Turns(s.a));
      Run(s, f + 3);
      Run(Pass(s), f);
      Halted(Finish(Pass(s)));
    }
  }

  lemma FinishAfterPass(s: State)
    requires s.a >= 1
    ensures Finish(Pass(s)) == Finish(s)
  {
    var q := s.a / 2;
    assert Halvings(s.a) == [q % 8] + Halvings(q);
    assert s.output + [q % 8] + Halvings(q) == s.output + Halvings(s.a);
  }

  /** The example of the puzzle (`a` = 729) prints `4,6,3,5,6,3,5,2,1,0`. */
  lemma Example()
    ensures var o := Run(State(729, 0, 0, [], ExampleProgram, 0), 31);
      o.Halted? && o.s.output == [4, 6, 3, 5, 6, 3, 5, 2, 1, 0]
  {
    var s := State(729, 0, 0, [], ExampleProgram, 0);
    ExampleRuns(s);
    ExampleNumbers();
    assert Finish(s).output == [4, 6, 3, 5, 6, 3, 5, 2, 1, 0];
  }

  lemma ExampleNumbers()
    ensures Turns(729) == 31
    ensures Halvings(729) == [4, 6, 3, 5, 6, 3, 5, 2, 1, 0]
  {
    ExampleTurns();
    ExampleHalvings();
  }

  lemma ExampleTurns()
    ensures Turns(729) == 31
  {
    assert Turns(5) == 10;
    assert Turns(45) == 19;
    assert Turns(364) == 28;
  }

  lemma ExampleHalvings()
    ensures Halvings(729) == [4, 6, 3, 5, 6, 3, 5, 2, 1, 0]
  {
    HalvingsOf11();
    HalvingsCons(22, [5, 2, 1, 0]);
    HalvingsCons(45, [3, 5, 2, 1, 0]);
    HalvingsCons(91, [6, 3, 5, 2, 1, 0]);
    HalvingsCons(182, [5, 6, 3, 5, 2, 1, 0]);
    HalvingsCons(364, [3, 5, 6, 3, 5, 2, 1, 0]);
    HalvingsCons(729, [6, 3, 5, 6, 3, 5, 2, 1, 0]);
  }

  lemma HalvingsOf11()
    ensures Halvings(11) == [5, 2, 1, 0]
  {
    assert Halvings(1) == [0];
    assert Halvings(2) == [1, 0];
    assert Halvings(5) == [2, 1, 0];
  }

  /** One halving step of `Halvings`, with the rest already known. */
  lemma HalvingsCons(a: nat, rest: seq<int>)
    requires a > 0 && Halvings(a / 2) == rest
    ensures Halvings(a) == [(a / 2) % 8] + rest
  {
  }

  // ---- the computer ---------------------------------------------------------------------

  /** `Computer`: the machine whose methods update its registers, output and pointer in place. */
  class Computer {
    var a: int
    var b: int
    var c: int
    var output: seq<int>
    var instuctions: seq<int>
    var pointer: nat

    /** The computer's current fields as a `State`. */
    function Snapshot(): State
      reads this
    {
      State(a, b, c, output, instuctions, pointer)
    }

    constructor (a0: int, b0: int, c0: int, program: seq<int>)
      ensures Snapshot() == State(a0, b0, c0, [], program, 0)
    {
      a, b, c := a0, b0, c0;
      output := [];
      instuctions := program;
      pointer := 0;
    }

    /**
      `get_next`: the opcode at the pointer and the operand after it, `None` when the
      pointer is past the program. An opcode without an operand panics, so it is excluded.
     */
    method GetNext() returns (r: Option<(int, int)>)
      requires pointer < |instuctions| ==> pointer + 1 < |instuctions|
      ensures r.None? <==> pointer >= |instuctions|
      ensures r.Some? ==> r.value == (instuctions[pointer], instuctions[pointer + 1])
    {
      if pointer >= |instuctions| {
        return None;
      }
      return Some((instuctions[pointer], instuctions[pointer + 1]));
    }

    /** `get_combo`; operand 7 and anything else outside 0 to 6 panic. */
    method GetCombo(v: int) returns (r: int)
      requires 0 <= v <= 6
      ensures Combo(Snapshot(), v) == Some(r)
    {
      if v == 0 { r := 0; }
      else if v == 1 { r := 1; }
      else if v == 2 { r := 2; }
      else if v == 3 { r := 3; }
      else if v == 4 { r := a; }
      else if v == 5 { r := b; }
      else { r := c; }
    }

    /** `division`, where it does not panic. */
    method Division(v: int) returns (r: int)
      requires Good(Snapshot()) && DivisionOf(Snapshot(), v).Some?
      ensures DivisionOf(Snapshot(), v) == Some(r)
    {
      var cc := GetCombo(v);
      var bottom := Pow2(cc % 0x1_0000_0000);
      r := a / bottom;
    }

    /** `instruction`, where it does not panic: the new state is the one `Exec` gives. */
    method Instruction(instr: int, literal: int)
      modifies this
      requires Good(Snapshot()) && Word(literal) && Exec(Snapshot(), instr, literal).Running?
      ensures Snapshot() == Exec(old(Snapshot()), instr, literal).s
    {
      if instr == 0 {
        a := Division(literal);
      } else if instr == 1 {
        XorWord(b, literal);
        b := Xor(b, literal);
      } else if instr == 2 {
        var v := GetCombo(literal);
        b := v % 8;
      } else if instr == 3 {
        if a != 0 {
          pointer := literal;
          return;
        }
      } else if instr == 4 {
        XorWord(b, c);
        b := Xor(b, c);
      } else if instr == 5 {
        var v := GetCombo(literal);
        output := output + [v % 8];
      } else if instr == 6 {
        b := Division(literal);
      } else {
        c := Division(literal);
      }
      pointer := pointer + 2;
    }

    /**
      `run_to_end`, for at most `fuel` turns: afterwards the computer is in the state
      `Run` gives, and `halted` tells whether the program ran off its end. The source
      loops without bound; the runs it is used on are required not to panic.
     */
    method RunToEnd(fuel: nat) returns (halted: bool)
      modifies this
      requires Good(Snapshot()) && !Run(Snapshot(), fuel).Fault?
      ensures var o := Run(old(Snapshot()), fuel); Snapshot() == o.s && (halted <==> o.Halted?)
    {
      var left := fuel;
      while left > 0
        invariant Good(Snapshot()) && Run(old(Snapshot()), fuel) == Run(Snapshot(), left)
        decreases left
      {
        var ins := GetNext();
        match ins {
          case None =>
            return true;
          case Some((i, v)) =>
            ExecKeeps(Snapshot(), i, v);
            Instruction(i, v);
        }
        left := left - 1;
      }
      return false;
    }
  }

  // ---- part one ---------------------------------------------------------------------------

  /**
    What `part_one` reads: the first number of lines 1 to 3 (the registers) and every
    number of line 5 (the program). `extract_numbers` is not part of this model; it is
    the `extract` parameter. Missing numbers panic in the source.
   */
  predicate Readable(lines: seq<string>, extract: string -> seq<int>)
  {
    |lines| >= 5 && |extract(lines[0])| >= 1 && |extract(lines[1])| >= 1 && |extract(lines[2])| >= 1
    && Word(extract(lines[0])[0]) && Word(extract(lines[1])[0]) && Word(extract(lines[2])[0])
    && AllWords(extract(lines[4]))
  }

  /** The computer `part_one` builds from its input lines. */
  function Initial(lines: seq<string>, extract: string -> seq<int>): (s: State)
    requires Readable(lines, extract)
    ensures Good(s) && s.output == [] && s.pointer == 0 && s.instuctions == extract(lines[4])
  {
    State(extract(lines[0])[0], extract(lines[1])[0], extract(lines[2])[0], [], extract(lines[4]), 0)
  }

  /** The outputs printed with `to_string` and joined with commas. */
  function Render(out: seq<int>): string
  {
    if out == [] then "" else Join(seq(|out|, k requires 0 <= k < |out| => IntToString(out[k])), ',')
  }

  /** The comma-separated answer reads back as the outputs. */
  lemma RenderParses(out: seq<int>)
    requires |out| >= 1
    ensures var parts := Split(Render(out), ',');
      |parts| == |out| && forall k :: 0 <= k < |out| ==> ParseInt(parts[k]) == Some(out[k])
  {
    var parts := seq(|out|, k requires 0 <= k < |out| => IntToString(out[k]));
    forall k | 0 <= k < |parts|
      ensures ',' !in parts[k] && ParseInt(parts[k]) == Some(out[k])
    {
      NoComma(out[k]);
      ParseIntToString(out[k]);
    }
    SplitJoin(parts, ',');
  }

  lemma NoComma(i: int)
    ensures ',' !in IntToString(i)
  {
    var n := NatToString(if i < 0 then -i else i);
    assert AllDigits(n);
    assert ',' !in n;
  }

  /**
    `part_one`, for at most `fuel` turns of the program: when the program halts within
    them, the answer is its output joined with commas.
   */
  method PartOne(input: string, extract: string -> seq<int>, fuel: nat) returns (halted: bool, answer: string)
    requires Readable(Split(input, '\n'), extract)
    requires !Run(Initial(Split(input, '\n'), extract), fuel).Fault?
    ensures var o := Run(Initial(Split(input, '\n'), extract), fuel);
      (halted <==> o.Halted?) && answer == Render(o.s.output)
  {
    var lines := Split(input, '\n');
    var comp := new Computer(extract(lines[0])[0], extract(lines[1])[0], extract(lines[2])[0], extract(lines[4]));
    halted := comp.RunToEnd(fuel);
    var out := comp.output;
    answer := if out == [] then "" else Join(seq(|out|, k requires 0 <= k < |out| => IntToString(out[k])), ',');
  }

  /** The puzzle's example answer, `4,6,3,5,6,3,5,2,1,0`. */
  lemma ExampleAnswer()
    ensures Render([4, 6, 3, 5, 6, 3, 5, 2, 1, 0]) == "4,6,3,5,6,3,5,2,1,0"
  {
    ExampleParts();
    ExampleJoin();
  }

  lemma ExampleParts()
    ensures var out := [4, 6, 3, 5, 6, 3, 5, 2, 1, 0];
      seq(|out|, k requires 0 <= k < |out| => IntToString(out[k])) == ["4", "6", "3", "5", "6", "3", "5", "2", "1", "0"]
  {
    assert IntToString(0) == "0" && IntToString(1) == "1" && IntToString(2) == "2";
    assert IntToString(3) == "3" && IntToString(4) == "4" && IntToString(5) == "5";
    assert IntToString(6) == "6";
  }

  lemma ExampleJoin()
    ensures Join(["4", "6", "3", "5", "6", "3", "5", "2", "1", "0"], ',') == "4,6,3,5,6,3,5,2,1,0"
  {
    ExampleJoinUpper();
    assert Join(["4", "6", "3", "5", "6", "3", "5", "2", "1", "0"], ',') == "4" + "," + Join(["6", "3", "5", "6", "3", "5", "2", "1", "0"], ',');
  }

  lemma ExampleJoinUpper()
    ensures Join(["6", "3", "5", "6", "3", "5", "2", "1", "0"], ',') == "6,3,5,6,3,5,2,1,0"
  {
    ExampleJoinMiddle();
    assert Join(["3", "5", "6", "3", "5", "2", "1", "0"], ',') == "3" + "," + Join(["5", "6", "3", "5", "2", "1", "0"], ',');
    assert Join(["6", "3", "5", "6", "3", "5", "2", "1", "0"], ',') == "6" + "," + Join(["3", "5", "6", "3", "5", "2", "1", "0"], ',');
  }

  lemma ExampleJoinMiddle()
    ensures Join(["5", "6", "3", "5", "2", "1", "0"], ',') == "5,6,3,5,2,1,0"
  {
    ExampleJoinTail();
    assert Join(["6", "3", "5", "2", "1", "0"], ',') == "6" + "," + Join(["3", "5", "2", "1", "0"], ',');
    assert Join(["5", "6", "3", "5", "2", "1", "0"], ',') == "5" + "," + Join(["6", "3", "5", "2", "1", "0"], ',');
  }

  lemma ExampleJoinTail()
    ensures Join(["3", "5", "2", "1", "0"], ',') == "3,5,2,1,0"
  {
    assert Join(["1", "0"], ',') == "1" + "," + Join(["0"], ',');
    assert Join(["2", "1", "0"], ',') == "2" + "," + Join(["1", "0"], ',');
    assert Join(["5", "2", "1", "0"], ',') == "5" + "," + Join(["2", "1", "0"], ',');
    assert Join(["3", "5", "2", "1", "0"], ',') == "3" + "," + Join(["5", "2", "1", "0"], ',');
  }

  // ---- compare_vecs ---------------------------------------------------------------------

  /** `compare_vecs`: the number of positions where both lists hold the same value. */
  function CompareVecs(a: seq<int>, b: seq<int>): (n: nat)
    ensures n <= |a|
  {
    if a == [] then 0
    else
      var i := |a| - 1;
      CompareVecs(a[..i], b) + (if i < |b| && b[i] == a[i] then 1 else 0)
  }

  /** A list agrees with itself everywhere. */
  lemma {:induction false} CompareSame(a: seq<int>)
    ensures CompareVecs(a, a) == |a|
  {
    if a != [] {
      var i := |a| - 1;
      CompareSameFront(a, a[..i]);
    }
  }

  lemma {:induction false} CompareSameFront(a: seq<int>, p: seq<int>)
    requires p <= a
    ensures CompareVecs(p, a) == |p|
  {
    if p != [] {
      CompareSameFront(a, p[..|p| - 1]);
    }
  }

  /** The count is symmetric. */
  lemma {:induction false} CompareSymmetric(a: seq<int>, b: seq<int>)
    ensures CompareVecs(a, b) == CompareVecs(b, a)
  {
    CompareUpTo(a, b);
    CompareUpTo(b, a);
    var m := if |a| < |b| then |a| else |b|;
    AgreeSymmetric(a, b, m);
  }

  /** The count over the first `n` positions. */
  function Agree(a: seq<int>, b: seq<int>, n: nat): nat
  {
    if n == 0 then 0
    else Agree(a, b, n - 1) + (if n - 1 < |a| && n - 1 < |b| && a[n - 1] == b[n - 1] then 1 else 0)
  }

  lemma {:induction false} AgreeSymmetric(a: seq<int>, b: seq<int>, n: nat)
    ensures Agree(a, b, n) == Agree(b, a, n)
  {
    if n > 0 {
      AgreeSymmetric(a, b, n - 1);
    }
  }

  lemma {:induction false} AgreeBeyond(a: seq<int>, b: seq<int>, n: nat)
    requires n >= |a| || n >= |b|
    ensures Agree(a, b, n) == Agree(a, b, if |a| < |b| then |a| else |b|)
  {
    var m := if |a| < |b| then |a| else |b|;
    if n > m {
      AgreeBeyond(a, b, n - 1);
    }
  }

  lemma {:induction false} CompareUpTo(a: seq<int>, b: seq<int>)
    ensures CompareVecs(a, b) == Agree(a, b, if |a| < |b| then |a| else |b|)
  {
    CompareIsAgree(a, b);
    AgreeBeyond(a, b, |a|);
  }

  lemma {:induction false} CompareIsAgree(a: seq<int>, b: seq<int>)
    ensures CompareVecs(a, b) == Agree(a, b, |a|)
  {
    if a != [] {
      var i := |a| - 1;
      CompareIsAgree(a[..i], b);
      AgreeFront2(a, b, i, i);
    }
  }

  lemma {:induction false} AgreeFront2(a: seq<int>, b: seq<int>, k: nat, n: nat)
    requires k <= n <= |a|
    ensures Agree(a[..n], b, k) == Agree(a, b, k)
  {
    if k > 0 {
      AgreeFront2(a, b, k - 1, n);
    }
  }
}
