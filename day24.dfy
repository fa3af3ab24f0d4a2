/**
  Day 24: a circuit of AND, OR and XOR gates over named wires. `solve` evaluates gates
  pass after pass until no gate can be evaluated any more, then reads the wires whose
  names start with `z`, highest name first, as a binary number. Part two flags the
  gate outputs that break the shape of a ripple-carry adder.
 */
module Day24 {
  import opened Wrappers
  import opened Text
  import opened Sorting

  datatype Operation = And | Or | Xor

  /** A gate: `left op right -> out`, and whether the current `solve` has evaluated it. */
  datatype Connection = Connection(computed: bool, op: Operation, left: string, right: string, out: string)

  /**
    The gate's output for two wire values, stored as 0 or 1: AND and OR look for the
    value 1, XOR for two different values.
   */
  function Evaluate(op: Operation, l: int, r: int): (n: int)
    ensures n == 0 || n == 1
    ensures op == And ==> (n == 1 <==> l == 1 && r == 1)
    ensures op == Or ==> (n == 1 <==> l == 1 || r == 1)
    ensures op == Xor ==> (n == 1 <==> l != r)
  {
    var result := match op
      case And => l == 1 && r == 1
      case Or => l == 1 || r == 1
      case Xor => l != r;
    if result then 1 else 0
  }

  /** On bits the gates are the usual Boolean operations written arithmetically. */
  lemma EvaluateBits(l: int, r: int)
    requires 0 <= l <= 1 && 0 <= r <= 1
    ensures Evaluate(And, l, r) == l * r
    ensures Evaluate(Or, l, r) == l + r - l * r
    ensures Evaluate(Xor, l, r) == (l + r) % 2
  {
  }

  // ---- solve ----------------------------------------------------------------------------

  /** The number of gates not yet evaluated. */
  function Uncomputed(cs: seq<Connection>): (n: nat)
    ensures n <= |cs|
  {
    if cs == [] then 0 else Uncomputed(cs[..|cs| - 1]) + if cs[|cs| - 1].computed then 0 else 1
  }

  /** Marking one unevaluated gate leaves one fewer. */
  lemma {:induction false} UncomputedMark(cs: seq<Connection>, i: nat)
    requires i < |cs| && !cs[i].computed
    ensures Uncomputed(cs[i := cs[i].(computed := true)]) == Uncomputed(cs) - 1
  {
    var cs' := cs[i := cs[i].(computed := true)];
    if i < |cs| - 1 {
      assert cs'[..|cs'| - 1] == cs[..|cs| - 1][i := cs[i].(computed := true)];
      UncomputedMark(cs[..|cs| - 1], i);
    } else {
      assert cs'[..|cs'| - 1] == cs[..|cs| - 1];
    }
  }

  /** With no gate left unevaluated, every gate is evaluated. */
  lemma {:induction false} NoneUncomputed(cs: seq<Connection>, i: nat)
    requires Uncomputed(cs) == 0 && i < |cs|
    ensures cs[i].computed
  {
    if i < |cs| - 1 {
      NoneUncomputed(cs[..|cs| - 1], i);
    }
  }

  /** The wires written by evaluated gates. */
  function ComputedOuts(cs: seq<Connection>): set<string>
  {
    set i | 0 <= i < |cs| && cs[i].computed :: cs[i].out
  }

  /** The same gates as `cs0`; only the `computed` flags may differ. */
  predicate SameGates(cs: seq<Connection>, cs0: seq<Connection>)
  {
    |cs| == |cs0| && forall i :: 0 <= i < |cs| ==> cs[i] == cs0[i].(computed := cs[i].computed)
  }

  /** Every evaluated gate found both its inputs. */
  predicate InputsKnown(cs: seq<Connection>, values: map<string, int>)
  {
    forall i :: 0 <= i < |cs| && cs[i].computed ==> cs[i].left in values && cs[i].right in values
  }

  /** No unevaluated gate has both inputs: nothing more can be evaluated. */
  predicate Stuck(cs: seq<Connection>, values: map<string, int>)
  {
    forall i :: 0 <= i < |cs| && !cs[i].computed ==> cs[i].left !in values || cs[i].right !in values
  }

  /**
    A circuit in which every wire has at most one source: no two gates write the same
    wire and no gate writes an initial wire.
   */
  predicate SingleDriver(cs: seq<Connection>, values: map<string, int>)
  {
    (forall i, j :: 0 <= i < j < |cs| ==> cs[i].out != cs[j].out) &&
    (forall i :: 0 <= i < |cs| ==> cs[i].out !in values)
  }

  /** Every evaluated gate's output wire holds the gate's function of its input wires. */
  predicate Consistent(cs: seq<Connection>, values: map<string, int>)
  {
    forall i :: 0 <= i < |cs| && cs[i].computed ==>
      cs[i].left in values && cs[i].right in values && cs[i].out in values &&
      values[cs[i].out] == Evaluate(cs[i].op, values[cs[i].left], values[cs[i].right])
  }

  /** What holds of the gates and wires throughout `solve`, relative to where it started. */
  predicate Solving(cs0: seq<Connection>, v0: map<string, int>, cs: seq<Connection>, values: map<string, int>)
  {
    SameGates(cs, cs0) &&
    values.Keys == v0.Keys + ComputedOuts(cs) &&
    InputsKnown(cs, values) &&
    (SingleDriver(cs0, v0) ==> Consistent(cs, values) && forall w :: w in v0 ==> values[w] == v0[w])
  }

  /** Evaluating gate `i` keeps `Solving`. */
  lemma Evaluated(cs0: seq<Connection>, v0: map<string, int>, cs: seq<Connection>, values: map<string, int>, i: nat)
    requires Solving(cs0, v0, cs, values)
    requires i < |cs| && !cs[i].computed && cs[i].left in values && cs[i].right in values
    ensures var g := cs[i];
      Solving(cs0, v0, cs[i := g.(computed := true)], values[g.out := Evaluate(g.op, values[g.left], values[g.right])])
  {
    var g := cs[i];
    var cs' := cs[i := g.(computed := true)];
    var values' := values[g.out := Evaluate(g.op, values[g.left], values[g.right])];
    EvaluatedShape(cs0, v0, cs, values, i);
    if SingleDriver(cs0, v0) {
      EvaluatedSingle(cs0, v0, cs, values, i);
    }
  }

  lemma EvaluatedShape(cs0: seq<Connection>, v0: map<string, int>, cs: seq<Connection>, values: map<string, int>, i: nat)
    requires SameGates(cs, cs0) && values.Keys == v0.Keys + ComputedOuts(cs) && InputsKnown(cs, values)
    requires i < |cs| && !cs[i].computed && cs[i].left in values && cs[i].right in values
    ensures var g := cs[i];
      var cs', values' := cs[i := g.(computed := true)], values[g.out := Evaluate(g.op, values[g.left], values[g.right])];
      SameGates(cs', cs0) && values'.Keys == v0.Keys + ComputedOuts(cs') && InputsKnown(cs', values')
  {
    var g := cs[i];
    var values' := values[g.out := Evaluate(g.op, values[g.left], values[g.right])];
    MarkOuts(cs, i);
    MarkInputs(cs, values, i, g.out, Evaluate(g.op, values[g.left], values[g.right]));
    MarkSame(cs, cs0, i);
    KeysAdd(values, v0.Keys, ComputedOuts(cs), g.out, Evaluate(g.op, values[g.left], values[g.right]));
  }

  lemma MarkSame(cs: seq<Connection>, cs0: seq<Connection>, i: nat)
    requires SameGates(cs, cs0) && i < |cs|
    ensures SameGates(cs[i := cs[i].(computed := true)], cs0)
  {
  }

  lemma KeysAdd(values: map<string, int>, a: set<string>, b: set<string>, w: string, v: int)
    requires values.Keys == a + b
    ensures values[w := v].Keys == a + (b + {w})
  {
  }

  lemma MarkInputs(cs: seq<Connection>, values: map<string, int>, i: nat, w: string, v: int)
    requires InputsKnown(cs, values)
    requires i < |cs| && cs[i].left in values && cs[i].right in values
    ensures InputsKnown(cs[i := cs[i].(computed := true)], values[w := v])
  {
    var cs' := cs[i := cs[i].(computed := true)];
    forall j | 0 <= j < |cs'| && cs'[j].computed ensures cs'[j].left in values[w := v] && cs'[j].right in values[w := v] {
      if j != i {
        assert cs'[j] == cs[j];
      }
    }
  }

  lemma EvaluatedSingle(cs0: seq<Connection>, v0: map<string, int>, cs: seq<Connection>, values: map<string, int>, i: nat)
    requires Solving(cs0, v0, cs, values) && SingleDriver(cs0, v0)
    requires i < |cs| && !cs[i].computed && cs[i].left in values && cs[i].right in values
    ensures var g := cs[i];
      var cs', values' := cs[i := g.(computed := true)], values[g.out := Evaluate(g.op, values[g.left], values[g.right])];
      Consistent(cs', values') && forall w :: w in v0 ==> values'[w] == v0[w]
  {
    var g := cs[i];
    var values' := values[g.out := Evaluate(g.op, values[g.left], values[g.right])];
    FreshOut(cs0, v0, cs, values, i);
    EvaluatedConsistent(cs0, cs, values, i);
    assert g.out == cs0[i].out && g.out !in v0;
    assert forall w :: w in v0 ==> values'[w] == v0[w];
  }

  /** Marking gate `i` adds its output to the written wires. */
  lemma MarkOuts(cs: seq<Connection>, i: nat)
    requires i < |cs|
    ensures ComputedOuts(cs[i := cs[i].(computed := true)]) == ComputedOuts(cs) + {cs[i].out}
  {
    var cs' := cs[i := cs[i].(computed := true)];
    forall w | w in ComputedOuts(cs') ensures w in ComputedOuts(cs) + {cs[i].out} {
      var j :| 0 <= j < |cs'| && cs'[j].computed && cs'[j].out == w;
      if j != i {
        assert cs[j].computed;
      }
    }
    forall w | w in ComputedOuts(cs) + {cs[i].out} ensures w in ComputedOuts(cs') {
      if w == cs[i].out {
        assert cs'[i].computed && cs'[i].out == w;
      } else {
        var j :| 0 <= j < |cs| && cs[j].computed && cs[j].out == w;
        assert cs'[j].computed && cs'[j].out == w;
      }
    }
  }

  /** In a single-source circuit an unevaluated gate's output has no value yet. */
  lemma FreshOut(cs0: seq<Connection>, v0: map<string, int>, cs: seq<Connection>, values: map<string, int>, i: nat)
    requires Solving(cs0, v0, cs, values) && SingleDriver(cs0, v0)
    requires i < |cs| && !cs[i].computed
    ensures cs[i].out !in values
  {
    forall j | 0 <= j < |cs| && cs[j].computed ensures cs[j].out != cs[i].out {
      assert j != i;
      assert cs[j].out == cs0[j].out && cs[i].out == cs0[i].out;
    }
  }

  /** Writing a wire that had no value keeps every evaluated gate consistent. */
  lemma EvaluatedConsistent(cs0: seq<Connection>, cs: seq<Connection>, values: map<string, int>, i: nat)
    requires SameGates(cs, cs0) && Consistent(cs, values) && InputsKnown(cs, values)
    requires forall a, b :: 0 <= a < b < |cs0| ==> cs0[a].out != cs0[b].out
    requires i < |cs| && !cs[i].computed && cs[i].left in values && cs[i].right in values
    requires cs[i].out !in values
    ensures var g := cs[i];
      Consistent(cs[i := g.(computed := true)], values[g.out := Evaluate(g.op, values[g.left], values[g.right])])
  {
    var g := cs[i];
    var cs' := cs[i := g.(computed := true)];
    var values' := values[g.out := Evaluate(g.op, values[g.left], values[g.right])];
    forall j | 0 <= j < |cs'| && cs'[j].computed
      ensures cs'[j].left in values' && cs'[j].right in values' && cs'[j].out in values'
      ensures values'[cs'[j].out] == Evaluate(cs'[j].op, values'[cs'[j].left], values'[cs'[j].right])
    {
      if j != i {
        assert cs[j].left != g.out && cs[j].right != g.out && cs[j].out != g.out;
      }
    }
  }

  /**
    `solve`: clears every `computed` flag, then passes over the gates, evaluating each
    unevaluated gate whose two inputs have values, until a pass evaluates nothing or no
    gate is left. The result is the `z` wires' values, highest name first, as text.

    Afterwards the gates are the same but for their flags, the wires with values are
    the initial ones and the outputs of evaluated gates, and no remaining gate can be
    evaluated. In a circuit where every wire has one source, each evaluated gate's
    output holds its function of its inputs and the initial wires are unchanged.
   */
  method Solve(connections0: seq<Connection>, values0: map<string, int>)
    returns (connections: seq<Connection>, values: map<string, int>, s: string)
    ensures Solving(connections0, values0, connections, values)
    ensures Stuck(connections, values)
    ensures ZText(values, s)
  {
    connections := connections0;
    var k := 0;
    while k < |connections|
      invariant 0 <= k <= |connections| == |connections0|
      invariant forall i :: 0 <= i < |connections| ==>
        connections[i] == connections0[i].(computed := i >= k && connections0[i].computed)
    {
      connections := connections[k := connections[k].(computed := false)];
      k := k + 1;
    }
    assert ComputedOuts(connections) == {};
    values := values0;
    while true
      invariant Solving(connections0, values0, connections, values)
      decreases Uncomputed(connections)
    {
      var hasUncomputed, changed;
      connections, values, hasUncomputed, changed := Pass(connections0, values0, connections, values);
      if !hasUncomputed || changed == 0 {
        break;
      }
    }
    s := ZString(values);
  }

  /**
    One pass of the inner `for` loop of `solve`: evaluates, in order, each unevaluated
    gate whose inputs have values. `changed` counts the gates evaluated, and
    `hasUncomputed` says whether an unevaluated gate was met.
   */
  method Pass(connections0: seq<Connection>, values0: map<string, int>,
              startC: seq<Connection>, startV: map<string, int>)
    returns (connections: seq<Connection>, values: map<string, int>, hasUncomputed: bool, changed: nat)
    requires Solving(connections0, values0, startC, startV)
    ensures Solving(connections0, values0, connections, values)
    ensures Uncomputed(connections) + changed == Uncomputed(startC)
    ensures changed == 0 ==> connections == startC && values == startV && StuckBelow(connections, values, |connections|)
    ensures !hasUncomputed ==> ComputedBelow(connections, |connections|)
  {
    connections, values := startC, startV;
    hasUncomputed := false;
    changed := 0;
    var i := 0;
    while i < |connections|
      invariant PassSoFar(connections0, values0, startC, startV, connections, values, i, changed, hasUncomputed)
      decreases |connections| - i
    {
      var item := connections[i];
      if item.computed {
        PassSkip(connections0, values0, startC, startV, connections, values, i, changed, hasUncomputed);
      } else if item.left in values && item.right in values {
        PassEvaluate(connections0, values0, startC, startV, connections, values, i, changed, hasUncomputed);
        values := values[item.out := Evaluate(item.op, values[item.left], values[item.right])];
        connections := connections[i := item.(computed := true)];
        changed := changed + 1;
        hasUncomputed := true;
      } else {
        PassSkip(connections0, values0, startC, startV, connections, values, i, changed, hasUncomputed);
        hasUncomputed := true;
      }
      i := i + 1;
    }
  }

  /** The invariant of the pass after its first `i` gates. */
  ghost predicate PassSoFar(cs0: seq<Connection>, v0: map<string, int>, startC: seq<Connection>, startV: map<string, int>,
                            cs: seq<Connection>, values: map<string, int>, i: nat, changed: nat, hasUncomputed: bool)
  {
    i <= |cs| && |cs| == |startC| &&
    Solving(cs0, v0, cs, values) &&
    Uncomputed(cs) + changed == Uncomputed(startC) &&
    (changed == 0 ==> cs == startC && values == startV && StuckBelow(cs, values, i)) &&
    (!hasUncomputed ==> ComputedBelow(cs, i)) &&
    forall j :: i <= j < |cs| ==> cs[j] == startC[j]
  }

  /** A gate that is evaluated already, or lacks an input, is passed over. */
  lemma PassSkip(cs0: seq<Connection>, v0: map<string, int>, startC: seq<Connection>, startV: map<string, int>,
                 cs: seq<Connection>, values: map<string, int>, i: nat, changed: nat, hasUncomputed: bool)
    requires PassSoFar(cs0, v0, startC, startV, cs, values, i, changed, hasUncomputed) && i < |cs|
    requires cs[i].computed || cs[i].left !in values || cs[i].right !in values
    ensures PassSoFar(cs0, v0, startC, startV, cs, values, i + 1, changed, hasUncomputed || !cs[i].computed)
  {
    BelowStep(cs, values, i);
  }

  /** A gate whose inputs have values is evaluated. */
  lemma PassEvaluate(cs0: seq<Connection>, v0: map<string, int>, startC: seq<Connection>, startV: map<string, int>,
                     cs: seq<Connection>, values: map<string, int>, i: nat, changed: nat, hasUncomputed: bool)
    requires PassSoFar(cs0, v0, startC, startV, cs, values, i, changed, hasUncomputed) && i < |cs|
    requires !cs[i].computed && cs[i].left in values && cs[i].right in values
    ensures var g := cs[i];
      PassSoFar(cs0, v0, startC, startV, cs[i := g.(computed := true)],
                values[g.out := Evaluate(g.op, values[g.left], values[g.right])], i + 1, changed + 1, true)
  {
    EvaluateParts(cs0, v0, startC, cs, values, i, changed);
  }

  lemma EvaluateParts(cs0: seq<Connection>, v0: map<string, int>, startC: seq<Connection>,
                      cs: seq<Connection>, values: map<string, int>, i: nat, changed: nat)
    requires Solving(cs0, v0, cs, values) && Uncomputed(cs) + changed == Uncomputed(startC)
    requires i < |cs| == |startC| && forall j :: i <= j < |cs| ==> cs[j] == startC[j]
    requires !cs[i].computed && cs[i].left in values && cs[i].right in values
    ensures var g := cs[i];
      var cs', values' := cs[i := g.(computed := true)], values[g.out := Evaluate(g.op, values[g.left], values[g.right])];
      Solving(cs0, v0, cs', values') && Uncomputed(cs') + changed + 1 == Uncomputed(startC) &&
      (forall j :: i + 1 <= j < |cs'| ==> cs'[j] == startC[j]) && |cs'| == |startC|
  {
    Evaluated(cs0, v0, cs, values, i);
    MarkedCount(cs, startC, i, changed);
    MarkedRest(cs, startC, i);
  }

  lemma MarkedCount(cs: seq<Connection>, startC: seq<Connection>, i: nat, changed: nat)
    requires i < |cs| && !cs[i].computed && Uncomputed(cs) + changed == Uncomputed(startC)
    ensures Uncomputed(cs[i := cs[i].(computed := true)]) + changed + 1 == Uncomputed(startC)
  {
    UncomputedMark(cs, i);
  }

  lemma MarkedRest(cs: seq<Connection>, startC: seq<Connection>, i: nat)
    requires i < |cs| == |startC| && forall j :: i <= j < |cs| ==> cs[j] == startC[j]
    ensures var cs' := cs[i := cs[i].(computed := true)];
      forall j :: i + 1 <= j < |cs'| ==> cs'[j] == startC[j]
  {
  }

  /** The unevaluated gates before `i` lack an input. */
  predicate StuckBelow(cs: seq<Connection>, values: map<string, int>, i: nat)
  {
    forall j :: 0 <= j < i && j < |cs| && !cs[j].computed ==> cs[j].left !in values || cs[j].right !in values
  }

  /** The gates before `i` are all evaluated. */
  predicate ComputedBelow(cs: seq<Connection>, i: nat)
  {
    forall j :: 0 <= j < i && j < |cs| ==> cs[j].computed
  }

  lemma BelowStep(cs: seq<Connection>, values: map<string, int>, i: nat)
    requires i < |cs|
    ensures StuckBelow(cs, values, i) && (cs[i].computed || cs[i].left !in values || cs[i].right !in values)
      ==> StuckBelow(cs, values, i + 1)
    ensures ComputedBelow(cs, i) && cs[i].computed ==> ComputedBelow(cs, i + 1)
  {
  }

  // ---- reading the z wires --------------------------------------------------------------

  /** `zs` holds the wires starting with `z`, each once, highest name first. */
  ghost predicate DescendingZ(values: map<string, int>, zs: seq<string>)
  {
    (forall k :: k in zs <==> k in values && StartsWith(k, "z")) &&
    (forall i, j :: 0 <= i < j < |zs| ==> StrLess(zs[j], zs[i]))
  }

  /** The values of the given wires printed one after another. */
  function Digits(values: map<string, int>, zs: seq<string>): string
    requires forall k :: k in zs ==> k in values
  {
    if zs == [] then "" else Digits(values, zs[..|zs| - 1]) + IntToString(values[zs[|zs| - 1]])
  }

  /** `s` is the text `solve` returns for these wire values. */
  ghost predicate ZText(values: map<string, int>, s: string)
  {
    exists zs :: DescendingZ(values, zs) && s == Digits(values, zs)
  }

  /** Only one order of the `z` wires is descending, so the text is determined by the values. */
  lemma DescendingZUnique(values: map<string, int>, a: seq<string>, b: seq<string>)
    requires DescendingZ(values, a) && DescendingZ(values, b)
    ensures a == b
  {
    var ra, rb := Reverse(a), Reverse(b);
    ReverseElems(a);
    ReverseElems(b);
    StrLessOrder(Elems(ra));
    assert Ordered(ra, StrLess) by {
      forall i, j | 0 <= i < j < |ra| ensures !StrLess(ra[j], ra[i]) {
        StrLessTrichotomy(ra[i], ra[j]);
      }
    }
    assert Ordered(rb, StrLess) by {
      forall i, j | 0 <= i < j < |rb| ensures !StrLess(rb[j], rb[i]) {
        StrLessTrichotomy(rb[i], rb[j]);
      }
    }
    DistinctMultiset(ra, rb);
    OrderedUnique(ra, rb, StrLess);
    assert a == Reverse(ra) && b == Reverse(rb);
  }

  /** Two sequences without repeats holding the same elements are permutations of each other. */
  lemma DistinctMultiset(a: seq<string>, b: seq<string>)
    requires forall i, j :: 0 <= i < j < |a| ==> StrLess(a[i], a[j])
    requires forall i, j :: 0 <= i < j < |b| ==> StrLess(b[i], b[j])
    requires forall k :: k in a <==> k in b
    ensures multiset(a) == multiset(b)
  {
    Distinct(a);
    Distinct(b);
    assert forall k :: multiset(a)[k] == multiset(b)[k] by {
      forall k ensures multiset(a)[k] == multiset(b)[k] {
        Distinct(a);
      }
    }
  }

  /** A strictly ascending sequence holds each of its elements once. */
  lemma {:induction false} Distinct(a: seq<string>)
    requires forall i, j :: 0 <= i < j < |a| ==> StrLess(a[i], a[j])
    ensures forall k :: multiset(a)[k] == if k in a then 1 else 0
  {
    if a != [] {
      var last := a[|a| - 1];
      var front := a[..|a| - 1];
      Distinct(front);
      assert a == front + [last];
      assert last !in front by {
        if last in front {
          var i :| 0 <= i < |front| && front[i] == last;
          StrLessIrreflexive(last);
        }
      }
    }
  }

  /** The `z` wires, sorted, reversed, and their values joined into one text. */
  method ZString(values: map<string, int>) returns (s: string)
    ensures ZText(values, s)
  {
    var zkeys := set k | k in values && StartsWith(k, "z");
    var ascending := SortStrings(zkeys);
    var zv := Reverse(ascending);
    ReverseElems(ascending);
    s := Digits(values, zv);
    assert DescendingZ(values, zv);
  }

  // ---- parse_initial ---------------------------------------------------------------------

  /** A gate line, `left OP right -> out`: at least five space-separated tokens, the second an operation. */
  predicate GateLine(l: string)
  {
    var sp := Split(l, ' ');
    |sp| >= 5 && (sp[1] == "AND" || sp[1] == "OR" || sp[1] == "XOR")
  }

  /** Tokens 0, 1, 2 and 4 of a gate line; the gate starts unevaluated. */
  function ParseGate(l: string): Connection
    requires GateLine(l)
  {
    var sp := Split(l, ' ');
    Connection(false, if sp[1] == "AND" then And else if sp[1] == "OR" then Or else Xor, sp[0], sp[2], sp[4])
  }

  function OpName(op: Operation): string
  {
    match op
    case And => "AND"
    case Or => "OR"
    case Xor => "XOR"
  }

  /** A gate written out as a line reads back as the same gate. */
  lemma ParseGateOfText(g: Connection)
    requires ' ' !in g.left && ' ' !in g.right && ' ' !in g.out
    ensures var l := g.left + " " + OpName(g.op) + " " + g.right + " -> " + g.out;
      GateLine(l) && ParseGate(l) == g.(computed := false)
  {
    var parts := [g.left, OpName(g.op), g.right, "->", g.out];
    var l := g.left + " " + OpName(g.op) + " " + g.right + " -> " + g.out;
    assert Join(parts[4..], ' ') == g.out;
    assert Join(parts[3..], ' ') == "->" + " " + g.out;
    assert Join(parts[2..], ' ') == g.right + " " + "->" + " " + g.out;
    assert Join(parts[1..], ' ') == OpName(g.op) + " " + g.right + " " + "->" + " " + g.out;
    assert Join(parts, ' ') == l;
    assert ' ' !in OpName(g.op);
    SplitJoin(parts, ' ');
  }

  /** A text `str::parse::<i8>` accepts. */
  predicate IsI8(s: string)
  {
    ParseInt(s).Some? && -128 <= ParseInt(s).value < 128
  }

  /** An initial line, `wire: value`. */
  predicate InitLine(l: string)
  {
    SplitOnce(l, ": ").Some? && IsI8(SplitOnce(l, ": ").value.1)
  }

  /** The wire and the value of an initial line. */
  function InitEntry(l: string): (string, int)
    requires InitLine(l)
  {
    var (target, value) := SplitOnce(l, ": ").value;
    (target, ParseInt(value).value)
  }

  /** The initial wire values, a later line for the same wire replacing an earlier one. */
  function InitialValues(ls: seq<string>): (m: map<string, int>)
    requires forall i :: 0 <= i < |ls| ==> InitLine(ls[i])
    ensures forall i :: 0 <= i < |ls| ==> InitEntry(ls[i]).0 in m
    ensures forall w :: w in m ==> exists i :: 0 <= i < |ls| && InitEntry(ls[i]).0 == w
  {
    if ls == [] then map[]
    else
      var e := InitEntry(ls[|ls| - 1]);
      var front := InitialValues(ls[..|ls| - 1]);
      assert forall i :: 0 <= i < |ls| - 1 ==> ls[..|ls| - 1][i] == ls[i];
      front[e.0 := e.1]
  }

  /** A wire's value comes from the last line that names it. */
  lemma {:induction false} LastLineWins(ls: seq<string>, i: nat)
    requires forall k :: 0 <= k < |ls| ==> InitLine(ls[k])
    requires i < |ls| && forall j :: i < j < |ls| ==> InitEntry(ls[j]).0 != InitEntry(ls[i]).0
    ensures InitialValues(ls)[InitEntry(ls[i]).0] == InitEntry(ls[i]).1
  {
    if i < |ls| - 1 {
      var front := ls[..|ls| - 1];
      assert front[i] == ls[i];
      LastLineWins(front, i);
    }
  }

  /** What `parse_initial` reads without panicking: a blank line, then gate and initial lines. */
  predicate Readable(input: string)
  {
    match SplitOnce(input, "\n\n")
    case None => false
    case Some((base, conns)) =>
      (forall k :: 0 <= k < |Lines(conns)| ==> GateLine(Lines(conns)[k])) &&
      (forall k :: 0 <= k < |Lines(base)| ==> InitLine(Lines(base)[k]))
  }

  /** The gates of the input, in order. */
  function Gates(input: string): (cs: seq<Connection>)
    requires Readable(input)
    ensures var ls := Lines(SplitOnce(input, "\n\n").value.1);
      |cs| == |ls| && forall k :: 0 <= k < |ls| ==> cs[k] == ParseGate(ls[k])
  {
    var ls := Lines(SplitOnce(input, "\n\n").value.1);
    seq(|ls|, k requires 0 <= k < |ls| => ParseGate(ls[k]))
  }

  /** The initial wire values of the input. */
  function Initial(input: string): map<string, int>
    requires Readable(input)
  {
    InitialValues(Lines(SplitOnce(input, "\n\n").value.0))
  }

  /** `parse_initial`: the gates, and the initial values inserted line by line. */
  method ParseInitial(input: string) returns (connections: seq<Connection>, values: map<string, int>)
    requires Readable(input)
    ensures connections == Gates(input) && values == Initial(input)
  {
    var (base, conns) := SplitOnce(input, "\n\n").value;
    connections := Gates(input);
    values := map[];
    var ls := Lines(base);
    for k := 0 to |ls|
      invariant values == InitialValues(ls[..k])
    {
      var (target, value) := SplitOnce(ls[k], ": ").value;
      values := values[target := ParseInt(value).value];
      assert ls[..k + 1][..k] == ls[..k];
    }
    assert ls[..|ls|] == ls;
  }

  // ---- part one -----------------------------------------------------------------------

  const U128Limit: nat := 0x1_0000_0000_0000_0000_0000_0000_0000_0000

  predicate IsBit(c: char)
  {
    c == '0' || c == '1'
  }

  predicate AllBits(s: string)
  {
    forall k :: 0 <= k < |s| ==> IsBit(s[k])
  }

  /** The value of a string of binary digits, most significant first. */
  function BinValue(s: string): nat
    requires AllBits(s)
  {
    if s == [] then 0 else 2 * BinValue(s[..|s| - 1]) + (if s[|s| - 1] == '1' then 1 else 0)
  }

  /**
    `u128::from_str_radix(s, 2)`: an optional `+`, then at least one binary digit, the
    value below 2^128; anything else is an error (`None`).
   */
  function FromStrRadix2(s: string): (r: Option<nat>)
    ensures r.Some? ==> r.value < U128Limit
  {
    var d := if |s| >= 1 && s[0] == '+' then s[1..] else s;
    if d == [] || !AllBits(d) then None
    else if BinValue(d) >= U128Limit then None
    else Some(BinValue(d))
  }

  /**
    `part_one`: the `z` wires read as a binary number. `None` where the source's
    `unwrap` of `from_str_radix` panics (no `z` wire, a value other than 0 or 1 printed,
    or more than 128 digits).
   */
  method PartOne(input: string) returns (r: Option<nat>)
    requires Readable(input)
    ensures exists cs, values, s ::
      Solving(Gates(input), Initial(input), cs, values) && Stuck(cs, values) && ZText(values, s) && r == FromStrRadix2(s)
  {
    var connections, values := ParseInitial(input);
    var cs, vs, s := Solve(connections, values);
    r := FromStrRadix2(s);
  }

  // ---- add_binaries and build_values ------------------------------------------------------

  function BitChar(b: nat): char
    requires b < 2
  {
    if b == 0 then '0' else '1'
  }

  /** `format!("{:b}", n)`: the binary digits without leading zeros, `0` for zero. */
  function ToBinary(n: nat): (s: string)
    ensures |s| >= 1 && AllBits(s)
    ensures |s| > 1 ==> s[0] == '1'
  {
    if n < 2 then [BitChar(n)] else ToBinary(n / 2) + [BitChar(n % 2)]
  }

  lemma {:induction false} BinValueToBinary(n: nat)
    ensures BinValue(ToBinary(n)) == n
  {
    if n >= 2 {
      BinValueToBinary(n / 2);
      var s := ToBinary(n);
      assert s[..|s| - 1] == ToBinary(n / 2);
    }
  }

  /** `add_binaries`: the sum of two binary texts as a binary text; `u128` addition must not overflow. */
  function AddBinaries(a: string, b: string): (r: string)
    requires FromStrRadix2(a).Some? && FromStrRadix2(b).Some?
    requires FromStrRadix2(a).value + FromStrRadix2(b).value < U128Limit
    ensures FromStrRadix2(r) == Some(FromStrRadix2(a).value + FromStrRadix2(b).value)
    ensures |r| > 1 ==> r[0] == '1'
  {
    var sum := FromStrRadix2(a).value + FromStrRadix2(b).value;
    BinValueToBinary(sum);
    ToBinary(sum)
  }

  /** `format!("{:02}", n)`: at least two digits, zero-padded. */
  function Pad2(n: nat): (s: string)
    ensures |s| >= 2 && AllDigits(s)
  {
    if n < 10 then "0" + NatToString(n) else NatToString(n)
  }

  /** Different numbers get different names. */
  lemma Pad2Injective(m: nat, n: nat)
    requires Pad2(m) == Pad2(n)
    ensures m == n
  {
    if m < 10 && n < 10 {
      assert NatToString(m) == Pad2(m)[1..] && NatToString(n) == Pad2(n)[1..];
      ParseNatToString(m);
      ParseNatToString(n);
    } else if m >= 10 && n >= 10 {
      ParseNatToString(m);
      ParseNatToString(n);
    }
  }

  /** The wire names `build_values` uses: a letter and a two-digit number. */
  function Name(c: char, n: nat): string
  {
    [c] + Pad2(n)
  }

  function XName(n: nat): string
  {
    Name('x', n)
  }

  function YName(n: nat): string
  {
    Name('y', n)
  }

  lemma NamesDiffer(c: char, d: char, m: nat, n: nat)
    requires c != d || m != n
    ensures Name(c, m) != Name(d, n)
  {
    if Name(c, m) == Name(d, n) {
      assert Name(c, m)[0] == c && Name(d, n)[0] == d;
      assert Pad2(m) == Name(c, m)[1..] && Pad2(n) == Name(d, n)[1..];
      Pad2Injective(m, n);
    }
  }

  /** Wires `c(lo+1)` to `c(hi)` carry the digits of `d`, wire `chi` the first. */
  ghost predicate Placed(hm: map<string, int>, c: char, d: string, lo: int, hi: int)
    requires -1 <= lo <= hi && hi - lo <= |d| && AllDigits(d)
  {
    forall n: nat :: lo < n <= hi ==> Name(c, n) in hm && hm[Name(c, n)] == DigitValue(d[hi - n])
  }

  /** The wires `c(lo+1)` to `c(hi)`. */
  function NameSet(c: char, lo: int, hi: int): set<string>
  {
    set n: nat | lo < n <= hi :: Name(c, n)
  }

  lemma PlacedStep(hm: map<string, int>, c: char, d: string, lo: nat, hi: int)
    requires lo <= hi && hi - lo < |d| && AllDigits(d) && Placed(hm, c, d, lo, hi)
    ensures Placed(hm[Name(c, lo) := DigitValue(d[hi - lo])], c, d, lo - 1, hi)
  {
    forall n: nat | lo < n <= hi ensures Name(c, n) != Name(c, lo) {
      NamesDiffer(c, c, n, lo);
    }
  }

  lemma PlacedOther(hm: map<string, int>, c: char, d: string, lo: int, hi: int, e: char, m: nat, v: int)
    requires -1 <= lo <= hi && hi - lo <= |d| && AllDigits(d) && Placed(hm, c, d, lo, hi) && e != c
    ensures Placed(hm[Name(e, m) := v], c, d, lo, hi)
  {
    forall n: nat | lo < n <= hi ensures Name(c, n) != Name(e, m) {
      NamesDiffer(c, e, n, m);
    }
  }

  lemma NameSetStep(c: char, lo: nat, hi: int)
    requires lo <= hi
    ensures NameSet(c, lo - 1, hi) == NameSet(c, lo, hi) + {Name(c, lo)}
  {
  }

  /**
    `build_values`: the digits of `a` and `b` on wires `xNN` and `yNN`, the last digit on
    wire 00. Both are numbered from `a`'s length, so `b` may not be longer (the index
    underflows), and every character must parse as a number.
   */
  method BuildValues(a: string, b: string) returns (hm: map<string, int>)
    requires |a| >= 1 && |b| <= |a| && AllDigits(a) && AllDigits(b)
    ensures Placed(hm, 'x', a, -1, |a| - 1) && Placed(hm, 'y', b, |a| - 1 - |b|, |a| - 1)
    ensures hm.Keys == NameSet('x', -1, |a| - 1) + NameSet('y', |a| - 1 - |b|, |a| - 1)
  {
    var xs := XWires(a);
    hm := YWires(xs, a, b);
  }

  /** The first loop of `build_values`. */
  method XWires(a: string) returns (hm: map<string, int>)
    requires |a| >= 1 && AllDigits(a)
    ensures Placed(hm, 'x', a, -1, |a| - 1) && hm.Keys == NameSet('x', -1, |a| - 1)
  {
    hm := map[];
    var l := |a| - 1;
    for i := 0 to |a|
      invariant Placed(hm, 'x', a, |a| - 1 - i, |a| - 1) && hm.Keys == NameSet('x', |a| - 1 - i, |a| - 1)
    {
      ghost var hm0 := hm;
      hm := hm[XName(l - i) := DigitValue(a[i])];
      XWiresStep(hm0, a, i, hm);
    }
  }

  /** One round of the first loop: the `i`-th digit of `a` goes on wire `x(|a| - 1 - i)`. */
  lemma XWiresStep(hm: map<string, int>, a: string, i: nat, hm': map<string, int>)
    requires AllDigits(a) && i < |a|
    requires Placed(hm, 'x', a, |a| - 1 - i, |a| - 1) && hm.Keys == NameSet('x', |a| - 1 - i, |a| - 1)
    requires hm' == hm[XName(|a| - 1 - i) := DigitValue(a[i])]
    ensures Placed(hm', 'x', a, |a| - 1 - (i + 1), |a| - 1) && hm'.Keys == NameSet('x', |a| - 1 - (i + 1), |a| - 1)
  {
    var l := |a| - 1;
    assert l - (l - i) == i;
    PlacedStep(hm, 'x', a, l - i, l);
    NameSetStep('x', l - i, l);
  }

  /** The second loop of `build_values`, adding the `y` wires. */
  method YWires(xs: map<string, int>, a: string, b: string) returns (hm: map<string, int>)
    requires |a| >= 1 && |b| <= |a| && AllDigits(a) && AllDigits(b)
    requires Placed(xs, 'x', a, -1, |a| - 1)
    ensures Placed(hm, 'x', a, -1, |a| - 1) && Placed(hm, 'y', b, |a| - 1 - |b|, |a| - 1)
    ensures hm.Keys == xs.Keys + NameSet('y', |a| - 1 - |b|, |a| - 1)
  {
    hm := xs;
    var l := |a| - 1;
    for i := 0 to |b|
      invariant Placed(hm, 'x', a, -1, l) && Placed(hm, 'y', b, l - i, l)
      invariant hm.Keys == xs.Keys + NameSet('y', l - i, l)
    {
      PlacedOther(hm, 'x', a, -1, l, 'y', l - i, DigitValue(b[i]));
      PlacedStep(hm, 'y', b, l - i, l);
      NameSetStep('y', l - i, l);
      hm := hm[YName(l - i) := DigitValue(b[i])];
    }
  }

  // ---- get_first_off ------------------------------------------------------------------

  /** `chars().nth(k.max(0))`. */
  function NthChar(s: string, k: int): Option<char>
  {
    var i := if k < 0 then 0 else k;
    if i < |s| then Some(s[i]) else None
  }

  /** A cast or a wrapping operation to `i16`: the value modulo 2^16, in `[-2^15, 2^15)`. */
  function AsI16(x: int): (r: int)
    ensures -0x8000 <= r < 0x8000 && (x - r) % 0x1_0000 == 0
    ensures -0x8000 <= x < 0x8000 ==> r == x
  {
    (x + 0x8000) % 0x1_0000 - 0x8000
  }

  /** Wrapping in the middle of a sum changes nothing modulo 2^16. */
  lemma AsI16Shift(x: int, k: int)
    ensures AsI16(x + 0x1_0000 * k) == AsI16(x)
    decreases if k < 0 then -k else k
  {
    if k > 0 {
      AsI16Shift(x, k - 1);
      assert x + 0x1_0000 * k == (x + 0x1_0000 * (k - 1)) + 0x1_0000;
    } else if k < 0 {
      AsI16Shift(x, k + 1);
      assert x + 0x1_0000 * k == (x + 0x1_0000 * (k + 1)) - 0x1_0000;
    }
  }

  /** `len as i16 - 1 - i as i16` with every step wrapping is the difference taken modulo 2^16. */
  lemma PlaceWraps(len: int, i: int)
    ensures AsI16(AsI16(AsI16(len) - 1) - AsI16(i)) == AsI16(len - 1 - i)
  {
    var a := AsI16(len);
    AsI16Shift(len - 1, -((len - a) / 0x1_0000));
    assert a - 1 == (len - 1) + 0x1_0000 * (-((len - a) / 0x1_0000));
    var b := AsI16(a - 1);
    assert b == AsI16(len - 1);
    var c := AsI16(i);
    AsI16Shift(b - i, (i - c) / 0x1_0000);
    assert b - c == (b - i) + 0x1_0000 * ((i - c) / 0x1_0000);
    AsI16Shift(len - 1 - i, -((len - 1 - b) / 0x1_0000));
    assert b - i == (len - 1 - i) + 0x1_0000 * (-((len - 1 - b) / 0x1_0000));
  }

  /** `len as i16 - 1 - i as i16`, every step wrapping. */
  function Place(len: int, i: int): (r: int)
    ensures r == AsI16(len - 1 - i)
  {
    PlaceWraps(len, i);
    AsI16(AsI16(AsI16(len) - 1) - AsI16(i))
  }

  /**
    The strings differ at place `i` counted from the right, with both places computed
    as `i16` (so wrapped) and clamped at 0 as the source does.
   */
  predicate DiffersAt(expected: string, solved: string, i: nat)
  {
    NthChar(expected, AsI16(|expected| - 1 - i)) != NthChar(solved, AsI16(|solved| - 1 - i))
  }

  /** The characters `i` places from the right end differ (the expected one clamped at its start). */
  predicate DiffersFromRight(expected: string, solved: string, i: nat)
  {
    NthChar(expected, |expected| - 1 - i) != NthChar(solved, |solved| - 1 - i)
  }

  /** On strings shorter than 2^15 nothing wraps: the places are the plain ones. */
  lemma ShortDiffers(expected: string, solved: string, i: nat)
    requires |expected| < 0x8000 && |solved| < 0x8000 && i < |solved|
    ensures DiffersAt(expected, solved, i) <==> DiffersFromRight(expected, solved, i)
  {
  }

  /** The answer of `get_first_off`, searching from place `i`. */
  function FirstOff(expected: string, solved: string, i: nat): (n: nat)
    requires i <= |solved|
    ensures i <= n <= |solved|
    decreases |solved| - i
  {
    if i == |solved| then |solved|
    else if DiffersAt(expected, solved, i) then i + 1
    else FirstOff(expected, solved, i + 1)
  }

  /**
    `FirstOff` is one more than the first place, from the right, where the strings
    differ; `|solved|` when they agree on all of `solved`'s places.
   */
  lemma {:induction false} FirstOffMeaning(expected: string, solved: string, i: nat)
    requires i <= |solved|
    ensures var n := FirstOff(expected, solved, i);
      (n < |solved| ==> n >= 1 && DiffersAt(expected, solved, n - 1)) &&
      (forall j :: i <= j < n - 1 ==> !DiffersAt(expected, solved, j)) &&
      (n == |solved| && |solved| >= 1 ==> DiffersAt(expected, solved, n - 1) || forall j :: i <= j < |solved| ==> !DiffersAt(expected, solved, j))
    decreases |solved| - i
  {
    if i < |solved| && !DiffersAt(expected, solved, i) {
      FirstOffMeaning(expected, solved, i + 1);
    }
  }

  /** A string compared with itself is off nowhere. */
  lemma {:induction false} FirstOffSame(s: string, i: nat)
    requires i <= |s|
    ensures FirstOff(s, s, i) == |s|
    decreases |s| - i
  {
    if i < |s| {
      FirstOffSame(s, i + 1);
    }
  }

  /**
    `get_first_off`. The places are computed as `i16`, wrapping on strings of 2^15
    characters or more.
   */
  method GetFirstOff(expected: string, solved: string) returns (r: Option<nat>)
    ensures r == Some(FirstOff(expected, solved, 0))
  {
    for i := 0 to |solved|
      invariant FirstOff(expected, solved, 0) == FirstOff(expected, solved, i)
    {
      var ep := Place(|expected|, i);
      var sp := Place(|solved|, i);
      var e := NthChar(expected, ep);
      var s := NthChar(solved, sp);
      if e != s {
        return Some(i + 1);
      }
    }
    return Some(|solved|);
  }

  // ---- part two -----------------------------------------------------------------------

  /** `is_direct`: a gate reading an `x` input wire. */
  predicate IsDirect(c: Connection)
  {
    StartsWith(c.left, "x") || StartsWith(c.right, "x")
  }

  /** `is_output`: a gate writing a `z` wire. */
  predicate IsOutput(c: Connection)
  {
    StartsWith(c.out, "z")
  }

  /** `iter().filter(p)`: the elements satisfying `p`, in order. */
  function Filter<T(!new)>(s: seq<T>, p: T -> bool): (r: seq<T>)
    ensures |r| <= |s|
    ensures forall x :: x in r <==> x in s && p(x)
  {
    if s == [] then []
    else
      var rest := Filter(s[..|s| - 1], p);
      assert forall x :: x in s <==> x in s[..|s| - 1] || x == s[|s| - 1];
      if p(s[|s| - 1]) then rest + [s[|s| - 1]] else rest
  }

  /** Every wire named by the gates. */
  function Wires(cs: seq<Connection>): set<string>
  {
    if cs == [] then {}
    else
      var g := cs[|cs| - 1];
      Wires(cs[..|cs| - 1]) + {g.left, g.right, g.out}
  }

  /**
    The two flag rules `part_two` applies to every gate: an XOR gate not reading `x`
    wires must write a `z` wire, and a gate writing a `z` wire must be an XOR (an OR
    for `z45`, the final carry).
   */
  ghost predicate FlagRules(cs: seq<Connection>, flags: set<string>)
  {
    (forall g :: g in cs && !IsDirect(g) && g.op == Xor && !IsOutput(g) ==> g.out in flags) &&
    (forall g :: g in cs && IsOutput(g) && (if g.out == "z45" then g.op != Or else g.op != Xor) ==> g.out in flags)
  }

  lemma {:induction false} InWires(cs: seq<Connection>, g: Connection)
    requires g in cs
    ensures g.left in Wires(cs) && g.right in Wires(cs) && g.out in Wires(cs)
  {
    if g != cs[|cs| - 1] {
      InWires(cs[..|cs| - 1], g);
    }
  }

  /** A `z` output of the wrong kind: `z45`, the final carry, must be an OR, the others XORs. */
  predicate WrongOutput(g: Connection)
  {
    if g.out == "z45" then g.op != Or else g.op != Xor
  }

  /** The wires the two flag rules name. */
  function RuledWires(cs: seq<Connection>): set<string>
  {
    (set g | g in cs && !IsDirect(g) && g.op == Xor && !IsOutput(g) :: g.out) +
    (set g | g in cs && IsOutput(g) && WrongOutput(g) :: g.out)
  }

  /** The ruled wires meet both rules and are wires of the circuit. */
  lemma RuledMeetRules(cs: seq<Connection>)
    ensures FlagRules(cs, RuledWires(cs)) && RuledWires(cs) <= Wires(cs)
  {
    forall w | w in RuledWires(cs) ensures w in Wires(cs) {
      var g :| g in cs && g.out == w;
      InWires(cs, g);
    }
  }

  /** The first two flag loops of `part_two`: exactly the wires the two rules name. */
  method RuleFlags(cs: seq<Connection>) returns (flags: set<string>)
    ensures flags == RuledWires(cs)
  {
    var fagate3s := Filter(cs, (c: Connection) => !IsDirect(c) && c.op == Xor);
    flags := FlagLooseSums(fagate3s);
    var outputGates := Filter(cs, (v: Connection) => IsOutput(v));
    flags := FlagWrongOutputs(outputGates, flags);
  }

  /** The first flag loop: the output of every listed gate that does not write a `z` wire. */
  method FlagLooseSums(gates: seq<Connection>) returns (flags: set<string>)
    ensures flags == set g | g in gates && !IsOutput(g) :: g.out
  {
    flags := {};
    for k := 0 to |gates|
      invariant flags == set g | g in gates[..k] && !IsOutput(g) :: g.out
    {
      var gate := gates[k];
      if !IsOutput(gate) {
        flags := flags + {gate.out};
      }
      assert gates[..k + 1] == gates[..k] + [gate];
    }
    assert gates[..|gates|] == gates;
  }

  /** The second flag loop: the output of every listed gate of the wrong kind is added. */
  method FlagWrongOutputs(gates: seq<Connection>, flags0: set<string>) returns (flags: set<string>)
    ensures flags == flags0 + set g | g in gates && WrongOutput(g) :: g.out
  {
    flags := flags0;
    for k := 0 to |gates|
      invariant flags == flags0 + set g | g in gates[..k] && WrongOutput(g) :: g.out
    {
      var gate := gates[k];
      if gate.out == "z45" {
        if gate.op != Or {
          flags := flags + {gate.out};
        }
      } else if gate.op != Xor {
        flags := flags + {gate.out};
      }
      assert gates[..k + 1] == gates[..k] + [gate];
    }
    assert gates[..|gates|] == gates;
  }

  /** Some non-direct XOR gate reads the wire. */
  predicate FeedsXor(cs: seq<Connection>, w: string)
  {
    exists v :: v in cs && !IsDirect(v) && v.op == Xor && (v.left == w || v.right == w)
  }

  /** A direct XOR gate other than the one writing `z00` whose output no non-direct XOR reads. */
  predicate UnusedSum(cs: seq<Connection>, g: Connection)
  {
    IsDirect(g) && g.op == Xor && g.out != "z00" && !FeedsXor(cs, g.out)
  }

  /** The outputs of the unused sums among `gs`. */
  function SumOuts(cs: seq<Connection>, gs: seq<Connection>): set<string>
  {
    set g | g in gs && UnusedSum(cs, g) :: g.out
  }

  lemma SumOutsSnoc(cs: seq<Connection>, gs: seq<Connection>, g: Connection)
    ensures SumOuts(cs, gs + [g]) == SumOuts(cs, gs) + (if UnusedSum(cs, g) then {g.out} else {})
  {
    assert forall h :: h in gs + [g] <==> h in gs || h == g;
  }

  /** The outputs of a list of gates. */
  function Outs(gs: seq<Connection>): set<string>
  {
    set g | g in gs :: g.out
  }

  lemma OutsSnoc(gs: seq<Connection>, g: Connection)
    ensures Outs(gs + [g]) == Outs(gs) + {g.out}
  {
    assert forall h :: h in gs + [g] <==> h in gs || h == g;
  }

  /**
    The gates the third loop passes on: unused sums, no output twice, and their outputs
    exactly the unused-sum outputs not flagged before.
   */
  ghost predicate KeptSums(cs: seq<Connection>, flags0: set<string>, kept: seq<Connection>)
  {
    (forall g :: g in kept ==> g in cs && UnusedSum(cs, g)) &&
    (forall i, j :: 0 <= i < j < |kept| ==> kept[i].out != kept[j].out) &&
    Outs(kept) == SumOuts(cs, cs) - flags0
  }

  /** One gate of the third loop: what it adds to the unused-sum outputs seen so far. */
  lemma UnusedStep(cs: seq<Connection>, gs: seq<Connection>, k: nat)
    requires k < |gs|
    ensures SumOuts(cs, gs[..k + 1]) == SumOuts(cs, gs[..k]) + (if UnusedSum(cs, gs[k]) then {gs[k].out} else {})
  {
    assert gs[..k + 1] == gs[..k] + [gs[k]];
    SumOutsSnoc(cs, gs[..k], gs[k]);
  }

  /**
    The third loop of `part_two`: the output of every unused sum is flagged, and the
    gates whose output this flags for the first time are kept for the fourth loop.
   */
  method UnusedSums(cs: seq<Connection>, flags0: set<string>) returns (flags: set<string>, checkNext: seq<Connection>)
    ensures flags == flags0 + SumOuts(cs, cs)
    ensures KeptSums(cs, flags0, checkNext)
  {
    flags := flags0;
    checkNext := [];
    var fagate0s := Filter(cs, (c: Connection) => IsDirect(c) && c.op == Xor);
    var fagate3s := Filter(cs, (c: Connection) => !IsDirect(c) && c.op == Xor);
    for k := 0 to |fagate0s|
      invariant flags == flags0 + SumOuts(cs, fagate0s[..k])
      invariant forall g :: g in checkNext ==> g in cs && UnusedSum(cs, g)
      invariant forall i, j :: 0 <= i < j < |checkNext| ==> checkNext[i].out != checkNext[j].out
      invariant Outs(checkNext) == flags - flags0
    {
      var gate := fagate0s[k];
      assert gate in fagate0s;
      UnusedStep(cs, fagate0s, k);
      flags, checkNext := KeepUnused(cs, fagate3s, flags0, gate, flags, checkNext);
    }
    assert fagate0s[..|fagate0s|] == fagate0s;
    assert SumOuts(cs, fagate0s) == SumOuts(cs, cs);
  }

  /** One gate of the third loop: skipped when flagged already or writing `z00`, else kept when no non-direct XOR reads it. */
  method KeepUnused(cs: seq<Connection>, fagate3s: seq<Connection>, ghost flags0: set<string>, gate: Connection,
                    flags: set<string>, checkNext: seq<Connection>)
    returns (flags': set<string>, checkNext': seq<Connection>)
    requires forall v :: v in fagate3s <==> v in cs && !IsDirect(v) && v.op == Xor
    requires gate in cs && IsDirect(gate) && gate.op == Xor
    requires forall g :: g in checkNext ==> g in cs && UnusedSum(cs, g)
    requires forall i, j :: 0 <= i < j < |checkNext| ==> checkNext[i].out != checkNext[j].out
    requires flags0 <= flags && Outs(checkNext) == flags - flags0
    ensures flags' == flags + (if UnusedSum(cs, gate) then {gate.out} else {})
    ensures forall g :: g in checkNext' ==> g in cs && UnusedSum(cs, g)
    ensures forall i, j :: 0 <= i < j < |checkNext'| ==> checkNext'[i].out != checkNext'[j].out
    ensures Outs(checkNext') == flags' - flags0
  {
    flags', checkNext' := flags, checkNext;
    if gate.out in flags || gate.out == "z00" {
      return;
    }
    var matches := Filter(fagate3s, (v: Connection) => v.left == gate.out || v.right == gate.out);
    assert |matches| == 0 <==> !FeedsXor(cs, gate.out) by {
      if |matches| != 0 {
        assert matches[0] in matches;
      }
    }
    if |matches| == 0 {
      OutsSnoc(checkNext, gate);
      assert forall i :: 0 <= i < |checkNext| ==> checkNext[i] in checkNext;
      checkNext' := checkNext + [gate];
      flags' := flags + {gate.out};
    }
  }

  /** The wire of the sum bit a gate reading `x..` should end in: `z` and the digits of its left input. */
  function ZWire(gate: Connection): string
  {
    "z" + (if gate.left == [] then [] else gate.left[1..])
  }

  /**
    What a successful carry check finds for a gate: `mm`, the only non-direct XOR
    writing its `z` wire; `o`, the only OR gate writing an input of `mm`; and `w`, the
    input of `mm` that `o` does not write.
   */
  ghost predicate CarryWitness(cs: seq<Connection>, gate: Connection, mm: Connection, o: Connection, w: string)
  {
    mm in cs && !IsDirect(mm) && mm.op == Xor && mm.out == ZWire(gate) &&
    (forall v :: v in cs && !IsDirect(v) && v.op == Xor && v.out == ZWire(gate) ==> v == mm) &&
    o in cs && o.op == Or && (o.out == mm.left || o.out == mm.right) &&
    (forall v :: v in cs && v.op == Or && (v.out == mm.left || v.out == mm.right) ==> v == o) &&
    (w == mm.left || w == mm.right) && w != o.out
  }

  /**
    One step of the fourth loop of `part_two`: the XOR writing the gate's `z` wire, the
    OR gate writing one of its inputs, and the other input, which is the wire flagged.
    `None` where the source's `assert!`s or its `panic!` fire.
   */
  function CarryCheck(cs: seq<Connection>, gate: Connection): (r: Option<string>)
  {
    var fagate3s := Filter(cs, (c: Connection) => !IsDirect(c) && c.op == Xor);
    var matches := Filter(fagate3s, (v: Connection) => v.out == ZWire(gate));
    if |matches| != 1 then None
    else
      var mm := matches[0];
      var orMatches := Filter(cs, (v: Connection) => v.op == Or && (mm.left == v.out || mm.right == v.out));
      if |orMatches| != 1 then None
      else
        var o := orMatches[0];
        if mm.left != o.out then Some(mm.left)
        else if mm.right != o.out then Some(mm.right)
        else None
  }

  /** A successful check flags an input of the unique `z`-writing XOR that the unique OR does not write. */
  lemma CarryCheckMeaning(cs: seq<Connection>, gate: Connection)
    requires CarryCheck(cs, gate).Some?
    ensures exists mm, o :: CarryWitness(cs, gate, mm, o, CarryCheck(cs, gate).value)
  {
    var fagate3s := Filter(cs, (c: Connection) => !IsDirect(c) && c.op == Xor);
    var matches := Filter(fagate3s, (v: Connection) => v.out == ZWire(gate));
    var mm := matches[0];
    assert mm in matches;
    assert forall v :: v in matches ==> v == mm;
    var orMatches := Filter(cs, (v: Connection) => v.op == Or && (mm.left == v.out || mm.right == v.out));
    var o := orMatches[0];
    assert o in orMatches;
    assert forall v :: v in orMatches ==> v == o;
    assert CarryWitness(cs, gate, mm, o, CarryCheck(cs, gate).value);
  }

  /** A wire a check flags is a wire of the circuit. */
  lemma CarryInWires(cs: seq<Connection>, gate: Connection)
    requires CarryCheck(cs, gate).Some?
    ensures CarryCheck(cs, gate).value in Wires(cs)
  {
    CarryCheckMeaning(cs, gate);
    var mm, o :| CarryWitness(cs, gate, mm, o, CarryCheck(cs, gate).value);
    InWires(cs, mm);
  }

  /** Whether the check of every kept gate succeeds. */
  predicate AllChecked(cs: seq<Connection>, kept: seq<Connection>)
    decreases |kept|
  {
    kept == [] || (AllChecked(cs, kept[..|kept| - 1]) && CarryCheck(cs, kept[|kept| - 1]).Some?)
  }

  lemma {:induction false} AllCheckedMeaning(cs: seq<Connection>, kept: seq<Connection>)
    ensures AllChecked(cs, kept) <==> forall g :: g in kept ==> CarryCheck(cs, g).Some?
    decreases |kept|
  {
    if kept != [] {
      var front := kept[..|kept| - 1];
      AllCheckedMeaning(cs, front);
      assert forall g :: g in kept <==> g in front || g == kept[|kept| - 1];
    }
  }

  /** The wires the checks of the kept gates flag. */
  function CarriedWires(cs: seq<Connection>, kept: seq<Connection>): set<string>
    requires AllChecked(cs, kept)
    decreases |kept|
  {
    if kept == [] then {}
    else CarriedWires(cs, kept[..|kept| - 1]) + {CarryCheck(cs, kept[|kept| - 1]).value}
  }

  /** A carried wire is what the check of some kept gate flags, and each such wire is carried. */
  lemma {:induction false} CarriedMeaning(cs: seq<Connection>, kept: seq<Connection>, w: string)
    requires AllChecked(cs, kept)
    ensures w in CarriedWires(cs, kept) <==> exists g :: g in kept && CarryCheck(cs, g) == Some(w)
    decreases |kept|
  {
    if kept != [] {
      var front := kept[..|kept| - 1];
      CarriedMeaning(cs, front, w);
      assert forall g :: g in kept <==> g in front || g == kept[|kept| - 1];
    }
  }

  /** One gate of the fourth loop, when its check succeeds. */
  lemma CarriedStep(cs: seq<Connection>, kept: seq<Connection>, k: nat)
    requires k < |kept| && AllChecked(cs, kept[..k]) && CarryCheck(cs, kept[k]).Some?
    ensures AllChecked(cs, kept[..k + 1])
    ensures CarriedWires(cs, kept[..k + 1]) == CarriedWires(cs, kept[..k]) + {CarryCheck(cs, kept[k]).value}
  {
    assert kept[..k + 1][..k] == kept[..k];
  }

  /** One gate of the fourth loop, when its check fails: not every check succeeds. */
  lemma CarryFails(cs: seq<Connection>, kept: seq<Connection>, k: nat)
    requires k < |kept| && CarryCheck(cs, kept[k]).None?
    ensures !AllChecked(cs, kept)
  {
    AllCheckedMeaning(cs, kept);
    assert kept[k] in kept;
  }

  /**
    The fourth loop of `part_two`: every kept gate checked in turn, each adding the wire
    its check flags. `None` exactly when one of the checks fails.
   */
  method CarryFlags(cs: seq<Connection>, flags0: set<string>, checkNext: seq<Connection>) returns (r: Option<set<string>>)
    ensures r.Some? <==> AllChecked(cs, checkNext)
    ensures r.Some? ==> AllChecked(cs, checkNext) && r.value == flags0 + CarriedWires(cs, checkNext)
  {
    var flags := flags0;
    for k := 0 to |checkNext|
      invariant AllChecked(cs, checkNext[..k])
      invariant flags == flags0 + CarriedWires(cs, checkNext[..k])
    {
      var gate := checkNext[k];
      var carried := CarryCheck(cs, gate);
      if carried.None? {
        CarryFails(cs, checkNext, k);
        return None;
      }
      CarriedStep(cs, checkNext, k);
      flags := flags + {carried.value};
    }
    assert checkNext[..|checkNext|] == checkNext;
    return Some(flags);
  }

  /** Every wire `part_two` can flag is a wire of the circuit. */
  lemma FlaggedInWires(cs: seq<Connection>, kept: seq<Connection>)
    requires AllChecked(cs, kept)
    ensures RuledWires(cs) + SumOuts(cs, cs) + CarriedWires(cs, kept) <= Wires(cs)
  {
    RuledMeetRules(cs);
    forall w | w in SumOuts(cs, cs) ensures w in Wires(cs) {
      var g :| g in cs && UnusedSum(cs, g) && g.out == w;
      InWires(cs, g);
    }
    forall w | w in CarriedWires(cs, kept) ensures w in Wires(cs) {
      CarriedMeaning(cs, kept, w);
      var g :| g in kept && CarryCheck(cs, g) == Some(w);
      CarryInWires(cs, g);
    }
  }

  /**
    The answers `part_two` can give for a circuit: eight wires, ascending and joined with
    commas, that are exactly the wires the two rules name, the outputs of the unused
    sums, and the wires the carry checks of some choice of kept gates flag, every check
    succeeding.
   */
  ghost predicate FlaggedAnswer(cs: seq<Connection>, answer: string)
  {
    exists fs: seq<string>, kept: seq<Connection> :: FlaggedBy(cs, fs, kept) && answer == Join(fs, ',')
  }

  /** `fs` lists, ascending, the eight wires flagged when the carry checks run on `kept`. */
  ghost predicate FlaggedBy(cs: seq<Connection>, fs: seq<string>, kept: seq<Connection>)
  {
    |fs| == 8 && (forall i, j :: 0 <= i < j < |fs| ==> StrLess(fs[i], fs[j])) &&
    KeptSums(cs, RuledWires(cs), kept) && AllChecked(cs, kept) &&
    (set f | f in fs) == RuledWires(cs) + SumOuts(cs, cs) + CarriedWires(cs, kept)
  }

  /**
    `part_two`: the flagged wires, which must be exactly eight, sorted and joined with
    commas. `None` where an assertion of the source fails.
   */
  method PartTwo(input: string) returns (r: Option<string>)
    requires Readable(input)
    ensures r.Some? ==> FlaggedAnswer(Gates(input), r.value)
  {
    var connections, _ := ParseInitial(input);
    var flags := RuleFlags(connections);
    var checkNext;
    flags, checkNext := UnusedSums(connections, flags);
    var carried := CarryFlags(connections, flags, checkNext);
    if carried.None? || |carried.value| != 8 {
      return None;
    }
    flags := carried.value;
    var vf := SortStrings(flags);
    r := Some(Join(vf, ','));
    PartTwoWitness(connections, checkNext, flags, vf);
  }

  /** The sorted flags witness `part_two`'s contract. */
  lemma PartTwoWitness(cs: seq<Connection>, kept: seq<Connection>, flags: set<string>, vf: seq<string>)
    requires KeptSums(cs, RuledWires(cs), kept) && AllChecked(cs, kept)
    requires flags == RuledWires(cs) + SumOuts(cs, cs) + CarriedWires(cs, kept) && |flags| == 8
    requires forall x :: x in vf <==> x in flags
    requires forall i, j :: 0 <= i < j < |vf| ==> StrLess(vf[i], vf[j])
    ensures FlaggedAnswer(cs, Join(vf, ','))
  {
    SortedSet(flags, vf);
    assert FlaggedBy(cs, vf, kept);
  }

  /**
    Every answer of `part_two` names wires of the circuit and includes every wire the
    two flag rules name.
   */
  lemma FlaggedMeetsRules(cs: seq<Connection>, answer: string)
    requires FlaggedAnswer(cs, answer)
    ensures exists fs: seq<string> ::
      (|fs| == 8 && answer == Join(fs, ',') && FlagRules(cs, set f | f in fs) && (forall f :: f in fs ==> f in Wires(cs)))
  {
    var fs: seq<string>, kept: seq<Connection> :| FlaggedBy(cs, fs, kept) && answer == Join(fs, ',');
    var all := set f | f in fs;
    assert all == RuledWires(cs) + SumOuts(cs, cs) + CarriedWires(cs, kept);
    RuledMeetRules(cs);
    FlagRulesGrow(cs, RuledWires(cs), all);
    FlaggedInWires(cs, kept);
    assert forall f :: f in fs ==> f in all;
    assert FlagRules(cs, all) && forall f :: f in fs ==> f in Wires(cs);
  }

  lemma FlagRulesGrow(cs: seq<Connection>, a: set<string>, b: set<string>)
    requires FlagRules(cs, a) && a <= b
    ensures FlagRules(cs, b)
  {
  }

  /** The ascending sequence of the strings of a set has one element per member. */
  lemma SortedSet(s: set<string>, vf: seq<string>)
    requires forall x :: x in vf <==> x in s
    requires forall i, j :: 0 <= i < j < |vf| ==> StrLess(vf[i], vf[j])
    ensures |vf| == |s| && (set f | f in vf) == s
  {
    Distinct(vf);
    assert multiset(vf) == multiset(s);
    assert (set f | f in vf) == s;
  }
}
