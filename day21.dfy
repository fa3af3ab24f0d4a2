/**
  Day 21 (src/bin/21.rs): a door code is typed on a numeric pad by a robot, which is
  steered from a directional pad by another robot, and so on up to the person. For each
  pair of consecutive keys the candidate move strings are the distinct orderings of the
  needed arrows that never cross the gap; the cost of a line at a depth is the least number
  of presses on the outermost pad, memoised by line and depth.

  `find_char` (its order of positions) and `extract_numbers` are not part of this model:
  the first position of a key is a `Finder`, and the numbers of a line are a parameter.
 */
module Day21 {
  import opened Wrappers
  import opened Grid
  import opened Text

  /** `u64::MAX`, the starting value of the running minimum. */
  const U64Max: nat := 0xFFFF_FFFF_FFFF_FFFF

  /** `find_char(c)[0]`: one position holding `c`, `None` where the lookup would panic. */
  type Finder = char -> Option<Coords>

  /** The finder names a cell holding the key it is asked for, whenever there is one. */
  predicate Finds(field: map<Coords, char>, first: Finder)
  {
    forall c ::
      (first(c).Some? <==> c in field.Values) &&
      (first(c).Some? ==> first(c).value in field && field[first(c).value] == c)
  }

  function Abs(v: int): nat
  {
    if v < 0 then -v else v
  }

  // ---- moves on a pad ---------------------------------------------------------------------

  predicate IsArrow(ch: char)
  {
    ch == '>' || ch == '<' || ch == '^' || ch == 'v'
  }

  /** Every character of `s` is `a` or `b`. */
  predicate OnlyOf(s: string, a: char, b: char)
  {
    forall i :: 0 <= i < |s| ==> s[i] == a || s[i] == b
  }

  function Count(s: string, c: char): nat
  {
    if s == [] then 0 else (if s[0] == c then 1 else 0) + Count(s[1..], c)
  }

  /** `move_direction` by one: `>` and `v` grow the column and the line. */
  function Move(p: Coords, ch: char): Coords
    requires IsArrow(ch)
  {
    match ch
    case '>' => Coords(p.x + 1, p.y)
    case '<' => Coords(p.x - 1, p.y)
    case '^' => Coords(p.x, p.y - 1)
    case _ => Coords(p.x, p.y + 1)
  }

  /** The filter of `find_possible_presses`: each cell the path steps on is a key, not the gap. */
  predicate OnPad(field: map<Coords, char>, p: Coords, path: string)
    decreases |path|
  {
    path == [] ||
    (IsArrow(path[0]) &&
     var q := Move(p, path[0]);
     q in field && field[q] != 'X' && OnPad(field, q, path[1..]))
  }

  predicate Arrows(s: string)
  {
    forall i :: 0 <= i < |s| ==> IsArrow(s[i])
  }

  /** Where a path of arrows leads from `p`. */
  function End(p: Coords, path: string): Coords
    requires Arrows(path)
    decreases |path|
  {
    if path == [] then p else End(Move(p, path[0]), path[1..])
  }

  /** The horizontal arrow towards `to`: `>` exactly when `to` lies to the right. */
  function XChar(from: Coords, to: Coords): char
  {
    if to.x - from.x > 0 then '>' else '<'
  }

  /** The vertical arrow towards `to`: `v` exactly when `to` lies below. */
  function YChar(from: Coords, to: Coords): char
  {
    if to.y - from.y > 0 then 'v' else '^'
  }

  // ---- permutations().unique() --------------------------------------------------------

  function Prepend(c: char, ss: seq<string>): (r: seq<string>)
    ensures |r| == |ss| && forall i :: 0 <= i < |ss| ==> r[i] == [c] + ss[i]
  {
    seq(|ss|, i requires 0 <= i < |ss| => [c] + ss[i])
  }

  /**
    The distinct orderings of `na` copies of `a` and `nb` copies of `b`: what the source's
    `permutations` of the arrow string followed by `unique` yields. The iterator's order is
    not modelled.
   */
  function Arrangements(a: char, na: nat, b: char, nb: nat): seq<string>
    decreases na + nb, 1
  {
    if na == 0 && nb == 0 then [""] else Lefts(a, na, b, nb) + Rights(a, na, b, nb)
  }

  /** The arrangements that start with `a`. */
  function Lefts(a: char, na: nat, b: char, nb: nat): seq<string>
    decreases na + nb, 0
  {
    if na == 0 then [] else Prepend(a, Arrangements(a, na - 1, b, nb))
  }

  /** The arrangements that start with `b`. */
  function Rights(a: char, na: nat, b: char, nb: nat): seq<string>
    decreases na + nb, 0
  {
    if nb == 0 then [] else Prepend(b, Arrangements(a, na, b, nb - 1))
  }

  /** `s` uses only `a` and `b`, `na` and `nb` times. */
  predicate Made(s: string, a: char, na: nat, b: char, nb: nat)
  {
    OnlyOf(s, a, b) && Count(s, a) == na && Count(s, b) == nb
  }

  /** Every string of `ss` uses `a` and `b` in those numbers. */
  predicate AllMade(ss: seq<string>, a: char, na: nat, b: char, nb: nat)
  {
    forall i :: 0 <= i < |ss| ==> Made(ss[i], a, na, b, nb)
  }

  /** Consing one letter onto a string of letters `a` and `b`. */
  lemma ConsAll(c: char, t: string, a: char, b: char)
    requires c == a || c == b
    requires OnlyOf(t, a, b)
    ensures OnlyOf([c] + t, a, b)
    ensures Count([c] + t, a) == (if c == a then 1 else 0) + Count(t, a)
    ensures Count([c] + t, b) == (if c == b then 1 else 0) + Count(t, b)
  {
    assert ([c] + t)[1..] == t;
  }

  /** The tail of a string of letters `a` and `b`. */
  lemma TailAll(s: string, a: char, b: char)
    requires s != [] && OnlyOf(s, a, b)
    ensures OnlyOf(s[1..], a, b) && s == [s[0]] + s[1..]
  {
    var t := s[1..];
    forall i | 0 <= i < |t| ensures t[i] == a || t[i] == b {
      assert t[i] == s[i + 1];
    }
  }

  lemma AppendMade(x: seq<string>, y: seq<string>, a: char, na: nat, b: char, nb: nat)
    requires AllMade(x, a, na, b, nb) && AllMade(y, a, na, b, nb)
    ensures AllMade(x + y, a, na, b, nb)
  {
    var r := x + y;
    forall i | 0 <= i < |r| ensures Made(r[i], a, na, b, nb) {
      if i < |x| {
        assert r[i] == x[i];
      } else {
        assert r[i] == y[i - |x|];
      }
    }
  }

  /** Every arrangement uses those letters in those numbers. */
  lemma {:induction false} ArrangementsSound(a: char, na: nat, b: char, nb: nat)
    requires a != b
    ensures AllMade(Arrangements(a, na, b, nb), a, na, b, nb)
    decreases na + nb, 1
  {
    if na == 0 && nb == 0 {
      assert Made("", a, na, b, nb);
    } else {
      LeftsSound(a, na, b, nb);
      RightsSound(a, na, b, nb);
      AppendMade(Lefts(a, na, b, nb), Rights(a, na, b, nb), a, na, b, nb);
    }
  }

  lemma {:induction false} LeftsSound(a: char, na: nat, b: char, nb: nat)
    requires a != b
    ensures AllMade(Lefts(a, na, b, nb), a, na, b, nb)
    decreases na + nb, 0
  {
    if na > 0 {
      var ss := Arrangements(a, na - 1, b, nb);
      ArrangementsSound(a, na - 1, b, nb);
      var r := Lefts(a, na, b, nb);
      forall i | 0 <= i < |r| ensures Made(r[i], a, na, b, nb) {
        assert r[i] == [a] + ss[i];
        ConsAll(a, ss[i], a, b);
      }
    }
  }

  lemma {:induction false} RightsSound(a: char, na: nat, b: char, nb: nat)
    requires a != b
    ensures AllMade(Rights(a, na, b, nb), a, na, b, nb)
    decreases na + nb, 0
  {
    if nb > 0 {
      var ss := Arrangements(a, na, b, nb - 1);
      ArrangementsSound(a, na, b, nb - 1);
      var r := Rights(a, na, b, nb);
      forall i | 0 <= i < |r| ensures Made(r[i], a, na, b, nb) {
        assert r[i] == [b] + ss[i];
        ConsAll(b, ss[i], a, b);
      }
    }
  }

  /** Every string of those letters in those numbers is an arrangement, at index `j`. */
  lemma {:induction false} ArrangementsComplete(a: char, na: nat, b: char, nb: nat, s: string)
    returns (j: nat)
    requires a != b && Made(s, a, na, b, nb)
    ensures j < |Arrangements(a, na, b, nb)| && Arrangements(a, na, b, nb)[j] == s
    decreases na + nb
  {
    if s == [] {
      assert na == 0 && nb == 0;
      j := 0;
    } else {
      var t := s[1..];
      TailAll(s, a, b);
      ConsAll(s[0], t, a, b);
      var left := Lefts(a, na, b, nb);
      assert Arrangements(a, na, b, nb) == left + Rights(a, na, b, nb);
      if s[0] == a {
        var i := ArrangementsComplete(a, na - 1, b, nb, t);
        assert left[i] == s;
        j := i;
      } else {
        var i := ArrangementsComplete(a, na, b, nb - 1, t);
        assert Rights(a, na, b, nb)[i] == s;
        j := |left| + i;
      }
    }
  }

  predicate Distinct(ss: seq<string>)
  {
    forall i, j :: 0 <= i < j < |ss| ==> ss[i] != ss[j]
  }

  lemma PrependDistinct(c: char, ss: seq<string>)
    requires Distinct(ss)
    ensures Distinct(Prepend(c, ss))
  {
    var r := Prepend(c, ss);
    forall i, j | 0 <= i < j < |r| ensures r[i] != r[j] {
      assert r[i][1..] == ss[i] && r[j][1..] == ss[j];
    }
  }

  /** Every string of `ss` starts with `c`. */
  predicate AllStart(ss: seq<string>, c: char)
  {
    forall i :: 0 <= i < |ss| ==> |ss[i]| >= 1 && ss[i][0] == c
  }

  lemma DistinctAppend(x: seq<string>, y: seq<string>, a: char, b: char)
    requires a != b && Distinct(x) && Distinct(y) && AllStart(x, a) && AllStart(y, b)
    ensures Distinct(x + y)
  {
    var r := x + y;
    forall i, j | 0 <= i < j < |r| ensures r[i] != r[j] {
      if i < |x| <= j {
        assert r[i] == x[i] && r[j] == y[j - |x|];
      } else if j < |x| {
        assert r[i] == x[i] && r[j] == x[j];
      } else {
        assert r[i] == y[i - |x|] && r[j] == y[j - |x|];
      }
    }
  }

  /** No ordering is listed twice, as `unique` promises. */
  lemma {:induction false} ArrangementsDistinct(a: char, na: nat, b: char, nb: nat)
    requires a != b
    ensures Distinct(Arrangements(a, na, b, nb))
    decreases na + nb, 1
  {
    if !(na == 0 && nb == 0) {
      LeftsDistinct(a, na, b, nb);
      RightsDistinct(a, na, b, nb);
      DistinctAppend(Lefts(a, na, b, nb), Rights(a, na, b, nb), a, b);
    }
  }

  lemma {:induction false} LeftsDistinct(a: char, na: nat, b: char, nb: nat)
    requires a != b
    ensures Distinct(Lefts(a, na, b, nb)) && AllStart(Lefts(a, na, b, nb), a)
    decreases na + nb, 0
  {
    if na > 0 {
      ArrangementsDistinct(a, na - 1, b, nb);
      PrependDistinct(a, Arrangements(a, na - 1, b, nb));
    }
  }

  lemma {:induction false} RightsDistinct(a: char, na: nat, b: char, nb: nat)
    requires a != b
    ensures Distinct(Rights(a, na, b, nb)) && AllStart(Rights(a, na, b, nb), b)
    decreases na + nb, 0
  {
    if nb > 0 {
      ArrangementsDistinct(a, na, b, nb - 1);
      PrependDistinct(b, Arrangements(a, na, b, nb - 1));
    }
  }

  // ---- find_possible_presses ----------------------------------------------------------

  /** The strings of `ss` that stay on the pad from `from`, in order. */
  function Keep(field: map<Coords, char>, from: Coords, ss: seq<string>): (r: seq<string>)
  {
    if ss == [] then []
    else
      Keep(field, from, ss[..|ss| - 1]) +
      (if OnPad(field, from, ss[|ss| - 1]) then [ss[|ss| - 1]] else [])
  }

  /** `push('A')` on every candidate when `add_a` is set. */
  function WithA(ss: seq<string>, addA: bool): (r: seq<string>)
  {
    if addA then seq(|ss|, i requires 0 <= i < |ss| => ss[i] + "A") else ss
  }

  /** `find_possible_presses` between two located keys. */
  function Presses(field: map<Coords, char>, from: Coords, to: Coords, addA: bool): seq<string>
  {
    var arr := Arrangements(XChar(from, to), Abs(to.x - from.x), YChar(from, to), Abs(to.y - from.y));
    WithA(Keep(field, from, arr), addA)
  }

  /** `find_possible_presses` on key characters: `None` where `find_char(..)[0]` panics. */
  function Candidates(field: map<Coords, char>, first: Finder, fromChar: char, toChar: char, addA: bool)
    : Option<seq<string>>
  {
    if first(fromChar).None? || first(toChar).None? then None
    else Some(Presses(field, first(fromChar).value, first(toChar).value, addA))
  }

  /** The moves of a candidate, without the `A` that `add_a` appends. */
  function Core(s: string, addA: bool): string
  {
    if addA && |s| >= 1 then s[..|s| - 1] else s
  }

  /**
    What a candidate is: `|dx|` arrows towards the target column and `|dy|` towards the
    target line in some order, never stepping off the pad or onto the gap, and followed by
    `A` exactly when `add_a` is set.
   */
  predicate Candidate(field: map<Coords, char>, from: Coords, to: Coords, addA: bool, s: string)
  {
    (addA ==> |s| >= 1 && s[|s| - 1] == 'A') &&
    Made(Core(s, addA), XChar(from, to), Abs(to.x - from.x), YChar(from, to), Abs(to.y - from.y)) &&
    OnPad(field, from, Core(s, addA))
  }

  lemma {:induction false} KeepExactly(field: map<Coords, char>, from: Coords, ss: seq<string>, s: string)
    ensures s in Keep(field, from, ss) <==> s in ss && OnPad(field, from, s)
  {
    if ss != [] {
      var front := ss[..|ss| - 1];
      KeepExactly(field, from, front, s);
      assert ss == front + [ss[|ss| - 1]];
    }
  }

  lemma {:induction false} KeepDistinct(field: map<Coords, char>, from: Coords, ss: seq<string>)
    requires Distinct(ss)
    ensures Distinct(Keep(field, from, ss))
  {
    if ss != [] {
      var front := ss[..|ss| - 1];
      var last := ss[|ss| - 1];
      KeepDistinct(field, from, front);
      assert Distinct(front);
      if OnPad(field, from, last) {
        var k := Keep(field, from, front);
        KeepExactly(field, from, front, last);
        assert last !in front;
        var r := k + [last];
        forall i, j | 0 <= i < j < |r| ensures r[i] != r[j] {
          if j == |k| {
            assert r[i] in k;
          }
        }
      }
    }
  }

  /** Every candidate is what `Candidate` describes. */
  lemma PressesSound(field: map<Coords, char>, from: Coords, to: Coords, addA: bool, s: string)
    requires s in Presses(field, from, to, addA)
    ensures Candidate(field, from, to, addA, s)
  {
    var arr := Arrangements(XChar(from, to), Abs(to.x - from.x), YChar(from, to), Abs(to.y - from.y));
    var kept := Keep(field, from, arr);
    var j :| 0 <= j < |WithA(kept, addA)| && WithA(kept, addA)[j] == s;
    assert Core(s, addA) == kept[j];
    KeepExactly(field, from, arr, kept[j]);
    var i :| 0 <= i < |arr| && arr[i] == kept[j];
    ArrangementsSound(XChar(from, to), Abs(to.x - from.x), YChar(from, to), Abs(to.y - from.y));
  }

  /** Every string `Candidate` describes is a candidate. */
  lemma PressesComplete(field: map<Coords, char>, from: Coords, to: Coords, addA: bool, s: string)
    requires Candidate(field, from, to, addA, s)
    ensures s in Presses(field, from, to, addA)
  {
    var arr := Arrangements(XChar(from, to), Abs(to.x - from.x), YChar(from, to), Abs(to.y - from.y));
    var kept := Keep(field, from, arr);
    var core := Core(s, addA);
    var i := ArrangementsComplete(XChar(from, to), Abs(to.x - from.x), YChar(from, to), Abs(to.y - from.y), core);
    KeepExactly(field, from, arr, core);
    var j :| 0 <= j < |kept| && kept[j] == core;
    if addA {
      assert s == core + "A";
    }
    assert WithA(kept, addA)[j] == s;
  }

  /** No candidate is listed twice. */
  lemma PressesDistinct(field: map<Coords, char>, from: Coords, to: Coords, addA: bool)
    ensures Distinct(Presses(field, from, to, addA))
  {
    var arr := Arrangements(XChar(from, to), Abs(to.x - from.x), YChar(from, to), Abs(to.y - from.y));
    ArrangementsDistinct(XChar(from, to), Abs(to.x - from.x), YChar(from, to), Abs(to.y - from.y));
    KeepDistinct(field, from, arr);
    var kept := Keep(field, from, arr);
    var r := WithA(kept, addA);
    forall i, j | 0 <= i < j < |r| ensures r[i] != r[j] {
      if addA {
        assert r[i][..|r[i]| - 1] == kept[i] && r[j][..|r[j]| - 1] == kept[j];
      }
    }
  }

  /** The moves of a candidate lead from `from` to `to`. */
  lemma CandidateEnds(field: map<Coords, char>, from: Coords, to: Coords, addA: bool, s: string)
    requires Candidate(field, from, to, addA, s)
    ensures End(from, Core(s, addA)) == to
  {
    var core := Core(s, addA);
    EndOffset(from, core, XChar(from, to), YChar(from, to));
  }

  /** A path of one horizontal and one vertical arrow moves by their counts. */
  lemma {:induction false} EndOffset(p: Coords, path: string, xc: char, yc: char)
    requires xc == '>' || xc == '<'
    requires yc == 'v' || yc == '^'
    requires OnlyOf(path, xc, yc)
    ensures Arrows(path)
    ensures End(p, path).x == if xc == '>' then p.x + Count(path, xc) else p.x - Count(path, xc)
    ensures End(p, path).y == if yc == 'v' then p.y + Count(path, yc) else p.y - Count(path, yc)
    decreases |path|
  {
    if path != [] {
      var t := path[1..];
      TailAll(path, xc, yc);
      ConsAll(path[0], t, xc, yc);
      EndOffset(Move(p, path[0]), t, xc, yc);
    }
  }

  /** `find_possible_presses` walks a candidate cell by cell and stops at the first bad one. */
  method StaysOnPad(field: map<Coords, char>, from: Coords, v: string) returns (ok: bool)
    requires Arrows(v)
    ensures ok == OnPad(field, from, v)
  {
    var current := from;
    var i := 0;
    while i < |v|
      invariant 0 <= i <= |v|
      invariant OnPad(field, from, v) == OnPad(field, current, v[i..])
    {
      assert v[i..][0] == v[i] && v[i..][1..] == v[i + 1..];
      current := Move(current, v[i]);
      if current !in field || field[current] == 'X' {
        return false;
      }
      i := i + 1;
    }
    return true;
  }

  lemma OnlyArrows(s: string, xc: char, yc: char)
    requires IsArrow(xc) && IsArrow(yc) && OnlyOf(s, xc, yc)
    ensures Arrows(s)
  {
  }

  /** The `filter` of `find_possible_presses`: the arrangements that stay on the pad. */
  method KeepOnPad(field: map<Coords, char>, from: Coords, arr: seq<string>) returns (perms: seq<string>)
    requires forall k :: 0 <= k < |arr| ==> Arrows(arr[k])
    ensures perms == Keep(field, from, arr)
  {
    perms := [];
    var k := 0;
    while k < |arr|
      invariant 0 <= k <= |arr|
      invariant perms == Keep(field, from, arr[..k])
    {
      var ok := StaysOnPad(field, from, arr[k]);
      assert arr[..k + 1][..k] == arr[..k];
      if ok {
        perms := perms + [arr[k]];
      }
      k := k + 1;
    }
    assert arr[..|arr|] == arr;
  }

  /** `push('A')` on every candidate in place. */
  method PushA(plain: seq<string>) returns (perms: seq<string>)
    ensures perms == WithA(plain, true)
  {
    perms := plain;
    var i := 0;
    while i < |perms|
      invariant 0 <= i <= |perms| && |perms| == |plain|
      invariant forall j :: 0 <= j < |perms| ==> perms[j] == if j < i then plain[j] + "A" else plain[j]
    {
      perms := perms[i := perms[i] + ['A']];
      i := i + 1;
    }
  }

  /** `find_possible_presses`: the candidate move strings from one key to another. */
  method FindPossiblePresses(fromChar: char, toChar: char, field: map<Coords, char>, first: Finder, addA: bool)
    returns (r: Option<seq<string>>)
    ensures r == Candidates(field, first, fromChar, toChar, addA)
  {
    var f := first(fromChar);
    var t := first(toChar);
    if f.None? || t.None? {
      return None;
    }
    var from, to := f.value, t.value;
    var xc, yc := XChar(from, to), YChar(from, to);
    var arr := Arrangements(xc, Abs(to.x - from.x), yc, Abs(to.y - from.y));
    ArrangementsSound(xc, Abs(to.x - from.x), yc, Abs(to.y - from.y));
    forall k | 0 <= k < |arr| ensures Arrows(arr[k]) {
      OnlyArrows(arr[k], xc, yc);
    }
    var perms := KeepOnPad(field, from, arr);
    if addA {
      perms := PushA(perms);
    }
    r := Some(perms);
  }

  // ---- find_possible_presses_line -----------------------------------------------------

  /** The key the arm rests on before typing `line[i]`: `A` first, then the previous key. */
  function Prev(line: string, i: nat): char
    requires i < |line|
  {
    if i == 0 then 'A' else line[i - 1]
  }

  /** The candidates for typing key `i` of the line. */
  function KeyCandidates(line: string, field: map<Coords, char>, first: Finder, i: nat): Option<seq<string>>
    requires i < |line|
  {
    Candidates(field, first, Prev(line, i), line[i], true)
  }

  /** The candidate lists of the first `n` keys of the line, or `None` if a lookup panics. */
  function ListsUpTo(line: string, field: map<Coords, char>, first: Finder, n: nat): Option<seq<seq<string>>>
    requires n <= |line|
  {
    if n == 0 then Some([])
    else
      match ListsUpTo(line, field, first, n - 1)
      case None => None
      case Some(ls) =>
        match KeyCandidates(line, field, first, n - 1)
        case None => None
        case Some(c) => Some(ls + [c])
  }

  /** Every list paired with one choice from each of the lists. */
  function Cons(x: string, rest: seq<seq<string>>): (r: seq<seq<string>>)
    ensures |r| == |rest| && forall i :: 0 <= i < |rest| ==> r[i] == [x] + rest[i]
  {
    seq(|rest|, i requires 0 <= i < |rest| => [x] + rest[i])
  }

  function Joined(xs: seq<string>, rest: seq<seq<string>>): seq<seq<string>>
  {
    if xs == [] then [] else Cons(xs[0], rest) + Joined(xs[1..], rest)
  }

  /** `multi_cartesian_product`: one choice from each list, in every combination. */
  function Product(lists: seq<seq<string>>): seq<seq<string>>
  {
    if lists == [] then [[]] else Joined(lists[0], Product(lists[1..]))
  }

  /** A combination picks, position by position, a member of the matching list. */
  predicate Picks(combo: seq<string>, lists: seq<seq<string>>)
  {
    |combo| == |lists| && forall i :: 0 <= i < |lists| ==> combo[i] in lists[i]
  }

  lemma {:induction false} JoinedExactly(xs: seq<string>, rest: seq<seq<string>>, c: seq<string>)
    ensures c in Joined(xs, rest) <==> |c| >= 1 && c[0] in xs && c[1..] in rest
  {
    if xs != [] {
      JoinedExactly(xs[1..], rest, c);
      var cs := Cons(xs[0], rest);
      assert Joined(xs, rest) == cs + Joined(xs[1..], rest);
      if c in cs {
        var i :| 0 <= i < |cs| && cs[i] == c;
        assert c[1..] == rest[i];
      }
      if |c| >= 1 && c[0] == xs[0] && c[1..] in rest {
        var i :| 0 <= i < |rest| && rest[i] == c[1..];
        assert cs[i] == c;
      }
      if |c| >= 1 {
        assert c[0] in xs <==> c[0] == xs[0] || c[0] in xs[1..];
      }
    }
  }

  /** The product holds exactly the combinations that pick one member of each list. */
  lemma {:induction false} ProductExactly(lists: seq<seq<string>>, c: seq<string>)
    ensures c in Product(lists) <==> Picks(c, lists)
  {
    if lists != [] {
      JoinedExactly(lists[0], Product(lists[1..]), c);
      if |c| >= 1 {
        ProductExactly(lists[1..], c[1..]);
        if Picks(c, lists) {
          assert Picks(c[1..], lists[1..]) by {
            forall i | 0 <= i < |lists[1..]| ensures c[1..][i] in lists[1..][i] {
              assert c[1..][i] == c[i + 1];
            }
          }
        }
        if Picks(c[1..], lists[1..]) && c[0] in lists[0] {
          forall i | 0 <= i < |lists| ensures c[i] in lists[i] {
            if i > 0 {
              assert c[i] == c[1..][i - 1];
            }
          }
        }
      }
    } else {
      assert c in [[]] <==> c == [];
    }
  }

  /** When the lists exist, list `i` is the candidates for key `i`. */
  lemma {:induction false} ListsSome(line: string, field: map<Coords, char>, first: Finder, n: nat)
    requires n <= |line| && ListsUpTo(line, field, first, n).Some?
    ensures var ls := ListsUpTo(line, field, first, n).value;
      |ls| == n && forall i :: 0 <= i < n ==> KeyCandidates(line, field, first, i) == Some(ls[i])
  {
    if n > 0 {
      var front := ListsUpTo(line, field, first, n - 1);
      assert front.Some?;
      ListsSome(line, field, first, n - 1);
      var ls := ListsUpTo(line, field, first, n).value;
      assert ls[..n - 1] == front.value;
      forall i | 0 <= i < n ensures KeyCandidates(line, field, first, i) == Some(ls[i]) {
        if i < n - 1 {
          assert ls[i] == front.value[i];
        }
      }
    }
  }

  /** A key with no candidates makes the whole line fail. */
  lemma {:induction false} ListsFail(line: string, field: map<Coords, char>, first: Finder, n: nat, i: nat)
    requires i < n <= |line| && KeyCandidates(line, field, first, i).None?
    ensures ListsUpTo(line, field, first, n).None?
  {
    if i < n - 1 {
      ListsFail(line, field, first, n - 1, i);
    }
  }

  /** A failing line has a key with no candidates. */
  lemma {:induction false} ListsWitness(line: string, field: map<Coords, char>, first: Finder, n: nat)
    returns (i: nat)
    requires n <= |line| && ListsUpTo(line, field, first, n).None?
    ensures i < n && KeyCandidates(line, field, first, i).None?
  {
    if ListsUpTo(line, field, first, n - 1).None? {
      i := ListsWitness(line, field, first, n - 1);
    } else {
      i := n - 1;
    }
  }

  /** `find_possible_presses_line`: every way of typing the line, one candidate per key. */
  function LineOptions(line: string, field: map<Coords, char>, first: Finder): Option<seq<seq<string>>>
  {
    match ListsUpTo(line, field, first, |line|)
    case None => None
    case Some(ls) => Some(Product(ls))
  }

  /** `find_possible_presses_line`, computed key by key. */
  method FindPossiblePressesLine(line: string, field: map<Coords, char>, first: Finder)
    returns (r: Option<seq<seq<string>>>)
    ensures r == LineOptions(line, field, first)
  {
    var lists: seq<seq<string>> := [];
    var i := 0;
    while i < |line|
      invariant 0 <= i <= |line|
      invariant ListsUpTo(line, field, first, i) == Some(lists)
    {
      var prev := if i == 0 then 'A' else line[i - 1];
      var c := FindPossiblePresses(prev, line[i], field, first, true);
      if c.None? {
        ListsFail(line, field, first, |line|, i);
        return None;
      }
      lists := lists + [c.value];
      i := i + 1;
    }
    r := Some(Product(lists));
  }

  // ---- find_line_shortest -------------------------------------------------------------

  /** The two pads with their lookups; the numeric one serves the starting depth. */
  datatype Pads = Pads(num: map<Coords, char>, numFirst: Finder, robot: map<Coords, char>, robotFirst: Finder)

  /** `join("")`. */
  function Concat(ss: seq<string>): string
  {
    if ss == [] then "" else Concat(ss[..|ss| - 1]) + ss[|ss| - 1]
  }

  function PadAt(pads: Pads, d: nat, ds: nat): map<Coords, char>
  {
    if d == ds then pads.num else pads.robot
  }

  function FirstAt(pads: Pads, d: nat, ds: nat): Finder
  {
    if d == ds then pads.numFirst else pads.robotFirst
  }

  /**
    What `find_line_shortest` computes for `line` with `d` robots left out of `ds`: the
    least cost over the ways of typing the line, starting from `u64::MAX`; `None` where the
    source panics (a key without a position, or a cost of zero).
   */
  function Shortest(line: string, d: nat, ds: nat, pads: Pads): Option<nat>
    decreases d, 3, 0
  {
    match LineOptions(line, PadAt(pads, d, ds), FirstAt(pads, d, ds))
    case None => None
    case Some(poss) => MinOver(poss, |poss|, d, ds, pads)
  }

  /** The running minimum over the first `n` ways. */
  function MinOver(poss: seq<seq<string>>, n: nat, d: nat, ds: nat, pads: Pads): Option<nat>
    requires n <= |poss|
    decreases d, 2, n
  {
    if n == 0 then Some(U64Max)
    else
      match MinOver(poss, n - 1, d, ds, pads)
      case None => None
      case Some(m) =>
        match Cost(poss[n - 1], d, ds, pads)
        case None => None
        case Some(ll) => if ll == 0 then None else Some(if ll < m then ll else m)
  }

  /** The cost of one way: its length at the last robot, else the sum of its parts one level up. */
  function Cost(itm: seq<string>, d: nat, ds: nat, pads: Pads): Option<nat>
    decreases d, 1, 0
  {
    if d <= 1 then Some(|Concat(itm)|) else SumOf(itm, |itm|, d - 1, ds, pads)
  }

  /** The sum of the shortest costs of the first `n` parts at depth `k`. */
  function SumOf(itm: seq<string>, n: nat, k: nat, ds: nat, pads: Pads): Option<nat>
    requires n <= |itm|
    decreases k + 1, 0, n
  {
    if n == 0 then Some(0)
    else
      match SumOf(itm, n - 1, k, ds, pads)
      case None => None
      case Some(acc) =>
        match Shortest(itm[n - 1], k, ds, pads)
        case None => None
        case Some(v) => Some(acc + v)
  }

  /** A minimum exists exactly when every way has a positive cost. */
  lemma {:induction false} MinOverSome(poss: seq<seq<string>>, n: nat, d: nat, ds: nat, pads: Pads)
    requires n <= |poss| && MinOver(poss, n, d, ds, pads).Some?
    ensures var m := MinOver(poss, n, d, ds, pads).value;
      0 < m <= U64Max &&
      forall i :: 0 <= i < n ==> Cost(poss[i], d, ds, pads).Some? && 0 < Cost(poss[i], d, ds, pads).value && m <= Cost(poss[i], d, ds, pads).value
  {
    if n > 0 {
      MinOverSome(poss, n - 1, d, ds, pads);
    }
  }

  /** A way whose cost fails or is zero makes the minimum fail. */
  lemma {:induction false} MinOverFails(poss: seq<seq<string>>, n: nat, d: nat, ds: nat, pads: Pads, i: nat)
    requires i < n <= |poss|
    requires Cost(poss[i], d, ds, pads).None? || Cost(poss[i], d, ds, pads) == Some(0)
    ensures MinOver(poss, n, d, ds, pads).None?
  {
    if i < n - 1 {
      MinOverFails(poss, n - 1, d, ds, pads, i);
    }
  }

  /** The minimum is `u64::MAX` or the cost of some way. */
  lemma {:induction false} MinOverAttained(poss: seq<seq<string>>, n: nat, d: nat, ds: nat, pads: Pads)
    returns (i: nat)
    requires n <= |poss| && MinOver(poss, n, d, ds, pads).Some?
    requires MinOver(poss, n, d, ds, pads).value < U64Max
    ensures i < n && Cost(poss[i], d, ds, pads) == MinOver(poss, n, d, ds, pads)
  {
    var m := MinOver(poss, n, d, ds, pads).value;
    var prev := MinOver(poss, n - 1, d, ds, pads);
    if Cost(poss[n - 1], d, ds, pads) == Some(m) {
      i := n - 1;
    } else {
      assert prev == Some(m);
      i := MinOverAttained(poss, n - 1, d, ds, pads);
    }
  }

  /** The sum fails as soon as one part fails. */
  lemma {:induction false} SumOfFails(itm: seq<string>, n: nat, m: nat, k: nat, ds: nat, pads: Pads)
    requires n <= m <= |itm| && SumOf(itm, n, k, ds, pads).None?
    ensures SumOf(itm, m, k, ds, pads).None?
    decreases m - n
  {
    if n < m {
      SumOfFails(itm, n + 1, m, k, ds, pads);
    }
  }

  /** The minimum fails for good once it has failed. */
  lemma {:induction false} MinOverStaysNone(poss: seq<seq<string>>, n: nat, m: nat, d: nat, ds: nat, pads: Pads)
    requires n <= m <= |poss| && MinOver(poss, n, d, ds, pads).None?
    ensures MinOver(poss, m, d, ds, pads).None?
    decreases m - n
  {
    if n < m {
      MinOverStaysNone(poss, n + 1, m, d, ds, pads);
    }
  }

  lemma SumStep(itm: seq<string>, i: nat, k: nat, ds: nat, pads: Pads, acc: nat, v: nat)
    requires i < |itm| && SumOf(itm, i, k, ds, pads) == Some(acc)
    requires Shortest(itm[i], k, ds, pads) == Some(v)
    ensures SumOf(itm, i + 1, k, ds, pads) == Some(acc + v)
  {
  }

  lemma MinStep(ps: seq<seq<string>>, k: nat, d: nat, ds: nat, pads: Pads, min: nat, ll: nat)
    requires k < |ps| && MinOver(ps, k, d, ds, pads) == Some(min)
    requires Cost(ps[k], d, ds, pads) == Some(ll) && ll != 0
    ensures MinOver(ps, k + 1, d, ds, pads) == Some(if ll < min then ll else min)
  {
  }

  lemma ShortestIsMin(line: string, d: nat, ds: nat, pads: Pads, ps: seq<seq<string>>, min: nat)
    requires LineOptions(line, PadAt(pads, d, ds), FirstAt(pads, d, ds)) == Some(ps)
    requires MinOver(ps, |ps|, d, ds, pads) == Some(min)
    ensures Shortest(line, d, ds, pads) == Some(min)
  {
  }

  /** Every cached entry is the shortest cost of its line at its depth. */
  ghost predicate CacheExact(cache: map<(string, nat), nat>, ds: nat, pads: Pads)
  {
    forall key :: key in cache ==> Shortest(key.0, key.1, ds, pads) == Some(cache[key])
  }

  lemma CacheAdd(cache: map<(string, nat), nat>, line: string, d: nat, ds: nat, pads: Pads, v: nat)
    requires CacheExact(cache, ds, pads) && Shortest(line, d, ds, pads) == Some(v)
    ensures CacheExact(cache[(line, d) := v], ds, pads)
  {
  }

  /**
    `find_line_shortest`: a cached entry is answered as it is; otherwise the minimum over
    the ways of typing the line is computed and cached.
   */
  method FindLineShortest(line: string, d: nat, ds: nat, pads: Pads, cache: map<(string, nat), nat>)
    returns (r: Option<nat>, cache': map<(string, nat), nat>)
    requires CacheExact(cache, ds, pads)
    ensures (line, d) in cache ==> r == Some(cache[(line, d)]) && cache' == cache
    ensures r == Shortest(line, d, ds, pads)
    ensures r.Some? ==> CacheExact(cache', ds, pads) && (line, d) in cache'
    decreases d, 2
  {
    if (line, d) in cache {
      return Some(cache[(line, d)]), cache;
    }
    var field := if d == ds then pads.num else pads.robot;
    var first := if d == ds then pads.numFirst else pads.robotFirst;
    var poss := FindPossiblePressesLine(line, field, first);
    if poss.None? {
      return None, cache;
    }
    var ps := poss.value;
    var min: nat := U64Max;
    cache' := cache;
    var k := 0;
    while k < |ps|
      invariant 0 <= k <= |ps|
      invariant CacheExact(cache', ds, pads)
      invariant MinOver(ps, k, d, ds, pads) == Some(min)
    {
      var ll: nat;
      if d <= 1 {
        ll := |Concat(ps[k])|;
        assert Cost(ps[k], d, ds, pads) == Some(ll);
      } else {
        var sum: Option<nat>;
        sum, cache' := SumShortest(ps[k], d - 1, ds, pads, cache');
        if sum.None? {
          MinOverFails(ps, |ps|, d, ds, pads, k);
          return None, cache';
        }
        ll := sum.value;
        assert Cost(ps[k], d, ds, pads) == Some(ll);
      }
      if ll == 0 {
        MinOverFails(ps, |ps|, d, ds, pads, k);
        return None, cache';
      }
      MinStep(ps, k, d, ds, pads, min, ll);
      if ll < min {
        min := ll;
      }
      k := k + 1;
    }
    ShortestIsMin(line, d, ds, pads, ps, min);
    CacheAdd(cache', line, d, ds, pads, min);
    cache' := cache'[(line, d) := min];
    r := Some(min);
  }

  /** The `sum` of the shortest costs of the parts of one way, one robot up. */
  method SumShortest(itm: seq<string>, k: nat, ds: nat, pads: Pads, cache: map<(string, nat), nat>)
    returns (r: Option<nat>, cache': map<(string, nat), nat>)
    requires CacheExact(cache, ds, pads)
    ensures r == SumOf(itm, |itm|, k, ds, pads)
    ensures r.Some? ==> CacheExact(cache', ds, pads)
    decreases k + 1, 1
  {
    cache' := cache;
    var acc: nat := 0;
    var i := 0;
    while i < |itm|
      invariant 0 <= i <= |itm|
      invariant CacheExact(cache', ds, pads)
      invariant SumOf(itm, i, k, ds, pads) == Some(acc)
    {
      var next: Option<nat>;
      next, cache' := AddPart(itm, i, k, ds, pads, acc, cache');
      if next.None? {
        SumOfFails(itm, i + 1, |itm|, k, ds, pads);
        return None, cache';
      }
      acc := next.value;
      i := i + 1;
    }
    r := Some(acc);
  }

  /** One step of the `sum`: the running total with part `i` added. */
  method AddPart(itm: seq<string>, i: nat, k: nat, ds: nat, pads: Pads, acc: nat, cache: map<(string, nat), nat>)
    returns (r: Option<nat>, cache': map<(string, nat), nat>)
    requires i < |itm| && CacheExact(cache, ds, pads) && SumOf(itm, i, k, ds, pads) == Some(acc)
    ensures r == SumOf(itm, i + 1, k, ds, pads)
    ensures r.Some? ==> CacheExact(cache', ds, pads)
    decreases k + 1, 0
  {
    var v: Option<nat>;
    v, cache' := FindLineShortest(itm[i], k, ds, pads, cache);
    if v.None? {
      return None, cache';
    }
    SumStep(itm, i, k, ds, pads, acc, v.value);
    r := Some(acc + v.value);
  }

  // ---- the pads ----------------------------------------------------------------------

  /** The position of each key on the numeric pad (column, line). */
  function NumericKey(c: char): Option<Coords>
  {
    match c
    case '7' => Some(Coords(0, 0))
    case '8' => Some(Coords(1, 0))
    case '9' => Some(Coords(2, 0))
    case '4' => Some(Coords(0, 1))
    case '5' => Some(Coords(1, 1))
    case '6' => Some(Coords(2, 1))
    case '1' => Some(Coords(0, 2))
    case '2' => Some(Coords(1, 2))
    case '3' => Some(Coords(2, 2))
    case 'X' => Some(Coords(0, 3))
    case '0' => Some(Coords(1, 3))
    case 'A' => Some(Coords(2, 3))
    case _ => None
  }

  /** The position of each key on the directional pad (column, line). */
  function RobotKey(c: char): Option<Coords>
  {
    match c
    case 'X' => Some(Coords(0, 0))
    case '^' => Some(Coords(1, 0))
    case 'A' => Some(Coords(2, 0))
    case '<' => Some(Coords(0, 1))
    case 'v' => Some(Coords(1, 1))
    case '>' => Some(Coords(2, 1))
    case _ => None
  }

  /** The lines of `NUMERIC_MAP`, the numeric pad; `X` marks the gap. */
  const NumericRows: seq<string> := ["789", "456", "123", "X0A"]

  /** The lines of `ROBOT_MAP`, the directional pad; `X` marks the gap. */
  const RobotRows: seq<string> := ["X^A", "<v>"]

  /** `new_from_map` on the numeric layout: each key at its (column, line) position. */
  function NumericPad(): map<Coords, char>
  {
    GridMap(NumericRows)
  }

  /** `new_from_map` on the directional layout. */
  function RobotPad(): map<Coords, char>
  {
    GridMap(RobotRows)
  }

  /** The pads of `part_one` and `part_two`, with each key looked up at its one position. */
  function KeyPads(): Pads
  {
    Pads(NumericPad(), NumericKey, RobotPad(), RobotKey)
  }

  /** Each key of the numeric pad sits at the position `NumericKey` gives, so the lookup is unique. */
  lemma NumericKeysUnique()
    ensures forall p :: p in NumericPad() ==> NumericKey(NumericPad()[p]) == Some(p)
  {
    var m := NumericPad();
    forall p | p in m ensures NumericKey(m[p]) == Some(p) {
      assert CellAt(NumericRows, p) == Some(m[p]);
    }
  }

  /** `NumericKey` is a lookup of the numeric pad. */
  lemma NumericKeysFound()
    ensures Finds(NumericPad(), NumericKey)
  {
    var m := NumericPad();
    NumericKeysUnique();
    forall c ensures (NumericKey(c).Some? <==> c in m.Values) &&
      (NumericKey(c).Some? ==> NumericKey(c).value in m && m[NumericKey(c).value] == c)
    {
      if NumericKey(c).Some? {
        var p := NumericKey(c).value;
        assert CellAt(NumericRows, p).Some?;
      }
    }
  }

  /** Each key of the directional pad sits at the position `RobotKey` gives. */
  lemma RobotKeysUnique()
    ensures forall p :: p in RobotPad() ==> RobotKey(RobotPad()[p]) == Some(p)
  {
    var m := RobotPad();
    forall p | p in m ensures RobotKey(m[p]) == Some(p) {
      assert CellAt(RobotRows, p) == Some(m[p]);
    }
  }

  /** `RobotKey` is a lookup of the directional pad. */
  lemma RobotKeysFound()
    ensures Finds(RobotPad(), RobotKey)
  {
    var m := RobotPad();
    RobotKeysUnique();
    forall c ensures (RobotKey(c).Some? <==> c in m.Values) &&
      (RobotKey(c).Some? ==> RobotKey(c).value in m && m[RobotKey(c).value] == c)
    {
      if RobotKey(c).Some? {
        var p := RobotKey(c).value;
        assert CellAt(RobotRows, p).Some?;
      }
    }
  }

  // ---- part_one and part_two ----------------------------------------------------------

  /** `as u64`: the two's-complement reading of a number modulo 2^64. */
  function AsU64(n: int): (r: nat)
    ensures r < 0x1_0000_0000_0000_0000
    ensures 0 <= n < 0x1_0000_0000_0000_0000 ==> r == n
  {
    n % 0x1_0000_0000_0000_0000
  }

  function Times(a: nat, b: nat): nat
  {
    a * b
  }

  /** A line's complexity: its shortest cost times its first number; `None` where the source panics. */
  function LineComplexity(line: string, depth: nat, pads: Pads, extract: string -> seq<int>): Option<nat>
  {
    match Shortest(line, depth, depth, pads)
    case None => None
    case Some(v) =>
      var ns := extract(line);
      if ns == [] then None else Some(Times(v, AsU64(ns[0])))
  }

  /** The sum of the complexities of the lines. */
  function Complexity(ls: seq<string>, depth: nat, pads: Pads, extract: string -> seq<int>): Option<nat>
  {
    if ls == [] then Some(0)
    else
      match Complexity(ls[..|ls| - 1], depth, pads, extract)
      case None => None
      case Some(acc) =>
        match LineComplexity(ls[|ls| - 1], depth, pads, extract)
        case None => None
        case Some(c) => Some(acc + c)
  }

  /** The sum fails as soon as one line fails. */
  lemma {:induction false} ComplexityFails(ls: seq<string>, n: nat, depth: nat, pads: Pads, extract: string -> seq<int>)
    requires n < |ls| && LineComplexity(ls[n], depth, pads, extract).None?
    ensures Complexity(ls, depth, pads, extract).None?
  {
    var front := ls[..|ls| - 1];
    if n < |ls| - 1 {
      assert front[n] == ls[n];
      ComplexityFails(front, n, depth, pads, extract);
    }
  }

  /** Line `i` has complexity `cs[i]`, for every line. */
  predicate LinesCost(ls: seq<string>, depth: nat, pads: Pads, extract: string -> seq<int>, cs: seq<nat>)
  {
    |cs| == |ls| && forall i :: 0 <= i < |ls| ==> LineComplexity(ls[i], depth, pads, extract) == Some(cs[i])
  }

  lemma LinesCostFront(ls: seq<string>, depth: nat, pads: Pads, extract: string -> seq<int>, cs: seq<nat>)
    requires ls != [] && LinesCost(ls, depth, pads, extract, cs)
    ensures LinesCost(ls[..|ls| - 1], depth, pads, extract, cs[..|cs| - 1])
    ensures LineComplexity(ls[|ls| - 1], depth, pads, extract) == Some(cs[|cs| - 1])
  {
  }

  /** When no line fails, the sum adds up every line's complexity. */
  lemma {:induction false} ComplexitySum(ls: seq<string>, depth: nat, pads: Pads, extract: string -> seq<int>, cs: seq<nat>)
    requires LinesCost(ls, depth, pads, extract, cs)
    ensures Complexity(ls, depth, pads, extract) == Some(Total(cs))
  {
    if ls != [] {
      LinesCostFront(ls, depth, pads, extract, cs);
      ComplexitySum(ls[..|ls| - 1], depth, pads, extract, cs[..|cs| - 1]);
    }
  }

  function Total(cs: seq<nat>): nat
  {
    if cs == [] then 0 else Total(cs[..|cs| - 1]) + cs[|cs| - 1]
  }

  lemma ComplexityStep(ls: seq<string>, i: nat, depth: nat, pads: Pads, extract: string -> seq<int>, total: nat, c: nat)
    requires i < |ls| && Complexity(ls[..i], depth, pads, extract) == Some(total)
    requires LineComplexity(ls[i], depth, pads, extract) == Some(c)
    ensures Complexity(ls[..i + 1], depth, pads, extract) == Some(total + c)
  {
    assert ls[..i + 1][..i] == ls[..i];
  }

  /** The shared body of `part_one` and `part_two`, with `depth` robots; one cache serves every line. */
  method Solve(input: string, depth: nat, pads: Pads, extract: string -> seq<int>) returns (r: Option<nat>)
    ensures r == Complexity(Lines(input), depth, pads, extract)
  {
    var ls := Lines(input);
    var cache: map<(string, nat), nat> := map[];
    var total: nat := 0;
    var i := 0;
    while i < |ls|
      invariant 0 <= i <= |ls|
      invariant CacheExact(cache, depth, pads)
      invariant Complexity(ls[..i], depth, pads, extract) == Some(total)
    {
      var shortest: Option<nat>;
      shortest, cache := FindLineShortest(ls[i], depth, depth, pads, cache);
      if shortest.None? {
        ComplexityFails(ls, i, depth, pads, extract);
        return None;
      }
      var ns := extract(ls[i]);
      if ns == [] {
        ComplexityFails(ls, i, depth, pads, extract);
        return None;
      }
      ComplexityStep(ls, i, depth, pads, extract, total, Times(shortest.value, AsU64(ns[0])));
      total := total + Times(shortest.value, AsU64(ns[0]));
      i := i + 1;
    }
    assert ls[..|ls|] == ls;
    r := Some(total);
  }

  /** `part_one`: three robots, the first at the numeric pad. */
  method PartOne(input: string, extract: string -> seq<int>) returns (r: Option<nat>)
    ensures r == Complexity(Lines(input), 3, KeyPads(), extract)
  {
    r := Solve(input, 3, KeyPads(), extract);
  }

  /** `part_two`: twenty-six robots. */
  method PartTwo(input: string, extract: string -> seq<int>) returns (r: Option<nat>)
    ensures r == Complexity(Lines(input), 26, KeyPads(), extract)
  {
    r := Solve(input, 26, KeyPads(), extract);
  }
}
