/**
  Day 18: bytes fall onto a square memory grid. Part one places the first 1024 of them
  and asks for the shortest walk from the top-left to the bottom-right corner; part two
  bisects the list for the first byte after which no walk is left.

  `extract_numbers` and `shortest_steps` are not part of this model: they are parameters.
  `extract` gives the numbers of a line in order; `steps(m, from, to, free)` is the length
  of a shortest walk over the positions whose cell satisfies `free`, or `None`.
 */
module Day18 {
  import opened Wrappers
  import opened Text
  import opened Grid

  /** The largest coordinate of the grid, both ways. */
  const MaxCoord: int := 70

  /** How many bytes part one places. */
  const PartOneBytes: nat := 1024

  type Steps = (map<Coords, char>, Coords, Coords, Option<char> -> bool) -> Option<nat>

  /** The passability test of both parts: nothing was set at the position. */
  predicate Free(cell: Option<char>)
  {
    cell == None
  }

  /** The byte position of a line; `None` where the line has fewer than two numbers, so that `c[1]` panics. */
  function PointOf(extract: string -> seq<int>, line: string): Option<Coords>
  {
    var c := extract(line);
    if |c| < 2 then None else Some(Coords(c[0], c[1]))
  }

  /** The cells after the bytes of `ls` have fallen, in order: `None` where one of them panics. */
  function Layout(extract: string -> seq<int>, ls: seq<string>): Option<map<Coords, char>>
  {
    if ls == [] then Some(map[])
    else
      match Layout(extract, ls[..|ls| - 1])
      case None => None
      case Some(m) =>
        match PointOf(extract, ls[|ls| - 1])
        case None => None
        case Some(p) => Some(m[p := '#'])
  }

  /** Every line of `ls` holds a position. */
  predicate Parses(extract: string -> seq<int>, ls: seq<string>)
  {
    forall i :: 0 <= i < |ls| ==> PointOf(extract, ls[i]).Some?
  }

  lemma ParsesPrefix(extract: string -> seq<int>, ls: seq<string>, n: nat)
    requires n <= |ls|
    ensures Parses(extract, ls) ==> Parses(extract, ls[..n])
  {
    assert forall i :: 0 <= i < n ==> ls[..n][i] == ls[i];
  }

  /** Placing the bytes marks exactly their positions, each with `#`, and fails only on a line without a position. */
  lemma {:induction false} LayoutMeaning(extract: string -> seq<int>, ls: seq<string>)
    ensures Layout(extract, ls).Some? <==> Parses(extract, ls)
    ensures Layout(extract, ls).Some? ==> var m := Layout(extract, ls).value;
      (forall k :: k in m <==> exists i :: 0 <= i < |ls| && PointOf(extract, ls[i]) == Some(k)) &&
      (forall k :: k in m ==> m[k] == '#')
  {
    if ls != [] {
      var front := ls[..|ls| - 1];
      LayoutMeaning(extract, front);
      assert forall i :: 0 <= i < |front| ==> front[i] == ls[i];
      if Layout(extract, ls).Some? {
        var m := Layout(extract, ls).value;
        forall k ensures k in m <==> exists i :: 0 <= i < |ls| && PointOf(extract, ls[i]) == Some(k) {
          if k in m && k != PointOf(extract, ls[|ls| - 1]).value {
            var i :| 0 <= i < |front| && PointOf(extract, front[i]) == Some(k);
            assert PointOf(extract, ls[i]) == Some(k);
          }
        }
      }
    }
  }

  /**
    The placement loop of both parts: sets `#` at the position of each of the first `n`
    lines; `None` where a line has too few numbers.
   */
  method Place(extract: string -> seq<int>, lines: seq<string>, n: nat) returns (r: Option<CoordMap>)
    ensures var k := if n < |lines| then n else |lines|;
      match r
      case None => Layout(extract, lines[..k]).None?
      case Some(map0) => fresh(map0) && Layout(extract, lines[..k]) == Some(map0.cells)
  {
    var map0 := new CoordMap.Empty();
    var i := 0;
    while i < |lines|
      invariant 0 <= i <= |lines| && i <= n
      invariant Layout(extract, lines[..i]) == Some(map0.cells)
      invariant fresh(map0)
    {
      if i >= n {
        break;
      }
      var c := extract(lines[i]);
      if |c| < 2 {
        ghost var k := if n < |lines| then n else |lines|;
        assert lines[..k][i] == lines[i];
        LayoutMeaning(extract, lines[..k]);
        return None;
      }
      map0.Set(Coords(c[0], c[1]), '#');
      assert lines[..i + 1][..i] == lines[..i];
      i := i + 1;
    }
    assert i == if n < |lines| then n else |lines|;
    r := Some(map0);
  }

  /**
    `part_one`: the shortest walk once the first 1024 bytes have fallen. The outer `None`
    is a panic on a line with too few numbers.
   */
  method PartOne(input: string, extract: string -> seq<int>, steps: Steps) returns (r: Option<Option<nat>>)
    ensures var ls := Lines(input);
      var k := if PartOneBytes < |ls| then PartOneBytes else |ls|;
      match Layout(extract, ls[..k])
      case None => r.None?
      case Some(m) => r == Some(steps(m, Coords(0, 0), Coords(MaxCoord, MaxCoord), Free))
  {
    var map0 := Place(extract, Lines(input), PartOneBytes);
    if map0.None? {
      return None;
    }
    r := Some(steps(map0.value.cells, Coords(0, 0), Coords(MaxCoord, MaxCoord), Free));
  }

  /** A walk is left once the first `k` bytes have fallen. */
  predicate Passable(extract: string -> seq<int>, steps: Steps, lines: seq<string>, k: nat)
  {
    k <= |lines| &&
    match Layout(extract, lines[..k])
    case None => false
    case Some(m) => steps(m, Coords(0, 0), Coords(MaxCoord, MaxCoord), Free).Some?
  }

  /** No walk is left once the first `k` bytes have fallen. */
  predicate Cut(extract: string -> seq<int>, steps: Steps, lines: seq<string>, k: nat)
  {
    k <= |lines| &&
    match Layout(extract, lines[..k])
    case None => false
    case Some(m) => steps(m, Coords(0, 0), Coords(MaxCoord, MaxCoord), Free).None?
  }

  /**
    Where the bisection of `part_two` may stop: the first `k` bytes leave a walk (or `k`
    is 0) and the first `k + 1` cut it (or they are the whole list).
   */
  predicate Bisected(extract: string -> seq<int>, steps: Steps, lines: seq<string>, k: nat)
  {
    k < |lines| &&
    (k == 0 || Passable(extract, steps, lines, k)) &&
    (k + 1 == |lines| || Cut(extract, steps, lines, k + 1))
  }

  /**
    `part_two`: the line of the byte at which the bisection stops. The range's lower end
    always leaves a walk (or is 0) and one past the answer always cuts it (or is the end of
    the list). `None` where `lines[range.0]` is out of bounds on an empty input, or a line
    has too few numbers.
   */
  method PartTwo(input: string, extract: string -> seq<int>, steps: Steps) returns (r: Option<string>)
    ensures r.Some? ==> exists k: nat :: Bisected(extract, steps, Lines(input), k) && r.value == Lines(input)[k]
    ensures Parses(extract, Lines(input)) && |Lines(input)| > 0 ==> r.Some?
  {
    var lines := Lines(input);
    var ll := |lines|;
    var lo, hi := 0, ll;
    while hi - lo > 1
      invariant 0 <= lo <= hi <= ll && (ll > 0 ==> lo < hi)
      invariant lo == 0 || Passable(extract, steps, lines, lo)
      invariant hi == ll || Cut(extract, steps, lines, hi)
      decreases hi - lo
    {
      var mid := (hi - lo) / 2;
      var map0 := Place(extract, lines, lo + mid);
      if map0.None? {
        LayoutMeaning(extract, lines[..lo + mid]);
        ParsesPrefix(extract, lines, lo + mid);
        return None;
      }
      var v := steps(map0.value.cells, Coords(0, 0), Coords(MaxCoord, MaxCoord), Free);
      if v.None? {
        lo, hi := lo, mid + lo;
      } else {
        lo, hi := mid + lo, hi;
      }
    }
    if lo >= ll {
      return None;
    }
    r := Some(lines[lo]);
    assert Bisected(extract, steps, lines, lo);
  }

  /** Once a walk is cut off, more bytes never open one again. */
  predicate Monotone(extract: string -> seq<int>, steps: Steps, lines: seq<string>)
  {
    forall a: nat, b: nat :: a <= b <= |lines| && Cut(extract, steps, lines, a) ==> Cut(extract, steps, lines, b)
  }

  /** With every line holding a position, each prefix either leaves a walk or cuts it. */
  lemma PassableOrCut(extract: string -> seq<int>, steps: Steps, lines: seq<string>, j: nat)
    requires Parses(extract, lines) && j <= |lines|
    ensures Passable(extract, steps, lines, j) != Cut(extract, steps, lines, j)
  {
    ParsesPrefix(extract, lines, j);
    LayoutMeaning(extract, lines[..j]);
  }

  /**
    When cutting is monotone, the empty grid has a walk and the whole list cuts it, the
    bisection's answer is the first byte that cuts the walk off: every shorter prefix
    leaves a walk, every longer one cuts it.
   */
  lemma BisectedIsFirstCut(extract: string -> seq<int>, steps: Steps, lines: seq<string>, k: nat)
    requires Bisected(extract, steps, lines, k) && Parses(extract, lines) && Monotone(extract, steps, lines)
    requires Passable(extract, steps, lines, 0) && Cut(extract, steps, lines, |lines|)
    ensures forall j: nat :: j <= k ==> Passable(extract, steps, lines, j)
    ensures forall j: nat :: k < j <= |lines| ==> Cut(extract, steps, lines, j)
  {
    forall j: nat | j <= k ensures Passable(extract, steps, lines, j) {
      PassableOrCut(extract, steps, lines, j);
      PassableOrCut(extract, steps, lines, k);
    }
  }
}
