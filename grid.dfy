/**
  The shared grid helpers: integer coordinates, the inclusive-range wrap, reading a text
  as a grid of characters, and the coordinate-to-character map `CoordMap`.
 */
module Grid {
  import opened Wrappers
  import opened Text

  /** A grid position: column `x`, row `y`. */
  datatype Coords = Coords(x: int, y: int)

  /**
    `wrap_number`: brings `number` into the inclusive range `[min, max]` by steps of the
    range's width. The source panics unless `min < max`.
   */
  function WrapNumber(number: int, min: int, max: int): (r: int)
    requires min < max
    ensures min <= r <= max
    ensures (r - number) % (max - min + 1) == 0
    ensures min <= number <= max ==> r == number
  {
    var range := max - min + 1;
    if number < min then
      var d := min - number - 1;
      DivModUnique(max - (d % range) - number, range, d / range + 1, 0);
      max - (d % range)
    else if number > max then
      var d := number - max - 1;
      DivModUnique(min + (d % range) - number, range, -(d / range) - 1, 0);
      min + (d % range)
    else
      DivModUnique(0, range, 0, 0);
      number
  }

  /** The wrap agrees with the ordinary (Euclidean) remainder taken from `min`. */
  lemma WrapNumberIsModulo(number: int, min: int, max: int)
    requires min < max
    ensures WrapNumber(number, min, max) == min + (number - min) % (max - min + 1)
  {
    var r := WrapNumber(number, min, max);
    var range := max - min + 1;
    var k := (r - number) / range;
    assert r - number == range * k + (r - number) % range;
    DivModUnique(number - min, range, -k, r - min);
  }

  /** Wrapping first and adding an offset afterwards wraps to the same place as adding first. */
  lemma WrapNumberAdd(number: int, d: int, min: int, max: int)
    requires min < max
    ensures WrapNumber(WrapNumber(number, min, max) + d, min, max) == WrapNumber(number + d, min, max)
  {
    var w := WrapNumber(number, min, max);
    WrapNumberIsModulo(number, min, max);
    WrapNumberIsModulo(w + d, min, max);
    WrapNumberIsModulo(number + d, min, max);
    ModAdd(number - min, d, max - min + 1);
    assert w + d - min == (number - min) % (max - min + 1) + d;
  }

  /** Reducing before adding does not change the remainder. */
  lemma ModAdd(a: int, d: int, m: int)
    requires m > 0
    ensures (a % m + d) % m == (a + d) % m
  {
    var q := a / m;
    var t := a % m + d;
    var k := t / m;
    var r := t % m;
    assert a == m * q + a % m;
    assert t == m * k + r;
    assert m * q + m * k == m * (q + k);
    assert a + d == m * (q + k) + r;
    DivModUnique(a + d, m, q + k, r);
  }

  /** Quotient and remainder are unique: `a == m * q + r` with `0 <= r < m` fixes both. */
  lemma DivModUnique(a: int, m: int, q: int, r: int)
    requires m > 0 && 0 <= r < m && a == m * q + r
    ensures a % m == r && a / m == q
  {
    var q0, r0 := a / m, a % m;
    assert a == m * q0 + r0;
    assert m * (q - q0) == r0 - r;
    if q > q0 {
      MulAtLeast(m, q - q0);
    } else if q < q0 {
      MulAtLeast(m, q0 - q);
    }
  }

  lemma MulAtLeast(m: int, k: int)
    requires m > 0 && k >= 1
    ensures m * k >= m
  {
    assert m * k == m * (k - 1) + m;
  }

  /** The character of a line-split text at a position, when the position is inside it. */
  function CellAt(ls: seq<string>, k: Coords): (r: Option<char>)
    ensures r.Some? <==> 0 <= k.y < |ls| && 0 <= k.x < |ls[k.y]|
  {
    if 0 <= k.y < |ls| && 0 <= k.x < |ls[k.y]| then Some(ls[k.y][k.x]) else None
  }

  /** The positions of a line-split text. */
  function Cells(ls: seq<string>): (r: set<Coords>)
    ensures forall k :: k in r <==> CellAt(ls, k).Some?
  {
    set y, x | 0 <= y < |ls| && 0 <= x < |ls[y]| :: Coords(x, y)
  }

  /** A line-split text as a map from positions to characters. */
  function GridMap(ls: seq<string>): (m: map<Coords, char>)
    ensures forall k :: k in m <==> CellAt(ls, k).Some?
    ensures forall k :: k in m ==> CellAt(ls, k) == Some(m[k])
  {
    map k | k in Cells(ls) :: ls[k.y][k.x]
  }

  /** Row-major order: earlier row first, then earlier column. */
  predicate RowMajorBefore(a: Coords, b: Coords)
  {
    a.y < b.y || (a.y == b.y && a.x < b.x)
  }

  /** Each element comes before every later one in row-major order. */
  predicate InRowMajor(s: seq<Coords>)
  {
    forall i, j :: 0 <= i < j < |s| ==> RowMajorBefore(s[i], s[j])
  }

  /**
    `find_char_coords`: every position of `target` in the text, each once, in row-major
    order (line by line, left to right).
   */
  method FindCharCoords(input: string, target: char) returns (res: seq<Coords>)
    ensures forall k :: k in res <==> CellAt(Lines(input), k) == Some(target)
    ensures InRowMajor(res)
  {
    var ls := Lines(input);
    res := [];
    var y := 0;
    while y < |ls|
      invariant 0 <= y <= |ls|
      invariant forall k :: k in res <==> CellAt(ls, k) == Some(target) && k.y < y
      invariant forall i, j :: 0 <= i < j < |res| ==> RowMajorBefore(res[i], res[j])
      invariant forall i :: 0 <= i < |res| ==> res[i].y < y
    {
      var line := ls[y];
      var x := 0;
      while x < |line|
        invariant 0 <= x <= |line|
        invariant forall k :: k in res <==>
          CellAt(ls, k) == Some(target) && (k.y < y || (k.y == y && k.x < x))
        invariant forall i, j :: 0 <= i < j < |res| ==> RowMajorBefore(res[i], res[j])
        invariant forall i :: 0 <= i < |res| ==> RowMajorBefore(res[i], Coords(x, y))
      {
        if line[x] == target {
          res := res + [Coords(x, y)];
        }
        x := x + 1;
      }
      y := y + 1;
    }
  }

  /**
    Whether `get_char_at_coord` can read its cell without panicking: the text has at least
    two lines (both axes wrap into `[0, line count - 1]`), and the cell it ends up reading
    exists.
   */
  predicate CharReadable(text: string, cord: Coords, wrapping: bool)
  {
    var ls := Lines(text);
    |ls| >= 2 &&
    var top := |ls| - 1;
    var yw := WrapNumber(cord.y, 0, top);
    var xw := WrapNumber(cord.x, 0, top);
    (wrapping || (yw == cord.y && xw == cord.x)) ==> xw < |ls[yw]|
  }

  /**
    `get_char_at_coord`: both coordinates are wrapped into `[0, line count - 1]` (the
    line count is used for the column too); without wrapping, a position the wrap would
    move gives `None`.
   */
  function GetCharAtCoord(text: string, cord: Coords, wrapping: bool): (r: Option<char>)
    requires CharReadable(text, cord, wrapping)
    ensures var top := |Lines(text)| - 1;
      !wrapping ==> (r.None? <==> !(0 <= cord.x <= top && 0 <= cord.y <= top))
    ensures var top := |Lines(text)| - 1;
      !wrapping && r.Some? ==> r == CellAt(Lines(text), cord)
    ensures wrapping ==> r.Some?
    ensures var top := |Lines(text)| - 1;
      wrapping ==> r == CellAt(Lines(text), Coords(cord.x % (top + 1), cord.y % (top + 1)))
  {
    var ls := Lines(text);
    var top := |ls| - 1;
    var yw := WrapNumber(cord.y, 0, top);
    var xw := WrapNumber(cord.x, 0, top);
    WrapNumberIsModulo(cord.y, 0, top);
    WrapNumberIsModulo(cord.x, 0, top);
    if !wrapping && (yw != cord.y || xw != cord.x) then None
    else Some(ls[yw][xw])
  }

  /** The taxicab distance of two positions. */
  function Manhattan(a: Coords, b: Coords): nat
  {
    (if a.x <= b.x then b.x - a.x else a.x - b.x) + (if a.y <= b.y then b.y - a.y else a.y - b.y)
  }

  /** The four orthogonal neighbours of a position (`get_adjacent_xy`). */
  function Neighbours4(p: Coords): (r: set<Coords>)
    ensures |r| == 4
    ensures forall q :: q in r <==> Manhattan(p, q) == 1
  {
    {Coords(p.x, p.y - 1), Coords(p.x + 1, p.y), Coords(p.x, p.y + 1), Coords(p.x - 1, p.y)}
  }

  /**
    The neighbours as the list `get_adjacent_xy` returns. Its order is not part of this
    model; this list fixes one.
   */
  function Adjacent(p: Coords): (r: seq<Coords>)
    ensures |r| == 4
    ensures forall q :: q in r <==> q in Neighbours4(p)
    ensures forall i, j :: 0 <= i < j < |r| ==> r[i] != r[j]
  {
    [Coords(p.x, p.y - 1), Coords(p.x + 1, p.y), Coords(p.x, p.y + 1), Coords(p.x - 1, p.y)]
  }

  /**
    5 to the power `n`: the stack searches weigh a cell by it, because one cell pushes at
    most four neighbours.
   */
  function Pow5(n: nat): (r: nat)
    ensures r >= 1
  {
    if n == 0 then 1 else 5 * Pow5(n - 1)
  }

  /** The arithmetic of those weights: `j` cells of weight `u` each. */
  lemma MulStep(j: nat, u: nat)
    ensures (j + 1) * u == j * u + u && j * u <= (j + 1) * u
  {
  }

  lemma MulAtMost(j: nat, k: nat, u: nat)
    requires j <= k
    ensures j * u <= k * u
  {
  }

  /** The cells of a map holding `c`. */
  function CellsWith(m: map<Coords, char>, c: char): set<Coords>
  {
    set k | k in m && m[k] == c
  }

  /** `CoordMap`: a map from grid positions to characters, updated in place by `set`. */
  class CoordMap {
    var cells: map<Coords, char>

    /** `CoordMap::new`: every character of the text at its (column, line) position. */
    constructor (input: string)
      ensures forall k :: Get(k) == CellAt(Lines(input), k)
      ensures cells == GridMap(Lines(input))
    {
      cells := map[];
      new;
      var ls := Lines(input);
      var y := 0;
      while y < |ls|
        invariant 0 <= y <= |ls|
        invariant forall k :: Get(k) == if k.y < y then CellAt(ls, k) else None
      {
        var line := ls[y];
        var x := 0;
        while x < |line|
          invariant 0 <= x <= |line|
          invariant forall k ::
            Get(k) == if k.y < y || (k.y == y && k.x < x) then CellAt(ls, k) else None
        {
          Set(Coords(x, y), line[x]);
          x := x + 1;
        }
        y := y + 1;
      }
      var g := GridMap(ls);
      assert forall k :: k in cells <==> k in g;
      assert forall k :: k in cells ==> cells[k] == g[k];
    }

    /** The derived `clone`: a separate map holding the same cells. */
    constructor Clone(other: CoordMap)
      ensures cells == other.cells
    {
      cells := other.cells;
    }

    /**
      `new_max`: a map in which no position is set yet. The bounds it records are not
      part of this model.
     */
    constructor Empty()
      ensures cells == map[]
    {
      cells := map[];
    }

    /** `set`: writes one position; every other position keeps its character. */
    method Set(k: Coords, v: char)
      modifies this
      ensures cells == old(cells)[k := v]
      ensures Get(k) == Some(v)
      ensures forall k' :: k' != k ==> Get(k') == old(Get(k'))
    {
      cells := cells[k := v];
    }

    /** `get`: the character at a position, `None` where nothing was set. */
    function Get(k: Coords): (r: Option<char>)
      reads this
      ensures r.Some? <==> k in cells
      ensures r.Some? ==> cells[k] == r.value
    {
      if k in cells then Some(cells[k]) else None
    }

    /**
      `find`: the positions holding `c`. The source returns them in hash-map order;
      here they are a set.
     */
    function Find(c: char): (r: set<Coords>)
      reads this
      ensures forall k :: k in r <==> Get(k) == Some(c)
    {
      set k | k in cells && cells[k] == c
    }
  }
}
