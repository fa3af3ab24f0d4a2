/**
  Day 4: word search. Part one counts every `XMAS` reading in any of the eight
  directions; part two counts the `A`s whose two diagonals each read `MAS` one way or the
  other. The day file carries its own copies of `wrap_number`, `get_char_at_coord` and
  `find_char_coords`, identical to the shared ones in `Grid`, which this module uses.
 */
module Day04 {
  import opened Wrappers
  import opened Text
  import opened Grid
  import opened Sorting

  /**
    The grids the solver reads without panicking: at least two lines (the wrap needs a
    non-empty range) and no line shorter than the number of lines, since positions are
    checked against the line count on both axes.
   */
  predicate Readable(text: string)
  {
    var ls := Lines(text);
    |ls| >= 2 && forall y :: 0 <= y < |ls| ==> |ls[y]| >= |ls|
  }

  /** The letter at a position of the square the solver sees, `None` outside it. */
  function Letter(ls: seq<string>, c: Coords): Option<char>
  {
    if 0 <= c.x < |ls| && 0 <= c.y < |ls| then CellAt(ls, c) else None
  }

  /** `get_char_at_coord(.., false)` reads a readable grid at any position. */
  lemma ReadableEverywhere(text: string, c: Coords)
    requires Readable(text)
    ensures CharReadable(text, c, false)
  {
    var ls := Lines(text);
    WrapNumberIsModulo(c.y, 0, |ls| - 1);
    WrapNumberIsModulo(c.x, 0, |ls| - 1);
  }

  /** The non-wrapping read is the square's letter. */
  lemma AtIsLetter(text: string, c: Coords)
    requires Readable(text)
    ensures CharReadable(text, c, false)
    ensures GetCharAtCoord(text, c, false) == Letter(Lines(text), c)
  {
    ReadableEverywhere(text, c);
  }

  /** `get_char_at_coord(text, c, false)`, on a grid it can read. */
  function At(text: string, c: Coords): (r: Option<char>)
    requires Readable(text)
    ensures r == Letter(Lines(text), c)
  {
    AtIsLetter(text, c);
    ReadableEverywhere(text, c);
    GetCharAtCoord(text, c, false)
  }

  /** The source's own checks of `wrap_number` on the range `[0, 5]`: one step below wraps to the top. */
  lemma WrapBelow()
    ensures WrapNumber(-1, 0, 5) == 5
  {
    WrapNumberIsModulo(-1, 0, 5);
  }

  /** One step above wraps to the bottom. */
  lemma WrapAbove()
    ensures WrapNumber(6, 0, 5) == 0
  {
    WrapNumberIsModulo(6, 0, 5);
  }

  // ---- part one -------------------------------------------------------------------------

  /** `check_x_mas`: the four positions hold `X`, `M`, `A`, `S`, none reached by wrapping. */
  predicate CheckXmas(text: string, x: Coords, m: Coords, a: Coords, s: Coords)
    requires Readable(text)
  {
    At(text, x) == Some('X') && At(text, m) == Some('M') && At(text, a) == Some('A') && At(text, s) == Some('S')
  }

  /** The eight directions in the order `check_all_possible_xmas` lists them. */
  const Directions: seq<(int, int)> := [(1, 0), (-1, 0), (0, 1), (0, -1), (1, 1), (-1, -1), (-1, 1), (1, -1)]

  /** Step `i` from `p` in direction `k`. */
  function Along(p: Coords, k: nat, i: int): Coords
    requires k < 8
  {
    Coords(p.x + i * Directions[k].0, p.y + i * Directions[k].1)
  }

  /** Whether the word starting at `p` in direction `k` is `XMAS`. */
  predicate Matches(text: string, p: Coords, k: nat)
    requires Readable(text) && k < 8
  {
    CheckXmas(text, Along(p, k, 0), Along(p, k, 1), Along(p, k, 2), Along(p, k, 3))
  }

  /** The word reads `XMAS` exactly when its four letters are inside the square and spell it. */
  lemma MatchesSpells(text: string, p: Coords, k: nat)
    requires Readable(text) && k < 8
    ensures Matches(text, p, k) <==>
      var ls := Lines(text);
      Letter(ls, Along(p, k, 0)) == Some('X') && Letter(ls, Along(p, k, 1)) == Some('M') &&
      Letter(ls, Along(p, k, 2)) == Some('A') && Letter(ls, Along(p, k, 3)) == Some('S')
  {
  }

  /** The eight readings from `p`, direction by direction. */
  function Readings(text: string, p: Coords): (b: seq<bool>)
    requires Readable(text)
    ensures |b| == 8 && forall k :: 0 <= k < 8 ==> (b[k] <==> Matches(text, p, k))
  {
    seq(8, k requires 0 <= k < 8 => Matches(text, p, k))
  }

  /** The number of `true`s among the first `n` entries. */
  function CountTrue(b: seq<bool>, n: nat): (c: nat)
    requires n <= |b|
    ensures c <= n
  {
    if n == 0 then 0 else CountTrue(b, n - 1) + (if b[n - 1] then 1 else 0)
  }

  /** The number of directions in which `XMAS` reads from `p`. */
  function CountMatches(text: string, p: Coords): (c: nat)
    requires Readable(text)
    ensures c <= 8
  {
    CountTrue(Readings(text, p), 8)
  }

  /** `check_all_possible_xmas`: tries the eight directions and counts the readings. */
  method CheckAllPossibleXmas(text: string, x: Coords) returns (count: nat)
    requires Readable(text)
    ensures count == CountMatches(text, x) && count <= 8
  {
    count := 0;
    var k := 0;
    ghost var b := Readings(text, x);
    while k < 8
      invariant 0 <= k <= 8
      invariant count == CountTrue(b, k)
    {
      if CheckXmas(text, Along(x, k, 0), Along(x, k, 1), Along(x, k, 2), Along(x, k, 3)) {
        count := count + 1;
      }
      k := k + 1;
    }
  }

  /** The positions of a letter in the text. */
  ghost function CellsOf(ls: seq<string>, target: char): (r: set<Coords>)
    ensures forall c :: c in r <==> CellAt(ls, c) == Some(target)
  {
    set y, x | 0 <= y < |ls| && 0 <= x < |ls[y]| && ls[y][x] == target :: Coords(x, y)
  }

  /** The (X position, direction) pairs along which `XMAS` reads. */
  ghost function Occurrences(text: string, ps: set<Coords>): set<(Coords, nat)>
    requires Readable(text)
  {
    set p, k | p in ps && 0 <= k < 8 && Matches(text, p, k) :: (p, k)
  }

  /** The `true` entries among the first `n`, tagged with `p`, number `CountTrue` of them. */
  lemma {:induction false} TaggedCount<P>(b: seq<bool>, p: P, n: nat)
    requires n <= |b|
    ensures |set k | 0 <= k < n && b[k] :: (p, k)| == CountTrue(b, n)
  {
    if n > 0 {
      TaggedCount(b, p, n - 1);
      var before := set k | 0 <= k < n - 1 && b[k] :: (p, k);
      var now := set k | 0 <= k < n && b[k] :: (p, k);
      if b[n - 1] {
        assert now == before + {(p, n - 1)};
        assert (p, n - 1) !in before;
      } else {
        assert now == before;
      }
    }
  }

  /** Adding a fresh position adds its readings. */
  lemma OccurrencesAdd(text: string, ps: set<Coords>, p: Coords)
    requires Readable(text) && p !in ps
    ensures |Occurrences(text, ps + {p})| == |Occurrences(text, ps)| + CountMatches(text, p)
  {
    var b := Readings(text, p);
    var extra := set k | 0 <= k < 8 && b[k] :: (p, k);
    assert Occurrences(text, ps + {p}) == Occurrences(text, ps) + extra;
    assert Occurrences(text, ps) !! extra;
    TaggedCount(b, p, 8);
  }

  /** The elements of a prefix grow by one element per step. */
  lemma ElemsStep<T>(s: seq<T>, i: nat)
    requires i < |s|
    ensures Elems(s[..i + 1]) == Elems(s[..i]) + {s[i]}
  {
    assert s[..i + 1] == s[..i] + [s[i]];
  }

  /** A row-major sorted sequence does not repeat an element. */
  lemma FreshInOrder(s: seq<Coords>, i: nat)
    requires i < |s|
    requires InRowMajor(s)
    ensures s[i] !in Elems(s[..i])
  {
    forall j | 0 <= j < i ensures s[j] != s[i] {
      assert RowMajorBefore(s[j], s[i]);
    }
  }

  /** `part_one`: the sum over the `X`s of their readings, which counts every `XMAS` once. */
  method PartOne(text: string) returns (v: nat)
    requires Readable(text)
    ensures v == |Occurrences(text, CellsOf(Lines(text), 'X'))|
  {
    var allX := FindCharCoords(text, 'X');
    v := SumReadings(text, allX);
    assert Elems(allX) == CellsOf(Lines(text), 'X');
  }

  /** The loop of `part_one` over the `X`s, each counted for the readings that spell `XMAS`. */
  method SumReadings(text: string, allX: seq<Coords>) returns (v: nat)
    requires Readable(text) && InRowMajor(allX)
    ensures v == |Occurrences(text, Elems(allX))|
  {
    v := 0;
    var i := 0;
    while i < |allX|
      invariant 0 <= i <= |allX|
      invariant v == |Occurrences(text, Elems(allX[..i]))|
    {
      var p := allX[i];
      var c := CheckAllPossibleXmas(text, p);
      ElemsStep(allX, i);
      FreshInOrder(allX, i);
      OccurrencesAdd(text, Elems(allX[..i]), p);
      v := v + c;
      i := i + 1;
    }
    assert allX[..i] == allX;
  }

  // ---- part two -------------------------------------------------------------------------

  /**
    `check_x_mas_x`: the centre is `A` and each diagonal (top-left to bottom-right,
    top-right to bottom-left) joins an `M` and an `S`, either way round.
   */
  predicate CheckXMasX(text: string, c: Coords, tr: Coords, bl: Coords, tl: Coords, br: Coords)
    requires Readable(text)
  {
    var hor1 := (At(text, tl) == Some('M') && At(text, br) == Some('S')) || (At(text, tl) == Some('S') && At(text, br) == Some('M'));
    var hor2 := (At(text, tr) == Some('M') && At(text, bl) == Some('S')) || (At(text, tr) == Some('S') && At(text, bl) == Some('M'));
    At(text, c) == Some('A') && hor1 && hor2
  }

  /** The diagonal check around `a`, as `part_two` calls it. */
  predicate IsCross(text: string, a: Coords)
    requires Readable(text)
  {
    CheckXMasX(text, a, Coords(a.x + 1, a.y - 1), Coords(a.x - 1, a.y + 1), Coords(a.x - 1, a.y - 1), Coords(a.x + 1, a.y + 1))
  }

  /** The two letters at the ends of a diagonal are `M` and `S` in some order. */
  lemma MasEnds(u: Option<char>, w: Option<char>)
    ensures ((u == Some('M') && w == Some('S')) || (u == Some('S') && w == Some('M'))) <==>
      {u, w} == {Some('M'), Some('S')}
  {
    if {u, w} == {Some('M'), Some('S')} {
      assert u in {Some('M'), Some('S')} && w in {Some('M'), Some('S')};
      assert Some('M') in {u, w} && Some('S') in {u, w};
    }
  }

  /** The cross reads `MAS` along both diagonals, each in either direction. */
  lemma IsCrossSpells(text: string, a: Coords)
    requires Readable(text)
    ensures IsCross(text, a) <==>
      var ls := Lines(text);
      Letter(ls, a) == Some('A') &&
      {Letter(ls, Coords(a.x - 1, a.y - 1)), Letter(ls, Coords(a.x + 1, a.y + 1))} == {Some('M'), Some('S')} &&
      {Letter(ls, Coords(a.x + 1, a.y - 1)), Letter(ls, Coords(a.x - 1, a.y + 1))} == {Some('M'), Some('S')}
  {
    MasEnds(At(text, Coords(a.x - 1, a.y - 1)), At(text, Coords(a.x + 1, a.y + 1)));
    MasEnds(At(text, Coords(a.x + 1, a.y - 1)), At(text, Coords(a.x - 1, a.y + 1)));
  }

  /** The `A`s at the centre of a cross. */
  ghost function Crosses(text: string, ps: set<Coords>): set<Coords>
    requires Readable(text)
  {
    set a | a in ps && IsCross(text, a)
  }

  lemma CrossesAdd(text: string, ps: set<Coords>, a: Coords)
    requires Readable(text) && a !in ps
    ensures |Crosses(text, ps + {a})| == |Crosses(text, ps)| + (if IsCross(text, a) then 1 else 0)
  {
    if IsCross(text, a) {
      assert Crosses(text, ps + {a}) == Crosses(text, ps) + {a};
    } else {
      assert Crosses(text, ps + {a}) == Crosses(text, ps);
    }
  }

  /** `part_two`: the number of `A`s at the centre of a cross. */
  method PartTwo(text: string) returns (cnt: nat)
    requires Readable(text)
    ensures cnt == |Crosses(text, CellsOf(Lines(text), 'A'))|
  {
    var allA := FindCharCoords(text, 'A');
    cnt := CountCrosses(text, allA);
    assert Elems(allA) == CellsOf(Lines(text), 'A');
  }

  /** The loop of `part_two` over the `A`s, each counted when it is the centre of a cross. */
  method CountCrosses(text: string, allA: seq<Coords>) returns (cnt: nat)
    requires Readable(text) && InRowMajor(allA)
    ensures cnt == |Crosses(text, Elems(allA))|
  {
    cnt := 0;
    var i := 0;
    while i < |allA|
      invariant 0 <= i <= |allA|
      invariant cnt == |Crosses(text, Elems(allA[..i]))|
    {
      var a := allA[i];
      ElemsStep(allA, i);
      FreshInOrder(allA, i);
      CrossesAdd(text, Elems(allA[..i]), a);
      var tr := Coords(a.x + 1, a.y - 1);
      var tl := Coords(a.x - 1, a.y - 1);
      var br := Coords(a.x + 1, a.y + 1);
      var bl := Coords(a.x - 1, a.y + 1);
      if CheckXMasX(text, a, tr, bl, tl, br) {
        cnt := cnt + 1;
      }
      i := i + 1;
    }
    assert allA[..i] == allA;
  }
}
