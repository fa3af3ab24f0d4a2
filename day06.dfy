/**
  Day 6: a guard walks a grid, turning clockwise whenever the cell ahead is an obstacle
  `#`, until the cell ahead is off the map (the guard leaves) or it stands where it
  stood before facing the same way (it walks in a loop). Part one counts the positions
  it visits; part two counts the single extra obstacles that make it loop.
 */
module Day06 {
  import opened Wrappers
  import opened Text
  import opened Grid

  datatype Direction = Up | Down | Left | Right

  /** The guard: a position and the way it faces. */
  datatype Guard = Guard(x: int, y: int, direction: Direction)

  datatype SimulationResult = Exit | Loop

  function Pos(g: Guard): Coords
  {
    Coords(g.x, g.y)
  }

  /** The cell in front of the guard (`y` grows downwards). */
  function Ahead(g: Guard): Coords
  {
    match g.direction
    case Up => Coords(g.x, g.y - 1)
    case Down => Coords(g.x, g.y + 1)
    case Left => Coords(g.x - 1, g.y)
    case Right => Coords(g.x + 1, g.y)
  }

  /** The clockwise turn: up, right, down, left, up. */
  function Clockwise(d: Direction): (r: Direction)
    ensures r != d
  {
    match d
    case Up => Right
    case Right => Down
    case Down => Left
    case Left => Up
  }

  /** Four turns face the guard the way it started, and the four directions are all met. */
  lemma ClockwiseCycle(d: Direction)
    ensures Clockwise(Clockwise(Clockwise(Clockwise(d)))) == d
    ensures {d, Clockwise(d), Clockwise(Clockwise(d)), Clockwise(Clockwise(Clockwise(d)))} == {Up, Down, Left, Right}
  {
  }

  /** One turn of the walk: `None` when the guard leaves the map. */
  function Next(m: map<Coords, char>, g: Guard): (r: Option<Guard>)
    ensures r.None? <==> Ahead(g) !in m
    ensures r.Some? && m[Ahead(g)] == '#' ==> r.value == g.(direction := Clockwise(g.direction))
    ensures r.Some? && m[Ahead(g)] != '#' ==> Pos(r.value) == Ahead(g) && r.value.direction == g.direction
    ensures r.Some? ==> Pos(r.value) in m || Pos(r.value) == Pos(g)
  {
    var c := Ahead(g);
    if c !in m then None
    else if m[c] == '#' then Some(g.(direction := Clockwise(g.direction)))
    else Some(Guard(c.x, c.y, g.direction))
  }

  /** The guard after `n` turns of the walk from `g`, `None` once it has left. */
  function Walk(m: map<Coords, char>, g: Guard, n: nat): Option<Guard>
  {
    if n == 0 then Some(g)
    else
      match Walk(m, g, n - 1)
      case None => None
      case Some(h) => Next(m, h)
  }

  /** The guard stands at `h` at some point of its walk from `g`. */
  ghost predicate Reaches(m: map<Coords, char>, g: Guard, h: Guard)
  {
    exists n: nat :: Walk(m, g, n) == Some(h)
  }

  /** The guard leaves the map at some point. */
  ghost predicate Escapes(m: map<Coords, char>, g: Guard)
  {
    exists n: nat :: Walk(m, g, n).None?
  }

  /** The positions of a set of guard states. */
  function Positions(gs: set<Guard>): set<Coords>
  {
    set g | g in gs :: Pos(g)
  }

  /** Once the guard has left it stays gone. */
  lemma {:induction false} GoneStaysGone(m: map<Coords, char>, g: Guard, a: nat, b: nat)
    requires a <= b && Walk(m, g, a).None?
    ensures Walk(m, g, b).None?
    decreases b - a
  {
    if a < b {
      GoneStaysGone(m, g, a, b - 1);
    }
  }

  /** The walk is determined by the current state: equal states stay equal. */
  lemma {:induction false} WalkShift(m: map<Coords, char>, g: Guard, a: nat, b: nat, t: nat)
    requires Walk(m, g, a) == Walk(m, g, b)
    ensures Walk(m, g, a + t) == Walk(m, g, b + t)
  {
    if t > 0 {
      WalkShift(m, g, a, b, t - 1);
      assert Walk(m, g, a + t) == match Walk(m, g, a + t - 1) case None => None case Some(h) => Next(m, h);
      assert Walk(m, g, b + t) == match Walk(m, g, b + t - 1) case None => None case Some(h) => Next(m, h);
    }
  }

  /**
    When the state after `k` turns repeats the one after `j < k`, every later state is
    one of the first `k`, so the guard never leaves.
   */
  lemma {:induction false} Periodic(m: map<Coords, char>, g: Guard, j: nat, k: nat, n: nat)
    requires j < k && Walk(m, g, k).Some? && Walk(m, g, j) == Walk(m, g, k)
    ensures exists i :: 0 <= i < k && Walk(m, g, n) == Walk(m, g, i)
    decreases n
  {
    if n >= k {
      var n' := n - (k - j);
      Periodic(m, g, j, k, n');
      WalkShift(m, g, j, k, n - k);
    } else {
      assert Walk(m, g, n) == Walk(m, g, n);
    }
  }

  /** Every state the guard can be in on the map: a position of the map and a direction. */
  function States(m: map<Coords, char>): set<Guard>
  {
    set k, d | k in m.Keys && d in {Up, Down, Left, Right} :: Guard(k.x, k.y, d)
  }

  lemma InStates(m: map<Coords, char>, g: Guard)
    requires Pos(g) in m
    ensures g in States(m)
  {
    var k, d := Pos(g), g.direction;
    assert k in m.Keys;
    assert d in {Up, Down, Left, Right} by {
      match d
      case Up =>
      case Down =>
      case Left =>
      case Right =>
    }
    assert Guard(k.x, k.y, d) == g;
  }

  /** `vd` holds exactly the states of the first `k` turns of the walk from `g`. */
  ghost predicate FirstStates(m: map<Coords, char>, g: Guard, vd: set<Guard>, k: nat)
  {
    forall h :: h in vd <==> exists i: nat :: i < k && Walk(m, g, i) == Some(h)
  }

  /** `vd` holds exactly the states the guard reaches. */
  ghost predicate AllReached(m: map<Coords, char>, g: Guard, vd: set<Guard>)
  {
    forall h :: h in vd <==> Reaches(m, g, h)
  }

  /**
    `simulate`: walks the guard from `start`. Every state it reaches is collected, with
    its position; the walk ends with `Exit` exactly when the guard leaves the map, and
    otherwise with `Loop` once a state repeats. The map is only read. `pos` is the
    guard's last state (the source updates its `&mut Guard` argument in place).
   */
  method Simulate(input: CoordMap, start: Guard)
    returns (visitedCount: set<Coords>, visitedDirectional: set<Guard>, res: SimulationResult, pos: Guard)
    requires Pos(start) in input.cells
    ensures AllReached(input.cells, start, visitedDirectional)
    ensures visitedCount == Positions(visitedDirectional)
    ensures res == Exit <==> Escapes(input.cells, start)
    ensures Reaches(input.cells, start, pos) && (res == Exit ==> Ahead(pos) !in input.cells)
  {
    var m := input.cells;
    visitedCount := {};
    visitedDirectional := {};
    var current := start;
    ghost var k: nat := 0;
    ghost var all := States(m);
    while true
      invariant Walk(m, start, k) == Some(current) && Pos(current) in m
      invariant FirstStates(m, start, visitedDirectional, k)
      invariant visitedCount == Positions(visitedDirectional)
      invariant visitedDirectional <= all
      decreases |all| - |visitedDirectional|
    {
      if current in visitedDirectional {
        LoopCase(m, start, visitedDirectional, k);
        return visitedCount, visitedDirectional, Loop, current;
      }
      ghost var before := visitedDirectional;
      InStates(m, current);
      SubsetSize(before + {current}, all);
      visitedDirectional := visitedDirectional + {current};
      visitedCount := visitedCount + {Pos(current)};
      Visit(m, start, before, k);
      var inFront := Ahead(current);
      if inFront !in m {
        ExitCase(m, start, visitedDirectional, k);
        return visitedCount, visitedDirectional, Exit, current;
      }
      if m[inFront] == '#' {
        current := current.(direction := Clockwise(current.direction));
      } else {
        current := Guard(inFront.x, inFront.y, current.direction);
      }
      k := k + 1;
    }
  }

  lemma SubsetSize<T>(a: set<T>, b: set<T>)
    requires a <= b
    ensures |a| <= |b|
  {
    assert b == a + (b - a);
  }

  /** One more state collected: the sets grow by it, and stay within the map's states. */
  lemma Visit(m: map<Coords, char>, g: Guard, vd: set<Guard>, k: nat)
    requires Walk(m, g, k).Some? && Walk(m, g, k).value !in vd && FirstStates(m, g, vd, k)
    ensures var cur := Walk(m, g, k).value;
      FirstStates(m, g, vd + {cur}, k + 1) && |vd + {cur}| == |vd| + 1
      && Positions(vd + {cur}) == Positions(vd) + {Pos(cur)}
      && (Next(m, cur).Some? ==> Walk(m, g, k + 1) == Next(m, cur))
  {
    var cur := Walk(m, g, k).value;
    forall h | exists i: nat :: i < k + 1 && Walk(m, g, i) == Some(h)
      ensures h in vd + {cur}
    {
      var i: nat :| i < k + 1 && Walk(m, g, i) == Some(h);
      if i < k {
        assert h in vd;
      }
    }
  }

  /** A repeat at `k` of an earlier state: the states before `k` are all the guard reaches. */
  lemma LoopCase(m: map<Coords, char>, g: Guard, vd: set<Guard>, k: nat)
    requires Walk(m, g, k).Some? && Walk(m, g, k).value in vd && FirstStates(m, g, vd, k)
    ensures AllReached(m, g, vd) && !Escapes(m, g) && Reaches(m, g, Walk(m, g, k).value)
  {
    var j: nat :| j < k && Walk(m, g, j) == Some(Walk(m, g, k).value);
    forall h | Reaches(m, g, h)
      ensures h in vd
    {
      var n: nat :| Walk(m, g, n) == Some(h);
      Periodic(m, g, j, k, n);
    }
    NeverGone(m, g, j, k);
  }

  lemma NeverGone(m: map<Coords, char>, g: Guard, j: nat, k: nat)
    requires j < k && Walk(m, g, k).Some? && Walk(m, g, j) == Walk(m, g, k)
    ensures !Escapes(m, g)
  {
    forall n: nat
      ensures Walk(m, g, n).Some?
    {
      Periodic(m, g, j, k, n);
      var i :| 0 <= i < k && Walk(m, g, n) == Walk(m, g, i);
      if Walk(m, g, i).None? {
        GoneStaysGone(m, g, i, k);
      }
    }
  }

  /** The guard leaves after `k` turns: the states up to `k` are all it reaches. */
  lemma ExitCase(m: map<Coords, char>, g: Guard, vd: set<Guard>, k: nat)
    requires Walk(m, g, k).Some? && Next(m, Walk(m, g, k).value).None? && FirstStates(m, g, vd, k + 1)
    ensures AllReached(m, g, vd) && Escapes(m, g) && Reaches(m, g, Walk(m, g, k).value)
  {
    assert Walk(m, g, k + 1).None?;
    forall h | Reaches(m, g, h)
      ensures h in vd
    {
      var n: nat :| Walk(m, g, n) == Some(h);
      if n > k {
        GoneStaysGone(m, g, k + 1, n);
      }
    }
  }

  // ---- the two parts -------------------------------------------------------------------

  /** The number of positions the guard visits on its walk from `start`. */
  ghost predicate VisitCount(m: map<Coords, char>, start: Guard, r: nat)
  {
    exists vd :: AllReached(m, start, vd) && r == |Positions(vd)|
  }

  /**
    `part_one`: the number of positions the guard visits, starting upwards from a `^`
    of the input. The source takes the first `^` `find` gives in hash-map order; here
    it is any `^`. A map without `^` panics.
   */
  method PartOne(input: string) returns (r: nat)
    requires exists p :: CellAt(Lines(input), p) == Some('^')
    ensures exists p :: CellAt(Lines(input), p) == Some('^') && VisitCount(GridMap(Lines(input)), Guard(p.x, p.y, Up), r)
  {
    var grid := new CoordMap(input);
    var binding := grid.Find('^');
    var p: Coords :| CellAt(Lines(input), p) == Some('^');
    assert p in binding;
    var startPos :| startPos in binding;
    var current := Guard(startPos.x, startPos.y, Up);
    var visitedCount, visitedDirectional, _, _ := Simulate(grid, current);
    r := |visitedCount|;
    assert VisitCount(grid.cells, current, r);
  }

  /** The candidates that make the guard loop once an obstacle is put on them. */
  ghost function Looping(m: map<Coords, char>, start: Guard, cs: set<Coords>): set<Coords>
  {
    set c | c in cs && !Escapes(m[c := '#'], start)
  }

  lemma LoopingAdd(m: map<Coords, char>, start: Guard, cs: set<Coords>, c: Coords)
    requires c !in cs
    ensures |Looping(m, start, cs + {c})| == |Looping(m, start, cs)| + if Escapes(m[c := '#'], start) then 0 else 1
  {
    if Escapes(m[c := '#'], start) {
      assert Looping(m, start, cs + {c}) == Looping(m, start, cs);
    } else {
      assert Looping(m, start, cs + {c}) == Looping(m, start, cs) + {c};
    }
  }

  /**
    The answer of part two: of the positions the guard visits, all but its start and the
    cell just above it are tried, and those on which an extra `#` makes it loop are
    counted.
   */
  ghost predicate LoopCount(m: map<Coords, char>, start: Guard, r: nat)
  {
    exists vd :: AllReached(m, start, vd)
      && r == |Looping(m, start, Positions(vd) - {Pos(start)} - {Coords(start.x, start.y - 1)})|
  }

  /**
    `part_two`: one walk per candidate, each on its own copy of the map with one extra
    `#` at the candidate (the source runs them in parallel; here one after another).
   */
  method PartTwo(input: string) returns (cnt: nat)
    requires exists p :: CellAt(Lines(input), p) == Some('^')
    ensures exists p :: CellAt(Lines(input), p) == Some('^') && LoopCount(GridMap(Lines(input)), Guard(p.x, p.y, Up), cnt)
  {
    var grid := new CoordMap(input);
    var binding := grid.Find('^');
    var p: Coords :| CellAt(Lines(input), p) == Some('^');
    assert p in binding;
    var startPos :| startPos in binding;
    var start := Guard(startPos.x, startPos.y, Up);
    var visitedCount, vd, _, _ := Simulate(grid, start);
    visitedCount := visitedCount - {Pos(start)};
    visitedCount := visitedCount - {Coords(start.x, start.y - 1)};
    cnt := CountLooping(grid, start, visitedCount);
    assert LoopCount(grid.cells, start, cnt);
  }

  /**
    The `par_iter` sum of `part_two`: for each candidate, a copy of the map with `#` on
    it is walked, and the walks that loop are counted.
   */
  method CountLooping(grid: CoordMap, start: Guard, candidates: set<Coords>) returns (cnt: nat)
    requires Pos(start) in grid.cells
    ensures cnt == |Looping(grid.cells, start, candidates)|
  {
    var rest := candidates;
    ghost var done: set<Coords> := {};
    cnt := 0;
    while rest != {}
      invariant done !! rest
      invariant done + rest == candidates
      invariant cnt == |Looping(grid.cells, start, done)|
      decreases |rest|
    {
      var cc :| cc in rest;
      var updatedMap := new CoordMap.Clone(grid);
      updatedMap.Set(cc, '#');
      var _, _, res, _ := Simulate(updatedMap, start);
      LoopingAdd(grid.cells, start, done, cc);
      if res == Loop {
        cnt := cnt + 1;
      }
      done := done + {cc};
      rest := rest - {cc};
    }
    assert done == candidates;
  }
}
