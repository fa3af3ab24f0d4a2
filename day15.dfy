/**
  Day 15: a robot pushing boxes around a warehouse. A move shifts the robot one cell,
  pushing the whole run of boxes in front of it, unless that run ends at a wall. Part
  one has one-cell boxes `O`; part two widens the map so that a box is the pair `[]`,
  and a vertical push moves both halves of every box it meets.
 */
module Day15 {
  import opened Wrappers
  import opened Text
  import opened Grid
  import opened Sorting

  datatype Move = Right | Down | Up | Left

  /** The command a character stands for; the source panics on any other character. */
  function ParseMove(c: char): (r: Option<Move>)
    ensures r.Some? <==> c in "^<>v"
  {
    match c
    case '^' => Some(Up)
    case '<' => Some(Left)
    case '>' => Some(Right)
    case 'v' => Some(Down)
    case _ => None
  }

  /** The command text of `create_map`: trimmed, with the line breaks removed. */
  function CommandText(s: string): (r: string)
    ensures '\n' !in r
  {
    RemoveNewlines(Trim(s))
  }

  function RemoveNewlines(s: string): (r: string)
    ensures '\n' !in r && |r| <= |s|
    ensures forall c :: c in s && c != '\n' ==> c in r
  {
    if s == [] then []
    else
      var rest := RemoveNewlines(s[..|s| - 1]);
      assert s == s[..|s| - 1] + [s[|s| - 1]];
      if s[|s| - 1] == '\n' then rest else rest + [s[|s| - 1]]
  }

  /** The commands `create_map` accepts: everything left is an arrow. */
  predicate CommandsReadable(s: string)
  {
    forall k :: 0 <= k < |CommandText(s)| ==> ParseMove(CommandText(s)[k]).Some?
  }

  /** The commands, one per arrow, in order. */
  function Commands(s: string): (ms: seq<Move>)
    requires CommandsReadable(s)
    ensures |ms| == |CommandText(s)|
    ensures forall k :: 0 <= k < |ms| ==> Some(ms[k]) == ParseMove(CommandText(s)[k])
  {
    var t := CommandText(s);
    seq(|t|, k requires 0 <= k < |t| => ParseMove(t[k]).value)
  }

  /** `get_shifted`: the neighbouring cell in the direction of the move. */
  function GetShifted(c: Coords, m: Move): (r: Coords)
    ensures r != c
    ensures (r.x == c.x && (r.y == c.y + 1 || r.y == c.y - 1)) || (r.y == c.y && (r.x == c.x + 1 || r.x == c.x - 1))
  {
    match m
    case Right => Coords(c.x + 1, c.y)
    case Down => Coords(c.x, c.y + 1)
    case Up => Coords(c.x, c.y - 1)
    case Left => Coords(c.x - 1, c.y)
  }

  function Opposite(m: Move): Move
  {
    match m
    case Right => Left
    case Left => Right
    case Up => Down
    case Down => Up
  }

  /** A shift is undone by the opposite shift, so distinct cells shift to distinct cells. */
  lemma ShiftBack(c: Coords, m: Move)
    ensures GetShifted(GetShifted(c, m), Opposite(m)) == c
  {
  }

  lemma ShiftInjective(c: Coords, d: Coords, m: Move)
    requires GetShifted(c, m) == GetShifted(d, m)
    ensures c == d
  {
    ShiftBack(c, m);
    ShiftBack(d, m);
  }

  /** The cell `n` moves ahead of `c`. */
  function ShiftN(c: Coords, m: Move, n: nat): Coords
  {
    match m
    case Right => Coords(c.x + n, c.y)
    case Down => Coords(c.x, c.y + n)
    case Up => Coords(c.x, c.y - n)
    case Left => Coords(c.x - n, c.y)
  }

  lemma ShiftNNext(c: Coords, m: Move, n: nat)
    ensures GetShifted(ShiftN(c, m, n), m) == ShiftN(c, m, n + 1)
  {
  }

  /** How many moves ahead of `c` the cell `k` lies, if it lies ahead at all. */
  function RunIndex(k: Coords, c: Coords, m: Move): (r: Option<nat>)
    ensures r.Some? ==> ShiftN(c, m, r.value) == k
  {
    match m
    case Right => if k.y == c.y && k.x >= c.x then Some(k.x - c.x) else None
    case Down => if k.x == c.x && k.y >= c.y then Some(k.y - c.y) else None
    case Up => if k.x == c.x && k.y <= c.y then Some(c.y - k.y) else None
    case Left => if k.y == c.y && k.x <= c.x then Some(c.x - k.x) else None
  }

  lemma RunIndexOf(c: Coords, m: Move, n: nat)
    ensures RunIndex(ShiftN(c, m, n), c, m) == Some(n)
  {
  }

  /** `map.get`. */
  function At(grid: map<Coords, char>, k: Coords): (r: Option<char>)
    ensures r.Some? <==> k in grid
    ensures r.Some? ==> r.value == grid[k]
  {
    if k in grid then Some(grid[k]) else None
  }

  /** Strictly ahead of `c` in the direction of the move. */
  predicate Beyond(k: Coords, c: Coords, m: Move)
  {
    match m
    case Right => k.x > c.x
    case Down => k.y > c.y
    case Up => k.y < c.y
    case Left => k.x < c.x
  }

  /** The map's cells ahead of `c`: a measure that shrinks at every step onto the map. */
  function Ahead(grid: map<Coords, char>, c: Coords, m: Move): set<Coords>
  {
    set k | k in grid && Beyond(k, c, m)
  }

  lemma AheadShrinks(grid: map<Coords, char>, c: Coords, m: Move)
    requires GetShifted(c, m) in grid
    ensures Ahead(grid, GetShifted(c, m), m) < Ahead(grid, c, m)
    ensures |Ahead(grid, GetShifted(c, m), m)| < |Ahead(grid, c, m)|
  {
    var n := GetShifted(c, m);
    var a, b := Ahead(grid, n, m), Ahead(grid, c, m);
    assert n in b && n !in a;
    assert b == a + (b - a) && a * (b - a) == {};
    assert |b - a| >= 1 by {
      assert n in b - a;
    }
  }

  // ---- part one -----------------------------------------------------------------------

  /** The outcome of scanning ahead of the robot. `Stuck` is where the source reaches `todo!()`. */
  datatype Scan = Blocked | Chain(moves: seq<(char, Coords)>) | Stuck

  /** Cells 1 to `n - 1` ahead of `from` are boxes. */
  ghost predicate Boxes(grid: map<Coords, char>, from: Coords, m: Move, n: nat)
  {
    forall i :: 1 <= i < n ==> At(grid, ShiftN(from, m, i)) == Some('O')
  }

  /** The run of boxes ahead of `from` ends `n` cells ahead, at a cell holding `end`. */
  ghost predicate RunEnds(grid: map<Coords, char>, from: Coords, m: Move, n: nat, end: Option<char>)
  {
    n >= 1 && Boxes(grid, from, m, n) && At(grid, ShiftN(from, m, n)) == end && end != Some('O')
  }

  /** A run of boxes has one end. */
  lemma RunEndsUnique(grid: map<Coords, char>, from: Coords, m: Move, n1: nat, e1: Option<char>, n2: nat, e2: Option<char>)
    requires RunEnds(grid, from, m, n1, e1) && RunEnds(grid, from, m, n2, e2)
    ensures n1 == n2 && e1 == e2
  {
  }

  /**
    `process_command`: the robot and the boxes in front of it, up to a free cell;
    `Blocked` when the boxes end at a wall. It only reads the map.
   */
  method ProcessCommand(grid: map<Coords, char>, from: Coords, mv: Move) returns (r: Scan)
    ensures r.Blocked? <==> exists n: nat :: RunEnds(grid, from, mv, n, Some('#'))
    ensures r.Chain? <==> exists n: nat :: RunEnds(grid, from, mv, n, Some('.'))
    ensures r.Chain? ==>
      RunEnds(grid, from, mv, |r.moves|, Some('.')) && r.moves[0] == ('@', from) &&
      forall i :: 1 <= i < |r.moves| ==> r.moves[i] == ('O', ShiftN(from, mv, i))
  {
    var toMove := [('@', from)];
    while true
      invariant |toMove| >= 1 && toMove[0] == ('@', from) && Boxes(grid, from, mv, |toMove|)
      invariant forall i :: 1 <= i < |toMove| ==> toMove[i] == ('O', ShiftN(from, mv, i))
      invariant toMove[|toMove| - 1].1 == ShiftN(from, mv, |toMove| - 1)
      decreases |Ahead(grid, toMove[|toMove| - 1].1, mv)|
    {
      var c := toMove[|toMove| - 1].1;
      var next := GetShifted(c, mv);
      ShiftNNext(from, mv, |toMove| - 1);
      match At(grid, next) {
        case Some('#') =>
          r := Blocked;
          assert RunEnds(grid, from, mv, |toMove|, Some('#'));
          Ends(grid, from, mv, |toMove|, Some('#'));
          return;
        case Some('.') =>
          r := Chain(toMove);
          assert RunEnds(grid, from, mv, |toMove|, Some('.'));
          Ends(grid, from, mv, |toMove|, Some('.'));
          return;
        case Some('O') =>
          AheadShrinks(grid, c, mv);
          toMove := toMove + [('O', next)];
        case _ =>
          r := Stuck;
          Ends(grid, from, mv, |toMove|, At(grid, next));
          return;
      }
    }
  }

  /** Once the run's end is known, no other end exists. */
  lemma Ends(grid: map<Coords, char>, from: Coords, m: Move, n: nat, end: Option<char>)
    requires RunEnds(grid, from, m, n, end)
    ensures forall n': nat, e: Option<char> :: RunEnds(grid, from, m, n', e) ==> n' == n && e == end
  {
    forall n': nat, e: Option<char> | RunEnds(grid, from, m, n', e) ensures n' == n && e == end {
      RunEndsUnique(grid, from, m, n, end, n', e);
    }
  }

  /** The robot can push a run of `n - 1` boxes into a free cell. */
  ghost predicate Pushable(grid: map<Coords, char>, from: Coords, m: Move, n: nat)
  {
    At(grid, from) == Some('@') && RunEnds(grid, from, m, n, Some('.'))
  }

  /**
    A cell after `j` of the `n` writes of the reversed chain: the cell `n - j` ahead is
    free, the cells beyond it up to `n` hold their new contents, the rest is unchanged.
   */
  function StageCell(grid: map<Coords, char>, from: Coords, m: Move, n: nat, j: nat, k: Coords): char
    requires j <= n && k in grid
  {
    match RunIndex(k, from, m)
    case Some(i) =>
      if i == n - j then '.' else if n - j < i <= n then (if i == 1 then '@' else 'O') else grid[k]
    case None => grid[k]
  }

  /** The map after `j` of the writes. */
  function Stage(grid: map<Coords, char>, from: Coords, m: Move, n: nat, j: nat): map<Coords, char>
    requires j <= n
  {
    map k | k in grid :: StageCell(grid, from, m, n, j, k)
  }

  /** The map after a push: the robot's old cell free, the robot one ahead, the boxes beyond it. */
  function Pushed(grid: map<Coords, char>, from: Coords, m: Move, n: nat): map<Coords, char>
  {
    Stage(grid, from, m, n, n)
  }

  lemma StageStart(grid: map<Coords, char>, from: Coords, m: Move, n: nat)
    requires Pushable(grid, from, m, n)
    ensures Stage(grid, from, m, n, 0) == grid
  {
    var s := Stage(grid, from, m, n, 0);
    forall k | k in grid ensures s[k] == grid[k] {
      match RunIndex(k, from, m)
      case Some(i) =>
      case None =>
    }
  }

  /** The write pair of step `j` touches only the cells `n - j` and `n - 1 - j` ahead. */
  lemma StageCellStep(grid: map<Coords, char>, from: Coords, m: Move, n: nat, j: nat, k: Coords)
    requires j < n && k in grid && k != ShiftN(from, m, n - j) && k != ShiftN(from, m, n - 1 - j)
    ensures StageCell(grid, from, m, n, j, k) == StageCell(grid, from, m, n, j + 1, k)
  {
    match RunIndex(k, from, m)
    case Some(i) =>
      assert i != n - j && i != n - 1 - j;
    case None =>
  }

  /** One write pair of the reversed chain. */
  lemma StageStep(grid: map<Coords, char>, from: Coords, m: Move, n: nat, j: nat)
    requires Pushable(grid, from, m, n) && j < n
    ensures var a, b := ShiftN(from, m, n - j), ShiftN(from, m, n - 1 - j);
      a in grid && b in grid &&
      Stage(grid, from, m, n, j)[a := if n - 1 - j == 0 then '@' else 'O'][b := '.'] == Stage(grid, from, m, n, j + 1)
  {
    StageCells(grid, from, m, n, j);
    StageMaps(grid, from, m, n, j);
  }

  /** The two cells step `j` writes lie on the map. */
  lemma StageCells(grid: map<Coords, char>, from: Coords, m: Move, n: nat, j: nat)
    requires Pushable(grid, from, m, n) && j < n
    ensures ShiftN(from, m, n - j) in grid && ShiftN(from, m, n - 1 - j) in grid
  {
    assert ShiftN(from, m, n - 1 - j) in grid by {
      if n - 1 - j > 0 {
        assert At(grid, ShiftN(from, m, n - 1 - j)) == Some('O');
      }
    }
  }

  lemma StageMaps(grid: map<Coords, char>, from: Coords, m: Move, n: nat, j: nat)
    requires j < n && ShiftN(from, m, n - j) in grid && ShiftN(from, m, n - 1 - j) in grid
    ensures var a, b := ShiftN(from, m, n - j), ShiftN(from, m, n - 1 - j);
      Stage(grid, from, m, n, j)[a := if n - 1 - j == 0 then '@' else 'O'][b := '.'] == Stage(grid, from, m, n, j + 1)
  {
    var a, b := ShiftN(from, m, n - j), ShiftN(from, m, n - 1 - j);
    RunIndexOf(from, m, n - j);
    RunIndexOf(from, m, n - 1 - j);
    var lhs := Stage(grid, from, m, n, j)[a := if n - 1 - j == 0 then '@' else 'O'][b := '.'];
    var rhs := Stage(grid, from, m, n, j + 1);
    assert StageCell(grid, from, m, n, j + 1, a) == if n - 1 - j == 0 then '@' else 'O';
    assert StageCell(grid, from, m, n, j + 1, b) == '.';
    assert lhs.Keys == grid.Keys == rhs.Keys;
    forall k | k in grid ensures lhs[k] == rhs[k] {
      if k != a && k != b {
        StageCellStep(grid, from, m, n, j, k);
      }
    }
    assert lhs == rhs;
  }

  /**
    The writes of `part_one` for one move: the chain in reverse, each entry written one
    cell ahead and its old cell freed. The map becomes `Pushed`.
   */
  method ApplyChain(map0: CoordMap, tm: seq<(char, Coords)>, from: Coords, mv: Move)
    modifies map0
    requires Pushable(map0.cells, from, mv, |tm|) && tm[0] == ('@', from)
    requires forall i :: 1 <= i < |tm| ==> tm[i] == ('O', ShiftN(from, mv, i))
    ensures map0.cells == Pushed(old(map0.cells), from, mv, |tm|)
  {
    ghost var grid := map0.cells;
    var n := |tm|;
    var rev := Reverse(tm);
    StageStart(grid, from, mv, n);
    for j := 0 to n
      invariant map0.cells == Stage(grid, from, mv, n, j)
    {
      WriteEntry(map0, grid, tm, from, mv, j, rev[j]);
    }
  }

  /** The two writes of `part_one` for entry `j` of the reversed chain. */
  method WriteEntry(map0: CoordMap, ghost grid: map<Coords, char>, ghost tm: seq<(char, Coords)>,
                    ghost from: Coords, mv: Move, ghost j: nat, e: (char, Coords))
    modifies map0
    requires Pushable(grid, from, mv, |tm|) && j < |tm| && tm[0] == ('@', from)
    requires forall i :: 1 <= i < |tm| ==> tm[i] == ('O', ShiftN(from, mv, i))
    requires e == Reverse(tm)[j] && map0.cells == Stage(grid, from, mv, |tm|, j)
    ensures map0.cells == Stage(grid, from, mv, |tm|, j + 1)
  {
    var (character, coords) := e;
    var becomes := GetShifted(coords, mv);
    ghost var cur := map0.cells;
    map0.Set(becomes, character);
    map0.Set(coords, '.');
    ChainWrite(grid, tm, from, mv, j, cur, map0.cells);
  }

  /** The two writes for entry `j` of the reversed chain take stage `j` to stage `j + 1`. */
  lemma ChainWrite(grid: map<Coords, char>, tm: seq<(char, Coords)>, from: Coords, mv: Move, j: nat,
                   cur: map<Coords, char>, after: map<Coords, char>)
    requires Pushable(grid, from, mv, |tm|) && j < |tm| && tm[0] == ('@', from)
    requires forall i :: 1 <= i < |tm| ==> tm[i] == ('O', ShiftN(from, mv, i))
    requires cur == Stage(grid, from, mv, |tm|, j)
    requires var e := Reverse(tm)[j]; after == cur[GetShifted(e.1, mv) := e.0][e.1 := '.']
    ensures after == Stage(grid, from, mv, |tm|, j + 1)
  {
    var n := |tm|;
    ChainEntry(tm, from, mv, j);
    ShiftNNext(from, mv, n - 1 - j);
    StageStep(grid, from, mv, n, j);
  }

  /** Entry `j` of the reversed chain is the one `n - 1 - j` cells ahead. */
  lemma ChainEntry(tm: seq<(char, Coords)>, from: Coords, mv: Move, j: nat)
    requires j < |tm| && tm[0] == ('@', from)
    requires forall i :: 1 <= i < |tm| ==> tm[i] == ('O', ShiftN(from, mv, i))
    ensures var i := |tm| - 1 - j;
      Reverse(tm)[j] == (if i == 0 then '@' else 'O', ShiftN(from, mv, i))
  {
  }

  /** A push moves no wall. */
  lemma PushedWalls(grid: map<Coords, char>, from: Coords, m: Move, n: nat)
    requires Pushable(grid, from, m, n)
    ensures CellsWith(Pushed(grid, from, m, n), '#') == CellsWith(grid, '#')
  {
    var p := Pushed(grid, from, m, n);
    forall k | k in grid ensures (p[k] == '#') == (grid[k] == '#') {
      match RunIndex(k, from, m)
      case Some(i) =>
        if 1 <= i < n {
          assert At(grid, ShiftN(from, m, i)) == Some('O');
        }
      case None =>
    }
  }

  /** A push moves the robot one cell ahead. */
  lemma PushedRobot(grid: map<Coords, char>, from: Coords, m: Move, n: nat)
    requires Pushable(grid, from, m, n)
    ensures CellsWith(Pushed(grid, from, m, n), '@') == CellsWith(grid, '@') - {from} + {ShiftN(from, m, 1)}
  {
    var p := Pushed(grid, from, m, n);
    RunIndexOf(from, m, 0);
    RunIndexOf(from, m, 1);
    assert ShiftN(from, m, 1) in grid by {
      if n > 1 {
        assert At(grid, ShiftN(from, m, 1)) == Some('O');
      }
    }
    forall k | k in grid && k != from && k != ShiftN(from, m, 1) ensures (p[k] == '@') == (grid[k] == '@') {
      match RunIndex(k, from, m)
      case Some(i) =>
        if 1 <= i < n {
          assert At(grid, ShiftN(from, m, i)) == Some('O');
        }
      case None =>
    }
  }

  /** A push moves the first box of the run to the free cell at its end. */
  lemma PushedBoxes(grid: map<Coords, char>, from: Coords, m: Move, n: nat)
    requires Pushable(grid, from, m, n)
    ensures n == 1 ==> CellsWith(Pushed(grid, from, m, n), 'O') == CellsWith(grid, 'O')
    ensures n > 1 ==> CellsWith(Pushed(grid, from, m, n), 'O') == CellsWith(grid, 'O') - {ShiftN(from, m, 1)} + {ShiftN(from, m, n)}
  {
    var p := Pushed(grid, from, m, n);
    RunIndexOf(from, m, 1);
    RunIndexOf(from, m, n);
    forall k | k in grid && k != ShiftN(from, m, 1) && k != ShiftN(from, m, n) ensures (p[k] == 'O') == (grid[k] == 'O') {
      match RunIndex(k, from, m)
      case Some(i) =>
        if 1 <= i < n {
          assert At(grid, ShiftN(from, m, i)) == Some('O');
        }
      case None =>
    }
  }

  /** A push keeps the number of boxes. */
  lemma PushedBoxCount(grid: map<Coords, char>, from: Coords, m: Move, n: nat)
    requires Pushable(grid, from, m, n)
    ensures |CellsWith(Pushed(grid, from, m, n), 'O')| == |CellsWith(grid, 'O')|
  {
    PushedBoxes(grid, from, m, n);
    if n > 1 {
      assert ShiftN(from, m, 1) in CellsWith(grid, 'O') by {
        assert At(grid, ShiftN(from, m, 1)) == Some('O');
      }
      assert ShiftN(from, m, n) !in CellsWith(grid, 'O');
      assert ShiftN(from, m, n) != ShiftN(from, m, 1) by {
        RunIndexOf(from, m, 1);
        RunIndexOf(from, m, n);
      }
    }
  }

  /** The one robot of a map. */
  ghost function Robot(grid: map<Coords, char>): (p: Coords)
    requires |CellsWith(grid, '@')| == 1
    ensures CellsWith(grid, '@') == {p}
  {
    var p :| p in CellsWith(grid, '@');
    assert CellsWith(grid, '@') - {p} == {} by {
      assert |CellsWith(grid, '@') - {p}| == |CellsWith(grid, '@')| - 1;
    }
    p
  }

  /**
    One move of part one: nothing changes when the boxes end at a wall; otherwise the map
    becomes `Pushed`; `None` where the source reaches `todo!()`. A move keeps the one
    robot, the walls and the number of boxes.
   */
  ghost function Step(grid: map<Coords, char>, mv: Move): (r: Option<map<Coords, char>>)
    requires |CellsWith(grid, '@')| == 1
    ensures r.Some? ==> |CellsWith(r.value, '@')| == 1
    ensures r.Some? ==> CellsWith(r.value, '#') == CellsWith(grid, '#')
    ensures r.Some? ==> |CellsWith(r.value, 'O')| == |CellsWith(grid, 'O')|
  {
    var from := Robot(grid);
    if exists n: nat :: RunEnds(grid, from, mv, n, Some('#')) then Some(grid)
    else if exists n: nat :: RunEnds(grid, from, mv, n, Some('.')) then
      var n: nat :| RunEnds(grid, from, mv, n, Some('.'));
      assert from in CellsWith(grid, '@');
      PushedRobot(grid, from, mv, n);
      PushedWalls(grid, from, mv, n);
      PushedBoxCount(grid, from, mv, n);
      var p := Pushed(grid, from, mv, n);
      assert CellsWith(p, '@') == {ShiftN(from, mv, 1)};
      Some(p)
    else None
  }

  lemma StepBlocked(grid: map<Coords, char>, mv: Move, n: nat)
    requires |CellsWith(grid, '@')| == 1 && RunEnds(grid, Robot(grid), mv, n, Some('#'))
    ensures Step(grid, mv) == Some(grid)
  {
  }

  lemma StepPushed(grid: map<Coords, char>, mv: Move, n: nat)
    requires |CellsWith(grid, '@')| == 1 && RunEnds(grid, Robot(grid), mv, n, Some('.'))
    ensures Step(grid, mv) == Some(Pushed(grid, Robot(grid), mv, n))
  {
    Ends(grid, Robot(grid), mv, n, Some('.'));
  }

  /** The moves one after another; `None` as soon as one reaches `todo!()`. */
  ghost function Walk(grid: map<Coords, char>, moves: seq<Move>): Option<map<Coords, char>>
    requires |CellsWith(grid, '@')| == 1
    decreases |moves|
  {
    if moves == [] then Some(grid)
    else
      match Step(grid, moves[0])
      case None => None
      case Some(g) => Walk(g, moves[1..])
  }

  /** The sum of `x + 100 * y` over a set of cells. */
  ghost function Score(s: set<Coords>): int
  {
    if s == {} then 0 else var p :| p in s; p.x + 100 * p.y + Score(s - {p})
  }

  /** `Score` may take the cells in any order. */
  lemma {:induction false} ScoreRemove(s: set<Coords>, p: Coords)
    requires p in s
    ensures Score(s) == p.x + 100 * p.y + Score(s - {p})
    decreases |s|
  {
    var q :| q in s && Score(s) == q.x + 100 * q.y + Score(s - {q});
    if q != p {
      ScoreRemove(s - {q}, p);
      ScoreRemove(s - {p}, q);
      assert s - {q} - {p} == s - {p} - {q};
    }
  }

  /** `find_score` (`find_score_2` with `[`): the score summed over the cells holding `c`. */
  method FindScore(grid: map<Coords, char>, c: char) returns (r: int)
    ensures r == Score(CellsWith(grid, c))
  {
    var boxes := CellsWith(grid, c);
    r := 0;
    var rest := boxes;
    while rest != {}
      invariant rest <= boxes && r + Score(rest) == Score(boxes)
      decreases |rest|
    {
      var p :| p in rest;
      ScoreRemove(rest, p);
      r := r + p.x + p.y * 100;
      rest := rest - {p};
    }
  }

  /** What `create_map` reads: a blank line between the map and the commands, and only arrows. */
  predicate Readable(input: string)
  {
    |SplitStr(input, "\n\n")| >= 2 && CommandsReadable(SplitStr(input, "\n\n")[1])
  }

  /** The map of `create_map`. The source builds it with `new_from_map`, taken here as `CoordMap::new`. */
  function MapOf(input: string): map<Coords, char>
  {
    GridMap(Lines(SplitStr(input, "\n\n")[0]))
  }

  /**
    `part_one`: every command applied to the map, then the boxes scored. `None` where
    the source reaches `todo!()`. The map must hold one robot.
   */
  method PartOne(input: string) returns (r: Option<int>)
    requires Readable(input) && |CellsWith(MapOf(input), '@')| == 1
    ensures match Walk(MapOf(input), Commands(SplitStr(input, "\n\n")[1]))
      case None => r.None?
      case Some(g) => r == Some(Score(CellsWith(g, 'O')))
  {
    var spl := SplitStr(input, "\n\n");
    var map0 := new CoordMap(spl[0]);
    var commands := Commands(spl[1]);
    for k := 0 to |commands|
      invariant |CellsWith(map0.cells, '@')| == 1
      invariant Walk(MapOf(input), commands) == Walk(map0.cells, commands[k..])
    {
      var mv := commands[k];
      ghost var before := map0.cells;
      var done := MoveOnce(map0, mv);
      if !done {
        return None;
      }
      assert commands[k..][0] == mv && commands[k..][1..] == commands[k + 1..];
    }
    var score := FindScore(map0.cells, 'O');
    r := Some(score);
  }

  /**
    One command of `part_one`: find the robot, scan ahead, and apply the chain.
    `false` where the source reaches `todo!()`.
   */
  method MoveOnce(map0: CoordMap, mv: Move) returns (done: bool)
    modifies map0
    requires |CellsWith(map0.cells, '@')| == 1
    ensures done <==> Step(old(map0.cells), mv).Some?
    ensures done ==> Step(old(map0.cells), mv) == Some(map0.cells)
  {
    assert map0.Find('@') == CellsWith(map0.cells, '@');
    var robot :| robot in map0.Find('@');
    assert robot == Robot(map0.cells);
    var toMove := ProcessCommand(map0.cells, robot, mv);
    match toMove {
      case Blocked =>
        ghost var n: nat :| RunEnds(map0.cells, robot, mv, n, Some('#'));
        StepBlocked(map0.cells, mv, n);
        done := true;
      case Chain(tm) =>
        StepPushed(map0.cells, mv, |tm|);
        ApplyChain(map0, tm, robot, mv);
        done := true;
      case Stuck =>
        done := false;
    }
  }

  // ---- part two -----------------------------------------------------------------------

  /** `str::replace` of one character by a text. */
  function ReplaceChar(s: string, c: char, rep: string): string
  {
    if s == [] then [] else ReplaceChar(s[..|s| - 1], c, rep) + (if s[|s| - 1] == c then rep else [s[|s| - 1]])
  }

  lemma {:induction false} ReplaceCharAppend(a: string, b: string, c: char, rep: string)
    ensures ReplaceChar(a + b, c, rep) == ReplaceChar(a, c, rep) + ReplaceChar(b, c, rep)
    decreases |b|
  {
    if b == [] {
      assert a + b == a;
    } else {
      var b' := b[..|b| - 1];
      assert (a + b)[..|a + b| - 1] == a + b';
      ReplaceCharAppend(a, b', c, rep);
    }
  }

  /** `part_two`'s widening, the four replacements of the source one after another. */
  function Widen(s: string): string
  {
    ReplaceChar(ReplaceChar(ReplaceChar(ReplaceChar(s, '#', "##"), 'O', "[]"), '.', ".."), '@', "@.")
  }

  /** The widened form of one character. */
  function WidenChar(c: char): string
  {
    match c
    case '#' => "##"
    case 'O' => "[]"
    case '.' => ".."
    case '@' => "@."
    case _ => [c]
  }

  function WidenEach(s: string): string
  {
    if s == [] then [] else WidenEach(s[..|s| - 1]) + WidenChar(s[|s| - 1])
  }

  /** The four replacements never see each other's output: each character widens on its own. */
  lemma {:induction false} WidenIsEach(s: string)
    ensures Widen(s) == WidenEach(s)
    decreases |s|
  {
    if s != [] {
      var f, c := s[..|s| - 1], s[|s| - 1];
      assert s == f + [c];
      WidenIsEach(f);
      ReplaceCharAppend(f, [c], '#', "##");
      assert ReplaceChar([c], '#', "##") == (if c == '#' then "##" else [c]) by {
        assert [c][..0] == [];
      }
      WidenCharStep(f, c);
    }
  }

  lemma WidenCharStep(f: string, c: char)
    ensures Widen(f + [c]) == Widen(f) + WidenChar(c)
  {
    var s1 := if c == '#' then "##" else [c];
    OneChar(c, '#', "##");
    ReplaceCharAppend(f, [c], '#', "##");
    var f1 := ReplaceChar(f, '#', "##");
    var s2 := if c == 'O' then "[]" else s1;
    ReplaceCharAppend(f1, s1, 'O', "[]");
    if c == '#' { TwoChars('#', '#', 'O', "[]"); } else { OneChar(c, 'O', "[]"); }
    var f2 := ReplaceChar(f1, 'O', "[]");
    var s3 := if c == '.' then ".." else s2;
    ReplaceCharAppend(f2, s2, '.', "..");
    if c == '#' { TwoChars('#', '#', '.', ".."); }
    else if c == 'O' { TwoChars('[', ']', '.', ".."); }
    else { OneChar(c, '.', ".."); }
    var f3 := ReplaceChar(f2, '.', "..");
    ReplaceCharAppend(f3, s3, '@', "@.");
    if c == '#' { TwoChars('#', '#', '@', "@."); }
    else if c == 'O' { TwoChars('[', ']', '@', "@."); }
    else if c == '.' { TwoChars('.', '.', '@', "@."); }
    else { OneChar(c, '@', "@."); }
  }

  lemma OneChar(c: char, d: char, rep: string)
    ensures ReplaceChar([c], d, rep) == if c == d then rep else [c]
  {
    assert [c][..0] == [];
  }

  lemma TwoChars(c: char, e: char, d: char, rep: string)
    requires c != d && e != d
    ensures ReplaceChar([c, e], d, rep) == [c, e]
  {
    assert [c, e][..1] == [c];
    OneChar(c, d, rep);
  }

  predicate Vertical(m: Move)
  {
    m == Up || m == Down
  }

  predicate IsHalf(c: char)
  {
    c == '[' || c == ']'
  }

  /** The cell holding the other half of the box half `e`. */
  function Partner(e: (char, Coords)): Coords
  {
    GetShifted(e.1, if e.0 == '[' then Right else Left)
  }

  /** Every box half on the map has its other half beside it. */
  ghost predicate WellFormed(grid: map<Coords, char>)
  {
    forall p :: p in grid && IsHalf(grid[p]) ==>
      At(grid, Partner((grid[p], p))) == Some(if grid[p] == '[' then ']' else '[')
  }

  function Positions(tm: seq<(char, Coords)>): set<Coords>
  {
    set e | e in tm :: e.1
  }

  /** An entry of a chain shows what its cell holds, and the cell it moves into is free or moves too. */
  ghost predicate Settled(grid: map<Coords, char>, mv: Move, e: (char, Coords), ps: set<Coords>)
  {
    At(grid, e.1) == Some(e.0) && (At(grid, GetShifted(e.1, mv)) == Some('.') || GetShifted(e.1, mv) in ps)
  }

  /** On a vertical move, the other half of a box half moves along. */
  ghost predicate Paired(mv: Move, e: (char, Coords), ps: set<Coords>)
  {
    Vertical(mv) && IsHalf(e.0) ==> Partner(e) in ps
  }

  /** Every entry but the one at `k` is settled. */
  ghost predicate SettledExcept(grid: map<Coords, char>, mv: Move, tm: seq<(char, Coords)>, k: int)
  {
    forall i :: 0 <= i < |tm| && i != k ==> Settled(grid, mv, tm[i], Positions(tm))
  }

  /** The chain's entries below `k` are paired, except the first one of a partner's chain. */
  ghost predicate PairedBelow(mv: Move, tm: seq<(char, Coords)>, k: int, fromAdj: bool)
    requires k <= |tm|
  {
    forall i :: 0 <= i < k && (i > 0 || !fromAdj) ==> Paired(mv, tm[i], Positions(tm))
  }

  ghost predicate HalvesBelow(tm: seq<(char, Coords)>, k: int)
    requires k <= |tm|
  {
    forall i :: 0 < i < k ==> IsHalf(tm[i].0)
  }

  /**
    What `process_command_2` promises of the chain it returns: it starts at `from`,
    every entry is settled, and on a well-formed map the entries after the first are
    box halves whose partners move along.
   */
  ghost predicate Chained(grid: map<Coords, char>, from: Coords, mv: Move, fromAdj: bool, tm: seq<(char, Coords)>)
  {
    |tm| >= 1 && from in grid && tm[0] == (grid[from], from) && SettledExcept(grid, mv, tm, |tm|) &&
    (WellFormed(grid) ==> PairedBelow(mv, tm, |tm|, fromAdj) && HalvesBelow(tm, |tm|))
  }

  /**
    The entry `e` makes the cell `p` move too: `p` is the box half right ahead of it,
    or, on a vertical move, the other half of the box half `e` holds.
   */
  ghost predicate Forces(grid: map<Coords, char>, mv: Move, e: (char, Coords), p: Coords)
  {
    (p == GetShifted(e.1, mv) && p in grid && IsHalf(grid[p])) || (Vertical(mv) && IsHalf(e.0) && p == Partner(e))
  }

  /** The entry at `i` is made to move by an earlier one. */
  ghost predicate Justified(grid: map<Coords, char>, mv: Move, tm: seq<(char, Coords)>, i: int)
    requires 0 <= i < |tm|
  {
    exists j :: 0 <= j < i && Forces(grid, mv, tm[j], tm[i].1)
  }

  /** A chain from `from` whose every later entry is made to move by an earlier one. */
  ghost predicate Forced(grid: map<Coords, char>, from: Coords, mv: Move, tm: seq<(char, Coords)>)
  {
    |tm| >= 1 && tm[0].1 == from && Snapshot(grid, tm) &&
    forall i :: 0 < i < |tm| ==> Justified(grid, mv, tm, i)
  }

  /** Some entry of the chain has a wall right ahead of it. */
  ghost predicate Jammed(grid: map<Coords, char>, mv: Move, tm: seq<(char, Coords)>)
  {
    exists i :: 0 <= i < |tm| && At(grid, GetShifted(tm[i].1, mv)) == Some('#')
  }

  /** A wall right ahead of some cell that has to move along with `from`. */
  ghost predicate WallInWay(grid: map<Coords, char>, from: Coords, mv: Move)
  {
    exists tm :: Forced(grid, from, mv, tm) && Jammed(grid, mv, tm)
  }

  /** A set of cells that holds every cell one of its members makes move. */
  ghost predicate Closed(grid: map<Coords, char>, mv: Move, ps: set<Coords>)
  {
    forall p, q :: p in ps && p in grid && Forces(grid, mv, (grid[p], p), q) ==> q in ps
  }

  /** A box half right ahead of an entry joins a forced chain. */
  lemma ForcedPush(grid: map<Coords, char>, from: Coords, mv: Move, tm: seq<(char, Coords)>, k: int, e: (char, Coords))
    requires Forced(grid, from, mv, tm) && 0 <= k < |tm|
    requires e.1 == GetShifted(tm[k].1, mv) && At(grid, e.1) == Some(e.0) && IsHalf(e.0)
    ensures Forced(grid, from, mv, tm + [e])
  {
    var t := tm + [e];
    forall i | 0 <= i < |t| ensures At(grid, t[i].1) == Some(t[i].0) {
      if i < |tm| {
        assert t[i] == tm[i];
      }
    }
    forall i | 0 < i < |t| ensures Justified(grid, mv, t, i) {
      if i < |tm| {
        assert Justified(grid, mv, tm, i);
        var j :| 0 <= j < i && Forces(grid, mv, tm[j], tm[i].1);
        assert t[j] == tm[j] && t[i] == tm[i];
      } else {
        assert t[k] == tm[k];
        assert Forces(grid, mv, t[k], t[i].1);
      }
    }
  }

  /** The partner's forced chain, appended, keeps the chain forced, and a wall it meets stays in the way. */
  lemma ForcedJoin(grid: map<Coords, char>, from: Coords, mv: Move, tm: seq<(char, Coords)>, k: int,
                   a: seq<(char, Coords)>, adjacent: Coords)
    requires Forced(grid, from, mv, tm) && 0 <= k < |tm| && Vertical(mv) && IsHalf(tm[k].0)
    requires adjacent == Partner(tm[k]) && Forced(grid, adjacent, mv, a)
    ensures Forced(grid, from, mv, tm + a)
    ensures Jammed(grid, mv, a) ==> Jammed(grid, mv, tm + a)
  {
    var t := tm + a;
    forall i | 0 <= i < |t| ensures t[i] == if i < |tm| then tm[i] else a[i - |tm|] {
    }
    forall i | 0 < i < |t| ensures Justified(grid, mv, t, i) {
      if i < |tm| {
        assert Justified(grid, mv, tm, i);
        var j :| 0 <= j < i && Forces(grid, mv, tm[j], tm[i].1);
        assert t[j] == tm[j];
      } else if i == |tm| {
        assert Forces(grid, mv, t[k], t[i].1);
      } else {
        assert Justified(grid, mv, a, i - |tm|);
        var j :| 0 <= j < i - |tm| && Forces(grid, mv, a[j], a[i - |tm|].1);
        assert t[j + |tm|] == a[j];
      }
    }
    if Jammed(grid, mv, a) {
      var i :| 0 <= i < |a| && At(grid, GetShifted(a[i].1, mv)) == Some('#');
      assert t[i + |tm|] == a[i];
    }
  }

  /** A wall in the way of the partner is in the way of the chain. */
  lemma WallJoin(grid: map<Coords, char>, from: Coords, mv: Move, tm: seq<(char, Coords)>, k: int, adjacent: Coords)
    requires Forced(grid, from, mv, tm) && 0 <= k < |tm| && Vertical(mv) && IsHalf(tm[k].0)
    requires adjacent == Partner(tm[k]) && WallInWay(grid, adjacent, mv)
    ensures WallInWay(grid, from, mv)
  {
    var a :| Forced(grid, adjacent, mv, a) && Jammed(grid, mv, a);
    ForcedJoin(grid, from, mv, tm, k, a, adjacent);
  }

  /** The first `n` cells of a forced chain lie in every closed set holding `from`. */
  lemma {:induction false} ForcedWithin(grid: map<Coords, char>, from: Coords, mv: Move, tm: seq<(char, Coords)>,
                                        ps: set<Coords>, n: nat)
    requires Forced(grid, from, mv, tm) && from in ps && Closed(grid, mv, ps) && n <= |tm|
    ensures forall i :: 0 <= i < n ==> tm[i].1 in ps
    decreases n
  {
    if n > 0 {
      ForcedWithin(grid, from, mv, tm, ps, n - 1);
      var i := n - 1;
      if i > 0 {
        assert Justified(grid, mv, tm, i);
        var j :| 0 <= j < i && Forces(grid, mv, tm[j], tm[i].1);
        var p := tm[j].1;
        assert At(grid, p) == Some(tm[j].0);
        assert tm[j] == (grid[p], p);
        assert Forces(grid, mv, (grid[p], p), tm[i].1);
      }
    }
  }

  /** The cells of a chain the scan returns for the robot take along everything they force. */
  lemma ChainedClosed(grid: map<Coords, char>, from: Coords, mv: Move, tm: seq<(char, Coords)>)
    requires Chained(grid, from, mv, false, tm) && WellFormed(grid)
    ensures Closed(grid, mv, Positions(tm))
  {
    var ps := Positions(tm);
    forall p, q | p in ps && p in grid && Forces(grid, mv, (grid[p], p), q) ensures q in ps {
      var e :| e in tm && e.1 == p;
      var i :| 0 <= i < |tm| && tm[i] == e;
      assert Settled(grid, mv, tm[i], ps) && Paired(mv, tm[i], ps);
      assert tm[i] == (grid[p], p);
    }
  }

  /**
    A chain the scan returns for the robot is exactly the closure of the robot's cell:
    its cells take along everything they force, and every closed set holding the robot
    holds them all.
   */
  lemma ChainIsClosure(grid: map<Coords, char>, from: Coords, mv: Move, tm: seq<(char, Coords)>)
    requires Chained(grid, from, mv, false, tm) && Forced(grid, from, mv, tm) && WellFormed(grid)
    ensures Closed(grid, mv, Positions(tm)) && from in Positions(tm)
    ensures forall ps :: from in ps && Closed(grid, mv, ps) ==> Positions(tm) <= ps
  {
    ChainedClosed(grid, from, mv, tm);
    assert tm[0] in tm;
    forall ps | from in ps && Closed(grid, mv, ps) ensures Positions(tm) <= ps {
      ForcedWithin(grid, from, mv, tm, ps, |tm|);
      forall p | p in Positions(tm) ensures p in ps {
        var e :| e in tm && e.1 == p;
        var i :| 0 <= i < |tm| && tm[i] == e;
      }
    }
  }

  /** When the scan returns a chain for the robot, no wall is in the way. */
  lemma ChainedFree(grid: map<Coords, char>, from: Coords, mv: Move, tm: seq<(char, Coords)>)
    requires Chained(grid, from, mv, false, tm) && WellFormed(grid) && grid[from] == '@'
    ensures !WallInWay(grid, from, mv)
  {
    var ps := Positions(tm);
    ChainedClosed(grid, from, mv, tm);
    assert tm[0] in tm;
    forall t: seq<(char, Coords)> | Forced(grid, from, mv, t) ensures !Jammed(grid, mv, t) {
      ForcedWithin(grid, from, mv, t, ps, |t|);
      forall i | 0 <= i < |t| ensures At(grid, GetShifted(t[i].1, mv)) != Some('#') {
        var e :| e in tm && e.1 == t[i].1;
        var l :| 0 <= l < |tm| && tm[l] == e;
        assert Settled(grid, mv, tm[l], ps);
        var q := GetShifted(e.1, mv);
        if q in ps {
          var e2 :| e2 in tm && e2.1 == q;
          var l2 :| 0 <= l2 < |tm| && tm[l2] == e2;
          assert Settled(grid, mv, tm[l2], ps);
          if l2 > 0 {
            assert IsHalf(tm[l2].0);
          }
        }
      }
    }
  }

  lemma BeyondNext(c: Coords, from: Coords, mv: Move)
    requires c == from || Beyond(c, from, mv)
    ensures Beyond(GetShifted(c, mv), from, mv)
  {
  }

  lemma AheadBeyond(grid: map<Coords, char>, c: Coords, from: Coords, mv: Move)
    requires Beyond(c, from, mv) && c in grid
    ensures Ahead(grid, c, mv) < Ahead(grid, from, mv)
    ensures |Ahead(grid, c, mv)| < |Ahead(grid, from, mv)|
  {
    var a, b := Ahead(grid, c, mv), Ahead(grid, from, mv);
    assert c in b && c !in a;
    assert b == a + (b - a) && a * (b - a) == {};
    assert |b - a| >= 1 by {
      assert c in b - a;
    }
  }

  lemma AheadLevel(grid: map<Coords, char>, c: Coords, d: Coords, mv: Move)
    requires Vertical(mv) && c.y == d.y
    ensures Ahead(grid, c, mv) == Ahead(grid, d, mv)
  {
  }

  lemma PairedExtend(mv: Move, tm: seq<(char, Coords)>, a: seq<(char, Coords)>, k: int, fromAdj: bool)
    requires k <= |tm| && PairedBelow(mv, tm, k, fromAdj)
    ensures PairedBelow(mv, tm + a, k, fromAdj)
  {
    assert Positions(tm) <= Positions(tm + a);
    forall i | 0 <= i < k && (i > 0 || !fromAdj) ensures Paired(mv, (tm + a)[i], Positions(tm + a)) {
      assert (tm + a)[i] == tm[i];
    }
  }

  lemma SubPaired(mv: Move, tm: seq<(char, Coords)>, a: seq<(char, Coords)>)
    requires |a| >= 1 && PairedBelow(mv, a, |a|, true) && Paired(mv, a[0], Positions(tm + a))
    ensures forall i :: |tm| <= i < |tm + a| ==> Paired(mv, (tm + a)[i], Positions(tm + a))
  {
    assert Positions(a) <= Positions(tm + a);
    forall i | |tm| <= i < |tm + a| ensures Paired(mv, (tm + a)[i], Positions(tm + a)) {
      assert (tm + a)[i] == a[i - |tm|];
    }
  }

  lemma SubHalves(tm: seq<(char, Coords)>, a: seq<(char, Coords)>)
    requires |a| >= 1 && HalvesBelow(a, |a|) && IsHalf(a[0].0) && HalvesBelow(tm, |tm|)
    ensures HalvesBelow(tm + a, |tm + a|)
  {
    forall i | 0 < i < |tm + a| ensures IsHalf((tm + a)[i].0) {
      if i >= |tm| {
        assert (tm + a)[i] == a[i - |tm|];
      } else {
        assert (tm + a)[i] == tm[i];
      }
    }
  }

  /** Each entry shows what its cell holds. */
  ghost predicate Snapshot(grid: map<Coords, char>, tm: seq<(char, Coords)>)
  {
    forall i :: 0 <= i < |tm| ==> At(grid, tm[i].1) == Some(tm[i].0)
  }

  /** The loop invariant of `process_command_2`, for the chain `tm` whose last entry is being extended. */
  ghost predicate Growing(grid: map<Coords, char>, from: Coords, mv: Move, fromAdj: bool, tm: seq<(char, Coords)>)
  {
    |tm| >= 1 && from in grid && tm[0] == (grid[from], from) && Snapshot(grid, tm) &&
    SettledExcept(grid, mv, tm, |tm| - 1) &&
    (WellFormed(grid) ==> PairedBelow(mv, tm, |tm| - 1, fromAdj) && HalvesBelow(tm, |tm|)) &&
    (|tm| == 1 || Beyond(tm[|tm| - 1].1, from, mv))
  }

  /**
    After the partner's chain `a` (empty when no partner was taken along) is appended,
    everything but the entry at `k` is settled, and the entry at `k` is paired.
   */
  lemma AfterPartner(grid: map<Coords, char>, from: Coords, mv: Move, fromAdj: bool, tm: seq<(char, Coords)>,
                     a: seq<(char, Coords)>, rec: bool, adjacent: Coords)
    requires Growing(grid, from, mv, fromAdj, tm)
    requires var e := tm[|tm| - 1];
      (rec ==> Chained(grid, adjacent, mv, true, a) && Vertical(mv) && IsHalf(e.0) && adjacent == Partner(e)) &&
      (!rec ==> a == [] && (!(Vertical(mv) && IsHalf(e.0)) || (|tm| == 1 && fromAdj)))
    ensures Snapshot(grid, tm + a) && SettledExcept(grid, mv, tm + a, |tm| - 1)
    ensures WellFormed(grid) ==> PairedBelow(mv, tm + a, |tm + a|, fromAdj) && HalvesBelow(tm + a, |tm + a|)
  {
    var t := tm + a;
    var k := |tm| - 1;
    assert Positions(tm) <= Positions(t) && Positions(a) <= Positions(t);
    forall i | 0 <= i < |t| ensures t[i] == if i < |tm| then tm[i] else a[i - |tm|] {
    }
    forall i | 0 <= i < |t| && i != k ensures Settled(grid, mv, t[i], Positions(t)) {
      if i < |tm| {
        assert Settled(grid, mv, tm[i], Positions(tm));
      } else {
        assert Settled(grid, mv, a[i - |tm|], Positions(a));
      }
    }
    if WellFormed(grid) {
      AfterPartnerPaired(grid, from, mv, fromAdj, tm, a, rec, adjacent);
    }
  }

  /** The pairing half of `AfterPartner`. */
  lemma AfterPartnerPaired(grid: map<Coords, char>, from: Coords, mv: Move, fromAdj: bool, tm: seq<(char, Coords)>,
                           a: seq<(char, Coords)>, rec: bool, adjacent: Coords)
    requires Growing(grid, from, mv, fromAdj, tm) && WellFormed(grid)
    requires var e := tm[|tm| - 1];
      (rec ==> Chained(grid, adjacent, mv, true, a) && Vertical(mv) && IsHalf(e.0) && adjacent == Partner(e)) &&
      (!rec ==> a == [] && (!(Vertical(mv) && IsHalf(e.0)) || (|tm| == 1 && fromAdj)))
    ensures PairedBelow(mv, tm + a, |tm + a|, fromAdj) && HalvesBelow(tm + a, |tm + a|)
  {
    var t := tm + a;
    var k := |tm| - 1;
    assert Positions(tm) <= Positions(t) && Positions(a) <= Positions(t);
    forall i | 0 <= i < |t| ensures t[i] == if i < |tm| then tm[i] else a[i - |tm|] {
    }
    forall i | 0 <= i < |t| && (i > 0 || !fromAdj) ensures Paired(mv, t[i], Positions(t)) {
      if i < k {
        assert Paired(mv, tm[i], Positions(tm));
      } else if i == k {
        if rec {
          assert adjacent in Positions(a);
        }
      } else if i == |tm| {
        var e := tm[k];
        assert At(grid, e.1) == Some(e.0);
        assert grid[adjacent] == if e.0 == '[' then ']' else '[';
        assert a[0] == (grid[adjacent], adjacent);
        ShiftBack(e.1, if e.0 == '[' then Right else Left);
        assert Partner(a[0]) == e.1;
        assert e.1 in Positions(t);
      } else {
        assert Paired(mv, a[i - |tm|], Positions(a));
      }
    }
    forall i | 0 < i < |t| ensures IsHalf(t[i].0) {
      if i == |tm| {
        var e := tm[k];
        assert At(grid, e.1) == Some(e.0);
        assert a[0] == (grid[adjacent], adjacent);
      }
    }
  }

  /** Everything but the entry at `k`, whose cell ahead is scanned next, is settled. */
  ghost predicate Ready(grid: map<Coords, char>, from: Coords, mv: Move, fromAdj: bool, tm: seq<(char, Coords)>, k: int)
  {
    |tm| >= 1 && from in grid && tm[0] == (grid[from], from) && Snapshot(grid, tm) && 0 <= k < |tm| &&
    SettledExcept(grid, mv, tm, k) && (WellFormed(grid) ==> PairedBelow(mv, tm, |tm|, fromAdj) && HalvesBelow(tm, |tm|)) &&
    (k == 0 || Beyond(tm[k].1, from, mv)) && (k == 0 ==> tm[k].1 == from) && Forced(grid, from, mv, tm)
  }

  /** The first half of the scan loop: once the partner's chain is appended, the last entry of `tm` is scanned next. */
  lemma Joined(grid: map<Coords, char>, from: Coords, mv: Move, fromAdj: bool, tm: seq<(char, Coords)>,
               a: seq<(char, Coords)>, rec: bool, adjacent: Coords)
    requires Growing(grid, from, mv, fromAdj, tm) && Forced(grid, from, mv, tm)
    requires var e := tm[|tm| - 1];
      (rec ==> Chained(grid, adjacent, mv, true, a) && Forced(grid, adjacent, mv, a) && Vertical(mv) && IsHalf(e.0) &&
               adjacent == Partner(e)) &&
      (!rec ==> a == [] && (!(Vertical(mv) && IsHalf(e.0)) || (|tm| == 1 && fromAdj)))
    ensures Ready(grid, from, mv, fromAdj, tm + a, |tm| - 1) && (tm + a)[|tm| - 1] == tm[|tm| - 1]
  {
    AfterPartner(grid, from, mv, fromAdj, tm, a, rec, adjacent);
    if rec {
      ForcedJoin(grid, from, mv, tm, |tm| - 1, a, adjacent);
    } else {
      assert tm + a == tm;
    }
  }

  /** The entry at `k` is settled when the cell ahead of it is free. */
  lemma CloseChain(grid: map<Coords, char>, from: Coords, mv: Move, fromAdj: bool, tm: seq<(char, Coords)>, k: int)
    requires |tm| >= 1 && from in grid && tm[0] == (grid[from], from) && Snapshot(grid, tm) && 0 <= k < |tm|
    requires SettledExcept(grid, mv, tm, k) && At(grid, GetShifted(tm[k].1, mv)) == Some('.')
    requires WellFormed(grid) ==> PairedBelow(mv, tm, |tm|, fromAdj) && HalvesBelow(tm, |tm|)
    ensures Chained(grid, from, mv, fromAdj, tm)
  {
  }

  /** Pushing the box half ahead of the entry at `k` settles that entry. */
  lemma PushChain(grid: map<Coords, char>, from: Coords, mv: Move, fromAdj: bool, tm: seq<(char, Coords)>, k: int, e: (char, Coords))
    requires |tm| >= 1 && from in grid && tm[0] == (grid[from], from) && Snapshot(grid, tm) && 0 <= k < |tm|
    requires SettledExcept(grid, mv, tm, k) && e.1 == GetShifted(tm[k].1, mv) && At(grid, e.1) == Some(e.0) && IsHalf(e.0)
    requires WellFormed(grid) ==> PairedBelow(mv, tm, |tm|, fromAdj) && HalvesBelow(tm, |tm|)
    requires Beyond(e.1, from, mv)
    ensures Growing(grid, from, mv, fromAdj, tm + [e])
  {
    var t := tm + [e];
    assert Positions(tm) <= Positions(t) && e.1 in Positions(t);
    forall i | 0 <= i < |t| - 1 ensures Settled(grid, mv, t[i], Positions(t)) {
      assert t[i] == tm[i];
      if i != k {
        assert Settled(grid, mv, tm[i], Positions(tm));
      }
    }
    if WellFormed(grid) {
      forall i | 0 <= i < |t| - 1 && (i > 0 || !fromAdj) ensures Paired(mv, t[i], Positions(t)) {
        assert t[i] == tm[i];
        assert Paired(mv, tm[i], Positions(tm));
      }
    }
  }

  /**
    `process_command_2`: the cells that move along with `from`. On a vertical move a box
    half first takes its partner's chain along (not for the first cell of a partner's
    own chain); any wall that is met rejects the whole move. `Stuck` where the source
    panics: `from` off the map, or a cell ahead that is neither free, a wall nor a box.
   */
  method ProcessCommand2(grid: map<Coords, char>, from: Coords, mv: Move, fromAdj: bool) returns (r: Scan)
    ensures r.Chain? ==> Chained(grid, from, mv, fromAdj, r.moves) && Forced(grid, from, mv, r.moves)
    ensures r.Blocked? ==> WallInWay(grid, from, mv)
    decreases |Ahead(grid, from, mv)|, if fromAdj then 0 else 1
  {
    if from !in grid {
      return Stuck;
    }
    var fromChar := grid[from];
    var toMove := [(fromChar, from)];
    var blockToAdj := fromAdj;
    while true
      invariant Growing(grid, from, mv, fromAdj, toMove) && Forced(grid, from, mv, toMove)
      invariant blockToAdj == (|toMove| == 1 && fromAdj)
      decreases |Ahead(grid, toMove[|toMove| - 1].1, mv)|
    {
      var (ch, c) := toMove[|toMove| - 1];
      var k := |toMove| - 1;
      assert At(grid, c) == Some(ch);
      if c != from {
        AheadBeyond(grid, c, from, mv);
      }
      if !blockToAdj && Vertical(mv) && IsHalf(ch) {
        var adjOn := if ch == '[' then Right else Left;
        var adjacent := GetShifted(c, adjOn);
        AheadLevel(grid, adjacent, c, mv);
        var adjResult := ProcessCommand2(grid, adjacent, mv, true);
        match adjResult {
          case Chain(a) =>
            Joined(grid, from, mv, fromAdj, toMove, a, true, adjacent);
            toMove := toMove + a;
          case Blocked =>
            WallJoin(grid, from, mv, toMove, k, adjacent);
            return Blocked;
          case Stuck =>
            return Stuck;
        }
      } else {
        Joined(grid, from, mv, fromAdj, toMove, [], false, c);
        assert toMove + [] == toMove;
      }
      var done;
      done, r, toMove := StepAhead(grid, from, mv, fromAdj, toMove, k);
      if done {
        return;
      }
      blockToAdj := false;
    }
  }

  /**
    The second half of the loop of `process_command_2`: the cell ahead of the entry at
    `k` stops the scan at a free cell or a wall, or is a box half that joins the chain.
   */
  method StepAhead(grid: map<Coords, char>, from: Coords, mv: Move, fromAdj: bool, tm: seq<(char, Coords)>, k: int)
    returns (done: bool, r: Scan, tm': seq<(char, Coords)>)
    requires Ready(grid, from, mv, fromAdj, tm, k)
    ensures done && r.Chain? ==> Chained(grid, from, mv, fromAdj, r.moves) && Forced(grid, from, mv, r.moves)
    ensures done && r.Blocked? ==> WallInWay(grid, from, mv)
    ensures !done ==> Growing(grid, from, mv, fromAdj, tm') && Forced(grid, from, mv, tm') && |tm'| > 1
    ensures !done ==> |Ahead(grid, tm'[|tm'| - 1].1, mv)| < |Ahead(grid, tm[k].1, mv)|
  {
    var c := tm[k].1;
    var next := GetShifted(c, mv);
    BeyondNext(c, from, mv);
    tm' := tm;
    match At(grid, next) {
      case Some('#') =>
        assert Jammed(grid, mv, tm);
        return true, Blocked, tm;
      case Some('.') =>
        CloseChain(grid, from, mv, fromAdj, tm, k);
        return true, Chain(tm), tm;
      case Some('[') =>
        AheadShrinks(grid, c, mv);
        PushChain(grid, from, mv, fromAdj, tm, k, ('[', next));
        ForcedPush(grid, from, mv, tm, k, ('[', next));
        return false, Stuck, tm + [('[', next)];
      case Some(']') =>
        AheadShrinks(grid, c, mv);
        PushChain(grid, from, mv, fromAdj, tm, k, (']', next));
        ForcedPush(grid, from, mv, tm, k, (']', next));
        return false, Stuck, tm + [(']', next)];
      case _ =>
        return true, Stuck, tm;
    }
  }

  /** The cells the entries of a chain move into. */
  function Targets(tm: seq<(char, Coords)>, mv: Move): set<Coords>
  {
    set e | e in tm :: GetShifted(e.1, mv)
  }

  /** What the last entry moving into `k` carries there. */
  function LastWrite(tm: seq<(char, Coords)>, mv: Move, k: Coords): (r: Option<char>)
    ensures r.Some? <==> k in Targets(tm, mv)
    ensures r.Some? ==> exists e :: e in tm && GetShifted(e.1, mv) == k && e.0 == r.value
  {
    if tm == [] then None
    else
      var e, front := tm[|tm| - 1], tm[..|tm| - 1];
      assert tm == front + [e];
      assert Targets(tm, mv) == Targets(front, mv) + {GetShifted(e.1, mv)};
      if GetShifted(e.1, mv) == k then Some(e.0) else LastWrite(front, mv, k)
  }

  /**
    A cell after the writes of `part_two` for one move: the last character moved into
    it; otherwise free if something moved out of it; otherwise unchanged.
   */
  function AppliedCell(grid: map<Coords, char>, tm: seq<(char, Coords)>, mv: Move, k: Coords): char
    requires k in grid || k in Targets(tm, mv) || k in Positions(tm)
  {
    match LastWrite(tm, mv, k)
    case Some(c) => c
    case None => if k in Positions(tm) then '.' else grid[k]
  }

  function Applied(grid: map<Coords, char>, tm: seq<(char, Coords)>, mv: Move): map<Coords, char>
  {
    map k | k in grid.Keys + Targets(tm, mv) + Positions(tm) :: AppliedCell(grid, tm, mv, k)
  }

  lemma AppliedEmpty(grid: map<Coords, char>, mv: Move)
    ensures Applied(grid, [], mv) == grid
  {
    assert Targets([], mv) == {} && Positions([]) == {};
  }

  /** One cell after appending an entry to a chain. */
  lemma AppliedStepCell(grid: map<Coords, char>, f: seq<(char, Coords)>, c: char, p: Coords, mv: Move, k: Coords)
    requires k in grid || k in Targets(f + [(c, p)], mv) || k in Positions(f + [(c, p)])
    ensures var g := f + [(c, p)]; var t := GetShifted(p, mv);
      k != t && !(k == p && p !in Targets(g, mv)) ==> k in grid || k in Targets(f, mv) || k in Positions(f)
    ensures var g := f + [(c, p)]; var t := GetShifted(p, mv);
      AppliedCell(grid, g, mv, k) ==
        if k == t then c
        else if k == p && p !in Targets(g, mv) then '.'
        else AppliedCell(grid, f, mv, k)
  {
    var g := f + [(c, p)];
    var t := GetShifted(p, mv);
    TargetsAppend(f, c, p, mv);
    assert g[..|g| - 1] == f && g[|g| - 1] == (c, p);
    assert LastWrite(g, mv, k) == if t == k then Some(c) else LastWrite(f, mv, k);
  }

  lemma TargetsAppend(f: seq<(char, Coords)>, c: char, p: Coords, mv: Move)
    ensures Targets(f + [(c, p)], mv) == Targets(f, mv) + {GetShifted(p, mv)}
    ensures Positions(f + [(c, p)]) == Positions(f) + {p}
  {
    var g := f + [(c, p)];
    assert forall e :: e in g <==> e in f || e == (c, p);
  }

  /** One entry of the `was_set` loop. */
  lemma AppliedStep(grid: map<Coords, char>, f: seq<(char, Coords)>, c: char, p: Coords, mv: Move)
    ensures Targets(f + [(c, p)], mv) == Targets(f, mv) + {GetShifted(p, mv)}
    ensures p in Targets(f + [(c, p)], mv) ==>
      Applied(grid, f + [(c, p)], mv) == Applied(grid, f, mv)[GetShifted(p, mv) := c]
    ensures p !in Targets(f + [(c, p)], mv) ==>
      Applied(grid, f + [(c, p)], mv) == Applied(grid, f, mv)[GetShifted(p, mv) := c][p := '.']
  {
    TargetsAppend(f, c, p, mv);
    if p in Targets(f + [(c, p)], mv) {
      AppliedKept(grid, f, c, p, mv);
    } else {
      AppliedFreed(grid, f, c, p, mv);
    }
  }

  /** The entry leaves a cell something was moved into already: only its target changes. */
  lemma AppliedKept(grid: map<Coords, char>, f: seq<(char, Coords)>, c: char, p: Coords, mv: Move)
    requires p in Targets(f + [(c, p)], mv)
    ensures Applied(grid, f + [(c, p)], mv) == Applied(grid, f, mv)[GetShifted(p, mv) := c]
  {
    var n := Applied(grid, f + [(c, p)], mv);
    var a := Applied(grid, f, mv)[GetShifted(p, mv) := c];
    AppliedKeysAppend(grid, f, c, p, mv);
    TargetsAppend(f, c, p, mv);
    forall k | k in n ensures n[k] == a[k] {
      AppliedStepCell(grid, f, c, p, mv, k);
    }
    MapsEqual(n, a);
  }

  /** The entry leaves a cell nothing was moved into: it is freed. */
  lemma AppliedFreed(grid: map<Coords, char>, f: seq<(char, Coords)>, c: char, p: Coords, mv: Move)
    requires p !in Targets(f + [(c, p)], mv)
    ensures Applied(grid, f + [(c, p)], mv) == Applied(grid, f, mv)[GetShifted(p, mv) := c][p := '.']
  {
    var n := Applied(grid, f + [(c, p)], mv);
    var b := Applied(grid, f, mv)[GetShifted(p, mv) := c][p := '.'];
    AppliedKeysAppend(grid, f, c, p, mv);
    forall k | k in n ensures n[k] == b[k] {
      AppliedStepCell(grid, f, c, p, mv, k);
    }
    MapsEqual(n, b);
  }

  lemma AppliedKeysAppend(grid: map<Coords, char>, f: seq<(char, Coords)>, c: char, p: Coords, mv: Move)
    ensures Applied(grid, f + [(c, p)], mv).Keys == Applied(grid, f, mv).Keys + {GetShifted(p, mv), p}
  {
    TargetsAppend(f, c, p, mv);
  }

  lemma MapsEqual(n: map<Coords, char>, b: map<Coords, char>)
    requires n.Keys == b.Keys && forall k | k in n :: n[k] == b[k]
    ensures n == b
  {
  }

  /** The writes of `part_two` for one move, freeing a cell only if nothing was moved into it yet. */
  method ApplyChain2(map0: CoordMap, tm: seq<(char, Coords)>, mv: Move)
    modifies map0
    ensures map0.cells == Applied(old(map0.cells), tm, mv)
  {
    ghost var grid := map0.cells;
    var wasSet: set<Coords> := {};
    AppliedEmpty(grid, mv);
    for i := 0 to |tm|
      invariant map0.cells == Applied(grid, tm[..i], mv) && wasSet == Targets(tm[..i], mv)
    {
      var (character, coords) := tm[i];
      var becomes := GetShifted(coords, mv);
      assert tm[..i + 1] == tm[..i] + [(character, coords)];
      AppliedStep(grid, tm[..i], character, coords, mv);
      map0.Set(becomes, character);
      wasSet := wasSet + {becomes};
      if coords !in wasSet {
        map0.Set(coords, '.');
      }
    }
    assert tm[..|tm|] == tm;
  }

  /** After a move of part two the robot stands one cell ahead. */
  lemma AppliedRobot(grid: map<Coords, char>, robot: Coords, mv: Move, tm: seq<(char, Coords)>)
    requires Chained(grid, robot, mv, false, tm) && grid[robot] == '@'
    ensures GetShifted(robot, mv) in CellsWith(Applied(grid, tm, mv), '@')
  {
    var t := GetShifted(robot, mv);
    assert tm[0] in tm;
    assert t in Targets(tm, mv);
    var e :| e in tm && GetShifted(e.1, mv) == t && e.0 == LastWrite(tm, mv, t).value;
    ShiftInjective(e.1, robot, mv);
    var i :| 0 <= i < |tm| && tm[i] == e;
    if i != |tm| {
      assert Settled(grid, mv, tm[i], Positions(tm));
    }
  }

  /** A settled chain only writes into cells of the map. */
  lemma AppliedKeys(grid: map<Coords, char>, from: Coords, mv: Move, fromAdj: bool, tm: seq<(char, Coords)>)
    requires Chained(grid, from, mv, fromAdj, tm)
    ensures Applied(grid, tm, mv).Keys == grid.Keys
  {
    forall k | k in Targets(tm, mv) + Positions(tm) ensures k in grid {
      if k in Positions(tm) {
        var e :| e in tm && e.1 == k;
        var i :| 0 <= i < |tm| && tm[i] == e;
        assert Settled(grid, mv, tm[i], Positions(tm));
      } else {
        var e :| e in tm && GetShifted(e.1, mv) == k;
        var i :| 0 <= i < |tm| && tm[i] == e;
        assert Settled(grid, mv, tm[i], Positions(tm));
      }
    }
  }

  /** On a well-formed map, a move of part two leaves the walls where they are. */
  lemma AppliedWalls(grid: map<Coords, char>, from: Coords, mv: Move, tm: seq<(char, Coords)>)
    requires Chained(grid, from, mv, false, tm) && grid[from] == '@' && WellFormed(grid)
    ensures CellsWith(Applied(grid, tm, mv), '#') == CellsWith(grid, '#')
  {
    AppliedKeys(grid, from, mv, false, tm);
    var n := Applied(grid, tm, mv);
    forall k | k in grid ensures (n[k] == '#') == (grid[k] == '#') {
      if k in Positions(tm) {
        var e :| e in tm && e.1 == k;
        var i :| 0 <= i < |tm| && tm[i] == e;
        assert Settled(grid, mv, tm[i], Positions(tm));
        NotWall(grid, from, mv, tm, k);
      } else if k in Targets(tm, mv) {
        var e :| e in tm && GetShifted(e.1, mv) == k;
        var i :| 0 <= i < |tm| && tm[i] == e;
        assert Settled(grid, mv, tm[i], Positions(tm));
        NotWall(grid, from, mv, tm, k);
      }
    }
  }

  /** Nothing a chain writes is a wall, and no cell of a chain or free cell is one. */
  lemma NotWall(grid: map<Coords, char>, from: Coords, mv: Move, tm: seq<(char, Coords)>, k: Coords)
    requires Chained(grid, from, mv, false, tm) && grid[from] == '@' && WellFormed(grid) && k in grid
    requires k in Positions(tm) || grid[k] == '.'
    ensures grid[k] != '#'
    ensures LastWrite(tm, mv, k) != Some('#')
  {
    if k in Positions(tm) {
      var e :| e in tm && e.1 == k;
      var i :| 0 <= i < |tm| && tm[i] == e;
      assert Settled(grid, mv, tm[i], Positions(tm));
      if i > 0 {
        assert IsHalf(tm[i].0);
      }
    }
    if LastWrite(tm, mv, k).Some? {
      var e :| e in tm && GetShifted(e.1, mv) == k && e.0 == LastWrite(tm, mv, k).value;
      var i :| 0 <= i < |tm| && tm[i] == e;
      if i > 0 {
        assert IsHalf(tm[i].0);
      }
    }
  }

  /**
    One command of part two for the robot at `robot`: a wall in the way leaves the map
    as it is; otherwise the chain of cells that must move is moved one cell on.
   */
  ghost predicate Step2From(grid: map<Coords, char>, robot: Coords, mv: Move, next: map<Coords, char>)
  {
    (WallInWay(grid, robot, mv) && next == grid) ||
    (exists tm :: Chained(grid, robot, mv, false, tm) && Forced(grid, robot, mv, tm) && next == Applied(grid, tm, mv))
  }

  /** One command of part two, for the robot `find_char` reports first. */
  ghost predicate Step2(grid: map<Coords, char>, mv: Move, next: map<Coords, char>)
  {
    exists robot :: robot in CellsWith(grid, '@') && Step2From(grid, robot, mv, next)
  }

  /**
    The map after every cell of `ps` moved one cell on: a cell takes what was behind it
    if that moved, is freed if it moved away itself, and is kept otherwise.
   */
  ghost function Shoved(grid: map<Coords, char>, ps: set<Coords>, mv: Move): map<Coords, char>
    requires ps <= grid.Keys
  {
    map k | k in grid :: ShovedCell(grid, ps, mv, k)
  }

  ghost function ShovedCell(grid: map<Coords, char>, ps: set<Coords>, mv: Move, k: Coords): char
    requires ps <= grid.Keys && k in grid
  {
    var b := GetShifted(k, Opposite(mv));
    if b in ps then grid[b] else if k in ps then '.' else grid[k]
  }

  /** The `was_set` writes of a chain depend only on the set of its cells, not on their order or repeats. */
  lemma AppliedShoved(grid: map<Coords, char>, tm: seq<(char, Coords)>, mv: Move)
    requires Snapshot(grid, tm) && Applied(grid, tm, mv).Keys == grid.Keys
    ensures Positions(tm) <= grid.Keys && Applied(grid, tm, mv) == Shoved(grid, Positions(tm), mv)
  {
    var ps := Positions(tm);
    SnapshotInGrid(grid, tm);
    var n, sh := Applied(grid, tm, mv), Shoved(grid, ps, mv);
    assert sh.Keys == grid.Keys;
    forall k | k in grid ensures n[k] == sh[k] {
      AppliedShovedCell(grid, tm, mv, k);
    }
    MapsEqual(n, sh);
  }

  /** The cells of a chain that shows its cells lie on the map. */
  lemma SnapshotInGrid(grid: map<Coords, char>, tm: seq<(char, Coords)>)
    requires Snapshot(grid, tm)
    ensures Positions(tm) <= grid.Keys
  {
    forall p | p in Positions(tm) ensures p in grid {
      var e :| e in tm && e.1 == p;
      var i :| 0 <= i < |tm| && tm[i] == e;
    }
  }

  /** `AppliedShoved` for the cell `k`: what the last write carries there is what stood behind it. */
  lemma AppliedShovedCell(grid: map<Coords, char>, tm: seq<(char, Coords)>, mv: Move, k: Coords)
    requires Snapshot(grid, tm) && Positions(tm) <= grid.Keys && k in grid
    ensures AppliedCell(grid, tm, mv, k) == ShovedCell(grid, Positions(tm), mv, k)
  {
    var ps := Positions(tm);
    var b := GetShifted(k, Opposite(mv));
    ShiftBack(k, Opposite(mv));
    assert Opposite(Opposite(mv)) == mv;
    if b in ps {
      var e :| e in tm && e.1 == b;
      assert k in Targets(tm, mv);
    }
    match LastWrite(tm, mv, k)
    case Some(c) =>
      var e :| e in tm && GetShifted(e.1, mv) == k && e.0 == c;
      ShiftBack(e.1, mv);
      var i :| 0 <= i < |tm| && tm[i] == e;
    case None =>
  }

  /** For one robot on a well-formed map, a command of part two has exactly one outcome. */
  lemma Step2FromUnique(grid: map<Coords, char>, robot: Coords, mv: Move, n1: map<Coords, char>, n2: map<Coords, char>)
    requires WellFormed(grid) && robot in grid && grid[robot] == '@'
    requires Step2From(grid, robot, mv, n1) && Step2From(grid, robot, mv, n2)
    ensures n1 == n2
  {
    if exists tm :: Chained(grid, robot, mv, false, tm) && Forced(grid, robot, mv, tm) {
      var tm :| Chained(grid, robot, mv, false, tm) && Forced(grid, robot, mv, tm);
      ChainedFree(grid, robot, mv, tm);
      var t1 :| Chained(grid, robot, mv, false, t1) && Forced(grid, robot, mv, t1) && n1 == Applied(grid, t1, mv);
      var t2 :| Chained(grid, robot, mv, false, t2) && Forced(grid, robot, mv, t2) && n2 == Applied(grid, t2, mv);
      ChainsAgree(grid, robot, mv, t1, t2);
      AppliedKeys(grid, robot, mv, false, t1);
      AppliedKeys(grid, robot, mv, false, t2);
      AppliedShoved(grid, t1, mv);
      AppliedShoved(grid, t2, mv);
    }
  }

  /** Two chains the scan may return for the robot cover the same cells. */
  lemma ChainsAgree(grid: map<Coords, char>, robot: Coords, mv: Move, t1: seq<(char, Coords)>, t2: seq<(char, Coords)>)
    requires WellFormed(grid)
    requires Chained(grid, robot, mv, false, t1) && Forced(grid, robot, mv, t1)
    requires Chained(grid, robot, mv, false, t2) && Forced(grid, robot, mv, t2)
    ensures Positions(t1) == Positions(t2)
  {
    ChainIsClosure(grid, robot, mv, t1);
    ChainIsClosure(grid, robot, mv, t2);
  }

  /** With a single robot on a well-formed map, a command of part two is a function of the map. */
  lemma Step2Unique(grid: map<Coords, char>, robot: Coords, mv: Move, n1: map<Coords, char>, n2: map<Coords, char>)
    requires WellFormed(grid) && CellsWith(grid, '@') == {robot}
    requires Step2(grid, mv, n1) && Step2(grid, mv, n2)
    ensures n1 == n2
  {
    var r1 :| r1 in CellsWith(grid, '@') && Step2From(grid, r1, mv, n1);
    var r2 :| r2 in CellsWith(grid, '@') && Step2From(grid, r2, mv, n2);
    Step2FromUnique(grid, robot, mv, n1, n2);
  }

  /** `grid` is reached from `start` by the commands `ms` of part two. */
  ghost predicate Reaches2(start: map<Coords, char>, ms: seq<Move>, grid: map<Coords, char>)
    decreases |ms|
  {
    if ms == [] then grid == start
    else exists h {:trigger Step2(h, ms[|ms| - 1], grid)} :: Reaches2(start, ms[..|ms| - 1], h) && Step2(h, ms[|ms| - 1], grid)
  }

  lemma Reaches2Step(start: map<Coords, char>, ms: seq<Move>, h: map<Coords, char>, mv: Move, grid: map<Coords, char>)
    requires Reaches2(start, ms, h) && Step2(h, mv, grid)
    ensures Reaches2(start, ms + [mv], grid)
  {
    var ms' := ms + [mv];
    assert ms'[..|ms'| - 1] == ms && ms'[|ms'| - 1] == mv;
  }

  /** `Reaches2Step` for a prefix that grows by one command. */
  lemma Reaches2Prefix(start: map<Coords, char>, ms: seq<Move>, k: nat, h: map<Coords, char>, grid: map<Coords, char>)
    requires k < |ms| && Reaches2(start, ms[..k], h) && Step2(h, ms[k], grid)
    ensures Reaches2(start, ms[..k + 1], grid)
  {
    Reaches2Step(start, ms[..k], h, ms[k], grid);
    assert ms[..k + 1] == ms[..k] + [ms[k]];
  }

  lemma Step2Keys(grid: map<Coords, char>, mv: Move, next: map<Coords, char>)
    requires Step2(grid, mv, next)
    ensures next.Keys == grid.Keys
  {
    var robot :| robot in CellsWith(grid, '@') && Step2From(grid, robot, mv, next);
    if !(WallInWay(grid, robot, mv) && next == grid) {
      var tm :| Chained(grid, robot, mv, false, tm) && Forced(grid, robot, mv, tm) && next == Applied(grid, tm, mv);
      AppliedKeys(grid, robot, mv, false, tm);
    }
  }

  /** Part two never adds or removes a cell of the map. */
  lemma {:induction false} Reaches2Keys(start: map<Coords, char>, ms: seq<Move>, grid: map<Coords, char>)
    requires Reaches2(start, ms, grid)
    ensures grid.Keys == start.Keys
    decreases |ms|
  {
    if ms != [] {
      var h :| Reaches2(start, ms[..|ms| - 1], h) && Step2(h, ms[|ms| - 1], grid);
      Reaches2Keys(start, ms[..|ms| - 1], h);
      Step2Keys(h, ms[|ms| - 1], grid);
    }
  }

  lemma Step2Walls(grid: map<Coords, char>, mv: Move, next: map<Coords, char>)
    requires Step2(grid, mv, next) && WellFormed(grid)
    ensures CellsWith(next, '#') == CellsWith(grid, '#')
  {
    var robot :| robot in CellsWith(grid, '@') && Step2From(grid, robot, mv, next);
    if !(WallInWay(grid, robot, mv) && next == grid) {
      var tm :| Chained(grid, robot, mv, false, tm) && Forced(grid, robot, mv, tm) && next == Applied(grid, tm, mv);
      AppliedWalls(grid, robot, mv, tm);
    }
  }

  /**
    One command of `part_two`: find a robot, scan ahead, and apply the chain with the
    `was_set` rule. `false` where the source reaches `todo!()`.
   */
  method MoveOnce2(map0: CoordMap, mv: Move) returns (done: bool)
    modifies map0
    requires CellsWith(map0.cells, '@') != {}
    ensures done ==> Step2(old(map0.cells), mv, map0.cells) && CellsWith(map0.cells, '@') != {}
  {
    assert map0.Find('@') == CellsWith(map0.cells, '@');
    var robot :| robot in map0.Find('@');
    ghost var grid := map0.cells;
    var toMove := ProcessCommand2(map0.cells, robot, mv, false);
    match toMove {
      case Blocked =>
        assert Step2From(grid, robot, mv, map0.cells);
        done := true;
      case Chain(tm) =>
        ApplyChain2(map0, tm, mv);
        AppliedRobot(grid, robot, mv, tm);
        assert Step2From(grid, robot, mv, map0.cells);
        done := true;
      case Stuck =>
        done := false;
    }
  }

  /**
    `part_two`: the input widened, every command applied, then the left halves of the
    boxes scored. `None` where the source reaches `todo!()`.
   */
  method PartTwo(input: string) returns (r: Option<int>)
    requires Readable(Widen(input)) && CellsWith(MapOf(Widen(input)), '@') != {}
    ensures r.Some? ==> exists g ::
      Reaches2(MapOf(Widen(input)), Commands(SplitStr(Widen(input), "\n\n")[1]), g) &&
      r.value == Score(CellsWith(g, '['))
  {
    var inp := Widen(input);
    var spl := SplitStr(inp, "\n\n");
    var map0 := new CoordMap(spl[0]);
    var commands := Commands(spl[1]);
    for k := 0 to |commands|
      invariant CellsWith(map0.cells, '@') != {}
      invariant Reaches2(MapOf(inp), commands[..k], map0.cells)
    {
      ghost var before := map0.cells;
      var done := MoveOnce2(map0, commands[k]);
      if !done {
        return None;
      }
      Reaches2Prefix(MapOf(inp), commands, k, before, map0.cells);
    }
    assert commands[..|commands|] == commands;
    var score := FindScore(map0.cells, '[');
    r := Some(score);
  }
}
