/**
  Day 20: a race on a track with one cheat. A cheat leaves the track at one cell and
  rejoins it at another within a number of steps; it is counted when it beats the
  cheat-free time by at least a given saving.

  `best_to_pos` and `path_distance` are not part of this model: they are parameters.
  `best(m, from, to, free)` is the table of best distances from `from` to the cells it
  reaches over cells satisfying `free`; `dist(a, b)` is the length of a cheat from `a`
  to `b`.
 */
module Day20 {
  import opened Wrappers
  import opened Text
  import opened Grid

  type Best = (map<Coords, char>, Coords, Coords, Option<char> -> bool) -> map<Coords, nat>

  /** The track from the start: the cells the forward search may enter. */
  predicate ForwardFree(c: Option<char>)
  {
    c == Some('.') || c == Some('E')
  }

  /** The track from the end: the cells the backward search may enter. */
  predicate BackwardFree(c: Option<char>)
  {
    c == Some('.') || c == Some('S')
  }

  /**
    The test of the inner loop of `solver`: the cheat from `a` to `b` is at least two and
    at most `cheatMax` long, the race through it is shorter than `base`, and it saves at
    least `minSave`.
   */
  predicate Qualifies(fromStart: map<Coords, nat>, fromEnd: map<Coords, nat>, dist: (Coords, Coords) -> nat,
                      base: nat, cheatMax: nat, minSave: nat, a: Coords, b: Coords)
    requires a in fromStart && b in fromEnd
  {
    var d := dist(a, b);
    var len := fromStart[a] + fromEnd[b] + d;
    !(d > cheatMax || d <= 1) && len < base && base - len >= minSave
  }

  /** The cheats counted among the start cells `starts` and the end cells `ends`. */
  ghost function Saves(fromStart: map<Coords, nat>, fromEnd: map<Coords, nat>, dist: (Coords, Coords) -> nat,
                       base: nat, cheatMax: nat, minSave: nat, starts: set<Coords>, ends: set<Coords>): set<(Coords, Coords)>
  {
    set a, b | a in starts && a in fromStart && b in ends && b in fromEnd &&
      Qualifies(fromStart, fromEnd, dist, base, cheatMax, minSave, a, b) :: (a, b)
  }

  /** A cheat is counted when its length is in `2..cheatMax` and the race through it takes at most `base - minSave`. */
  lemma SavesMeaning(fromStart: map<Coords, nat>, fromEnd: map<Coords, nat>, dist: (Coords, Coords) -> nat,
                     base: nat, cheatMax: nat, minSave: nat, a: Coords, b: Coords)
    requires minSave >= 1
    ensures (a, b) in Saves(fromStart, fromEnd, dist, base, cheatMax, minSave, fromStart.Keys, fromEnd.Keys) <==>
      a in fromStart && b in fromEnd && 2 <= dist(a, b) <= cheatMax &&
      fromStart[a] + dist(a, b) + fromEnd[b] + minSave <= base
  {
  }

  /** A longer cheat allowance and a smaller saving never count fewer cheats. */
  lemma SavesMonotone(fromStart: map<Coords, nat>, fromEnd: map<Coords, nat>, dist: (Coords, Coords) -> nat,
                      base: nat, cheatMax: nat, minSave: nat, cheatMax': nat, minSave': nat)
    requires cheatMax <= cheatMax' && minSave' <= minSave
    ensures Saves(fromStart, fromEnd, dist, base, cheatMax, minSave, fromStart.Keys, fromEnd.Keys) <=
            Saves(fromStart, fromEnd, dist, base, cheatMax', minSave', fromStart.Keys, fromEnd.Keys)
  {
  }

  /** The nested loops of `solver`: every qualifying pair of a start cell and an end cell, once. */
  method CountSaves(fromStart: map<Coords, nat>, fromEnd: map<Coords, nat>, dist: (Coords, Coords) -> nat,
                    base: nat, cheatMax: nat, minSave: nat)
    returns (saves: set<(Coords, Coords)>)
    ensures saves == Saves(fromStart, fromEnd, dist, base, cheatMax, minSave, fromStart.Keys, fromEnd.Keys)
  {
    saves := {};
    var outer := fromStart.Keys;
    while outer != {}
      invariant outer <= fromStart.Keys
      invariant saves == Saves(fromStart, fromEnd, dist, base, cheatMax, minSave, fromStart.Keys - outer, fromEnd.Keys)
      decreases |outer|
    {
      var a :| a in outer;
      var row := SavesFrom(fromStart, fromEnd, dist, base, cheatMax, minSave, a);
      SavesOuterStep(fromStart, fromEnd, dist, base, cheatMax, minSave, outer, a);
      saves := saves + row;
      outer := outer - {a};
    }
  }

  /** The inner loop of `solver` for the start cell `a`: the qualifying pairs from `a`. */
  method SavesFrom(fromStart: map<Coords, nat>, fromEnd: map<Coords, nat>, dist: (Coords, Coords) -> nat,
                   base: nat, cheatMax: nat, minSave: nat, a: Coords)
    returns (row: set<(Coords, Coords)>)
    requires a in fromStart
    ensures row == Saves(fromStart, fromEnd, dist, base, cheatMax, minSave, {a}, fromEnd.Keys)
  {
    row := {};
    var inner := fromEnd.Keys;
    while inner != {}
      invariant inner <= fromEnd.Keys
      invariant row == Saves(fromStart, fromEnd, dist, base, cheatMax, minSave, {a}, fromEnd.Keys - inner)
      decreases |inner|
    {
      var b :| b in inner;
      SavesInnerStep(fromStart, fromEnd, dist, base, cheatMax, minSave, a, inner, b);
      var d := dist(a, b);
      if !(d > cheatMax || d <= 1) {
        var len := fromStart[a] + fromEnd[b] + d;
        if len < base && base - len >= minSave {
          row := row + {(a, b)};
        }
      }
      inner := inner - {b};
    }
  }

  /** One round of the inner loop adds the pair `(a, b)` exactly when it qualifies. */
  lemma SavesInnerStep(fromStart: map<Coords, nat>, fromEnd: map<Coords, nat>, dist: (Coords, Coords) -> nat,
                       base: nat, cheatMax: nat, minSave: nat, a: Coords, inner: set<Coords>, b: Coords)
    requires a in fromStart && b in inner && inner <= fromEnd.Keys
    ensures Saves(fromStart, fromEnd, dist, base, cheatMax, minSave, {a}, fromEnd.Keys - (inner - {b})) ==
      Saves(fromStart, fromEnd, dist, base, cheatMax, minSave, {a}, fromEnd.Keys - inner) +
      (if Qualifies(fromStart, fromEnd, dist, base, cheatMax, minSave, a, b) then {(a, b)} else {})
  {
    assert fromEnd.Keys - (inner - {b}) == (fromEnd.Keys - inner) + {b};
  }

  /** One round of the outer loop adds the pairs starting at `a`. */
  lemma SavesOuterStep(fromStart: map<Coords, nat>, fromEnd: map<Coords, nat>, dist: (Coords, Coords) -> nat,
                       base: nat, cheatMax: nat, minSave: nat, outer: set<Coords>, a: Coords)
    requires a in outer && outer <= fromStart.Keys
    ensures Saves(fromStart, fromEnd, dist, base, cheatMax, minSave, fromStart.Keys - (outer - {a}), fromEnd.Keys) ==
      Saves(fromStart, fromEnd, dist, base, cheatMax, minSave, fromStart.Keys - outer, fromEnd.Keys) +
      Saves(fromStart, fromEnd, dist, base, cheatMax, minSave, {a}, fromEnd.Keys)
  {
    assert fromStart.Keys - (outer - {a}) == (fromStart.Keys - outer) + {a};
  }

  /**
    A possible result of `solver` on the map `m` with the start `s` and the end `e`: the
    number of counted cheats, measured against the cheat-free time to `e`.
   */
  ghost predicate Answer(m: map<Coords, char>, best: Best, dist: (Coords, Coords) -> nat,
                         cheatMax: nat, minSave: nat, s: Coords, e: Coords, n: nat)
  {
    var fromStart := best(m, s, e, ForwardFree);
    var fromEnd := best(m, e, s, BackwardFree);
    s in m && m[s] == 'S' && e in m && m[e] == 'E' && e in fromStart &&
    n == |Saves(fromStart, fromEnd, dist, fromStart[e], cheatMax, minSave, fromStart.Keys, fromEnd.Keys)|
  }

  /**
    `solver`: the number of cheats of length at most `cheatMax` saving at least `minSave`.
    `find_char` returns its cells in an order this model does not fix, so the start and
    the end are any `S` and any `E`; `None` where there is none, or the end is not
    reached, since `[0]` and `unwrap` panic there.
   */
  method Solver(input: string, best: Best, dist: (Coords, Coords) -> nat, cheatMax: nat, minSave: nat)
    returns (r: Option<nat>)
    ensures var m := GridMap(Lines(input));
      r.Some? ==> exists s, e :: Answer(m, best, dist, cheatMax, minSave, s, e, r.value)
    ensures var m := GridMap(Lines(input));
      r.None? ==> (CellsWith(m, 'S') == {} || CellsWith(m, 'E') == {} ||
        exists s, e :: s in CellsWith(m, 'S') && e in CellsWith(m, 'E') && e !in best(m, s, e, ForwardFree))
  {
    var map0 := new CoordMap(input);
    var m := map0.cells;
    var starts := map0.Find('S');
    var ends := map0.Find('E');
    assert starts == CellsWith(m, 'S') && ends == CellsWith(m, 'E');
    if starts == {} || ends == {} {
      return None;
    }
    var s :| s in starts;
    var e :| e in ends;
    var fromStart := best(m, s, e, ForwardFree);
    var fromEnd := best(m, e, s, BackwardFree);
    if e !in fromStart {
      return None;
    }
    var base := fromStart[e];
    var saves := CountSaves(fromStart, fromEnd, dist, base, cheatMax, minSave);
    r := Some(|saves|);
    assert Answer(m, best, dist, cheatMax, minSave, s, e, r.value);
  }

  /** `part_one`: cheats of at most 2 steps saving at least 100. */
  method PartOne(input: string, best: Best, dist: (Coords, Coords) -> nat) returns (r: Option<nat>)
    ensures var m := GridMap(Lines(input));
      r.Some? ==> exists s, e :: Answer(m, best, dist, 2, 100, s, e, r.value)
  {
    r := Solver(input, best, dist, 2, 100);
  }

  /** `part_two`: cheats of at most 20 steps saving at least 100. */
  method PartTwo(input: string, best: Best, dist: (Coords, Coords) -> nat) returns (r: Option<nat>)
    ensures var m := GridMap(Lines(input));
      r.Some? ==> exists s, e :: Answer(m, best, dist, 20, 100, s, e, r.value)
  {
    r := Solver(input, best, dist, 20, 100);
  }
}
