/**
  Day 16: the reindeer maze. The reindeer starts on `S` facing east; a step costs 1 and
  each quarter turn made before it costs 1000. Part one is the lowest score with which the
  search reaches `E`, part two the number of cells on the walks that reach `E` with it.
 */
module Day16 {
  import opened Wrappers
  import opened Text
  import opened Grid
  import opened Sorting

  datatype Direction = EastRight | WestLeft | SouthDown | NorthUp

  /** `move_direction`: the direction of the step from `c1` to `c2`. */
  function MoveDirection(c1: Coords, c2: Coords): Direction
  {
    if c1.x == c2.x then
      if c1.y > c2.y then NorthUp else SouthDown
    else
      if c1.x > c2.x then WestLeft else EastRight
  }

  /** The neighbour of `p` one step in direction `d`. */
  function StepTo(p: Coords, d: Direction): (q: Coords)
    ensures q in Neighbours4(p)
  {
    match d
    case EastRight => Coords(p.x + 1, p.y)
    case WestLeft => Coords(p.x - 1, p.y)
    case SouthDown => Coords(p.x, p.y + 1)
    case NorthUp => Coords(p.x, p.y - 1)
  }

  /** On the four neighbours, `move_direction` names the step that leads there. */
  lemma MoveDirectionStep(p: Coords, q: Coords, d: Direction)
    ensures MoveDirection(p, StepTo(p, d)) == d
    ensures q in Neighbours4(p) ==> StepTo(p, MoveDirection(p, q)) == q
  {
    if q in Neighbours4(p) {
      assert Manhattan(p, q) == 1;
    }
  }

  /** The four steps of the source's own test. */
  lemma MoveDirectionExamples()
    ensures MoveDirection(Coords(10, 10), Coords(11, 10)) == EastRight
    ensures MoveDirection(Coords(10, 10), Coords(9, 10)) == WestLeft
    ensures MoveDirection(Coords(10, 10), Coords(10, 11)) == SouthDown
    ensures MoveDirection(Coords(10, 10), Coords(10, 9)) == NorthUp
  {
  }

  function Opposite(d: Direction): Direction
  {
    match d
    case EastRight => WestLeft
    case WestLeft => EastRight
    case SouthDown => NorthUp
    case NorthUp => SouthDown
  }

  predicate Horizontal(d: Direction)
  {
    d == EastRight || d == WestLeft
  }

  /** `calc_direction_turn_mult`: the quarter turns from facing `d1` to facing `d2`. */
  function TurnMult(d1: Direction, d2: Direction): (r: nat)
    ensures r == 0 <==> d1 == d2
    ensures r == 2 <==> d2 == Opposite(d1)
    ensures r == 1 <==> Horizontal(d1) != Horizontal(d2)
  {
    match (d1, d2)
    case (EastRight, WestLeft) => 2
    case (EastRight, SouthDown) => 1
    case (EastRight, NorthUp) => 1
    case (WestLeft, EastRight) => 2
    case (WestLeft, SouthDown) => 1
    case (WestLeft, NorthUp) => 1
    case (SouthDown, EastRight) => 1
    case (SouthDown, WestLeft) => 1
    case (SouthDown, NorthUp) => 2
    case (NorthUp, EastRight) => 1
    case (NorthUp, WestLeft) => 1
    case (NorthUp, SouthDown) => 2
    case (_, _) => 0
  }

  lemma TurnMultSymmetric(d1: Direction, d2: Direction)
    ensures TurnMult(d1, d2) == TurnMult(d2, d1)
  {
  }

  /** `Position`: a reindeer on the stack; `visited` holds the cells it came through when they are stored. */
  datatype Position = Position(position: Coords, direction: Direction, score: nat, visited: set<Coords>)

  /** The initial `min_score`, which stands for "no score yet". */
  const NoScore: nat := 1000000000

  /** The score after the step from `item` in direction `d`. */
  function StepScore(item: Position, d: Direction): nat
  {
    item.score + 1 + TurnMult(item.direction, d) * 1000
  }

  /** The `assert!` of the closure fails at `c`: it is not behind the reindeer and not in the map. */
  predicate Fires(m: map<Coords, char>, item: Position, c: Coords)
  {
    TurnMult(item.direction, MoveDirection(item.position, c)) != 2 && c !in m
  }

  /** The closure keeps `c`: not behind the reindeer, not a wall, and not scoring above `minScore`. */
  predicate Keeps(m: map<Coords, char>, item: Position, minScore: nat, c: Coords)
  {
    var d := MoveDirection(item.position, c);
    TurnMult(item.direction, d) != 2 && c in m && m[c] != '#' && StepScore(item, d) <= minScore
  }

  /** The position the closure makes for `c`. */
  function Moved(item: Position, c: Coords, store: bool): Position
  {
    var d := MoveDirection(item.position, c);
    Position(c, d, StepScore(item, d), if store then item.visited else {})
  }

  /**
    The `filter_map` and `collect` over the neighbours `cs`, in their order; `None` where
    the `assert!` fails.
   */
  function Possible(m: map<Coords, char>, item: Position, minScore: nat, store: bool, cs: seq<Coords>)
    : (r: Option<seq<Position>>)
    ensures r.None? <==> exists c :: c in cs && Fires(m, item, c)
    ensures r.Some? ==> |r.value| <= |cs|
    ensures r.Some? ==> forall e :: e in r.value <==> exists c :: c in cs && Keeps(m, item, minScore, c) && e == Moved(item, c, store)
  {
    if cs == [] then Some([])
    else
      var c := cs[|cs| - 1];
      assert forall x :: x in cs <==> x in cs[..|cs| - 1] || x == c;
      match Possible(m, item, minScore, store, cs[..|cs| - 1])
      case None => None
      case Some(front) =>
        var d := MoveDirection(item.position, c);
        if TurnMult(item.direction, d) == 2 then Some(front)
        else if c !in m then assert Fires(m, item, c); None
        else if m[c] == '#' then Some(front)
        else if StepScore(item, d) > minScore then Some(front)
        else Some(front + [Moved(item, c, store)])
  }

  // ---- walks ----------------------------------------------------------------------------

  /** The direction the reindeer faces on the `i`-th cell of a walk: east at its start. */
  function DirAt(w: seq<Coords>, i: nat): Direction
    requires i < |w|
  {
    if i == 0 then EastRight else MoveDirection(w[i - 1], w[i])
  }

  /** A walk the search may make: steps to neighbours that are in the map and not walls, never reversing. */
  ghost predicate Legal(m: map<Coords, char>, w: seq<Coords>)
  {
    |w| >= 1 &&
    forall i :: 1 <= i < |w| ==>
      w[i] in Neighbours4(w[i - 1]) && w[i] in m && m[w[i]] != '#' && TurnMult(DirAt(w, i - 1), DirAt(w, i)) != 2
  }

  /** The score of a walk: 1 per step and 1000 per quarter turn. */
  function Cost(w: seq<Coords>): nat
    requires |w| >= 1
  {
    if |w| == 1 then 0 else Cost(w[..|w| - 1]) + 1 + 1000 * TurnMult(DirAt(w, |w| - 2), DirAt(w, |w| - 1))
  }

  /**
    The walk `w` from `s` explains the position `p`: it ends on `p`'s cell facing its way
    with its score, and `visited` holds the walk's cells (without the last one until the
    position is popped) when they are stored.
   */
  ghost predicate Witness(m: map<Coords, char>, s: Coords, store: bool, p: Position, w: seq<Coords>, popped: bool)
  {
    Legal(m, w) && w[0] == s && w[|w| - 1] == p.position && DirAt(w, |w| - 1) == p.direction &&
    Cost(w) == p.score && p.visited == (if store then Elems(if popped then w else w[..|w| - 1]) else {})
  }

  /** The step the closure makes extends the walk of the popped position. */
  lemma WitnessMoved(m: map<Coords, char>, s: Coords, store: bool, item: Position, w: seq<Coords>, minScore: nat, c: Coords)
    requires Witness(m, s, store, item, w, true) && c in Neighbours4(item.position) && Keeps(m, item, minScore, c)
    ensures Witness(m, s, store, Moved(item, c, store), w + [c], false)
  {
    var w' := w + [c];
    assert w'[..|w|] == w;
    forall i: nat | i < |w| ensures DirAt(w', i) == DirAt(w, i) {
    }
    assert DirAt(w', |w|) == MoveDirection(item.position, c);
    forall i | 1 <= i < |w'|
      ensures w'[i] in Neighbours4(w'[i - 1]) && w'[i] in m && m[w'[i]] != '#' && TurnMult(DirAt(w', i - 1), DirAt(w', i)) != 2
    {
      if i < |w| {
        assert DirAt(w', i - 1) == DirAt(w, i - 1) && DirAt(w', i) == DirAt(w, i);
      }
    }
  }

  /** Storing the popped cell completes `visited`. */
  lemma WitnessVisit(m: map<Coords, char>, s: Coords, store: bool, item: Position, w: seq<Coords>)
    requires Witness(m, s, store, item, w, false)
    ensures Witness(m, s, store, if store then item.(visited := item.visited + {item.position}) else item, w, true)
  {
    ElemsOfPop(w);
  }

  /** The cells of a walk are those before its last cell, with the last cell. */
  lemma ElemsOfPop(w: seq<Coords>)
    requires w != []
    ensures Elems(w) == Elems(w[..|w| - 1]) + {w[|w| - 1]}
  {
    assert w == w[..|w| - 1] + [w[|w| - 1]];
  }

  // ---- the search ---------------------------------------------------------------------------

  /** `min_score` after the finished positions `fin`: the lowest of their scores, or `NoScore`. */
  function MinScore(fin: seq<Position>): (r: nat)
    ensures r <= NoScore
    ensures forall i :: 0 <= i < |fin| ==> r <= fin[i].score
    ensures r == NoScore || exists i :: 0 <= i < |fin| && fin[i].score == r
  {
    if fin == [] then NoScore
    else
      var r := MinScore(fin[..|fin| - 1]);
      var last := fin[|fin| - 1];
      assert forall i :: 0 <= i < |fin| - 1 ==> fin[..|fin| - 1][i] == fin[i];
      if last.score < r then last.score else r
  }

  /** How far a score is below `NoScore`. */
  function Rank(p: Position): nat
  {
    if p.score <= NoScore then NoScore - p.score else 0
  }

  /** The termination measure of the stack: a position weighs 5 to the power of its rank. */
  function StackWeight(q: seq<Position>): nat
  {
    if q == [] then 0 else StackWeight(q[..|q| - 1]) + Pow5(Rank(q[|q| - 1]))
  }

  lemma StackWeightAppend(q: seq<Position>, p: Position)
    ensures StackWeight(q + [p]) == StackWeight(q) + Pow5(Rank(p))
  {
    assert (q + [p])[..|q|] == q;
  }

  lemma {:induction false} Pow5Monotone(a: nat, b: nat)
    requires a <= b
    ensures Pow5(a) <= Pow5(b)
    decreases b
  {
    if a < b {
      Pow5Monotone(a, b - 1);
    }
  }

  /** Every open cell has its four neighbours in the map, so the `assert!` of the closure never fails. */
  predicate Walled(m: map<Coords, char>)
  {
    forall k, q | k in m && m[k] != '#' && q in Neighbours4(k) :: q in m
  }

  /** The walk from an `S` to an `E` that a score or a tile stands for. */
  ghost predicate WalkToEnd(m: map<Coords, char>, w: seq<Coords>)
  {
    Legal(m, w) && w[0] in m && m[w[0]] == 'S' && w[|w| - 1] in m && m[w[|w| - 1]] == 'E'
  }

  /** `map.get(..) == Some(&'E')`: the position stands on an end cell. */
  predicate AtEnd(m: map<Coords, char>, p: Position)
  {
    p.position in m && m[p.position] == 'E'
  }

  /** Each stacked position is explained by a walk from `s` and scores at most `NoScore`. */
  ghost predicate Stacked(m: map<Coords, char>, s: Coords, store: bool, q: seq<Position>, qw: seq<seq<Coords>>)
  {
    |qw| == |q| && forall i :: 0 <= i < |q| ==> Witness(m, s, store, q[i], qw[i], false) && q[i].score <= NoScore
  }

  /** Each finished position stands on `E` and is explained by a walk from `s`, its cells all stored. */
  ghost predicate Finished(m: map<Coords, char>, s: Coords, store: bool, fin: seq<Position>, fw: seq<seq<Coords>>)
  {
    |fw| == |fin| && forall i :: 0 <= i < |fin| ==> Witness(m, s, store, fin[i], fw[i], true) && AtEnd(m, fin[i])
  }

  /**
    What the loop of `solver` keeps: `s` is a start cell, the stacked and the finished
    positions are explained by walks from it, and `min_score` is the lowest finished score.
   */
  ghost predicate SearchInv(m: map<Coords, char>, s: Coords, store: bool, q: seq<Position>, qw: seq<seq<Coords>>,
                            fin: seq<Position>, fw: seq<seq<Coords>>, minScore: nat)
  {
    s in m && m[s] == 'S' && minScore == MinScore(fin) && Stacked(m, s, store, q, qw) && Finished(m, s, store, fin, fw)
  }

  /** Pushing a position of weight at most `unit`. */
  lemma PushWeight(q: seq<Position>, e: Position, bound: nat, j: nat, unit: nat)
    requires StackWeight(q) <= bound + j * unit && Pow5(Rank(e)) <= unit
    ensures StackWeight(q + [e]) <= bound + (j + 1) * unit
  {
    StackWeightAppend(q, e);
    MulStep(j, unit);
  }

  /** A fifth of the weight of a position of positive rank. */
  function Fifth(p: Position): nat
  {
    if Rank(p) >= 1 then Pow5(Rank(p) - 1) else 0
  }

  /** A kept neighbour of the popped position has a higher score, at most `minScore`, so a lower rank. */
  lemma MovedRank(m: map<Coords, char>, item: Position, minScore: nat, c: Coords, store: bool)
    requires Keeps(m, item, minScore, c) && minScore <= NoScore
    ensures Rank(item) >= 1 && Pow5(Rank(Moved(item, c, store))) <= Fifth(item)
    ensures Moved(item, c, store).score <= NoScore
  {
    Pow5Monotone(Rank(Moved(item, c, store)), Rank(item) - 1);
  }

  /** A stacked position of `possible` was made by the closure from a kept neighbour. */
  lemma PossibleAt(m: map<Coords, char>, item: Position, minScore: nat, store: bool, possible: seq<Position>, j: nat)
    returns (c: Coords)
    requires Possible(m, item, minScore, store, Adjacent(item.position)) == Some(possible) && j < |possible|
    ensures c in Neighbours4(item.position) && Keeps(m, item, minScore, c) && possible[j] == Moved(item, c, store)
  {
    assert possible[j] in possible;
    c :| c in Adjacent(item.position) && Keeps(m, item, minScore, c) && possible[j] == Moved(item, c, store);
  }

  /** The stack stays explained when an explained position is pushed. */
  lemma PushExplained(m: map<Coords, char>, s: Coords, store: bool, q: seq<Position>, qw: seq<seq<Coords>>,
                      e: Position, we: seq<Coords>)
    requires Stacked(m, s, store, q, qw)
    requires Witness(m, s, store, e, we, false) && e.score <= NoScore
    ensures Stacked(m, s, store, q + [e], qw + [we])
  {
    forall i | 0 <= i < |q + [e]|
      ensures Witness(m, s, store, (q + [e])[i], (qw + [we])[i], false) && (q + [e])[i].score <= NoScore
    {
      if i < |q| {
        assert (q + [e])[i] == q[i] && (qw + [we])[i] == qw[i];
      }
    }
  }

  lemma PrefixStep<T>(base: seq<T>, xs: seq<T>, j: nat)
    requires j < |xs|
    ensures base + xs[..j + 1] == (base + xs[..j]) + [xs[j]]
  {
    assert xs[..j + 1] == xs[..j] + [xs[j]];
  }

  /** At most four pushes of weight a fifth of the popped position's weigh less than it. */
  lemma PushTotal(bound: nat, weight: nat, n: nat, item: Position)
    requires n <= 4 && (n > 0 ==> Rank(item) >= 1)
    requires weight <= bound + n * Fifth(item)
    ensures weight < bound + Pow5(Rank(item))
  {
    if n > 0 {
      MulAtMost(n, 4, Fifth(item));
      assert Pow5(Rank(item)) == 5 * Fifth(item);
    }
  }

  /** The `for` loop that pushes the kept neighbours, with the walks that explain them. */
  method PushAll(m: map<Coords, char>, s: Coords, store: bool, base: seq<Position>, ghost baseW: seq<seq<Coords>>,
                 item: Position, ghost w: seq<Coords>, minScore: nat, possible: seq<Position>)
    returns (q: seq<Position>, ghost qw: seq<seq<Coords>>)
    requires Possible(m, item, minScore, store, Adjacent(item.position)) == Some(possible)
    requires Witness(m, s, store, item, w, true) && minScore <= NoScore
    requires Stacked(m, s, store, base, baseW)
    ensures q == base + possible
    ensures Stacked(m, s, store, q, qw)
    ensures StackWeight(q) < StackWeight(base) + Pow5(Rank(item))
  {
    q, qw := base, baseW;
    for j := 0 to |possible|
      invariant q == base + possible[..j]
      invariant Stacked(m, s, store, q, qw)
      invariant StackWeight(q) <= StackWeight(base) + j * Fifth(item)
      invariant j > 0 ==> Rank(item) >= 1
    {
      var e := possible[j];
      ghost var c := PossibleAt(m, item, minScore, store, possible, j);
      WitnessMoved(m, s, store, item, w, minScore, c);
      MovedRank(m, item, minScore, c, store);
      PushWeight(q, e, StackWeight(base), j, Fifth(item));
      PushExplained(m, s, store, q, qw, e, w + [c]);
      PrefixStep(base, possible, j);
      q, qw := q + [e], qw + [w + [c]];
    }
    assert possible[..|possible|] == possible;
    PushTotal(StackWeight(base), StackWeight(q), |possible|, item);
  }

  /** The key of `best_score_to_pos`. */
  function Key(p: Position): (Coords, Direction)
  {
    (p.position, p.direction)
  }

  /** The popped position scores above the best recorded for its cell and direction, and is dropped. */
  predicate Pruned(best: map<(Coords, Direction), nat>, p: Position)
  {
    Key(p) in best && p.score > best[Key(p)]
  }

  /** The popped position with its own cell added to `visited` when visits are stored. */
  function Visit(p: Position, store: bool): (r: Position)
    ensures r.position == p.position && r.direction == p.direction && r.score == p.score
  {
    if store then p.(visited := p.visited + {p.position}) else p
  }

  /** A position explained by a walk stands on an open cell of the map. */
  lemma WitnessOpen(m: map<Coords, char>, s: Coords, store: bool, p: Position, w: seq<Coords>, popped: bool)
    requires s in m && m[s] == 'S' && Witness(m, s, store, p, w, popped)
    ensures p.position in m && m[p.position] != '#'
  {
    if |w| > 1 {
      assert w[|w| - 1] in m && m[w[|w| - 1]] != '#';
    }
  }

  /** Popping the top of an explained stack. */
  lemma StackedPop(m: map<Coords, char>, s: Coords, store: bool, q: seq<Position>, qw: seq<seq<Coords>>)
    requires q != [] && Stacked(m, s, store, q, qw)
    ensures Stacked(m, s, store, q[..|q| - 1], qw[..|qw| - 1])
    ensures Witness(m, s, store, q[|q| - 1], qw[|qw| - 1], false) && q[|q| - 1].score <= NoScore
    ensures StackWeight(q) == StackWeight(q[..|q| - 1]) + Pow5(Rank(q[|q| - 1]))
  {
    var front := q[..|q| - 1];
    forall i | 0 <= i < |front|
      ensures Witness(m, s, store, front[i], qw[..|qw| - 1][i], false) && front[i].score <= NoScore
    {
      assert front[i] == q[i] && qw[..|qw| - 1][i] == qw[i];
    }
  }

  /** Recording a finished position that stands on `E`. */
  lemma FinishedPush(m: map<Coords, char>, s: Coords, store: bool, fin: seq<Position>, fw: seq<seq<Coords>>,
                     p: Position, w: seq<Coords>)
    requires Finished(m, s, store, fin, fw) && Witness(m, s, store, p, w, true) && AtEnd(m, p)
    ensures Finished(m, s, store, fin + [p], fw + [w])
  {
    forall i | 0 <= i < |fin + [p]|
      ensures Witness(m, s, store, (fin + [p])[i], (fw + [w])[i], true) && AtEnd(m, (fin + [p])[i])
    {
      if i < |fin| {
        assert (fin + [p])[i] == fin[i] && (fw + [w])[i] == fw[i];
      }
    }
  }

  /** `MinScore` of one more finished position is the update the `E` branch makes. */
  lemma MinScorePush(fin: seq<Position>, p: Position)
    ensures MinScore(fin + [p]) == if p.score < MinScore(fin) then p.score else MinScore(fin)
  {
    assert (fin + [p])[..|fin|] == fin;
  }

  /** When the closure panics, some open cell has a neighbour outside the map. */
  lemma FiresUnwalled(m: map<Coords, char>, item: Position, minScore: nat, store: bool)
    requires item.position in m && m[item.position] != '#'
    requires Possible(m, item, minScore, store, Adjacent(item.position)).None?
    ensures !Walled(m)
  {
    var c :| c in Adjacent(item.position) && Fires(m, item, c);
    assert c in Neighbours4(item.position) && c !in m;
  }

  /**
    One turn of the `while` loop of `solver`: pop the top position, drop it when it scores
    above the best for its cell and direction, else record its score; store its cell; on `E`
    finish it and lower `min_score`; drop it when above `min_score`; else push the kept
    neighbours. `ok` is false where `assert!` panics.
   */
  method SearchStep(m: map<Coords, char>, s: Coords, store: bool, q: seq<Position>, ghost qw: seq<seq<Coords>>,
                    best: map<(Coords, Direction), nat>, fin: seq<Position>, ghost fw: seq<seq<Coords>>, minScore: nat)
    returns (ok: bool, q': seq<Position>, ghost qw': seq<seq<Coords>>,
             best': map<(Coords, Direction), nat>, fin': seq<Position>, ghost fw': seq<seq<Coords>>, minScore': nat)
    requires q != [] && SearchInv(m, s, store, q, qw, fin, fw, minScore)
    ensures ok ==> SearchInv(m, s, store, q', qw', fin', fw', minScore') && StackWeight(q') < StackWeight(q)
    ensures Walled(m) ==> ok
    ensures Pruned(best, q[|q| - 1]) ==>
      ok && q' == q[..|q| - 1] && best' == best && fin' == fin && minScore' == minScore
    ensures !Pruned(best, q[|q| - 1]) ==> best' == best[Key(q[|q| - 1]) := q[|q| - 1].score]
    ensures !Pruned(best, q[|q| - 1]) && AtEnd(m, q[|q| - 1]) ==>
      ok && q' == q[..|q| - 1] && fin' == fin + [Visit(q[|q| - 1], store)] &&
      minScore' == (if q[|q| - 1].score < minScore then q[|q| - 1].score else minScore)
    ensures !Pruned(best, q[|q| - 1]) && !AtEnd(m, q[|q| - 1]) && q[|q| - 1].score > minScore ==>
      ok && q' == q[..|q| - 1] && fin' == fin && minScore' == minScore
    ensures !Pruned(best, q[|q| - 1]) && !AtEnd(m, q[|q| - 1]) && q[|q| - 1].score <= minScore ==>
      fin' == fin && minScore' == minScore &&
      (ok <==> Possible(m, Visit(q[|q| - 1], store), minScore, store, Adjacent(q[|q| - 1].position)).Some?) &&
      (ok ==> q' == q[..|q| - 1] + Possible(m, Visit(q[|q| - 1], store), minScore, store, Adjacent(q[|q| - 1].position)).value)
  {
    StackedPop(m, s, store, q, qw);
    var top := q[|q| - 1];
    ghost var w := qw[|qw| - 1];
    var rest := q[..|q| - 1];
    ghost var restW := qw[..|qw| - 1];
    assert StackWeight(rest) < StackWeight(q);
    ok, q', qw', best', fin', fw', minScore' := true, rest, restW, best, fin, fw, minScore;
    if Key(top) in best && top.score > best[Key(top)] {
      return;
    }
    best' := best[Key(top) := top.score];
    var item := Visit(top, store);
    WitnessVisit(m, s, store, top, w);
    WitnessOpen(m, s, store, item, w, true);
    if item.position in m && m[item.position] == 'E' {
      fin', fw' := fin + [item], fw + [w];
      FinishedPush(m, s, store, fin, fw, item, w);
      MinScorePush(fin, item);
      if item.score < minScore {
        minScore' := item.score;
      }
      return;
    }
    if item.score > minScore {
      return;
    }
    var possible := Possible(m, item, minScore, store, Adjacent(item.position));
    if possible.None? {
      FiresUnwalled(m, item, minScore, store);
      ok := false;
      return;
    }
    q', qw' := PushAll(m, s, store, rest, restW, item, w, minScore, possible.value);
    assert Rank(item) == Rank(top);
  }

  /** The walk of a finished position runs from an `S` to an `E` with its score, its cells stored. */
  lemma FinishedWalk(m: map<Coords, char>, s: Coords, store: bool, fin: seq<Position>, fw: seq<seq<Coords>>, i: nat)
    requires s in m && m[s] == 'S' && Finished(m, s, store, fin, fw) && i < |fin|
    ensures WalkToEnd(m, fw[i]) && Cost(fw[i]) == fin[i].score
    ensures store ==> fin[i].visited == Elems(fw[i])
  {
    assert Witness(m, s, store, fin[i], fw[i], true) && AtEnd(m, fin[i]);
  }

  /**
    `solver`: the search from a start cell (`find_char` returns its cells in an order this
    model does not fix, so any `S`). The result is `min_score` with the finished positions,
    each explained by a walk to `E`; `None` where `start[0]` or the `assert!` panics, which
    cannot happen on a walled map with a start.
   */
  method Solver(input: string, store: bool)
    returns (r: Option<(nat, seq<Position>)>, ghost s: Coords, ghost walks: seq<seq<Coords>>)
    ensures var m := GridMap(Lines(input));
      r.Some? ==> s in m && m[s] == 'S' && Finished(m, s, store, r.value.1, walks) && r.value.0 == MinScore(r.value.1)
    ensures var m := GridMap(Lines(input));
      CellsWith(m, 'S') != {} && Walled(m) ==> r.Some?
  {
    var map0 := new CoordMap(input);
    var m := map0.cells;
    var starts := map0.Find('S');
    assert starts == CellsWith(m, 'S');
    s, walks := Coords(0, 0), [];
    if starts == {} {
      return None, s, walks;
    }
    var start :| start in starts;
    s := start;
    var q := [Position(start, EastRight, 0, {})];
    ghost var qw := [[start]];
    var best: map<(Coords, Direction), nat> := map[];
    var fin: seq<Position> := [];
    ghost var fw: seq<seq<Coords>> := [];
    var minScore := NoScore;
    assert Elems([start][..0]) == {};
    assert Witness(m, s, store, q[0], qw[0], false);
    while q != []
      invariant SearchInv(m, s, store, q, qw, fin, fw, minScore)
      decreases StackWeight(q)
    {
      var ok;
      ok, q, qw, best, fin, fw, minScore := SearchStep(m, start, store, q, qw, best, fin, fw, minScore);
      if !ok {
        return None, s, walks;
      }
    }
    r, walks := Some((minScore, fin)), fw;
  }

  /**
    `part_one`: the lowest score the search reaches `E` with, or `NoScore` when it reaches
    none; every such score is the cost of a legal walk from `S` to `E`.
   */
  method PartOne(input: string) returns (r: Option<nat>)
    ensures var m := GridMap(Lines(input));
      r.Some? ==> r.value <= NoScore && (r.value == NoScore || exists w :: WalkToEnd(m, w) && Cost(w) == r.value)
    ensures var m := GridMap(Lines(input));
      CellsWith(m, 'S') != {} && Walled(m) ==> r.Some?
  {
    var res;
    ghost var s, walks;
    res, s, walks := Solver(input, false);
    if res.None? {
      return None;
    }
    var (mn, fin) := res.value;
    r := Some(mn);
    if mn != NoScore {
      var i :| 0 <= i < |fin| && fin[i].score == mn;
      FinishedWalk(GridMap(Lines(input)), s, false, fin, walks, i);
    }
  }

  /** The cells stored by the finished positions scoring `score`: `uniq` of `part_two`. */
  function Tiles(fin: seq<Position>, score: nat): set<Coords>
  {
    set i, v | 0 <= i < |fin| && v in fin[i].visited && fin[i].score == score :: v
  }

  /** The cells of the walks that cost `score`. */
  ghost function WalkCells(ws: seq<seq<Coords>>, score: nat): set<Coords>
  {
    set i, v | 0 <= i < |ws| && v in ws[i] && |ws[i]| >= 1 && Cost(ws[i]) == score :: v
  }

  lemma TilesStep(fin: seq<Position>, score: nat, i: nat)
    requires i < |fin|
    ensures Tiles(fin[..i + 1], score) == Tiles(fin[..i], score) + (if fin[i].score == score then fin[i].visited else {})
  {
    var a, b := fin[..i + 1], fin[..i];
    forall v | v in Tiles(a, score)
      ensures v in Tiles(b, score) + (if fin[i].score == score then fin[i].visited else {})
    {
      var j :| 0 <= j < |a| && v in a[j].visited && a[j].score == score;
      if j < i {
        assert b[j] == a[j];
      }
    }
    forall v | v in Tiles(b, score) ensures v in Tiles(a, score) {
      var j :| 0 <= j < |b| && v in b[j].visited && b[j].score == score;
      assert a[j] == b[j];
    }
    if fin[i].score == score {
      forall v | v in fin[i].visited ensures v in Tiles(a, score) {
        assert a[i] == fin[i];
      }
    }
  }

  /** The nested loops of `part_two` over the positions scoring `score`, inserting their cells. */
  method CountTiles(fin: seq<Position>, score: nat) returns (n: nat)
    ensures n == |Tiles(fin, score)|
  {
    var uniq: set<Coords> := {};
    for i := 0 to |fin|
      invariant uniq == Tiles(fin[..i], score)
    {
      TilesStep(fin, score, i);
      if fin[i].score == score {
        var vs := fin[i].visited;
        while vs != {}
          invariant vs <= fin[i].visited
          invariant uniq == Tiles(fin[..i], score) + (fin[i].visited - vs)
          decreases vs
        {
          var v :| v in vs;
          uniq := uniq + {v};
          vs := vs - {v};
        }
      }
    }
    assert fin[..|fin|] == fin;
    n := |uniq|;
  }

  /** With every cell stored, the counted tiles are the cells of the finished walks of lowest cost. */
  lemma TilesAreWalkCells(m: map<Coords, char>, s: Coords, fin: seq<Position>, fw: seq<seq<Coords>>, score: nat)
    requires s in m && m[s] == 'S' && Finished(m, s, true, fin, fw)
    ensures Tiles(fin, score) == WalkCells(fw, score)
  {
    forall v | v in Tiles(fin, score) ensures v in WalkCells(fw, score) {
      var i :| 0 <= i < |fin| && v in fin[i].visited && fin[i].score == score;
      FinishedWalk(m, s, true, fin, fw, i);
      assert v in fw[i] && |fw[i]| >= 1 && Cost(fw[i]) == score;
    }
    forall v | v in WalkCells(fw, score) ensures v in Tiles(fin, score) {
      var i :| 0 <= i < |fw| && v in fw[i] && |fw[i]| >= 1 && Cost(fw[i]) == score;
      FinishedWalk(m, s, true, fin, fw, i);
      assert v in fin[i].visited && fin[i].score == score;
    }
  }

  /**
    `part_two`: the number of cells on the finished walks that score `min_score`. The
    finished positions and their walks are returned as ghosts to state it.
   */
  method PartTwo(input: string) returns (r: Option<nat>, ghost fin: seq<Position>, ghost walks: seq<seq<Coords>>)
    ensures var m := GridMap(Lines(input));
      r.Some? ==> |walks| == |fin| && forall i :: 0 <= i < |fin| ==> WalkToEnd(m, walks[i]) && Cost(walks[i]) == fin[i].score
    ensures r.Some? ==> r.value == |WalkCells(walks, MinScore(fin))|
    ensures var m := GridMap(Lines(input));
      CellsWith(m, 'S') != {} && Walled(m) ==> r.Some?
  {
    var res;
    ghost var s;
    res, s, walks := Solver(input, true);
    fin := [];
    if res.None? {
      return None, fin, walks;
    }
    var (mn, finished) := res.value;
    fin := finished;
    ghost var m := GridMap(Lines(input));
    forall i | 0 <= i < |fin| ensures WalkToEnd(m, walks[i]) && Cost(walks[i]) == fin[i].score {
      FinishedWalk(m, s, true, fin, walks, i);
    }
    var n := CountTiles(finished, mn);
    TilesAreWalkCells(m, s, fin, walks, mn);
    r := Some(n);
  }
}
