/**
  Day 12: garden plots. The plots of one plant form zones (the same-char orthogonally
  connected components of the map); a zone costs its area times its perimeter (part one)
  or its area times its number of straight sides (part two).
 */
module Day12 {
  import opened Wrappers
  import opened Text
  import opened Grid
  import opened Sorting

  datatype Zone = Zone(ch: char, points: set<Coords>)

  /** `map.get(c)`. */
  function Look(m: map<Coords, char>, c: Coords): (r: Option<char>)
    ensures r.Some? <==> c in m
    ensures r.Some? ==> r.value == m[c]
  {
    if c in m then Some(m[c]) else None
  }

  // ---- zones ----------------------------------------------------------------------------

  /** Every point carries the char `ch`. */
  predicate Uniform(m: map<Coords, char>, ch: char, ps: set<Coords>)
  {
    forall p :: p in ps ==> p in m && m[p] == ch
  }

  /** No neighbour of a point that carries `ch` lies outside the set. */
  predicate Closed(m: map<Coords, char>, ch: char, ps: set<Coords>)
  {
    forall p, x :: p in ps && x in Neighbours4(p) && Look(m, x) == Some(ch) ==> x in ps
  }

  /** A walk over cells of the char `ch`, each step to an orthogonal neighbour. */
  ghost predicate Walk(m: map<Coords, char>, ch: char, w: seq<Coords>)
  {
    |w| >= 1 &&
    (forall i :: 0 <= i < |w| ==> Look(m, w[i]) == Some(ch)) &&
    (forall i :: 1 <= i < |w| ==> w[i] in Neighbours4(w[i - 1]))
  }

  /** `b` is reached from `a` by a walk over `ch` cells. */
  ghost predicate Linked(m: map<Coords, char>, ch: char, a: Coords, b: Coords)
  {
    exists w :: Walk(m, ch, w) && w[0] == a && w[|w| - 1] == b
  }

  /** Some point of the set reaches all of it. */
  ghost predicate Connected(m: map<Coords, char>, ch: char, ps: set<Coords>)
  {
    exists a :: a in ps && forall b :: b in ps ==> Linked(m, ch, a, b)
  }

  /** A zone: a non-empty, one-char, closed and connected set of points. */
  ghost predicate ZoneOk(m: map<Coords, char>, z: Zone)
  {
    z.points != {} && Uniform(m, z.ch, z.points) && Closed(m, z.ch, z.points) && Connected(m, z.ch, z.points)
  }

  /** The union of the zones' points. */
  function Points(zones: seq<Zone>): set<Coords>
  {
    if zones == [] then {} else Points(zones[..|zones| - 1]) + zones[|zones| - 1].points
  }

  lemma PointsAppend(zones: seq<Zone>, z: Zone)
    ensures Points(zones + [z]) == Points(zones) + z.points
  {
    assert (zones + [z])[..|zones|] == zones;
  }

  lemma {:induction false} PointsMember(zones: seq<Zone>, k: Coords)
    ensures k in Points(zones) <==> exists i :: 0 <= i < |zones| && k in zones[i].points
  {
    if zones != [] {
      var front := zones[..|zones| - 1];
      PointsMember(front, k);
      if k in Points(front) {
        var i :| 0 <= i < |front| && k in front[i].points;
        assert zones[i] == front[i];
      }
      if exists i :: 0 <= i < |zones| && k in zones[i].points {
        var i :| 0 <= i < |zones| && k in zones[i].points;
        if i < |front| {
          assert front[i] == zones[i];
        }
      }
    }
  }

  /** The zones partition the map's cells, and each is a zone. */
  ghost predicate Regions(m: map<Coords, char>, zones: seq<Zone>)
  {
    Points(zones) == m.Keys &&
    (forall i, j :: 0 <= i < j < |zones| ==> zones[i].points !! zones[j].points) &&
    (forall i :: 0 <= i < |zones| ==> ZoneOk(m, zones[i]))
  }

  /** A set holding every same-char neighbour of its cells: the union of finished zones. */
  predicate Sealed(m: map<Coords, char>, found: set<Coords>)
  {
    forall c, x :: c in found && x in Neighbours4(c) && c in m && Look(m, x) == Some(m[c]) ==> x in found
  }

  /** The `filter` of `find_zones`: the cells of `cs` carrying `ch` and not yet found, in order. */
  function Next(m: map<Coords, char>, ch: char, found: set<Coords>, cs: seq<Coords>): (r: seq<Coords>)
    ensures forall x :: x in r <==> x in cs && Look(m, x) == Some(ch) && x !in found
  {
    if cs == [] then []
    else
      var front := Next(m, ch, found, cs[..|cs| - 1]);
      var c := cs[|cs| - 1];
      assert forall x :: x in cs <==> x in cs[..|cs| - 1] || x == c;
      if Look(m, c) == Some(ch) && c !in found then front + [c] else front
  }

  lemma {:induction false} NextNone(m: map<Coords, char>, ch: char, found: set<Coords>, cs: seq<Coords>)
    requires forall x :: x in cs && Look(m, x) == Some(ch) ==> x in found
    ensures Next(m, ch, found, cs) == []
  {
    if cs != [] {
      NextNone(m, ch, found, cs[..|cs| - 1]);
    }
  }

  lemma NeighbourSymmetric(a: Coords, b: Coords)
    requires b in Neighbours4(a)
    ensures a in Neighbours4(b)
  {
    assert Manhattan(a, b) == 1 && Manhattan(b, a) == 1;
  }

  lemma WalkExtend(m: map<Coords, char>, ch: char, w: seq<Coords>, x: Coords)
    requires Walk(m, ch, w) && x in Neighbours4(w[|w| - 1]) && Look(m, x) == Some(ch)
    ensures Walk(m, ch, w + [x]) && (w + [x])[0] == w[0]
  {
    var w' := w + [x];
    forall i | 1 <= i < |w'| ensures w'[i] in Neighbours4(w'[i - 1]) {
      if i < |w| {
        assert w'[i] == w[i] && w'[i - 1] == w[i - 1];
      }
    }
  }

  /**
    The pushed cells are one position each, and no pushed cell is found yet: the stack
    invariant without which popping a second copy of a cell would push again.
   */
  ghost predicate StackCovered(m: map<Coords, char>, ch: char, found: set<Coords>, q: seq<Coords>)
  {
    forall i, x :: 0 <= i < |q| && q[i] in found && x in Neighbours4(q[i]) && Look(m, x) == Some(ch) ==>
      x in found || x in q[i + 1..]
  }

  /** Each point of the zone has every same-char neighbour found or still stacked. */
  ghost predicate Pending(m: map<Coords, char>, ch: char, found: set<Coords>, z: set<Coords>, q: seq<Coords>)
  {
    forall c, x :: c in z && x in Neighbours4(c) && Look(m, x) == Some(ch) ==> x in found || x in q
  }

  /** The walks from `pos` that reach the zone's points and the stacked cells. */
  ghost predicate Reached(m: map<Coords, char>, ch: char, pos: Coords, z: set<Coords>, paths: map<Coords, seq<Coords>>,
                          q: seq<Coords>, qpaths: seq<seq<Coords>>)
  {
    (forall c :: c in z ==> c in paths && Walk(m, ch, paths[c]) && paths[c][0] == pos && paths[c][|paths[c]| - 1] == c) &&
    |qpaths| == |q| &&
    (forall i :: 0 <= i < |q| ==> Walk(m, ch, qpaths[i]) && qpaths[i][0] == pos && qpaths[i][|qpaths[i]| - 1] == q[i])
  }

  /** Popping a cell first found: its kept neighbours are pushed, and the invariants carry over. */
  lemma PopNew(m: map<Coords, char>, ch: char, found: set<Coords>, z: set<Coords>, q: seq<Coords>, c: Coords, next: seq<Coords>)
    requires q != [] && c == q[|q| - 1] && c !in found && z <= found
    requires next == Next(m, ch, found + {c}, Adjacent(c))
    requires StackCovered(m, ch, found, q) && Pending(m, ch, found, z, q)
    ensures StackCovered(m, ch, found + {c}, q[..|q| - 1] + next)
    ensures Pending(m, ch, found + {c}, z + {c}, q[..|q| - 1] + next)
  {
    PopNewCovered(m, ch, found, q, c, next);
    PopNewPending(m, ch, found, z, q, c, next);
  }

  lemma PopNewCovered(m: map<Coords, char>, ch: char, found: set<Coords>, q: seq<Coords>, c: Coords, next: seq<Coords>)
    requires q != [] && c == q[|q| - 1] && c !in found
    requires next == Next(m, ch, found + {c}, Adjacent(c))
    requires StackCovered(m, ch, found, q)
    ensures StackCovered(m, ch, found + {c}, q[..|q| - 1] + next)
  {
    var q' := q[..|q| - 1] + next;
    var found' := found + {c};
    forall i, x | 0 <= i < |q'| && q'[i] in found' && x in Neighbours4(q'[i]) && Look(m, x) == Some(ch)
      ensures x in found' || x in q'[i + 1..]
    {
      if i < |q| - 1 {
        assert q'[i] == q[i];
        if q[i] == c {
          if x !in found' {
            assert x in Adjacent(c);
            CoveredByNext(q, next, i, x);
          }
        } else if x !in found' {
          CoveredByRest(q, next, i, x);
        }
      }
    }
  }

  /** A pushed cell is stacked above every cell left below the popped one. */
  lemma CoveredByNext(q: seq<Coords>, next: seq<Coords>, i: nat, x: Coords)
    requires i < |q| - 1 && x in next
    ensures x in (q[..|q| - 1] + next)[i + 1..]
  {
    var q' := q[..|q| - 1] + next;
    var k :| 0 <= k < |next| && next[k] == x;
    assert q'[|q| - 1 + k] == x;
    assert q'[i + 1..][|q| - 2 - i + k] == x;
  }

  /** A cell stacked above position `i`, other than the popped one, stays above it. */
  lemma CoveredByRest(q: seq<Coords>, next: seq<Coords>, i: nat, x: Coords)
    requires i < |q| - 1 && x in q[i + 1..] && x != q[|q| - 1]
    ensures x in (q[..|q| - 1] + next)[i + 1..]
  {
    var q' := q[..|q| - 1] + next;
    var k :| i + 1 <= k < |q| && q[k] == x;
    assert k < |q| - 1;
    assert q'[k] == x;
    assert q'[i + 1..][k - i - 1] == x;
  }

  lemma PopNewPending(m: map<Coords, char>, ch: char, found: set<Coords>, z: set<Coords>, q: seq<Coords>, c: Coords, next: seq<Coords>)
    requires q != [] && c == q[|q| - 1] && c !in found
    requires next == Next(m, ch, found + {c}, Adjacent(c))
    requires Pending(m, ch, found, z, q)
    ensures Pending(m, ch, found + {c}, z + {c}, q[..|q| - 1] + next)
  {
    var q' := q[..|q| - 1] + next;
    var found' := found + {c};
    forall p, x | p in z + {c} && x in Neighbours4(p) && Look(m, x) == Some(ch)
      ensures x in found' || x in q'
    {
      if p == c {
        if x !in found' {
          assert x in Adjacent(c) && x in next;
        }
      } else if x !in found' {
        assert x in q;
        var k :| 0 <= k < |q| && q[k] == x;
        assert k < |q| - 1;
        assert q'[k] == x;
      }
    }
  }

  /** Popping a cell found before: it has nothing left to push, and the invariants carry over. */
  lemma PopOld(m: map<Coords, char>, ch: char, found: set<Coords>, z: set<Coords>, q: seq<Coords>, c: Coords)
    requires q != [] && c == q[|q| - 1] && c in found
    requires StackCovered(m, ch, found, q) && Pending(m, ch, found, z, q)
    ensures Next(m, ch, found, Adjacent(c)) == []
    ensures StackCovered(m, ch, found, q[..|q| - 1])
    ensures Pending(m, ch, found, z, q[..|q| - 1])
  {
    forall x | x in Adjacent(c) && Look(m, x) == Some(ch) ensures x in found {
      assert q[|q| - 1 + 1..] == [];
    }
    NextNone(m, ch, found, Adjacent(c));
    PopOldCovered(m, ch, found, q);
    PopOldPending(m, ch, found, z, q);
  }

  lemma PopOldCovered(m: map<Coords, char>, ch: char, found: set<Coords>, q: seq<Coords>)
    requires q != [] && q[|q| - 1] in found && StackCovered(m, ch, found, q)
    ensures StackCovered(m, ch, found, q[..|q| - 1])
  {
    var q' := q[..|q| - 1];
    forall i, x | 0 <= i < |q'| && q'[i] in found && x in Neighbours4(q'[i]) && Look(m, x) == Some(ch)
      ensures x in found || x in q'[i + 1..]
    {
      assert q'[i] == q[i];
      if x !in found {
        CoveredBelow(q, i, x);
      }
    }
  }

  /** A cell stacked above position `i`, other than the top, stays above it once the top is popped. */
  lemma CoveredBelow(q: seq<Coords>, i: nat, x: Coords)
    requires i < |q| - 1 && x in q[i + 1..] && x != q[|q| - 1]
    ensures x in q[..|q| - 1][i + 1..]
  {
    var q' := q[..|q| - 1];
    var k :| i + 1 <= k < |q| && q[k] == x;
    assert k < |q| - 1;
    assert q'[i + 1..][k - i - 1] == x;
  }

  lemma PopOldPending(m: map<Coords, char>, ch: char, found: set<Coords>, z: set<Coords>, q: seq<Coords>)
    requires q != [] && q[|q| - 1] in found && Pending(m, ch, found, z, q)
    ensures Pending(m, ch, found, z, q[..|q| - 1])
  {
    var q' := q[..|q| - 1];
    forall p, x | p in z && x in Neighbours4(p) && Look(m, x) == Some(ch)
      ensures x in found || x in q'
    {
      if x !in found {
        var k :| 0 <= k < |q| && q[k] == x;
        assert q'[k] == x;
      }
    }
  }

  /** The walks of the pushed cells extend the walk to the popped one, which joins the zone. */
  lemma PushPaths(m: map<Coords, char>, ch: char, pos: Coords, z: set<Coords>, paths: map<Coords, seq<Coords>>,
                  q: seq<Coords>, qpaths: seq<seq<Coords>>, next: seq<Coords>)
    returns (qpaths': seq<seq<Coords>>)
    requires q != [] && Reached(m, ch, pos, z, paths, q, qpaths)
    requires forall x :: x in next ==> x in Neighbours4(q[|q| - 1]) && Look(m, x) == Some(ch)
    ensures Reached(m, ch, pos, z + {q[|q| - 1]}, paths[q[|q| - 1] := qpaths[|q| - 1]], q[..|q| - 1] + next, qpaths')
  {
    var c, w := q[|q| - 1], qpaths[|q| - 1];
    var front, frontW := q[..|q| - 1], qpaths[..|q| - 1];
    qpaths' := frontW + seq(|next|, k requires 0 <= k < |next| => w + [next[k]]);
    forall i | 0 <= i < |front + next|
      ensures Walk(m, ch, qpaths'[i]) && qpaths'[i][0] == pos && qpaths'[i][|qpaths'[i]| - 1] == (front + next)[i]
    {
      if i < |front| {
        assert qpaths'[i] == qpaths[i] && (front + next)[i] == q[i];
      } else {
        var k := i - |front|;
        assert next[k] in next;
        assert qpaths'[i] == w + [next[k]] && (front + next)[i] == next[k];
        WalkExtend(m, ch, w, next[k]);
      }
    }
  }

  /** Popping a cell already in the zone keeps the walks. */
  lemma ReachedPop(m: map<Coords, char>, ch: char, pos: Coords, z: set<Coords>, paths: map<Coords, seq<Coords>>,
                   q: seq<Coords>, qpaths: seq<seq<Coords>>)
    requires q != [] && Reached(m, ch, pos, z, paths, q, qpaths)
    ensures Reached(m, ch, pos, z, paths, q[..|q| - 1], qpaths[..|q| - 1])
  {
    var front, frontW := q[..|q| - 1], qpaths[..|q| - 1];
    forall i | 0 <= i < |front|
      ensures Walk(m, ch, frontW[i]) && frontW[i][0] == pos && frontW[i][|frontW[i]| - 1] == front[i]
    {
      assert frontW[i] == qpaths[i] && front[i] == q[i];
    }
  }

  /** Once the stack is empty, the zone holds each same-char neighbour of its points. */
  lemma SealedClose(m: map<Coords, char>, ch: char, found0: set<Coords>, z: set<Coords>)
    requires Sealed(m, found0) && Uniform(m, ch, z) && z !! found0 && Pending(m, ch, found0 + z, z, [])
    ensures Closed(m, ch, z)
  {
    forall p, x | p in z && x in Neighbours4(p) && Look(m, x) == Some(ch) ensures x in z {
      NeighbourSymmetric(p, x);
    }
  }

  /** What the `while` loop of `find_zones` keeps while it fills the zone of `pos`. */
  ghost predicate FloodInv(m: map<Coords, char>, ch: char, pos: Coords, found0: set<Coords>, found: set<Coords>,
                           z: set<Coords>, q: seq<Coords>, paths: map<Coords, seq<Coords>>, qpaths: seq<seq<Coords>>)
  {
    found == found0 + z && z !! found0 && found <= m.Keys && Sealed(m, found0) &&
    Uniform(m, ch, z) && Stacked(m, ch, found0, q) &&
    StackCovered(m, ch, found, q) && Pending(m, ch, found, z, q) && Reached(m, ch, pos, z, paths, q, qpaths) &&
    (pos in z || q == [pos])
  }

  /** The stacked cells are of the zone's char and outside the earlier zones. */
  ghost predicate Stacked(m: map<Coords, char>, ch: char, found0: set<Coords>, q: seq<Coords>)
  {
    forall x :: x in q ==> Look(m, x) == Some(ch) && x !in found0
  }

  /** A turn that pops a cell not yet found. */
  lemma FloodNew(m: map<Coords, char>, ch: char, pos: Coords, found0: set<Coords>, found: set<Coords>,
                 z: set<Coords>, q: seq<Coords>, paths: map<Coords, seq<Coords>>, qpaths: seq<seq<Coords>>, next: seq<Coords>)
    returns (qpaths': seq<seq<Coords>>)
    requires q != [] && q[|q| - 1] !in found && FloodInv(m, ch, pos, found0, found, z, q, paths, qpaths)
    requires next == Next(m, ch, found + {q[|q| - 1]}, Adjacent(q[|q| - 1]))
    ensures FloodInv(m, ch, pos, found0, found + {q[|q| - 1]}, z + {q[|q| - 1]}, q[..|q| - 1] + next,
                     paths[q[|q| - 1] := qpaths[|q| - 1]], qpaths')
  {
    var c := q[|q| - 1];
    assert c in q;
    PopNew(m, ch, found, z, q, c, next);
    qpaths' := PushPaths(m, ch, pos, z, paths, q, qpaths, next);
    PushedUniform(m, ch, found0, found, q, next);
  }

  /** Finding one more cell of the map leaves fewer cells to find. */
  lemma KeysShrink(keys: set<Coords>, found: set<Coords>, c: Coords)
    requires c in keys && c !in found
    ensures |keys - (found + {c})| < |keys - found|
  {
    assert (keys - (found + {c})) + {c} == keys - found;
  }

  /** The stack after a push holds only cells of the zone's char outside the earlier zones. */
  lemma PushedUniform(m: map<Coords, char>, ch: char, found0: set<Coords>, found: set<Coords>, q: seq<Coords>, next: seq<Coords>)
    requires q != [] && found0 <= found
    requires Stacked(m, ch, found0, q)
    requires next == Next(m, ch, found + {q[|q| - 1]}, Adjacent(q[|q| - 1]))
    ensures Stacked(m, ch, found0, q[..|q| - 1] + next)
  {
    forall x | x in q[..|q| - 1] + next ensures Look(m, x) == Some(ch) && x !in found0 {
      if x in q[..|q| - 1] {
        assert x in q;
      }
    }
  }

  /** A turn that pops a cell found before. */
  lemma FloodOld(m: map<Coords, char>, ch: char, pos: Coords, found0: set<Coords>, found: set<Coords>,
                 z: set<Coords>, q: seq<Coords>, paths: map<Coords, seq<Coords>>, qpaths: seq<seq<Coords>>)
    requires q != [] && q[|q| - 1] in found && FloodInv(m, ch, pos, found0, found, z, q, paths, qpaths)
    ensures Next(m, ch, found, Adjacent(q[|q| - 1])) == []
    ensures FloodInv(m, ch, pos, found0, found, z, q[..|q| - 1], paths, qpaths[..|q| - 1])
  {
    var c := q[|q| - 1];
    assert c in q;
    PopOld(m, ch, found, z, q, c);
    ReachedPop(m, ch, pos, z, paths, q, qpaths);
    forall x | x in q[..|q| - 1] ensures Look(m, x) == Some(ch) && x !in found0 {
      assert x in q;
    }
  }

  lemma FloodStart(m: map<Coords, char>, pos: Coords, found0: set<Coords>)
    requires pos in m && pos !in found0 && found0 <= m.Keys && Sealed(m, found0)
    ensures FloodInv(m, m[pos], pos, found0, found0, {}, [pos], map[], [[pos]])
  {
    assert Walk(m, m[pos], [pos]);
  }

  lemma FloodDone(m: map<Coords, char>, ch: char, pos: Coords, found0: set<Coords>, found: set<Coords>,
                  z: set<Coords>, paths: map<Coords, seq<Coords>>, qpaths: seq<seq<Coords>>)
    requires FloodInv(m, ch, pos, found0, found, z, [], paths, qpaths)
    ensures found == found0 + z && z !! found0 && pos in z
    ensures Uniform(m, ch, z) && Closed(m, ch, z)
    ensures forall c :: c in z ==> c in paths && Walk(m, ch, paths[c]) && paths[c][0] == pos && paths[c][|paths[c]| - 1] == c
  {
    SealedClose(m, ch, found0, z);
  }

  /**
    One turn of the `while` loop of `find_zones`: pop a cell; unless found already, add it
    to the zone and to the found cells and push its unfound neighbours of the zone's char.
   */
  method FloodTurn(m: map<Coords, char>, ch: char, ghost pos: Coords, ghost found0: set<Coords>, found: set<Coords>,
                   z: set<Coords>, q: seq<Coords>, ghost paths: map<Coords, seq<Coords>>, ghost qpaths: seq<seq<Coords>>)
    returns (z': set<Coords>, found': set<Coords>, q': seq<Coords>, ghost paths': map<Coords, seq<Coords>>,
             ghost qpaths': seq<seq<Coords>>)
    requires q != [] && FloodInv(m, ch, pos, found0, found, z, q, paths, qpaths)
    ensures FloodInv(m, ch, pos, found0, found', z', q', paths', qpaths')
    ensures |m.Keys - found'| < |m.Keys - found| || (found' == found && |q'| < |q|)
    ensures q[|q| - 1] !in found ==>
      z' == z + {q[|q| - 1]} && found' == found + {q[|q| - 1]} &&
      q' == q[..|q| - 1] + Next(m, ch, found + {q[|q| - 1]}, Adjacent(q[|q| - 1]))
    ensures q[|q| - 1] in found ==> z' == z && found' == found && q' == q[..|q| - 1]
  {
    var c := q[|q| - 1];
    if c !in found {
      var next := Next(m, ch, found + {c}, Adjacent(c));
      paths' := paths[c := qpaths[|q| - 1]];
      qpaths' := FloodNew(m, ch, pos, found0, found, z, q, paths, qpaths, next);
      assert c in q;
      KeysShrink(m.Keys, found, c);
      z', found' := z + {c}, found + {c};
      // the `for` that pushes each of `next` appends it
      q' := q[..|q| - 1] + next;
    } else {
      FloodOld(m, ch, pos, found0, found, z, q, paths, qpaths);
      z', found', q', paths', qpaths' := z, found, q[..|q| - 1], paths, qpaths[..|q| - 1];
    }
  }

  /**
    The `while` loop of `find_zones` from the unfound cell `pos`: the zone is the closed
    set of cells of `pos`'s char that walks from `pos` reach, disjoint from the earlier zones.
   */
  method Flood(m: map<Coords, char>, pos: Coords, found0: set<Coords>)
    returns (z: set<Coords>, found: set<Coords>, ghost paths: map<Coords, seq<Coords>>)
    requires pos in m && pos !in found0 && found0 <= m.Keys && Sealed(m, found0)
    ensures found == found0 + z && z !! found0 && pos in z
    ensures Uniform(m, m[pos], z) && Closed(m, m[pos], z)
    ensures forall c :: c in z ==> c in paths && Walk(m, m[pos], paths[c]) && paths[c][0] == pos && paths[c][|paths[c]| - 1] == c
  {
    var ch := m[pos];
    z, found := {}, found0;
    paths := map[];
    var q := [pos];
    ghost var qpaths := [[pos]];
    FloodStart(m, pos, found0);
    while q != []
      invariant FloodInv(m, ch, pos, found0, found, z, q, paths, qpaths)
      decreases |m.Keys - found|, |q|
    {
      z, found, q, paths, qpaths := FloodTurn(m, ch, pos, found0, found, z, q, paths, qpaths);
    }
    FloodDone(m, ch, pos, found0, found, z, paths, qpaths);
  }

  /** The zones found so far are zones, pairwise disjoint. */
  ghost predicate ZonesOk(m: map<Coords, char>, zones: seq<Zone>)
  {
    (forall i, j :: 0 <= i < j < |zones| ==> zones[i].points !! zones[j].points) &&
    (forall i :: 0 <= i < |zones| ==> ZoneOk(m, zones[i]))
  }

  lemma ZoneFromFlood(m: map<Coords, char>, pos: Coords, z: set<Coords>, paths: map<Coords, seq<Coords>>)
    requires pos in m && pos in z && Uniform(m, m[pos], z) && Closed(m, m[pos], z)
    requires forall c :: c in z ==> c in paths && Walk(m, m[pos], paths[c]) && paths[c][0] == pos && paths[c][|paths[c]| - 1] == c
    ensures ZoneOk(m, Zone(m[pos], z))
  {
    forall b | b in z ensures Linked(m, m[pos], pos, b) {
      assert Walk(m, m[pos], paths[b]);
    }
  }

  lemma SealedGrow(m: map<Coords, char>, found: set<Coords>, ch: char, z: set<Coords>)
    requires Sealed(m, found) && Uniform(m, ch, z) && Closed(m, ch, z)
    ensures Sealed(m, found + z)
  {
  }

  lemma ZonesPush(m: map<Coords, char>, zones: seq<Zone>, z: Zone)
    requires ZonesOk(m, zones) && ZoneOk(m, z) && z.points !! Points(zones)
    ensures ZonesOk(m, zones + [z]) && Points(zones + [z]) == Points(zones) + z.points
  {
    PointsAppend(zones, z);
    var zs := zones + [z];
    forall i, j | 0 <= i < j < |zs| ensures zs[i].points !! zs[j].points {
      if j == |zones| {
        forall k | k in zones[i].points ensures k in Points(zones) {
          PointsMember(zones, k);
        }
      } else {
        assert zs[i] == zones[i] && zs[j] == zones[j];
      }
    }
    forall i | 0 <= i < |zs| ensures ZoneOk(m, zs[i]) {
      if i < |zones| {
        assert zs[i] == zones[i];
      }
    }
  }

  /**
    `find_zones`: flood-fill from each map cell (in the map's iteration order, which this
    model does not fix) not yet in a zone.
   */
  method FindZones(m: map<Coords, char>) returns (zones: seq<Zone>)
    ensures Regions(m, zones)
  {
    var found: set<Coords> := {};
    zones := [];
    var rest := m.Keys;
    while rest != {}
      invariant rest <= m.Keys && found <= m.Keys && m.Keys - rest <= found
      invariant found == Points(zones) && Sealed(m, found) && ZonesOk(m, zones)
      decreases rest
    {
      var pos :| pos in rest;
      rest := rest - {pos};
      if pos in found {
        continue;
      }
      var z, found', paths := Flood(m, pos, found);
      ZoneFromFlood(m, pos, z, paths);
      SealedGrow(m, found, m[pos], z);
      ZonesPush(m, zones, Zone(m[pos], z));
      zones := zones + [Zone(m[pos], z)];
      found := found';
    }
  }

  /** A walk that starts in a closed set of its char stays in it. */
  lemma {:induction false} WalkStays(m: map<Coords, char>, ch: char, ps: set<Coords>, w: seq<Coords>)
    requires Closed(m, ch, ps) && Walk(m, ch, w) && w[0] in ps
    ensures w[|w| - 1] in ps
    decreases |w|
  {
    if |w| > 1 {
      var front := w[..|w| - 1];
      assert Walk(m, ch, front) by {
        forall i | 1 <= i < |front| ensures front[i] in Neighbours4(front[i - 1]) {
          assert front[i] == w[i] && front[i - 1] == w[i - 1];
        }
      }
      WalkStays(m, ch, ps, front);
      assert w[|w| - 1] in Neighbours4(w[|w| - 2]) && Look(m, w[|w| - 1]) == Some(ch);
    }
  }

  function Reversed(w: seq<Coords>): (r: seq<Coords>)
    ensures |r| == |w| && forall i :: 0 <= i < |w| ==> r[i] == w[|w| - 1 - i]
  {
    if w == [] then [] else [w[|w| - 1]] + Reversed(w[..|w| - 1])
  }

  lemma WalkReversed(m: map<Coords, char>, ch: char, w: seq<Coords>)
    requires Walk(m, ch, w)
    ensures Walk(m, ch, Reversed(w)) && Reversed(w)[0] == w[|w| - 1] && Reversed(w)[|w| - 1] == w[0]
  {
    var r := Reversed(w);
    forall i | 1 <= i < |r| ensures r[i] in Neighbours4(r[i - 1]) {
      var j := |w| - i;
      assert r[i] == w[j - 1] && r[i - 1] == w[j];
      NeighbourSymmetric(w[j - 1], w[j]);
    }
  }

  lemma WalkJoin(m: map<Coords, char>, ch: char, u: seq<Coords>, v: seq<Coords>)
    requires Walk(m, ch, u) && Walk(m, ch, v) && u[|u| - 1] == v[0]
    ensures Walk(m, ch, u + v[1..]) && (u + v[1..])[0] == u[0] && (u + v[1..])[|u + v[1..]| - 1] == v[|v| - 1]
  {
    var w := u + v[1..];
    forall i | 1 <= i < |w| ensures w[i] in Neighbours4(w[i - 1]) {
      if i < |u| {
        assert w[i] == u[i] && w[i - 1] == u[i - 1];
      } else {
        var k := i - |u| + 1;
        assert w[i] == v[k] && w[i - 1] == v[k - 1];
      }
    }
    forall i | 0 <= i < |w| ensures Look(m, w[i]) == Some(ch) {
      if i >= |u| {
        assert w[i] == v[i - |u| + 1];
      }
    }
  }

  /** A zone is the set of cells its char reaches from any of its points: a connected component. */
  lemma ZoneIsComponent(m: map<Coords, char>, z: Zone, a: Coords, b: Coords)
    requires ZoneOk(m, z) && a in z.points
    ensures b in z.points <==> Linked(m, z.ch, a, b)
  {
    if Linked(m, z.ch, a, b) {
      LinkedInZone(m, z, a, b);
    }
    if b in z.points {
      ZoneLinked(m, z, a, b);
    }
  }

  /** A walk of the zone's char from one of its points stays in the zone. */
  lemma LinkedInZone(m: map<Coords, char>, z: Zone, a: Coords, b: Coords)
    requires ZoneOk(m, z) && a in z.points && Linked(m, z.ch, a, b)
    ensures b in z.points
  {
    var w :| Walk(m, z.ch, w) && w[0] == a && w[|w| - 1] == b;
    WalkStays(m, z.ch, z.points, w);
  }

  /** Any two points of a zone are joined by a walk over its char, through the zone's start. */
  lemma ZoneLinked(m: map<Coords, char>, z: Zone, a: Coords, b: Coords)
    requires ZoneOk(m, z) && a in z.points && b in z.points
    ensures Linked(m, z.ch, a, b)
  {
    var s :| s in z.points && forall c :: c in z.points ==> Linked(m, z.ch, s, c);
    var u :| Walk(m, z.ch, u) && u[0] == s && u[|u| - 1] == a;
    var v :| Walk(m, z.ch, v) && v[0] == s && v[|v| - 1] == b;
    WalkReversed(m, z.ch, u);
    WalkJoin(m, z.ch, Reversed(u), v);
  }

  // ---- borders --------------------------------------------------------------------------

  /** A border: a point of a zone and a neighbour of it outside the zone. */
  type Border = (Coords, Coords)

  /** The pairs of a point of `points` and a neighbour whose char is not `ch` or that is off the map. */
  function Borders(m: map<Coords, char>, points: set<Coords>, ch: char): set<Border>
  {
    set p, q | p in points && q in Neighbours4(p) && Look(m, q) != Some(ch) :: (p, q)
  }

  /** The borders contributed by `p` from the neighbours `cs`. */
  function Crossings(m: map<Coords, char>, p: Coords, cs: seq<Coords>, ch: char): set<Border>
  {
    set q | q in cs && Look(m, q) != Some(ch) :: (p, q)
  }

  lemma BordersStep(m: map<Coords, char>, done: set<Coords>, p: Coords, ch: char)
    ensures Borders(m, done + {p}, ch) == Borders(m, done, ch) + Crossings(m, p, Adjacent(p), ch)
  {
    forall b | b in Borders(m, done + {p}, ch) ensures b in Borders(m, done, ch) + Crossings(m, p, Adjacent(p), ch) {
      if b.0 == p {
        assert b.1 in Adjacent(p);
      }
    }
  }

  /** `find_borders`: for each point, the neighbours not of the zone's char. */
  method FindBorders(m: map<Coords, char>, points: set<Coords>, ch: char) returns (borders: set<Border>)
    ensures borders == Borders(m, points, ch)
    ensures forall b :: b in borders <==> b.0 in points && b.1 in Neighbours4(b.0) && Look(m, b.1) != Some(ch)
  {
    borders := {};
    var todo := points;
    while todo != {}
      invariant todo <= points && borders == Borders(m, points - todo, ch)
      decreases todo
    {
      var point :| point in todo;
      var adj := Adjacent(point);
      ghost var before := borders;
      for k := 0 to |adj|
        invariant borders == before + Crossings(m, point, adj[..k], ch)
      {
        assert adj[..k + 1] == adj[..k] + [adj[k]];
        if Look(m, adj[k]) != Some(ch) {
          borders := borders + {(point, adj[k])};
        }
      }
      assert adj[..|adj|] == adj;
      BordersStep(m, points - todo, point, ch);
      assert (points - todo) + {point} == points - (todo - {point});
      todo := todo - {point};
    }
  }

  /** `assert!(map.get(&n1) != map.get(&n2))`: the border separates two different chars. */
  predicate Separates(m: map<Coords, char>, b: Border)
  {
    Look(m, b.0) != Look(m, b.1)
  }

  /** Every border of a one-char zone separates its char from another or from off the map. */
  lemma BordersSeparate(m: map<Coords, char>, points: set<Coords>, ch: char, b: Border)
    requires Uniform(m, ch, points) && b in Borders(m, points, ch)
    ensures Separates(m, b) && Look(m, b.0) == Some(ch)
  {
  }

  /** A point of the set whose `x` is largest. */
  lemma {:induction false} RightMost(ps: set<Coords>) returns (p: Coords)
    requires ps != {}
    ensures p in ps && forall c :: c in ps ==> c.x <= p.x
    decreases ps
  {
    var a :| a in ps;
    if ps == {a} {
      p := a;
    } else {
      var b := RightMost(ps - {a});
      p := if a.x <= b.x then b else a;
    }
  }

  /** A zone has a border: east of its right-most point lies a cell of another char or nothing. */
  lemma ZoneHasBorder(m: map<Coords, char>, z: Zone)
    requires ZoneOk(m, z)
    ensures Borders(m, z.points, z.ch) != {}
  {
    var p := RightMost(z.points);
    var east := Coords(p.x + 1, p.y);
    assert east in Neighbours4(p) && east !in z.points;
    assert (p, east) in Borders(m, z.points, z.ch);
  }

  // ---- sides ----------------------------------------------------------------------------

  /** The two borders a border continues into along its side (`adjacent`). */
  function AdjPairs(b: Border): (r: seq<Border>)
    ensures |r| == 2
  {
    var (n1, n2) := b;
    if n1.y == n2.y then
      [(Coords(n1.x, n1.y + 1), Coords(n2.x, n2.y + 1)), (Coords(n1.x, n1.y - 1), Coords(n2.x, n2.y - 1))]
    else
      [(Coords(n1.x + 1, n1.y), Coords(n2.x + 1, n2.y)), (Coords(n1.x - 1, n1.y), Coords(n2.x - 1, n2.y))]
  }

  /** One disjunct of the `any` closure, as written: equal pairs, or swapped with equal chars. */
  predicate Matches(m: map<Coords, char>, pair: Border, second: Border)
  {
    (pair == second && Look(m, pair.0) == Look(m, second.0) && Look(m, pair.1) == Look(m, second.1)) ||
    (pair == (second.1, second.0) && Look(m, pair.0) == Look(m, second.0) && Look(m, pair.1) == Look(m, second.1))
  }

  /** `is_adjacent`, the `any` over the two pairs of `adjacent`: `second` continues the side of `item`. */
  predicate Touching(m: map<Coords, char>, item: Border, second: Border)
  {
    Matches(m, AdjPairs(item)[0], second) || Matches(m, AdjPairs(item)[1], second)
  }

  /** Touching is symmetric between borders that separate different chars. */
  lemma TouchSymmetric(m: map<Coords, char>, b: Border, t: Border)
    requires Separates(m, t) && Touching(m, b, t)
    ensures Touching(m, t, b)
  {
    var k := if Matches(m, AdjPairs(b)[0], t) then 0 else 1;
    assert AdjPairs(b)[k] == t;
    var j := 1 - k;
    assert AdjPairs(t)[j] == b;
    assert Matches(m, AdjPairs(t)[j], b);
  }

  /** A side: a list of distinct borders, each after the first touching an earlier one. */
  ghost predicate Chained(m: map<Coords, char>, side: seq<Border>)
  {
    side != [] &&
    (forall a, c :: 0 <= a < c < |side| ==> side[a] != side[c]) &&
    (forall k :: 0 < k < |side| ==> TouchesEarlier(m, side, k))
  }

  /** The `k`-th border of the side continues an earlier one. */
  ghost predicate TouchesEarlier(m: map<Coords, char>, side: seq<Border>, k: nat)
    requires k < |side|
  {
    exists j :: 0 <= j < k && Touching(m, side[j], side[k])
  }

  /** No border outside the set continues a border inside it. */
  ghost predicate Shut(m: map<Coords, char>, borders: set<Border>, inside: set<Border>)
  {
    forall t, b :: t in inside && b in borders && Touching(m, t, b) ==> b in inside
  }

  function SideUnion(sides: seq<seq<Border>>): set<Border>
  {
    if sides == [] then {} else SideUnion(sides[..|sides| - 1]) + Elems(sides[|sides| - 1])
  }

  lemma {:induction false} SideUnionMember(sides: seq<seq<Border>>, b: Border)
    ensures b in SideUnion(sides) <==> exists i :: 0 <= i < |sides| && b in sides[i]
  {
    if sides != [] {
      var front := sides[..|sides| - 1];
      SideUnionMember(front, b);
      if b in SideUnion(front) {
        var i :| 0 <= i < |front| && b in front[i];
        assert sides[i] == front[i];
      }
      if exists i :: 0 <= i < |sides| && b in sides[i] {
        var i :| 0 <= i < |sides| && b in sides[i];
        if i < |front| {
          assert front[i] == sides[i];
        }
      }
    }
  }

  /** The sides are chained, shut and pairwise disjoint. */
  ghost predicate SidesOk(m: map<Coords, char>, borders: set<Border>, sides: seq<seq<Border>>)
  {
    (forall i :: 0 <= i < |sides| ==> Chained(m, sides[i]) && Shut(m, borders, Elems(sides[i]))) &&
    (forall i, j :: 0 <= i < j < |sides| ==> Elems(sides[i]) !! Elems(sides[j]))
  }

  /** The borders not yet taken that continue `item`. */
  function Fresh(m: map<Coords, char>, borders: set<Border>, taken: set<Border>, item: Border): set<Border>
  {
    set s | s in borders && s !in taken && Touching(m, item, s)
  }

  /**
    The `for second in borders` loop (in the set's order, which this model does not fix):
    push every untaken border that continues `item` onto the side and the stack, and take it.
   */
  method Gather(m: map<Coords, char>, borders: set<Border>, taken: set<Border>, item: Border,
                side: seq<Border>, q: seq<Border>)
    returns (taken': set<Border>, side': seq<Border>, q': seq<Border>, ghost ns: seq<Border>)
    ensures Elems(ns) == Fresh(m, borders, taken, item) && forall a, c :: 0 <= a < c < |ns| ==> ns[a] != ns[c]
    ensures taken' == taken + Elems(ns) && side' == side + ns && q' == q + ns
  {
    taken', side', q', ns := taken, side, q, [];
    var others := borders;
    while others != {}
      invariant others <= borders
      invariant Elems(ns) == Fresh(m, borders - others, taken, item) && forall a, c :: 0 <= a < c < |ns| ==> ns[a] != ns[c]
      invariant taken' == taken + Elems(ns) && side' == side + ns && q' == q + ns
      decreases others
    {
      var second :| second in others;
      others := others - {second};
      assert Elems(ns) <= borders - (others + {second});
      if second in taken' {
        continue;
      }
      if Touching(m, item, second) {
        assert Elems(ns + [second]) == Elems(ns) + {second};
        side', q', taken' := side' + [second], q' + [second], taken' + {second};
        ns := ns + [second];
      }
    }
  }

  /**
    What the `while` loop of `sort_borders_into_sides` keeps while it grows the side of
    `border`: taken is the earlier sides' borders and this side's; each border of the side
    no longer stacked was checked and had every border it continues taken.
   */
  ghost predicate SideInv(m: map<Coords, char>, borders: set<Border>, taken0: set<Border>, border: Border,
                          taken: set<Border>, side: seq<Border>, q: seq<Border>)
  {
    taken0 <= borders && Shut(m, borders, taken0) && (forall b :: b in taken0 ==> Separates(m, b)) &&
    taken == taken0 + Elems(side) && Elems(side) !! taken0 && Elems(side) <= borders &&
    side != [] && side[0] == border && Chained(m, side) &&
    (forall a, c :: 0 <= a < c < |q| ==> q[a] != q[c]) && Elems(q) <= Elems(side) &&
    (forall t :: t in side && t !in q ==> Separates(m, t)) &&
    (forall t, b :: t in side && t !in q && b in borders && Touching(m, t, b) ==> b in taken)
  }

  /** Borders taken now that continue a border of the side keep it chained. */
  lemma GrowChained(m: map<Coords, char>, borders: set<Border>, taken: set<Border>, side: seq<Border>,
                    ix: nat, ns: seq<Border>)
    requires Chained(m, side) && ix < |side| && Elems(side) <= taken
    requires Elems(ns) == Fresh(m, borders, taken, side[ix]) && forall a, c :: 0 <= a < c < |ns| ==> ns[a] != ns[c]
    ensures Chained(m, side + ns)
  {
    var side' := side + ns;
    forall a, c | 0 <= a < c < |side'| ensures side'[a] != side'[c] {
      if c >= |side| && a < |side| {
        assert side'[c] in ns && side'[a] == side[a];
        assert side'[c] in Fresh(m, borders, taken, side[ix]);
        assert side[a] in Elems(side);
      } else if c < |side| {
        assert side'[a] == side[a] && side'[c] == side[c];
      } else {
        assert side'[a] == ns[a - |side|] && side'[c] == ns[c - |side|];
      }
    }
    forall k | 0 < k < |side'| ensures TouchesEarlier(m, side', k) {
      if k < |side| {
        assert TouchesEarlier(m, side, k);
        var j :| 0 <= j < k && Touching(m, side[j], side[k]);
        assert side'[j] == side[j] && side'[k] == side[k];
        assert 0 <= j < k && Touching(m, side'[j], side'[k]);
      } else {
        assert side'[k] in ns && side'[ix] == side[ix];
        assert side'[k] in Fresh(m, borders, taken, side[ix]);
        assert 0 <= ix < k && Touching(m, side'[ix], side'[k]);
      }
    }
  }

  /** The stack stays free of repeats when fresh borders are pushed. */
  lemma GrowStack(m: map<Coords, char>, borders: set<Border>, taken: set<Border>, item: Border,
                  front: seq<Border>, ns: seq<Border>)
    requires (forall a, c :: 0 <= a < c < |front| ==> front[a] != front[c]) && Elems(front) <= taken
    requires Elems(ns) == Fresh(m, borders, taken, item) && forall a, c :: 0 <= a < c < |ns| ==> ns[a] != ns[c]
    ensures forall a, c :: 0 <= a < c < |front + ns| ==> (front + ns)[a] != (front + ns)[c]
  {
    var q' := front + ns;
    forall a, c | 0 <= a < c < |q'| ensures q'[a] != q'[c] {
      if c >= |front| && a < |front| {
        assert q'[c] in ns && q'[a] == front[a];
        assert q'[c] in Fresh(m, borders, taken, item);
        assert front[a] in Elems(front);
      } else if c < |front| {
        assert q'[a] == front[a] && q'[c] == front[c];
      } else {
        assert q'[a] == ns[a - |front|] && q'[c] == ns[c - |front|];
      }
    }
  }

  /** The popped border is checked and has every border it continues taken. */
  lemma GrowDone(m: map<Coords, char>, borders: set<Border>, taken: set<Border>, side: seq<Border>,
                 q: seq<Border>, ns: seq<Border>)
    requires q != [] && Separates(m, q[|q| - 1])
    requires forall t :: t in side && t !in q ==> Separates(m, t)
    requires forall t, b :: t in side && t !in q && b in borders && Touching(m, t, b) ==> b in taken
    requires Elems(ns) == Fresh(m, borders, taken, q[|q| - 1])
    ensures forall t :: t in side + ns && t !in q[..|q| - 1] + ns ==> Separates(m, t)
    ensures forall t, b :: t in side + ns && t !in q[..|q| - 1] + ns && b in borders && Touching(m, t, b) ==> b in taken + Elems(ns)
  {
    var item := q[|q| - 1];
    assert q == q[..|q| - 1] + [item];
    forall t | t in side + ns && t !in q[..|q| - 1] + ns ensures Separates(m, t) {
      if t != item {
        assert t !in q;
      }
    }
    forall t, b | t in side + ns && t !in q[..|q| - 1] + ns && b in borders && Touching(m, t, b)
      ensures b in taken + Elems(ns)
    {
      if t != item {
        assert t !in q;
      }
    }
  }

  lemma SideGrow(m: map<Coords, char>, borders: set<Border>, taken0: set<Border>, border: Border,
                 taken: set<Border>, side: seq<Border>, q: seq<Border>, ns: seq<Border>)
    requires q != [] && SideInv(m, borders, taken0, border, taken, side, q) && Separates(m, q[|q| - 1])
    requires Elems(ns) == Fresh(m, borders, taken, q[|q| - 1]) && forall a, c :: 0 <= a < c < |ns| ==> ns[a] != ns[c]
    ensures SideInv(m, borders, taken0, border, taken + Elems(ns), side + ns, q[..|q| - 1] + ns)
    ensures |borders - (taken + Elems(ns))| < |borders - taken| || (ns == [] && |q[..|q| - 1] + ns| < |q|)
  {
    var item := q[|q| - 1];
    var front := q[..|q| - 1];
    assert item in Elems(q);
    assert item in Elems(side);
    var ix :| 0 <= ix < |side| && side[ix] == item;
    assert Elems(side + ns) == Elems(side) + Elems(ns);
    GrowChained(m, borders, taken, side, ix, ns);
    forall a, c | 0 <= a < c < |front| ensures front[a] != front[c] {
      assert front[a] == q[a] && front[c] == q[c];
    }
    assert Elems(front) <= Elems(q);
    GrowStack(m, borders, taken, item, front, ns);
    GrowDone(m, borders, taken, side, q, ns);
    assert Elems(ns) !! taken && Elems(ns) <= borders;
    assert (side + ns)[0] == border;
    assert Elems(front + ns) == Elems(front) + Elems(ns);
    GrowMeasure(m, borders, taken, item, ns);
  }

  lemma GrowMeasure(m: map<Coords, char>, borders: set<Border>, taken: set<Border>, item: Border, ns: seq<Border>)
    requires Elems(ns) == Fresh(m, borders, taken, item)
    ensures ns == [] || |borders - (taken + Elems(ns))| < |borders - taken|
  {
    if ns != [] {
      assert ns[0] in Elems(ns);
      var rest := borders - (taken + Elems(ns));
      assert rest + Elems(ns) == borders - taken && rest !! Elems(ns);
    }
  }

  /**
    One turn of the `while` loop of `sort_borders_into_sides`: pop a border, check that it
    separates two different chars (`ok` is false where the `assert!` panics), and push the
    untaken borders that continue it.
   */
  method SideTurn(m: map<Coords, char>, borders: set<Border>, ghost taken0: set<Border>, ghost border: Border,
                  taken: set<Border>, side: seq<Border>, q: seq<Border>)
    returns (ok: bool, taken': set<Border>, side': seq<Border>, q': seq<Border>)
    requires q != [] && SideInv(m, borders, taken0, border, taken, side, q)
    ensures ok <==> Separates(m, q[|q| - 1])
    ensures ok ==> SideInv(m, borders, taken0, border, taken', side', q')
    ensures ok ==> |borders - taken'| < |borders - taken| || (taken' == taken && |q'| < |q|)
    ensures ok ==> exists ns ::
      (Elems(ns) == Fresh(m, borders, taken, q[|q| - 1]) && taken' == taken + Elems(ns) && side' == side + ns && q' == q[..|q| - 1] + ns)
  {
    var item := q[|q| - 1];
    var (n1, n2) := item;
    if Look(m, n1) == Look(m, n2) {
      return false, taken, side, q;
    }
    ok := true;
    ghost var ns;
    taken', side', q', ns := Gather(m, borders, taken, item, side, q[..|q| - 1]);
    SideGrow(m, borders, taken0, border, taken, side, q, ns);
  }

  /** Once the stack is empty the side is shut: a border continuing it is in it. */
  lemma SideDone(m: map<Coords, char>, borders: set<Border>, taken0: set<Border>, border: Border,
                 taken: set<Border>, side: seq<Border>)
    requires SideInv(m, borders, taken0, border, taken, side, [])
    ensures Shut(m, borders, Elems(side)) && Shut(m, borders, taken)
  {
    forall t, b | t in Elems(side) && b in borders && Touching(m, t, b) ensures b in Elems(side) {
      if b in taken0 {
        TouchSymmetric(m, t, b);
      }
    }
  }

  lemma SideStart(m: map<Coords, char>, borders: set<Border>, taken0: set<Border>, border: Border)
    requires border in borders && border !in taken0 && taken0 <= borders
    requires Shut(m, borders, taken0) && forall b :: b in taken0 ==> Separates(m, b)
    ensures SideInv(m, borders, taken0, border, taken0 + {border}, [border], [border])
  {
    assert Elems([border]) == {border};
  }

  /** The side grown from the untaken `border`, or `ok == false` where the `assert!` panics. */
  method GrowSide(m: map<Coords, char>, borders: set<Border>, taken0: set<Border>, border: Border)
    returns (ok: bool, taken: set<Border>, side: seq<Border>)
    requires border in borders && border !in taken0 && taken0 <= borders
    requires Shut(m, borders, taken0) && forall b :: b in taken0 ==> Separates(m, b)
    ensures !ok ==> exists b :: b in borders && !Separates(m, b)
    ensures ok ==> taken == taken0 + Elems(side) && Elems(side) !! taken0 && Elems(side) <= borders
    ensures ok ==> side != [] && side[0] == border && Chained(m, side) && Shut(m, borders, Elems(side)) && Shut(m, borders, taken)
    ensures ok ==> forall b :: b in taken ==> Separates(m, b)
  {
    taken := taken0 + {border};
    side := [border];
    var q := [border];
    SideStart(m, borders, taken0, border);
    while q != []
      invariant SideInv(m, borders, taken0, border, taken, side, q)
      decreases |borders - taken|, |q|
    {
      ghost var top := q[|q| - 1];
      assert top in Elems(side);
      ok, taken, side, q := SideTurn(m, borders, taken0, border, taken, side, q);
      if !ok {
        return;
      }
    }
    ok := true;
    SideDone(m, borders, taken0, border, taken, side);
  }

  lemma SidesPush(m: map<Coords, char>, borders: set<Border>, sides: seq<seq<Border>>, side: seq<Border>)
    requires SidesOk(m, borders, sides) && Chained(m, side) && Shut(m, borders, Elems(side))
    requires Elems(side) !! SideUnion(sides)
    ensures SidesOk(m, borders, sides + [side]) && SideUnion(sides + [side]) == SideUnion(sides) + Elems(side)
  {
    var ss := sides + [side];
    assert ss[..|sides|] == sides;
    forall i | 0 <= i < |ss| ensures Chained(m, ss[i]) && Shut(m, borders, Elems(ss[i])) {
      if i < |sides| {
        assert ss[i] == sides[i];
      }
    }
    forall i, j | 0 <= i < j < |ss| ensures Elems(ss[i]) !! Elems(ss[j]) {
      if j == |sides| {
        forall b | b in Elems(sides[i]) ensures b in SideUnion(sides) {
          SideUnionMember(sides, b);
        }
      } else {
        assert ss[i] == sides[i] && ss[j] == sides[j];
      }
    }
  }

  /**
    `sort_borders_into_sides`: group the borders (in the set's order, which this model does
    not fix) into sides. `None` where the `assert!` on a popped border panics, which is
    exactly when some border does not separate two different chars.
   */
  method SortSides(m: map<Coords, char>, borders: set<Border>) returns (r: Option<seq<seq<Border>>>)
    ensures r.None? <==> exists b :: b in borders && !Separates(m, b)
    ensures r.Some? ==> SidesOk(m, borders, r.value) && SideUnion(r.value) == borders
  {
    var sorted: seq<seq<Border>> := [];
    var taken: set<Border> := {};
    var rest := borders;
    while rest != {}
      invariant rest <= borders && taken <= borders && borders - rest <= taken
      invariant taken == SideUnion(sorted) && Shut(m, borders, taken) && (forall b :: b in taken ==> Separates(m, b))
      invariant SidesOk(m, borders, sorted)
      decreases rest
    {
      var border :| border in rest;
      rest := rest - {border};
      if border in taken {
        continue;
      }
      var ok, taken', side := GrowSide(m, borders, taken, border);
      if !ok {
        return None;
      }
      SidesPush(m, borders, sorted, side);
      sorted := sorted + [side];
      taken := taken';
    }
    // `assert!(taken.len() == borders.len())` holds: every border is taken
    assert taken == borders;
    r := Some(sorted);
  }

  // ---- prices ---------------------------------------------------------------------------

  /** Part one's price: the sum over the zones of area times perimeter. */
  function Price(m: map<Coords, char>, zones: seq<Zone>): nat
  {
    if zones == [] then 0
    else
      var z := zones[|zones| - 1];
      Price(m, zones[..|zones| - 1]) + |z.points| * |Borders(m, z.points, z.ch)|
  }

  /** Part two's price: the sum over the zones of area times the zone's number of sides. */
  function SidePrice(zones: seq<Zone>, counts: seq<nat>): nat
    requires |counts| == |zones|
  {
    if zones == [] then 0
    else SidePrice(zones[..|zones| - 1], counts[..|zones| - 1]) + |zones[|zones| - 1].points| * counts[|zones| - 1]
  }

  /** `counts[i]` is the number of sides of some grouping of the borders of zone `i` into sides. */
  ghost predicate SideCounts(m: map<Coords, char>, zones: seq<Zone>, counts: seq<nat>)
  {
    |counts| == |zones| &&
    forall i :: 0 <= i < |zones| ==> exists sides ::
      SidesOk(m, Borders(m, zones[i].points, zones[i].ch), sides) &&
      SideUnion(sides) == Borders(m, zones[i].points, zones[i].ch) && counts[i] == |sides|
  }

  /** `part_one`: the price of area times perimeter over the zones of the map. */
  method PartOne(input: string) returns (r: Option<nat>)
    ensures exists zones :: Regions(GridMap(Lines(input)), zones) && r == Some(Price(GridMap(Lines(input)), zones))
  {
    var map0 := new CoordMap(input);
    var m := map0.cells;
    var zones := FindZones(m);
    var acc := 0;
    for i := 0 to |zones|
      invariant acc == Price(m, zones[..i])
    {
      assert zones[..i + 1][..i] == zones[..i];
      var area := |zones[i].points|;
      var perimeter := FindBorders(m, zones[i].points, zones[i].ch);
      acc := acc + area * |perimeter|;
    }
    assert zones[..|zones|] == zones;
    r := Some(acc);
  }

  /** A zone's borders group into at least one side, so the `assert!(perimiter != 0)` holds. */
  lemma ZoneSides(m: map<Coords, char>, z: Zone, sides: seq<seq<Border>>)
    requires ZoneOk(m, z) && SideUnion(sides) == Borders(m, z.points, z.ch)
    ensures |sides| != 0
  {
    ZoneHasBorder(m, z);
  }

  lemma SideCountsPush(m: map<Coords, char>, zones: seq<Zone>, counts: seq<nat>, i: nat, sides: seq<seq<Border>>)
    requires i < |zones| && SideCounts(m, zones[..i], counts)
    requires SidesOk(m, Borders(m, zones[i].points, zones[i].ch), sides)
    requires SideUnion(sides) == Borders(m, zones[i].points, zones[i].ch)
    ensures SideCounts(m, zones[..i + 1], counts + [|sides|])
    ensures SidePrice(zones[..i + 1], counts + [|sides|]) == SidePrice(zones[..i], counts) + |zones[i].points| * |sides|
  {
    var zs, cs := zones[..i + 1], counts + [|sides|];
    assert zs[..i] == zones[..i] && cs[..i] == counts;
    forall j | 0 <= j < |zs| ensures exists sides' ::
      SidesOk(m, Borders(m, zs[j].points, zs[j].ch), sides') &&
      SideUnion(sides') == Borders(m, zs[j].points, zs[j].ch) && cs[j] == |sides'|
    {
      if j < i {
        assert zs[j] == zones[..i][j] && cs[j] == counts[j];
      } else {
        assert zs[j] == zones[i] && cs[j] == |sides|;
      }
    }
  }

  /** The body of `part_two`'s loop for one zone: its borders grouped into sides, counted. */
  method CountSides(m: map<Coords, char>, z: Zone) returns (perimeter: nat, ghost sides: seq<seq<Border>>)
    requires ZoneOk(m, z)
    ensures SidesOk(m, Borders(m, z.points, z.ch), sides) && SideUnion(sides) == Borders(m, z.points, z.ch)
    ensures perimeter == |sides| && perimeter != 0
  {
    var borders := FindBorders(m, z.points, z.ch);
    forall b | b in borders ensures Separates(m, b) {
      BordersSeparate(m, z.points, z.ch, b);
    }
    var sorted := SortSides(m, borders);
    sides := sorted.value;
    perimeter := |sorted.value|;
    ZoneSides(m, z, sides);
  }

  /** The loop of `part_two` over the zones, summing area times number of sides. */
  method SumSidePrices(m: map<Coords, char>, zones: seq<Zone>) returns (acc: nat, ghost counts: seq<nat>)
    requires forall i :: 0 <= i < |zones| ==> ZoneOk(m, zones[i])
    ensures SideCounts(m, zones, counts) && acc == SidePrice(zones, counts)
  {
    acc, counts := 0, [];
    for i := 0 to |zones|
      invariant SideCounts(m, zones[..i], counts) && acc == SidePrice(zones[..i], counts)
    {
      var area := |zones[i].points|;
      var perimeter, sides := CountSides(m, zones[i]);
      SideCountsPush(m, zones, counts, i, sides);
      acc := acc + area * perimeter;
      counts := counts + [perimeter];
    }
    assert zones[..|zones|] == zones;
  }

  /**
    `part_two`: the price of area times number of sides over the zones of the map. No
    `assert!` fires: zone borders separate different chars and every zone has a border.
   */
  method PartTwo(input: string) returns (r: Option<nat>)
    ensures exists zones, counts ::
      (Regions(GridMap(Lines(input)), zones) && SideCounts(GridMap(Lines(input)), zones, counts) &&
       r == Some(SidePrice(zones, counts)))
  {
    var map0 := new CoordMap(input);
    var m := map0.cells;
    var zones := FindZones(m);
    var acc, counts := SumSidePrices(m, zones);
    r := Some(acc);
  }
}
