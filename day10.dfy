/**
  Day 10: hiking trails on a height map of digits. A trail starts at a `0` and climbs by
  exactly one to an orthogonal neighbour at every step until it reaches a `9`. Part one
  scores a trailhead by the number of distinct `9`s it reaches, part two by the number
  of distinct trails from it.
 */
module Day10 {
  import opened Wrappers
  import opened Text
  import opened Grid

  /** `is_next_number`: the second digit is the one after the first. */
  function IsNextNumber(a: char, b: char): bool
    requires IsDigit(a) && IsDigit(b)
  {
    DigitValue(a) + 1 == DigitValue(b)
  }

  /** The pairs `is_next_number` accepts are the neighbouring characters of `0123456789`. */
  lemma IsNextNumberChars(a: char, b: char)
    requires IsDigit(a) && IsDigit(b)
    ensures IsNextNumber(a, b) <==> exists k :: 0 <= k < 9 && a == "0123456789"[k] && b == "0123456789"[k + 1]
  {
    if IsNextNumber(a, b) {
      var k := DigitValue(a);
      assert a == "0123456789"[k] && b == "0123456789"[k + 1];
    }
  }

  /** One step of a trail: from a digit to the next digit. */
  predicate Climbs(m: map<Coords, char>, a: Coords, b: Coords)
  {
    a in m && b in m && IsDigit(m[a]) && IsDigit(m[b]) && IsNextNumber(m[a], m[b])
  }

  /** The height of a cell; 9 for a cell that holds no digit or is not in the map. */
  function Height(m: map<Coords, char>, c: Coords): (h: nat)
    ensures h <= 9
  {
    if c in m && IsDigit(m[c]) then DigitValue(m[c]) else 9
  }

  /** A cell of the map holding a digit. */
  predicate Live(m: map<Coords, char>, c: Coords)
  {
    c in m && IsDigit(m[c])
  }

  /** A list of cells of the map, all of height `h`. */
  predicate AtHeight(m: map<Coords, char>, qs: seq<Coords>, h: nat)
  {
    forall i :: 0 <= i < |qs| ==> qs[i] in m && IsDigit(m[qs[i]]) && DigitValue(m[qs[i]]) == h
  }

  predicate Distinct(qs: seq<Coords>)
  {
    forall i, j :: 0 <= i < j < |qs| ==> qs[i] != qs[j]
  }

  /** The climbing steps among the cells `qs`, in their order. */
  function ClimbsAmong(m: map<Coords, char>, p: Coords, qs: seq<Coords>): (r: seq<Coords>)
    ensures forall q :: q in r <==> q in qs && Climbs(m, p, q)
    ensures |r| <= |qs|
    ensures Distinct(qs) ==> Distinct(r)
  {
    if qs == [] then []
    else
      var front := ClimbsAmong(m, p, qs[..|qs| - 1]);
      var q := qs[|qs| - 1];
      assert forall x :: x in qs <==> x in qs[..|qs| - 1] || x == q;
      if Climbs(m, p, q) then front + [q] else front
  }

  /** The neighbours a search goes on to from `p`, in the order of `get_adjacent_xy`. */
  function Next(m: map<Coords, char>, p: Coords): (r: seq<Coords>)
    ensures forall q :: q in r <==> q in Neighbours4(p) && Climbs(m, p, q)
    ensures |r| <= 4 && Distinct(r)
    ensures p in m && IsDigit(m[p]) ==> AtHeight(m, r, DigitValue(m[p]) + 1)
  {
    var r := ClimbsAmong(m, p, Adjacent(p));
    forall i | 0 <= i < |r| && p in m && IsDigit(m[p])
      ensures r[i] in m && IsDigit(m[r[i]]) && DigitValue(m[r[i]]) == DigitValue(m[p]) + 1
    {
      assert r[i] in r;
    }
    r
  }

  /**
    The `filter`/`collect` of both parts over the neighbours `qs` of `p`: those in the
    map that climb from `p`; `None` where `is_next_number` meets a cell of the map that
    holds no digit, which panics in the source.
   */
  function FilterNext(m: map<Coords, char>, p: Coords, qs: seq<Coords>): (r: Option<seq<Coords>>)
    requires p in m && IsDigit(m[p])
    ensures r.None? <==> exists q :: q in qs && q in m && !IsDigit(m[q])
    ensures r.Some? ==> r.value == ClimbsAmong(m, p, qs)
  {
    if qs == [] then Some([])
    else
      var q := qs[|qs| - 1];
      assert forall x :: x in qs <==> x in qs[..|qs| - 1] || x == q;
      match FilterNext(m, p, qs[..|qs| - 1])
      case None => None
      case Some(front) =>
        if q !in m then Some(front)
        else if !IsDigit(m[q]) then None
        else if IsNextNumber(m[p], m[q]) then Some(front + [q])
        else Some(front)
  }

  // ---- part one -----------------------------------------------------------------------

  /** A climbing path: every step goes to an orthogonal neighbour one higher. */
  ghost predicate Trail(m: map<Coords, char>, t: seq<Coords>)
  {
    |t| >= 1 && forall i :: 0 <= i < |t| - 1 ==> t[i + 1] in Neighbours4(t[i]) && Climbs(m, t[i], t[i + 1])
  }

  /** A climbing path of at least one step from `c` to `q`. */
  ghost predicate TrailTo(m: map<Coords, char>, c: Coords, q: Coords)
  {
    exists t :: Trail(m, t) && |t| >= 2 && t[0] == c && t[|t| - 1] == q
  }

  /** Part one's score of a trailhead: the `9`s a trail from it reaches. */
  ghost function NinesFrom(m: map<Coords, char>, c: Coords): set<Coords>
  {
    set x | x in m.Keys && m[x] == '9' && TrailTo(m, c, x)
  }

  /** `x` is collected from the cell `q` on: `q` itself if it is a `9`, otherwise by its search. */
  ghost predicate CollectsFrom(m: map<Coords, char>, q: Coords, x: Coords)
    requires q in m
  {
    if m[q] == '9' then x == q else x in NinesFrom(m, q)
  }

  /** What the inner loop of part one collects from the neighbours `qs`. */
  ghost function NinesOver(m: map<Coords, char>, qs: seq<Coords>): set<Coords>
    requires forall i :: 0 <= i < |qs| ==> qs[i] in m
  {
    if qs == [] then {}
    else
      var q := qs[|qs| - 1];
      NinesOver(m, qs[..|qs| - 1]) + if m[q] == '9' then {q} else NinesFrom(m, q)
  }

  lemma {:induction false} NinesOverMember(m: map<Coords, char>, qs: seq<Coords>, x: Coords)
    requires forall i :: 0 <= i < |qs| ==> qs[i] in m
    ensures x in NinesOver(m, qs) <==> exists i :: 0 <= i < |qs| && CollectsFrom(m, qs[i], x)
  {
    if qs != [] {
      var front, q := qs[..|qs| - 1], qs[|qs| - 1];
      NinesOverMember(m, front, x);
      assert NinesOver(m, qs) == NinesOver(m, front) + if m[q] == '9' then {q} else NinesFrom(m, q);
      assert x in NinesOver(m, qs) <==> x in NinesOver(m, front) || CollectsFrom(m, q, x);
      if exists i :: 0 <= i < |front| && CollectsFrom(m, front[i], x) {
        var i :| 0 <= i < |front| && CollectsFrom(m, front[i], x);
        assert qs[i] == front[i];
      }
      if exists i :: 0 <= i < |qs| && CollectsFrom(m, qs[i], x) {
        var i :| 0 <= i < |qs| && CollectsFrom(m, qs[i], x);
        if i < |front| {
          assert front[i] == qs[i];
        }
      }
    }
  }

  /** Along a trail the height grows by one at every step. */
  lemma {:induction false} TrailHeights(m: map<Coords, char>, t: seq<Coords>, i: nat)
    requires Trail(m, t) && i < |t| && |t| >= 2
    ensures Live(m, t[0]) && Live(m, t[i])
    ensures DigitValue(m[t[i]]) == DigitValue(m[t[0]]) + i
  {
    if i > 0 {
      TrailHeights(m, t, i - 1);
      assert Climbs(m, t[i - 1], t[i]);
    } else {
      assert Climbs(m, t[0], t[1]);
    }
  }

  /** A trail one step longer at its start. */
  lemma TrailCons(m: map<Coords, char>, c: Coords, t: seq<Coords>)
    requires Trail(m, t) && t[0] in Neighbours4(c) && Climbs(m, c, t[0])
    ensures Trail(m, [c] + t)
  {
    var t' := [c] + t;
    forall i | 0 <= i < |t'| - 1 ensures t'[i + 1] in Neighbours4(t'[i]) && Climbs(m, t'[i], t'[i + 1]) {
      if i > 0 {
        assert t'[i] == t[i - 1] && t'[i + 1] == t[i];
      }
    }
  }

  /** A trail without its first cell. */
  lemma TrailTail(m: map<Coords, char>, t: seq<Coords>)
    requires Trail(m, t) && |t| >= 2
    ensures Trail(m, t[1..])
  {
    var t' := t[1..];
    forall j | 0 <= j < |t'| - 1 ensures t'[j + 1] in Neighbours4(t'[j]) && Climbs(m, t'[j], t'[j + 1]) {
      assert t'[j] == t[j + 1] && t'[j + 1] == t[j + 2];
    }
  }

  lemma TrailToOf(m: map<Coords, char>, t: seq<Coords>)
    requires Trail(m, t) && |t| >= 2
    ensures TrailTo(m, t[0], t[|t| - 1])
  {
  }

  lemma TrailToStep(m: map<Coords, char>, c: Coords, q: Coords)
    requires q in Neighbours4(c) && Climbs(m, c, q)
    ensures TrailTo(m, c, q)
  {
    var t := [c, q];
    assert Trail(m, t) by {
      forall j | 0 <= j < |t| - 1 ensures t[j + 1] in Neighbours4(t[j]) && Climbs(m, t[j], t[j + 1]) {
        assert j == 0;
      }
    }
    TrailToOf(m, t);
  }

  lemma TrailToCons(m: map<Coords, char>, c: Coords, q: Coords, x: Coords)
    requires q in Neighbours4(c) && Climbs(m, c, q) && TrailTo(m, q, x)
    ensures TrailTo(m, c, x)
  {
    var t :| Trail(m, t) && |t| >= 2 && t[0] == q && t[|t| - 1] == x;
    TrailCons(m, c, t);
    var t' := [c] + t;
    assert |t'| >= 2 && t'[0] == c && t'[|t'| - 1] == x;
    TrailToOf(m, t');
  }

  /** A trail from `c` to `x` goes through one of the cells `Next(m, c)`. */
  lemma TrailToFirst(m: map<Coords, char>, c: Coords, x: Coords) returns (q: Coords)
    requires TrailTo(m, c, x) && x in m && m[x] == '9'
    ensures q in Next(m, c) && CollectsFrom(m, q, x)
  {
    var t :| Trail(m, t) && |t| >= 2 && t[0] == c && t[|t| - 1] == x;
    q := t[1];
    assert Climbs(m, t[0], t[1]);
    if m[q] == '9' {
      if |t| > 2 {
        TrailHeights(m, t, 1);
        TrailHeights(m, t, 2);
      }
    } else {
      TrailTail(m, t);
      assert t[1..][|t[1..]| - 1] == x;
      TrailToOf(m, t[1..]);
    }
  }

  /** The search from `p` collects what the searches from its climbing neighbours collect. */
  lemma NinesUnfold(m: map<Coords, char>, p: Coords)
    requires Live(m, p)
    ensures NinesFrom(m, p) == NinesOver(m, Next(m, p))
  {
    var qs := Next(m, p);
    forall x ensures x in NinesFrom(m, p) <==> x in NinesOver(m, qs) {
      NinesOverMember(m, qs, x);
      if x in NinesFrom(m, p) {
        var q := TrailToFirst(m, p, x);
        var i :| 0 <= i < |qs| && qs[i] == q;
      } else if x in NinesOver(m, qs) {
        var i :| 0 <= i < |qs| && CollectsFrom(m, qs[i], x);
        assert qs[i] in qs;
        if m[qs[i]] == '9' {
          TrailToStep(m, p, qs[i]);
        } else {
          TrailToCons(m, p, qs[i], x);
        }
      }
    }
  }

  /** The `9`s collected from every cell of a stack. */
  ghost function NinesAll(m: map<Coords, char>, ps: seq<Coords>): set<Coords>
  {
    if ps == [] then {} else NinesAll(m, ps[..|ps| - 1]) + NinesFrom(m, ps[|ps| - 1])
  }

  /** The termination measure of a search stack: a cell of height `h` weighs 5^(9-h). */
  function Weight(m: map<Coords, char>, ps: seq<Coords>): nat
  {
    if ps == [] then 0 else Weight(m, ps[..|ps| - 1]) + Pow5(9 - Height(m, ps[|ps| - 1]))
  }

  lemma WeightAppend(m: map<Coords, char>, ps: seq<Coords>, q: Coords)
    ensures Weight(m, ps + [q]) == Weight(m, ps) + Pow5(9 - Height(m, q))
  {
    assert (ps + [q])[..|ps|] == ps;
  }

  lemma NinesAllAppend(m: map<Coords, char>, ps: seq<Coords>, q: Coords)
    ensures NinesAll(m, ps + [q]) == NinesAll(m, ps) + NinesFrom(m, q)
  {
    assert (ps + [q])[..|ps|] == ps;
  }

  /** Every cell of the map holds a digit, so `is_next_number` never panics. */
  predicate AllHeights(m: map<Coords, char>)
  {
    forall q | q in m :: IsDigit(m[q])
  }

  /**
    The search of `part_one` from one trailhead: the `9`s it collects, or `None` where
    `is_next_number` panics.
   */
  method TrailheadNines(m: map<Coords, char>, s: Coords) returns (r: Option<set<Coords>>)
    requires Live(m, s)
    ensures r.Some? ==> r.value == NinesFrom(m, s)
    ensures AllHeights(m) ==> r.Some?
  {
    var positions := [s];
    var finished: set<Coords> := {};
    assert positions[..0] == [];
    while |positions| > 0
      invariant forall i :: 0 <= i < |positions| ==> Live(m, positions[i])
      invariant finished + NinesAll(m, positions) == NinesFrom(m, s)
      decreases Weight(m, positions)
    {
      var ok;
      ok, positions, finished := SearchStep(m, positions, finished);
      if !ok {
        return None;
      }
    }
    r := Some(finished);
  }

  /**
    One round of the search loop of `part_one`: pop a cell and handle its climbing
    neighbours; `false` where `is_next_number` panics.
   */
  method SearchStep(m: map<Coords, char>, positions: seq<Coords>, finished: set<Coords>)
    returns (ok: bool, positions': seq<Coords>, finished': set<Coords>)
    requires |positions| > 0 && forall i :: 0 <= i < |positions| ==> Live(m, positions[i])
    ensures ok ==> forall i :: 0 <= i < |positions'| ==> Live(m, positions'[i])
    ensures ok ==> finished' + NinesAll(m, positions') == finished + NinesAll(m, positions)
    ensures ok ==> Weight(m, positions') < Weight(m, positions)
    ensures AllHeights(m) ==> ok
  {
    var p := positions[|positions| - 1];
    var base := positions[..|positions| - 1];
    assert positions == base + [p];
    var filtered := FilterNext(m, p, Adjacent(p));
    if filtered.None? {
      return false, positions, finished;
    }
    var next := filtered.value;
    var h := DigitValue(m[p]) + 1;
    assert next == Next(m, p);
    positions', finished' := CollectNext(m, next, h, base, finished);
    WeightPop(m, base, p);
    NinesPop(m, base, p);
    ok := true;
  }

  /** What popping `p` off a stack takes from its weight. */
  lemma WeightPop(m: map<Coords, char>, base: seq<Coords>, p: Coords)
    requires Live(m, p)
    ensures DigitValue(m[p]) <= 8 ==> Weight(m, base + [p]) == Weight(m, base) + 5 * Pow5(9 - (DigitValue(m[p]) + 1))
    ensures Weight(m, base + [p]) > Weight(m, base)
  {
    WeightAppend(m, base, p);
  }

  /** What popping `p` off a stack takes from the `9`s still to collect. */
  lemma NinesPop(m: map<Coords, char>, base: seq<Coords>, p: Coords)
    requires Live(m, p)
    ensures NinesAll(m, base + [p]) == NinesAll(m, base) + NinesOver(m, Next(m, p))
  {
    NinesAllAppend(m, base, p);
    NinesUnfold(m, p);
  }

  /** The inner loop of `part_one`: a `9` is collected, any other cell pushed. */
  method CollectNext(m: map<Coords, char>, next: seq<Coords>, h: nat, positions: seq<Coords>, finished: set<Coords>)
    returns (positions': seq<Coords>, finished': set<Coords>)
    requires 1 <= h <= 10 && AtHeight(m, next, h)
    requires forall i :: 0 <= i < |positions| ==> Live(m, positions[i])
    ensures forall i :: 0 <= i < |positions'| ==> Live(m, positions'[i])
    ensures finished' + NinesAll(m, positions') == finished + NinesAll(m, positions) + NinesOver(m, next)
    requires |next| <= 4
    ensures h <= 9 ==> Weight(m, positions') < Weight(m, positions) + 5 * Pow5(9 - h)
    ensures h == 10 ==> positions' == positions
  {
    ghost var unit := if h <= 9 then Pow5(9 - h) else 0;
    positions', finished' := positions, finished;
    for j := 0 to |next|
      invariant forall i :: 0 <= i < |positions'| ==> Live(m, positions'[i])
      invariant finished' + NinesAll(m, positions') == finished + NinesAll(m, positions) + NinesOver(m, next[..j])
      invariant h <= 9 ==> Weight(m, positions') <= Weight(m, positions) + j * unit
      invariant h == 10 ==> positions' == positions
    {
      var item := next[j];
      if m[item] == '9' {
        NineFound(m, next, j, finished + NinesAll(m, positions), positions', finished');
        finished' := finished' + {item};
      } else {
        NineBehind(m, next, j, finished + NinesAll(m, positions), positions', finished');
        if h <= 9 {
          PushWeight(m, positions', item, Weight(m, positions), j, unit);
        }
        positions' := positions' + [item];
      }
    }
    assert next[..|next|] == next;
    if h <= 9 {
      MulAtMost(|next|, 4, unit);
    }
  }

  /** The inner loop of `part_one` meets a `9`: it is collected. */
  lemma NineFound(m: map<Coords, char>, next: seq<Coords>, j: nat,
                  base: set<Coords>, ps: seq<Coords>, done: set<Coords>)
    requires j < |next| && (forall i :: 0 <= i < |next| ==> next[i] in m) && m[next[j]] == '9'
    requires done + NinesAll(m, ps) == base + NinesOver(m, next[..j])
    ensures (done + {next[j]}) + NinesAll(m, ps) == base + NinesOver(m, next[..j + 1])
  {
    assert next[..j + 1][..j] == next[..j];
  }

  /** The inner loop of `part_one` meets another cell: it is pushed, its `9`s still to find. */
  lemma NineBehind(m: map<Coords, char>, next: seq<Coords>, j: nat,
                   base: set<Coords>, ps: seq<Coords>, done: set<Coords>)
    requires j < |next| && (forall i :: 0 <= i < |next| ==> next[i] in m) && m[next[j]] != '9'
    requires done + NinesAll(m, ps) == base + NinesOver(m, next[..j])
    ensures done + NinesAll(m, ps + [next[j]]) == base + NinesOver(m, next[..j + 1])
  {
    assert next[..j + 1][..j] == next[..j];
    NinesAllAppend(m, ps, next[j]);
  }

  /** Pushing a cell of height `h` adds one `unit` to a stack's weight. */
  lemma PushWeight(m: map<Coords, char>, ps: seq<Coords>, q: Coords, bound: nat, j: nat, unit: nat)
    requires Weight(m, ps) <= bound + j * unit && Pow5(9 - Height(m, q)) == unit
    ensures Weight(m, ps + [q]) <= bound + (j + 1) * unit
  {
    WeightAppend(m, ps, q);
    MulStep(j, unit);
  }

  /** The sum of `f` over a set of cells. */
  ghost function SumOf(zs: set<Coords>, f: Coords -> nat): nat
    decreases |zs|
  {
    if zs == {} then 0 else var z :| z in zs; f(z) + SumOf(zs - {z}, f)
  }

  /** `SumOf` may take the cells in any order. */
  lemma {:induction false} SumOfRemove(zs: set<Coords>, f: Coords -> nat, z: Coords)
    requires z in zs
    ensures SumOf(zs, f) == f(z) + SumOf(zs - {z}, f)
    decreases |zs|
  {
    var y :| y in zs && SumOf(zs, f) == f(y) + SumOf(zs - {y}, f);
    if y != z {
      SumOfRemove(zs - {y}, f, z);
      SumOfRemove(zs - {z}, f, y);
      assert zs - {y} - {z} == zs - {z} - {y};
    }
  }

  /** Taking one more cell from the cells still to add up. */
  lemma SumStep(rest: set<Coords>, f: Coords -> nat, z: Coords, count: nat, v: nat, total: nat)
    requires z in rest && v == f(z) && count + SumOf(rest, f) == total
    ensures (count + v) + SumOf(rest - {z}, f) == total && |rest - {z}| < |rest|
  {
    SumOfRemove(rest, f, z);
  }

  /** The score of each cell: how many `9`s it reaches. */
  ghost function NineCounts(m: map<Coords, char>): Coords -> nat
  {
    c => |NinesFrom(m, c)|
  }

  /**
    `part_one`: the number of `9`s reachable from each `0`, summed over the `0`s. `None`
    where `is_next_number` panics.
   */
  method PartOne(input: string) returns (r: Option<nat>)
    ensures var m := GridMap(Lines(input));
      r.Some? ==> r.value == SumOf(CellsWith(m, '0'), NineCounts(m))
    ensures AllHeights(GridMap(Lines(input))) ==> r.Some?
  {
    var map0 := new CoordMap(input);
    var m := map0.cells;
    var heads := map0.Find('0');
    assert heads == CellsWith(m, '0');
    ghost var f := NineCounts(m);
    ghost var total := SumOf(heads, f);
    var count: nat := 0;
    var rest := heads;
    while rest != {}
      invariant rest <= heads
      invariant count + SumOf(rest, f) == total
      decreases |rest|
    {
      var s :| s in rest;
      var nines := TrailheadNines(m, s);
      if nines.None? {
        return None;
      }
      SumStep(rest, f, s, count, |nines.value|, total);
      count := count + |nines.value|;
      rest := rest - {s};
    }
    r := Some(count);
  }

  // ---- part two -----------------------------------------------------------------------

  /** The trails from `c`: the climbing paths from it that end at a `9`. */
  ghost function TrailsFrom(m: map<Coords, char>, c: Coords): set<seq<Coords>>
    decreases 9 - Height(m, c)
  {
    if !Live(m, c) then {}
    else
      (set q | q in Neighbours4(c) && Climbs(m, c, q) && m[q] == '9' :: [c, q]) +
      (set q, t | q in Neighbours4(c) && Climbs(m, c, q) && m[q] != '9' && t in TrailsFrom(m, q) :: [c] + t)
  }

  lemma {:induction false} TrailsSound(m: map<Coords, char>, c: Coords, t: seq<Coords>)
    requires t in TrailsFrom(m, c)
    ensures Trail(m, t) && |t| >= 2 && t[0] == c && t[|t| - 1] in m && m[t[|t| - 1]] == '9'
    decreases 9 - Height(m, c)
  {
    if exists q :: q in Neighbours4(c) && Climbs(m, c, q) && m[q] == '9' && t == [c, q] {
      var q :| q in Neighbours4(c) && Climbs(m, c, q) && m[q] == '9' && t == [c, q];
      assert Trail(m, t) by {
        forall j | 0 <= j < |t| - 1 ensures t[j + 1] in Neighbours4(t[j]) && Climbs(m, t[j], t[j + 1]) {
          assert j == 0;
        }
      }
    } else {
      var q, t' :| q in Neighbours4(c) && Climbs(m, c, q) && m[q] != '9' && t' in TrailsFrom(m, q) && t == [c] + t';
      TrailsSound(m, q, t');
      TrailCons(m, c, t');
    }
  }

  lemma {:induction false} TrailsComplete(m: map<Coords, char>, t: seq<Coords>)
    requires Trail(m, t) && |t| >= 2 && t[|t| - 1] in m && m[t[|t| - 1]] == '9'
    ensures t in TrailsFrom(m, t[0])
    decreases |t|
  {
    var c, q := t[0], t[1];
    assert Climbs(m, c, q);
    if m[q] == '9' {
      if |t| > 2 {
        TrailHeights(m, t, 1);
        TrailHeights(m, t, 2);
      }
      assert t == [c, q];
    } else {
      TrailTail(m, t);
      var t' := t[1..];
      assert t'[|t'| - 1] == t[|t| - 1];
      TrailsComplete(m, t');
      assert t == [c] + t';
    }
  }

  /** Part two's trails are exactly the climbing paths from the trailhead to a `9`. */
  lemma TrailsMeaning(m: map<Coords, char>, c: Coords, t: seq<Coords>)
    ensures t in TrailsFrom(m, c) <==> Trail(m, t) && |t| >= 2 && t[0] == c && t[|t| - 1] in m && m[t[|t| - 1]] == '9'
  {
    if t in TrailsFrom(m, c) {
      TrailsSound(m, c, t);
    } else if Trail(m, t) && |t| >= 2 && t[0] == c && t[|t| - 1] in m && m[t[|t| - 1]] == '9' {
      TrailsComplete(m, t);
    }
  }

  /** The cells of `ns` up to and including the first `q`. */
  function Upto(ns: seq<Coords>, q: Coords): (r: seq<Coords>)
    ensures q in ns ==> 1 <= |r| <= |ns| && r[|r| - 1] == q && r == ns[..|r|]
  {
    if ns == [] then [] else if ns[0] == q then [q] else [ns[0]] + Upto(ns[1..], q)
  }

  lemma {:induction false} UptoAt(ns: seq<Coords>, j: nat)
    requires Distinct(ns) && j < |ns|
    ensures Upto(ns, ns[j]) == ns[..j + 1]
  {
    if j > 0 {
      assert ns[0] != ns[j];
      assert ns[1..][j - 1] == ns[j];
      assert Distinct(ns[1..]) by {
        forall a, b | 0 <= a < b < |ns[1..]| ensures ns[1..][a] != ns[1..][b] {
          assert ns[1..][a] == ns[a + 1] && ns[1..][b] == ns[b + 1];
        }
      }
      UptoAt(ns[1..], j - 1);
      assert [ns[0]] + ns[1..][..j] == ns[..j + 1];
    }
  }

  /**
    The key `part_two` stores for a trail. The source joins the cells of a path with `_`;
    its path holds the trail without its last cell and then every `9` of the last
    search step up to the trail's own.
   */
  function KeyOf(m: map<Coords, char>, t: seq<Coords>): seq<Coords>
  {
    if |t| < 2 then t else t[..|t| - 1] + Upto(Next(m, t[|t| - 2]), t[|t| - 1])
  }

  lemma KeyOfCons(m: map<Coords, char>, c: Coords, t: seq<Coords>)
    requires |t| >= 2
    ensures KeyOf(m, [c] + t) == [c] + KeyOf(m, t)
  {
    var t' := [c] + t;
    var last := Upto(Next(m, t[|t| - 2]), t[|t| - 1]);
    assert t'[|t'| - 2] == t[|t| - 2] && t'[|t'| - 1] == t[|t| - 1];
    assert KeyOf(m, t') == t'[..|t'| - 1] + last;
    assert t'[..|t'| - 1] == [c] + t[..|t| - 1];
    assert KeyOf(m, t) == t[..|t| - 1] + last;
  }

  /** The keys stored for the trails from `c` reached along `path`. */
  ghost function KeysFrom(m: map<Coords, char>, path: seq<Coords>, c: Coords): set<seq<Coords>>
  {
    set t | t in TrailsFrom(m, c) :: path + KeyOf(m, t)
  }

  /** The path of `part_two` after the cells `qs`: each `9` among them is appended. */
  function Acc(m: map<Coords, char>, acc: seq<Coords>, qs: seq<Coords>): seq<Coords>
    requires forall i :: 0 <= i < |qs| ==> qs[i] in m
  {
    if qs == [] then acc
    else Acc(m, acc, qs[..|qs| - 1]) + if m[qs[|qs| - 1]] == '9' then [qs[|qs| - 1]] else []
  }

  /** What the inner loop of part two stores from the neighbours `qs`, directly or by the searches it pushes. */
  ghost function KeysOver(m: map<Coords, char>, acc: seq<Coords>, qs: seq<Coords>): set<seq<Coords>>
    requires forall i :: 0 <= i < |qs| ==> qs[i] in m
  {
    if qs == [] then {}
    else
      var q, front := qs[|qs| - 1], qs[..|qs| - 1];
      KeysOver(m, acc, front) + if m[q] == '9' then {Acc(m, acc, qs)} else KeysFrom(m, Acc(m, acc, front), q)
  }

  /** The key stored for the `j`-th `9` of a last search step. */
  function Keyed(acc: seq<Coords>, qs: seq<Coords>, j: nat): seq<Coords>
    requires j < |qs|
  {
    acc + qs[..j + 1]
  }

  lemma {:induction false} AccNines(m: map<Coords, char>, acc: seq<Coords>, qs: seq<Coords>)
    requires forall i :: 0 <= i < |qs| ==> qs[i] in m && m[qs[i]] == '9'
    ensures Acc(m, acc, qs) == acc + qs
  {
    if qs != [] {
      AccNines(m, acc, qs[..|qs| - 1]);
      assert qs[..|qs| - 1] + [qs[|qs| - 1]] == qs;
    }
  }

  lemma {:induction false} AccClimbs(m: map<Coords, char>, acc: seq<Coords>, qs: seq<Coords>)
    requires forall i :: 0 <= i < |qs| ==> qs[i] in m && m[qs[i]] != '9'
    ensures Acc(m, acc, qs) == acc
  {
    if qs != [] {
      AccClimbs(m, acc, qs[..|qs| - 1]);
    }
  }

  lemma {:induction false} KeysOverNines(m: map<Coords, char>, acc: seq<Coords>, qs: seq<Coords>, x: seq<Coords>)
    requires forall i :: 0 <= i < |qs| ==> qs[i] in m && m[qs[i]] == '9'
    ensures x in KeysOver(m, acc, qs) <==> exists j :: 0 <= j < |qs| && x == Keyed(acc, qs, j)
  {
    if qs != [] {
      var front := qs[..|qs| - 1];
      KeysOverNines(m, acc, front, x);
      AccNines(m, acc, qs);
      assert forall j :: 0 <= j < |front| ==> Keyed(acc, front, j) == Keyed(acc, qs, j);
      assert Keyed(acc, qs, |qs| - 1) == acc + qs;
    }
  }

  /** The union of `F` over the cells `qs`. */
  ghost function UnionOf(F: Coords -> set<seq<Coords>>, qs: seq<Coords>): set<seq<Coords>>
  {
    if qs == [] then {} else UnionOf(F, qs[..|qs| - 1]) + F(qs[|qs| - 1])
  }

  lemma {:induction false} UnionOfMember(F: Coords -> set<seq<Coords>>, qs: seq<Coords>, x: seq<Coords>)
    ensures x in UnionOf(F, qs) <==> exists i :: 0 <= i < |qs| && x in F(qs[i])
  {
    if qs != [] {
      var front := qs[..|qs| - 1];
      UnionOfMember(F, front, x);
      assert forall j :: 0 <= j < |front| ==> front[j] == qs[j];
    }
  }

  lemma {:induction false} KeysOverClimbsUnion(m: map<Coords, char>, acc: seq<Coords>, qs: seq<Coords>)
    requires forall i :: 0 <= i < |qs| ==> qs[i] in m && m[qs[i]] != '9'
    ensures KeysOver(m, acc, qs) == UnionOf(q => KeysFrom(m, acc, q), qs)
  {
    if qs != [] {
      var front := qs[..|qs| - 1];
      KeysOverClimbsUnion(m, acc, front);
      AccClimbs(m, acc, front);
    }
  }

  lemma KeysOverClimbs(m: map<Coords, char>, acc: seq<Coords>, qs: seq<Coords>, x: seq<Coords>)
    requires forall i :: 0 <= i < |qs| ==> qs[i] in m && m[qs[i]] != '9'
    ensures x in KeysOver(m, acc, qs) <==> exists i :: 0 <= i < |qs| && x in KeysFrom(m, acc, qs[i])
  {
    var F := q => KeysFrom(m, acc, q);
    KeysOverClimbsUnion(m, acc, qs);
    UnionOfMember(F, qs, x);
    assert forall i :: 0 <= i < |qs| ==> F(qs[i]) == KeysFrom(m, acc, qs[i]);
  }

  lemma TrailPair(m: map<Coords, char>, c: Coords, q: Coords)
    requires q in Neighbours4(c) && Climbs(m, c, q)
    ensures Trail(m, [c, q])
  {
    var t := [c, q];
    forall j | 0 <= j < |t| - 1 ensures t[j + 1] in Neighbours4(t[j]) && Climbs(m, t[j], t[j + 1]) {
      assert j == 0;
    }
  }

  lemma KeyOfPair(m: map<Coords, char>, c: Coords, q: Coords)
    ensures KeyOf(m, [c, q]) == [c] + Upto(Next(m, c), q)
  {
    assert [c, q][..1] == [c];
  }

  lemma ConcatAssoc(a: seq<Coords>, b: seq<Coords>, d: seq<Coords>)
    ensures a + (b + d) == (a + b) + d
  {
  }

  lemma PairSplit(t: seq<Coords>)
    requires |t| == 2
    ensures t == [t[0], t[1]]
  {
  }

  lemma ConsSplit(t: seq<Coords>)
    requires |t| >= 1
    ensures t == [t[0]] + t[1..]
  {
  }

  /** From a cell of height 8 every trail is one step to a `9` of `Next`. */
  lemma KeysUnfoldNines(m: map<Coords, char>, path: seq<Coords>, c: Coords, x: seq<Coords>)
    requires Live(m, c) && DigitValue(m[c]) == 8
    ensures x in KeysFrom(m, path, c) <==> x in KeysOver(m, path + [c], Next(m, c))
  {
    if x in KeysFrom(m, path, c) {
      NinesKeyOut(m, path, c, x);
    }
    if x in KeysOver(m, path + [c], Next(m, c)) {
      NinesKeyIn(m, path, c, x);
    }
  }

  /** A key of a trail from a cell of height 8 is stored by the loop over its 9 neighbours. */
  lemma NinesKeyOut(m: map<Coords, char>, path: seq<Coords>, c: Coords, x: seq<Coords>)
    requires Live(m, c) && DigitValue(m[c]) == 8 && x in KeysFrom(m, path, c)
    ensures x in KeysOver(m, path + [c], Next(m, c))
  {
    var qs := Next(m, c);
    assert AtHeight(m, qs, 9);
    KeysOverNines(m, path + [c], qs, x);
    var t :| t in TrailsFrom(m, c) && x == path + KeyOf(m, t);
    TrailsSound(m, c, t);
    TrailHeights(m, t, |t| - 1);
    assert |t| == 2;
    assert t[1] in Neighbours4(c) && Climbs(m, c, t[1]);
    assert t[1] in qs;
    var j :| 0 <= j < |qs| && qs[j] == t[1];
    UptoAt(qs, j);
    PairSplit(t);
    KeyOfPair(m, c, t[1]);
    ConcatAssoc(path, [c], qs[..j + 1]);
    assert x == Keyed(path + [c], qs, j);
  }

  /** A key the loop over the 9 neighbours of a cell of height 8 stores is the key of a trail. */
  lemma NinesKeyIn(m: map<Coords, char>, path: seq<Coords>, c: Coords, x: seq<Coords>)
    requires Live(m, c) && DigitValue(m[c]) == 8 && x in KeysOver(m, path + [c], Next(m, c))
    ensures x in KeysFrom(m, path, c)
  {
    var qs := Next(m, c);
    assert AtHeight(m, qs, 9);
    KeysOverNines(m, path + [c], qs, x);
    var j :| 0 <= j < |qs| && x == Keyed(path + [c], qs, j);
    assert qs[j] in qs;
    var t := [c, qs[j]];
    TrailPair(m, c, qs[j]);
    TrailsComplete(m, t);
    UptoAt(qs, j);
    KeyOfPair(m, c, qs[j]);
    ConcatAssoc(path, [c], qs[..j + 1]);
    assert x == path + KeyOf(m, t);
  }

  /** A trail from a cell of height at most 7 is a trail from a cell of `Next` with that cell in front. */
  lemma ClimbKeyOut(m: map<Coords, char>, path: seq<Coords>, c: Coords, t: seq<Coords>) returns (i: nat)
    requires Live(m, c) && DigitValue(m[c]) <= 7 && t in TrailsFrom(m, c)
    ensures i < |Next(m, c)| && path + KeyOf(m, t) in KeysFrom(m, path + [c], Next(m, c)[i])
  {
    var qs := Next(m, c);
    var t' := SplitTrail(m, c, t);
    i :| 0 <= i < |qs| && qs[i] == t[1];
    ConcatAssoc(path, [c], KeyOf(m, t'));
    assert path + KeyOf(m, t) == (path + [c]) + KeyOf(m, t');
  }

  /** A trail from a cell of height at most 7 is its first step followed by a trail from that step. */
  lemma SplitTrail(m: map<Coords, char>, c: Coords, t: seq<Coords>) returns (t': seq<Coords>)
    requires Live(m, c) && DigitValue(m[c]) <= 7 && t in TrailsFrom(m, c)
    ensures |t| >= 3 && t[1] in Next(m, c) && t' in TrailsFrom(m, t[1])
    ensures KeyOf(m, t) == [c] + KeyOf(m, t')
  {
    LongTrail(m, c, t);
    t' := t[1..];
    TailTrail(m, t);
    ConsSplit(t);
    KeyOfCons(m, c, t');
  }

  /** A trail from a cell of height at most 7 has at least three cells and starts with a step of `Next`. */
  lemma LongTrail(m: map<Coords, char>, c: Coords, t: seq<Coords>)
    requires Live(m, c) && DigitValue(m[c]) <= 7 && t in TrailsFrom(m, c)
    ensures Trail(m, t) && |t| >= 3 && t[0] == c && t[1] in Next(m, c)
    ensures t[|t| - 1] in m && m[t[|t| - 1]] == '9'
  {
    TrailsSound(m, c, t);
    TrailHeights(m, t, |t| - 1);
    assert t[1] in Neighbours4(c) && Climbs(m, c, t[1]);
  }

  /** Dropping the first cell of a trail of three or more cells leaves a trail from its second cell. */
  lemma TailTrail(m: map<Coords, char>, t: seq<Coords>)
    requires Trail(m, t) && |t| >= 3 && t[|t| - 1] in m && m[t[|t| - 1]] == '9'
    ensures t[1..] in TrailsFrom(m, t[1])
  {
    TrailTail(m, t);
    var t' := t[1..];
    assert t'[|t'| - 1] == t[|t| - 1];
    TrailsComplete(m, t');
  }

  /** A trail from a cell `q` of `Next(m, c)`, with `c` in front, is a trail from `c`. */
  lemma ClimbKeyIn(m: map<Coords, char>, path: seq<Coords>, c: Coords, q: Coords, t': seq<Coords>)
    requires q in Next(m, c) && t' in TrailsFrom(m, q)
    ensures (path + [c]) + KeyOf(m, t') in KeysFrom(m, path, c)
  {
    TrailsSound(m, q, t');
    TrailCons(m, c, t');
    var t := [c] + t';
    assert t[|t| - 1] == t'[|t'| - 1];
    TrailsComplete(m, t);
    KeyOfCons(m, c, t');
    ConcatAssoc(path, [c], KeyOf(m, t'));
  }

  /** From a cell of height at most 7 every trail goes on through a search pushed for a cell of `Next`. */
  lemma KeysUnfoldClimbs(m: map<Coords, char>, path: seq<Coords>, c: Coords, x: seq<Coords>)
    requires Live(m, c) && DigitValue(m[c]) <= 7
    ensures x in KeysFrom(m, path, c) <==> x in KeysOver(m, path + [c], Next(m, c))
  {
    var qs := Next(m, c);
    assert AtHeight(m, qs, DigitValue(m[c]) + 1);
    KeysOverClimbs(m, path + [c], qs, x);
    if x in KeysFrom(m, path, c) {
      var t :| t in TrailsFrom(m, c) && x == path + KeyOf(m, t);
      var i := ClimbKeyOut(m, path, c, t);
    }
    if x in KeysOver(m, path + [c], qs) {
      var i :| 0 <= i < |qs| && x in KeysFrom(m, path + [c], qs[i]);
      assert qs[i] in qs;
      var t' :| t' in TrailsFrom(m, qs[i]) && x == (path + [c]) + KeyOf(m, t');
      ClimbKeyIn(m, path, c, qs[i], t');
    }
  }

  /** The search from `c` along `path` stores what the inner loop over `Next(m, c)` stores. */
  lemma KeysUnfold(m: map<Coords, char>, path: seq<Coords>, c: Coords)
    requires Live(m, c)
    ensures KeysFrom(m, path, c) == KeysOver(m, path + [c], Next(m, c))
  {
    var qs := Next(m, c);
    if DigitValue(m[c]) == 9 {
      forall x | x in KeysFrom(m, path, c) ensures false {
        var t :| t in TrailsFrom(m, c) && x == path + KeyOf(m, t);
        TrailsSound(m, c, t);
        TrailHeights(m, t, 1);
      }
    } else if DigitValue(m[c]) == 8 {
      forall x ensures x in KeysFrom(m, path, c) <==> x in KeysOver(m, path + [c], qs) {
        KeysUnfoldNines(m, path, c, x);
      }
    } else {
      forall x ensures x in KeysFrom(m, path, c) <==> x in KeysOver(m, path + [c], qs) {
        KeysUnfoldClimbs(m, path, c, x);
      }
    }
  }

  /** `PathBuilder`: a cell still to search and the path that led to it. */
  datatype PathBuilder = PathBuilder(c: Coords, path: seq<Coords>)

  /** The keys still to be stored by the searches of a stack of builders. */
  ghost function KeysAll(m: map<Coords, char>, ps: seq<PathBuilder>): set<seq<Coords>>
  {
    if ps == [] then {} else KeysAll(m, ps[..|ps| - 1]) + KeysFrom(m, ps[|ps| - 1].path, ps[|ps| - 1].c)
  }

  /** The cells of a stack of builders. */
  function CellsOf(ps: seq<PathBuilder>): (r: seq<Coords>)
    ensures |r| == |ps| && forall i :: 0 <= i < |ps| ==> r[i] == ps[i].c
  {
    if ps == [] then [] else CellsOf(ps[..|ps| - 1]) + [ps[|ps| - 1].c]
  }

  lemma KeysAllAppend(m: map<Coords, char>, ps: seq<PathBuilder>, b: PathBuilder)
    ensures KeysAll(m, ps + [b]) == KeysAll(m, ps) + KeysFrom(m, b.path, b.c)
  {
    assert (ps + [b])[..|ps|] == ps;
  }

  lemma CellsOfAppend(ps: seq<PathBuilder>, b: PathBuilder)
    ensures CellsOf(ps + [b]) == CellsOf(ps) + [b.c]
  {
    assert (ps + [b])[..|ps|] == ps;
  }

  predicate LiveAll(m: map<Coords, char>, ps: seq<PathBuilder>)
  {
    forall i :: 0 <= i < |ps| ==> Live(m, ps[i].c)
  }

  /**
    The search of `part_two` from one trailhead: the keys of the paths it stores, or
    `None` where `is_next_number` panics.
   */
  method TrailheadPaths(m: map<Coords, char>, s: Coords) returns (r: Option<set<seq<Coords>>>)
    requires Live(m, s)
    ensures r.Some? ==> r.value == KeysFrom(m, [], s)
    ensures AllHeights(m) ==> r.Some?
  {
    var positions := [PathBuilder(s, [])];
    var finished: set<seq<Coords>> := {};
    KeysAllAppend(m, [], PathBuilder(s, []));
    while |positions| > 0
      invariant LiveAll(m, positions)
      invariant finished + KeysAll(m, positions) == KeysFrom(m, [], s)
      decreases Weight(m, CellsOf(positions))
    {
      var ok;
      ok, positions, finished := PathStep(m, positions, finished);
      if !ok {
        return None;
      }
    }
    r := Some(finished);
  }

  /**
    One round of the search loop of `part_two`: pop a builder, extend its path by its
    cell and handle its climbing neighbours; `false` where `is_next_number` panics.
   */
  method PathStep(m: map<Coords, char>, positions: seq<PathBuilder>, finished: set<seq<Coords>>)
    returns (ok: bool, positions': seq<PathBuilder>, finished': set<seq<Coords>>)
    requires |positions| > 0 && LiveAll(m, positions)
    ensures ok ==> LiveAll(m, positions')
    ensures ok ==> finished' + KeysAll(m, positions') == finished + KeysAll(m, positions)
    ensures ok ==> Weight(m, CellsOf(positions')) < Weight(m, CellsOf(positions))
    ensures AllHeights(m) ==> ok
  {
    var p := positions[|positions| - 1];
    var base := positions[..|positions| - 1];
    assert positions == base + [p];
    var path := p.path + [p.c];
    var filtered := FilterNext(m, p.c, Adjacent(p.c));
    if filtered.None? {
      return false, positions, finished;
    }
    var next := filtered.value;
    var h := DigitValue(m[p.c]) + 1;
    assert next == Next(m, p.c);
    positions', finished' := CollectPaths(m, next, h, path, base, finished);
    PathPopped(m, base, p, h, positions', finished, finished');
    ok := true;
  }

  /** After the inner loop, the popped builder's keys and weight are accounted for. */
  lemma PathPopped(m: map<Coords, char>, base: seq<PathBuilder>, p: PathBuilder, h: nat,
                   positions': seq<PathBuilder>, finished: set<seq<Coords>>, finished': set<seq<Coords>>)
    requires Live(m, p.c) && h == DigitValue(m[p.c]) + 1
    requires finished' + KeysAll(m, positions') == finished + KeysAll(m, base) + KeysOver(m, p.path + [p.c], Next(m, p.c))
    requires h <= 9 ==> Weight(m, CellsOf(positions')) < Weight(m, CellsOf(base)) + 5 * Pow5(9 - h)
    requires h == 10 ==> positions' == base
    ensures finished' + KeysAll(m, positions') == finished + KeysAll(m, base + [p])
    ensures Weight(m, CellsOf(positions')) < Weight(m, CellsOf(base + [p]))
  {
    PathPopKeys(m, base, p);
    UnionRegroup(finished, KeysAll(m, base), KeysOver(m, p.path + [p.c], Next(m, p.c)));
    PathPopWeight(m, base, p);
  }

  lemma UnionRegroup<T>(a: set<T>, b: set<T>, c: set<T>)
    ensures a + b + c == a + (b + c)
  {
  }

  /** What popping the builder `p` off a stack takes from the keys still to store. */
  lemma PathPopKeys(m: map<Coords, char>, base: seq<PathBuilder>, p: PathBuilder)
    requires Live(m, p.c)
    ensures KeysAll(m, base + [p]) == KeysAll(m, base) + KeysOver(m, p.path + [p.c], Next(m, p.c))
  {
    KeysAllAppend(m, base, p);
    KeysUnfold(m, p.path, p.c);
  }

  /** What popping the builder `p` off a stack takes from its weight. */
  lemma PathPopWeight(m: map<Coords, char>, base: seq<PathBuilder>, p: PathBuilder)
    requires Live(m, p.c)
    ensures DigitValue(m[p.c]) <= 8 ==>
      Weight(m, CellsOf(base + [p])) == Weight(m, CellsOf(base)) + 5 * Pow5(9 - (DigitValue(m[p.c]) + 1))
    ensures Weight(m, CellsOf(base + [p])) > Weight(m, CellsOf(base))
  {
    CellsOfAppend(base, p);
    WeightPop(m, CellsOf(base), p.c);
  }

  /** The inner loop of `part_two` meets a `9`: it is appended to the path, and the path stored. */
  lemma CollectNine(m: map<Coords, char>, path: seq<Coords>, next: seq<Coords>, j: nat,
                    base: set<seq<Coords>>, ps: seq<PathBuilder>, done: set<seq<Coords>>)
    requires j < |next| && (forall i :: 0 <= i < |next| ==> next[i] in m) && m[next[j]] == '9'
    requires done + KeysAll(m, ps) == base + KeysOver(m, path, next[..j])
    ensures Acc(m, path, next[..j + 1]) == Acc(m, path, next[..j]) + [next[j]]
    ensures (done + {Acc(m, path, next[..j + 1])}) + KeysAll(m, ps) == base + KeysOver(m, path, next[..j + 1])
  {
    assert next[..j + 1][..j] == next[..j];
  }

  /** The inner loop of `part_two` meets another cell: it is pushed with the path so far. */
  lemma CollectClimb(m: map<Coords, char>, path: seq<Coords>, next: seq<Coords>, j: nat,
                     base: set<seq<Coords>>, ps: seq<PathBuilder>, done: set<seq<Coords>>)
    requires j < |next| && (forall i :: 0 <= i < |next| ==> next[i] in m) && m[next[j]] != '9'
    requires done + KeysAll(m, ps) == base + KeysOver(m, path, next[..j])
    ensures Acc(m, path, next[..j + 1]) == Acc(m, path, next[..j])
    ensures done + KeysAll(m, ps + [PathBuilder(next[j], Acc(m, path, next[..j]))]) == base + KeysOver(m, path, next[..j + 1])
  {
    assert next[..j + 1][..j] == next[..j];
    KeysAllAppend(m, ps, PathBuilder(next[j], Acc(m, path, next[..j])));
  }

  /** Pushing a cell of height `h` adds one `unit` to a stack's weight. */
  lemma CollectWeight(m: map<Coords, char>, ps: seq<PathBuilder>, b: PathBuilder, bound: nat, j: nat, unit: nat)
    requires Weight(m, CellsOf(ps)) <= bound + j * unit && Pow5(9 - Height(m, b.c)) == unit
    ensures Weight(m, CellsOf(ps + [b])) <= bound + (j + 1) * unit
  {
    CellsOfAppend(ps, b);
    WeightAppend(m, CellsOf(ps), b.c);
    MulStep(j, unit);
  }

  /**
    The inner loop of `part_two`: a `9` is appended to the path and the path stored,
    any other cell pushed with a copy of the path so far.
   */
  method CollectPaths(m: map<Coords, char>, next: seq<Coords>, h: nat, path: seq<Coords>,
                      positions: seq<PathBuilder>, finished: set<seq<Coords>>)
    returns (positions': seq<PathBuilder>, finished': set<seq<Coords>>)
    requires 1 <= h <= 10 && AtHeight(m, next, h) && |next| <= 4
    requires LiveAll(m, positions)
    ensures LiveAll(m, positions')
    ensures finished' + KeysAll(m, positions') == finished + KeysAll(m, positions) + KeysOver(m, path, next)
    ensures h <= 9 ==> Weight(m, CellsOf(positions')) < Weight(m, CellsOf(positions)) + 5 * Pow5(9 - h)
    ensures h == 10 ==> positions' == positions
  {
    ghost var unit := if h <= 9 then Pow5(9 - h) else 0;
    positions', finished' := positions, finished;
    var cur := path;
    for j := 0 to |next|
      invariant LiveAll(m, positions')
      invariant cur == Acc(m, path, next[..j])
      invariant finished' + KeysAll(m, positions') == finished + KeysAll(m, positions) + KeysOver(m, path, next[..j])
      invariant h <= 9 ==> Weight(m, CellsOf(positions')) <= Weight(m, CellsOf(positions)) + j * unit
      invariant h == 10 ==> positions' == positions
    {
      var item := next[j];
      MulStep(j, unit);
      if m[item] == '9' {
        CollectNine(m, path, next, j, finished + KeysAll(m, positions), positions', finished');
        cur := cur + [item];
        finished' := finished' + {cur};
      } else {
        CollectClimb(m, path, next, j, finished + KeysAll(m, positions), positions', finished');
        var b := PathBuilder(item, cur);
        if h <= 9 {
          CollectWeight(m, positions', b, Weight(m, CellsOf(positions)), j, unit);
        }
        positions' := positions' + [b];
      }
    }
    assert next[..|next|] == next;
    if h <= 9 {
      MulAtMost(|next|, 4, unit);
    }
  }

  /** A key holds its trail without the last cell, and ends with that cell. */
  lemma KeyOfShape(m: map<Coords, char>, t: seq<Coords>)
    requires Trail(m, t) && |t| >= 2
    ensures |KeyOf(m, t)| >= |t| && KeyOf(m, t)[..|t| - 1] == t[..|t| - 1]
    ensures KeyOf(m, t)[|KeyOf(m, t)| - 1] == t[|t| - 1]
  {
    var c, q := t[|t| - 2], t[|t| - 1];
    assert q in Neighbours4(c) && Climbs(m, c, q);
    assert q in Next(m, c);
  }

  /** Every trail from `s` has one cell for each height from that of `s` to 9. */
  lemma TrailsLength(m: map<Coords, char>, s: Coords, t: seq<Coords>)
    requires t in TrailsFrom(m, s)
    ensures Trail(m, t) && Live(m, s) && |t| == 10 - DigitValue(m[s])
  {
    TrailsSound(m, s, t);
    TrailHeights(m, t, |t| - 1);
  }

  /** Different trails of one length get different keys. */
  lemma KeyOfInjectiveTrails(m: map<Coords, char>, t1: seq<Coords>, t2: seq<Coords>)
    requires Trail(m, t1) && Trail(m, t2) && |t1| == |t2| >= 2 && KeyOf(m, t1) == KeyOf(m, t2)
    ensures t1 == t2
  {
    KeyOfShape(m, t1);
    KeyOfShape(m, t2);
    var n := |t1| - 1;
    assert t1[..n] == t2[..n];
    forall i | 0 <= i < |t1| ensures t1[i] == t2[i] {
      if i < n {
        assert t1[i] == t1[..n][i] && t2[i] == t2[..n][i];
      }
    }
  }

  /** Different trails from one trailhead get different keys. */
  lemma KeyOfInjective(m: map<Coords, char>, s: Coords, t1: seq<Coords>, t2: seq<Coords>)
    requires t1 in TrailsFrom(m, s) && t2 in TrailsFrom(m, s) && KeyOf(m, t1) == KeyOf(m, t2)
    ensures t1 == t2
  {
    TrailsLength(m, s, t1);
    TrailsLength(m, s, t2);
    KeyOfInjectiveTrails(m, t1, t2);
  }

  /** An image under a function injective on the set has as many elements as the set. */
  lemma {:induction false} ImageCard(zs: set<seq<Coords>>, f: seq<Coords> -> seq<Coords>)
    requires forall a, b :: a in zs && b in zs && f(a) == f(b) ==> a == b
    ensures |set z | z in zs :: f(z)| == |zs|
    decreases |zs|
  {
    if zs != {} {
      var a :| a in zs;
      var rest := zs - {a};
      ImageCard(rest, f);
      assert (set z | z in zs :: f(z)) == (set z | z in rest :: f(z)) + {f(a)};
      assert f(a) !in (set z | z in rest :: f(z));
    }
  }

  /** `part_two` stores one key for each trail from the trailhead. */
  lemma KeysCount(m: map<Coords, char>, s: Coords)
    ensures |KeysFrom(m, [], s)| == |TrailsFrom(m, s)|
  {
    var f := t => KeyOf(m, t);
    assert KeysFrom(m, [], s) == set t | t in TrailsFrom(m, s) :: f(t) by {
      forall t ensures [] + KeyOf(m, t) == f(t) {
        assert [] + KeyOf(m, t) == KeyOf(m, t);
      }
    }
    forall a, b | a in TrailsFrom(m, s) && b in TrailsFrom(m, s) && f(a) == f(b) ensures a == b {
      KeyOfInjective(m, s, a, b);
    }
    ImageCard(TrailsFrom(m, s), f);
  }

  /** The score `part_two` gives one trailhead: the number of keys its search stores. */
  method TrailheadCount(m: map<Coords, char>, s: Coords) returns (r: Option<nat>)
    requires Live(m, s)
    ensures r.Some? ==> r.value == |TrailsFrom(m, s)|
    ensures AllHeights(m) ==> r.Some?
  {
    var paths := TrailheadPaths(m, s);
    if paths.None? {
      return None;
    }
    KeysCount(m, s);
    r := Some(|paths.value|);
  }

  /** The rating of each cell: how many trails start there. */
  ghost function TrailCounts(m: map<Coords, char>): Coords -> nat
  {
    c => |TrailsFrom(m, c)|
  }

  /**
    `part_two`: the number of distinct trails from each `0`, summed over the `0`s.
    `None` where `is_next_number` panics.
   */
  method PartTwo(input: string) returns (r: Option<nat>)
    ensures var m := GridMap(Lines(input));
      r.Some? ==> r.value == SumOf(CellsWith(m, '0'), TrailCounts(m))
    ensures AllHeights(GridMap(Lines(input))) ==> r.Some?
  {
    var map0 := new CoordMap(input);
    var m := map0.cells;
    var heads := map0.Find('0');
    assert heads == CellsWith(m, '0');
    ghost var f := TrailCounts(m);
    ghost var total := SumOf(heads, f);
    var count: nat := 0;
    var rest := heads;
    while rest != {}
      invariant rest <= heads
      invariant count + SumOf(rest, f) == total
      decreases |rest|
    {
      var s :| s in rest;
      var n := TrailheadCount(m, s);
      if n.None? {
        return None;
      }
      SumStep(rest, f, s, count, n.value, total);
      count := count + n.value;
      rest := rest - {s};
    }
    r := Some(count);
  }
}
