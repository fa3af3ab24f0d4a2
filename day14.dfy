/**
  Day 14: robots on a wrapping room. Each robot moves by its velocity every second,
  wrapping around the room's edges; part one counts the robots in each quadrant after
  100 seconds (those on the middle row or column count for none) and multiplies the
  four counts.
 */
module Day14 {
  import opened Wrappers
  import opened Text
  import opened Grid

  datatype Robot = Robot(x: int, y: int, velX: int, velY: int)

  /**
    `map_robots`: one robot per line, from the first four numbers `extract_numbers`
    finds in it. That helper is not part of this model; it is the `extract` parameter.
   */
  function MapRobots(ls: seq<string>, extract: string -> seq<int>): (rr: seq<Robot>)
    requires forall i :: 0 <= i < |ls| ==> |extract(ls[i])| >= 4
    ensures |rr| == |ls|
    ensures forall i :: 0 <= i < |ls| ==> var n := extract(ls[i]);
      rr[i] == Robot(n[0], n[1], n[2], n[3])
  {
    seq(|ls|, i requires 0 <= i < |ls| => var n := extract(ls[i]); Robot(n[0], n[1], n[2], n[3]))
  }

  /**
    `move_robot`: the robot after `time` seconds, each coordinate wrapped into
    `[0, max]`; the velocity is kept.
   */
  function MoveRobot(r: Robot, time: int, maxX: int, maxY: int): (m: Robot)
    requires maxX > 0 && maxY > 0
    ensures 0 <= m.x <= maxX && 0 <= m.y <= maxY
    ensures (m.x - (r.x + r.velX * time)) % (maxX + 1) == 0
    ensures (m.y - (r.y + r.velY * time)) % (maxY + 1) == 0
    ensures m.velX == r.velX && m.velY == r.velY
  {
    Robot(WrapNumber(r.x + r.velX * time, 0, maxX), WrapNumber(r.y + r.velY * time, 0, maxY), r.velX, r.velY)
  }

  /** Moving for `a` seconds and then `b` seconds is moving for `a + b` seconds. */
  lemma MoveRobotTwice(r: Robot, a: int, b: int, maxX: int, maxY: int)
    requires maxX > 0 && maxY > 0
    ensures MoveRobot(MoveRobot(r, a, maxX, maxY), b, maxX, maxY) == MoveRobot(r, a + b, maxX, maxY)
  {
    var m := MoveRobot(r, a, maxX, maxY);
    WrapTwice(r.x, r.velX, a, b, maxX);
    WrapTwice(r.y, r.velY, a, b, maxY);
    assert m.x == WrapNumber(r.x + r.velX * a, 0, maxX);
    assert m.y == WrapNumber(r.y + r.velY * a, 0, maxY);
  }

  /** One coordinate of `MoveRobotTwice`. */
  lemma WrapTwice(p: int, v: int, a: int, b: int, max: int)
    requires max > 0
    ensures WrapNumber(WrapNumber(p + v * a, 0, max) + v * b, 0, max) == WrapNumber(p + v * (a + b), 0, max)
  {
    WrapNumberAdd(p + v * a, v * b, 0, max);
    assert v * a + v * b == v * (a + b);
  }

  /** A robot already inside the room stays where it is after zero seconds. */
  lemma MoveRobotZero(r: Robot, maxX: int, maxY: int)
    requires maxX > 0 && maxY > 0
    requires 0 <= r.x <= maxX && 0 <= r.y <= maxY
    ensures MoveRobot(r, 0, maxX, maxY) == r
  {
  }

  /** The four quadrants, named by (left of the middle column?, above the middle row?). */
  datatype Quadrant = Q00 | Q01 | Q10 | Q11

  /** The robot's quadrant, or `None` on the middle row or column. */
  function QuadrantOf(r: Robot, xMid: int, yMid: int): (q: Option<Quadrant>)
    ensures q.None? <==> r.x == xMid || r.y == yMid
    ensures q.Some? ==> ((q.value == Q00 || q.value == Q01) <==> r.x < xMid)
    ensures q.Some? ==> ((q.value == Q00 || q.value == Q10) <==> r.y < yMid)
  {
    if r.x == xMid || r.y == yMid then None
    else
      match (r.x < xMid, r.y < yMid)
      case (true, true) => Some(Q00)
      case (true, false) => Some(Q01)
      case (false, true) => Some(Q10)
      case (false, false) => Some(Q11)
  }

  /** The number of robots in quadrant `q`. */
  function CountIn(rr: seq<Robot>, q: Quadrant, xMid: int, yMid: int): nat
  {
    if rr == [] then 0
    else CountIn(rr[..|rr| - 1], q, xMid, yMid) + (if QuadrantOf(rr[|rr| - 1], xMid, yMid) == Some(q) then 1 else 0)
  }

  /** The number of robots on the middle row or column. */
  function CountMiddle(rr: seq<Robot>, xMid: int, yMid: int): nat
  {
    if rr == [] then 0
    else CountMiddle(rr[..|rr| - 1], xMid, yMid) + (if QuadrantOf(rr[|rr| - 1], xMid, yMid).None? then 1 else 0)
  }

  /** Every robot is on a middle line or in exactly one quadrant. */
  lemma {:induction false} CountsPartition(rr: seq<Robot>, xMid: int, yMid: int)
    ensures CountIn(rr, Q00, xMid, yMid) + CountIn(rr, Q01, xMid, yMid) +
            CountIn(rr, Q10, xMid, yMid) + CountIn(rr, Q11, xMid, yMid) +
            CountMiddle(rr, xMid, yMid) == |rr|
  {
    if rr != [] {
      CountsPartition(rr[..|rr| - 1], xMid, yMid);
    }
  }

  predicate InRoom(rr: seq<Robot>, maxX: int, maxY: int)
  {
    forall i :: 0 <= i < |rr| ==> 0 <= rr[i].x <= maxX && 0 <= rr[i].y <= maxY
  }

  /**
    `count_robots`: the four quadrant counts. The source asserts every robot is inside
    the room.
   */
  method CountRobots(rr: seq<Robot>, maxX: int, maxY: int) returns (q00: nat, q01: nat, q10: nat, q11: nat)
    requires maxX >= 0 && maxY >= 0 && InRoom(rr, maxX, maxY)
    ensures q00 == CountIn(rr, Q00, maxX / 2, maxY / 2)
    ensures q01 == CountIn(rr, Q01, maxX / 2, maxY / 2)
    ensures q10 == CountIn(rr, Q10, maxX / 2, maxY / 2)
    ensures q11 == CountIn(rr, Q11, maxX / 2, maxY / 2)
  {
    q00, q01, q10, q11 := 0, 0, 0, 0;
    var xMid := maxX / 2;
    var yMid := maxY / 2;
    var k := 0;
    while k < |rr|
      invariant 0 <= k <= |rr|
      invariant q00 == CountIn(rr[..k], Q00, xMid, yMid) && q01 == CountIn(rr[..k], Q01, xMid, yMid)
      invariant q10 == CountIn(rr[..k], Q10, xMid, yMid) && q11 == CountIn(rr[..k], Q11, xMid, yMid)
    {
      var item := rr[k];
      assert rr[..k + 1][..k] == rr[..k];
      assert rr[..k + 1][k] == item;
      k := k + 1;
      if item.x == xMid || item.y == yMid {
        continue;
      }
      var xp := item.x < xMid;
      var yp := item.y < yMid;
      match (xp, yp) {
        case (true, true) => q00 := q00 + 1;
        case (true, false) => q01 := q01 + 1;
        case (false, true) => q10 := q10 + 1;
        case (false, false) => q11 := q11 + 1;
      }
    }
    assert rr[..k] == rr;
  }

  /** Every robot moved for `time` seconds. */
  function Moved(rr: seq<Robot>, time: int, maxX: int, maxY: int): (ms: seq<Robot>)
    requires maxX > 0 && maxY > 0
    ensures |ms| == |rr| && InRoom(ms, maxX, maxY)
    ensures forall i :: 0 <= i < |rr| ==> ms[i] == MoveRobot(rr[i], time, maxX, maxY)
  {
    seq(|rr|, i requires 0 <= i < |rr| => MoveRobot(rr[i], time, maxX, maxY))
  }

  /** The safety factor: the product of the four quadrant counts. */
  function SafetyFactor(rr: seq<Robot>, maxX: int, maxY: int): nat
    requires maxX >= 0 && maxY >= 0
  {
    var xMid, yMid := maxX / 2, maxY / 2;
    Product(CountIn(rr, Q00, xMid, yMid), CountIn(rr, Q01, xMid, yMid),
            CountIn(rr, Q10, xMid, yMid), CountIn(rr, Q11, xMid, yMid))
  }

  /** The product of the four quadrant counts. */
  function Product(a: nat, b: nat, c: nat, d: nat): nat
  {
    a * b * c * d
  }

  /** `part_one`: the safety factor after 100 seconds in the 101 by 103 room. */
  method PartOne(input: string, extract: string -> seq<int>) returns (r: nat)
    requires forall i :: 0 <= i < |Lines(input)| ==> |extract(Lines(input)[i])| >= 4
    ensures r == SafetyFactor(Moved(MapRobots(Lines(input), extract), 100, 100, 102), 100, 102)
  {
    var robots := MapRobots(Lines(input), extract);
    var moved := Moved(robots, 100, 100, 102);
    var q, w, e, rr := CountRobots(moved, 100, 102);
    r := Product(q, w, e, rr);
  }
}
