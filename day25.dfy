/**
  Day 25: locks and keys. Each schematic is a grid of `#` and `.`; a schematic whose
  top-left cell is `#` (the source calls it a key) fits another schematic when none of
  its `#` cells meets a `#` there.
 */
module Day25 {
  import opened Text
  import opened Grid

  /** A schematic as `CoordMap::new_from_map` gives it: its cells by position. */
  type Schematic = map<Coords, char>

  /** Every cell is `#` or `.`, the two characters `is_matching` handles. */
  predicate PinsOnly(m: Schematic)
  {
    forall c :: c in m ==> m[c] == '#' || m[c] == '.'
  }

  /**
    `is_matching`: every `#` of the first schematic meets a `.` at the same position of
    the second; `.` cells impose nothing. The source reaches `todo!()` on any other
    character, so the first schematic is required to hold only pins.
   */
  predicate IsMatching(lock: Schematic, key: Schematic)
    requires PinsOnly(lock)
  {
    forall c :: c in lock ==> (lock[c] == '#' ==> c in key && key[c] == '.')
  }

  /** The positions holding `#`. */
  function Pins(m: Schematic): set<Coords>
  {
    set c | c in m && m[c] == '#'
  }

  /**
    For two pin-only schematics over the same positions, matching means their `#` cells
    do not overlap, which makes matching symmetric.
   */
  lemma MatchingIffDisjoint(a: Schematic, b: Schematic)
    requires PinsOnly(a) && PinsOnly(b) && a.Keys == b.Keys
    ensures IsMatching(a, b) <==> Pins(a) !! Pins(b)
    ensures IsMatching(a, b) <==> IsMatching(b, a)
  {
    if IsMatching(a, b) {
      forall c | c in Pins(a) ensures c !in Pins(b) { }
    }
    if Pins(a) !! Pins(b) {
      forall c | c in a && a[c] == '#' ensures c in b && b[c] == '.' {
        assert c in Pins(a);
      }
    }
    if IsMatching(b, a) {
      forall c | c in Pins(b) ensures c !in Pins(a) { }
    }
    if Pins(a) !! Pins(b) {
      forall c | c in b && b[c] == '#' ensures c in a && a[c] == '.' {
        assert c in Pins(b);
      }
    }
  }

  /** `*item1.get(&Coords { x: 0, y: 0 }).unwrap() == '#'`. */
  predicate IsKey(m: Schematic)
    requires Coords(0, 0) in m
  {
    m[Coords(0, 0)] == '#'
  }

  /** What `part_one` can read: every schematic has a top-left cell, and keys hold only pins. */
  predicate Readable(s: seq<Schematic>)
  {
    forall i :: 0 <= i < |s| ==> Coords(0, 0) in s[i] && (IsKey(s[i]) ==> PinsOnly(s[i]))
  }

  /** The pairs `part_one` collects: a key with a different schematic that it matches. */
  ghost function Overlaps(s: seq<Schematic>): set<(nat, nat)>
    requires Readable(s)
  {
    set n1: nat, n2: nat | n1 < |s| && n2 < |s| && n1 != n2 && IsKey(s[n1]) && IsMatching(s[n1], s[n2]) :: (n1, n2)
  }

  /** The counting loops of `part_one`: the number of (key, other schematic) pairs that match. */
  method CountMatches(s: seq<Schematic>) returns (count: nat)
    requires Readable(s)
    ensures count == |Overlaps(s)|
  {
    var overlaps: set<(nat, nat)> := {};
    var n1 := 0;
    while n1 < |s|
      invariant 0 <= n1 <= |s|
      invariant forall p :: p in overlaps <==> p in Overlaps(s) && p.0 < n1
    {
      var item1 := s[n1];
      if IsKey(item1) {
        var n2 := 0;
        while n2 < |s|
          invariant 0 <= n2 <= |s|
          invariant forall p :: p in overlaps <==> p in Overlaps(s) && (p.0 < n1 || (p.0 == n1 && p.1 < n2))
        {
          if n1 != n2 && IsMatching(item1, s[n2]) {
            overlaps := overlaps + {(n1, n2)};
          }
          n2 := n2 + 1;
        }
      }
      n1 := n1 + 1;
    }
    assert overlaps == Overlaps(s);
    count := |overlaps|;
  }

  /**
    The schematics of `part_one`: the input split at every blank line, each block read
    as a map by `new_from_map`, taken here as `CoordMap::new`.
   */
  function Schematics(input: string): (r: seq<Schematic>)
    ensures |r| == |SplitStr(input, "\n\n")|
    ensures forall i :: 0 <= i < |r| ==> r[i] == GridMap(Lines(SplitStr(input, "\n\n")[i]))
  {
    var blocks := SplitStr(input, "\n\n");
    seq(|blocks|, i requires 0 <= i < |blocks| => GridMap(Lines(blocks[i])))
  }

  /** `part_one` on the puzzle input: every matching (key, other schematic) pair counted. */
  method PartOne(input: string) returns (count: nat)
    requires Readable(Schematics(input))
    ensures count == |Overlaps(Schematics(input))|
  {
    var strs := Schematics(input);
    count := CountMatches(strs);
  }

  /**
    When all schematics are pin-only over the same positions, the partner of a counted
    pair is never a key, so no pair is counted in both orders.
   */
  lemma OverlapsOneWay(s: seq<Schematic>, n1: nat, n2: nat)
    requires Readable(s)
    requires forall i :: 0 <= i < |s| ==> PinsOnly(s[i]) && s[i].Keys == s[0].Keys
    requires (n1, n2) in Overlaps(s)
    ensures !IsKey(s[n2]) && (n2, n1) !in Overlaps(s)
  {
    assert s[n1][Coords(0, 0)] == '#';
  }
}
