/**
  Day 9: disk compaction. The disk map is a string of digits alternating file lengths
  and free-space lengths. Part one moves file blocks one by one into the leftmost free
  space; part two moves whole files into the leftmost free span that fits them. Both
  answer the checksum: the sum of position times file id over the file blocks.
 */
module Day09 {
  import opened Wrappers
  import opened Text

  datatype Space = Space(id: nat, places: nat)

  /** An entry of the row: a span of free space or a span of one file's blocks. */
  datatype TakenSpace = Empty(space: Space) | Number(space: Space)

  // ---- makerow ------------------------------------------------------------------------

  /** The characters that survive `filter(|x| !x.trim().is_empty())`. */
  function Kept(s: string): (k: string)
    ensures |k| <= |s|
    ensures forall i :: 0 <= i < |k| ==> !IsSpace(k[i])
  {
    if s == [] then []
    else Kept(s[..|s| - 1]) + (if IsSpace(s[|s| - 1]) then [] else [s[|s| - 1]])
  }

  /** Every kept character parses as a number (a single character parses only when it is a digit). */
  predicate RowReadable(input: string)
  {
    AllDigits(Kept(input))
  }

  /**
    The row of a disk map: the `n`-th digit is file `n / 2` when `n` is even and free
    space when `n` is odd, spanning as many places as the digit says.
   */
  function Layout(ds: string): (row: seq<TakenSpace>)
    requires AllDigits(ds)
    ensures |row| == |ds|
    ensures forall n :: 0 <= n < |ds| ==> row[n].space.places == DigitValue(ds[n])
    ensures forall n :: 0 <= n < |ds| ==> (row[n].Number? <==> n % 2 == 0)
    ensures forall n :: 0 <= n < |ds| && n % 2 == 0 ==> row[n].space.id == n / 2
  {
    seq(|ds|, n requires 0 <= n < |ds| =>
      if n % 2 == 0 then Number(Space(n / 2, DigitValue(ds[n]))) else Empty(Space(0, DigitValue(ds[n]))))
  }

  /** One more digit adds one more entry. */
  lemma LayoutAppend(ds: string, c: char)
    requires AllDigits(ds) && IsDigit(c)
    ensures AllDigits(ds + [c])
    ensures var n := |ds|;
      Layout(ds + [c]) == Layout(ds) + [if n % 2 == 0 then Number(Space(n / 2, DigitValue(c))) else Empty(Space(0, DigitValue(c)))]
  {
    var n := |ds|;
    var r := Layout(ds) + [if n % 2 == 0 then Number(Space(n / 2, DigitValue(c))) else Empty(Space(0, DigitValue(c)))];
    assert forall j :: 0 <= j < n ==> (ds + [c])[j] == ds[j];
    assert forall j :: 0 <= j <= n ==> Layout(ds + [c])[j] == r[j];
  }

  /** `makerow`: numbers the files with a counter that grows at every even position. */
  method MakeRow(input: string) returns (row: seq<TakenSpace>)
    requires RowReadable(input)
    ensures row == Layout(Kept(input))
  {
    var ds := Kept(input);
    var counter := 0;
    row := [];
    var n := 0;
    while n < |ds|
      invariant 0 <= n <= |ds|
      invariant row == Layout(ds[..n])
      invariant counter == (n + 1) / 2
    {
      var c := ds[n];
      LayoutAppend(ds[..n], c);
      assert ds[..n + 1] == ds[..n] + [c];
      var parsed := DigitValue(c);
      if n % 2 == 0 {
        row := row + [Number(Space(counter, parsed))];
        counter := counter + 1;
      } else {
        row := row + [Empty(Space(0, parsed))];
      }
      n := n + 1;
    }
    assert ds[..n] == ds;
  }

  // ---- what the rows own --------------------------------------------------------------

  /** The disk block by block: a file block holds its id, a free block nothing. */
  function Cells(t: TakenSpace): seq<Option<nat>>
  {
    Run(if t.Number? then Some(t.space.id) else None, t.space.places)
  }

  /** `n` copies of a block. */
  function Run(x: Option<nat>, n: nat): (r: seq<Option<nat>>)
    ensures |r| == n && forall i :: 0 <= i < n ==> r[i] == x
  {
    seq(n, _ => x)
  }

  lemma RunStep(x: Option<nat>, n: nat)
    ensures Run(x, n + 1) == Run(x, n) + [x]
  {
  }

  function Disk(row: seq<TakenSpace>): seq<Option<nat>>
  {
    if row == [] then [] else Disk(row[..|row| - 1]) + Cells(row[|row| - 1])
  }

  /** The file blocks: each id as many times as the blocks it owns. */
  function Blocks(t: TakenSpace): multiset<nat>
  {
    if t.Number? then multiset{}[t.space.id := t.space.places] else multiset{}
  }

  function Owned(row: seq<TakenSpace>): multiset<nat>
  {
    if row == [] then multiset{} else Owned(row[..|row| - 1]) + Blocks(row[|row| - 1])
  }

  /** The file entries, with their sizes. */
  function FileOf(t: TakenSpace): multiset<Space>
  {
    if t.Number? then multiset{t.space} else multiset{}
  }

  function Files(row: seq<TakenSpace>): multiset<Space>
  {
    if row == [] then multiset{} else Files(row[..|row| - 1]) + FileOf(row[|row| - 1])
  }

  /** The number of places the row spans. */
  function Places(row: seq<TakenSpace>): nat
  {
    if row == [] then 0 else Places(row[..|row| - 1]) + row[|row| - 1].space.places
  }

  lemma {:induction false} DiskAppend(a: seq<TakenSpace>, b: seq<TakenSpace>)
    ensures Disk(a + b) == Disk(a) + Disk(b)
  {
    if b != [] {
      assert (a + b)[..|a + b| - 1] == a + b[..|b| - 1];
      DiskAppend(a, b[..|b| - 1]);
    } else {
      assert a + b == a;
    }
  }

  lemma {:induction false} OwnedAppend(a: seq<TakenSpace>, b: seq<TakenSpace>)
    ensures Owned(a + b) == Owned(a) + Owned(b)
  {
    if b != [] {
      assert (a + b)[..|a + b| - 1] == a + b[..|b| - 1];
      OwnedAppend(a, b[..|b| - 1]);
    } else {
      assert a + b == a;
    }
  }

  lemma {:induction false} FilesAppend(a: seq<TakenSpace>, b: seq<TakenSpace>)
    ensures Files(a + b) == Files(a) + Files(b)
  {
    if b != [] {
      assert (a + b)[..|a + b| - 1] == a + b[..|b| - 1];
      FilesAppend(a, b[..|b| - 1]);
    } else {
      assert a + b == a;
    }
  }

  lemma {:induction false} PlacesAppend(a: seq<TakenSpace>, b: seq<TakenSpace>)
    ensures Places(a + b) == Places(a) + Places(b)
  {
    if b != [] {
      assert (a + b)[..|a + b| - 1] == a + b[..|b| - 1];
      PlacesAppend(a, b[..|b| - 1]);
    } else {
      assert a + b == a;
    }
  }

  /** The row spans as many places as its disk has blocks. */
  lemma {:induction false} PlacesIsDiskLength(row: seq<TakenSpace>)
    ensures Places(row) == |Disk(row)|
  {
    if row != [] {
      PlacesIsDiskLength(row[..|row| - 1]);
    }
  }

  /** The owned blocks are the file blocks of the disk. */
  lemma {:induction false} OwnedIsFileCells(row: seq<TakenSpace>, id: nat)
    ensures Owned(row)[id] == multiset(Disk(row))[Some(id)]
  {
    if row != [] {
      OwnedIsFileCells(row[..|row| - 1], id);
      var t := row[|row| - 1];
      var c := Cells(t);
      if t.Number? && t.space.id == id {
        RepeatCount(Some(id), t.space.places);
      } else {
        assert Some(id) !in multiset(c);
      }
    }
  }

  lemma {:induction false} RepeatCount(x: Option<nat>, n: nat)
    ensures multiset(Run(x, n))[x] == n
  {
    if n > 0 {
      RunStep(x, n - 1);
      RepeatCount(x, n - 1);
    }
  }

  /** Five pieces: two single entries between three slices. */
  lemma Split5(a: seq<TakenSpace>, x: TakenSpace, b: seq<TakenSpace>, y: TakenSpace, c: seq<TakenSpace>)
    ensures Owned(a + [x] + b + [y] + c) == Owned(a) + Blocks(x) + Owned(b) + Blocks(y) + Owned(c)
    ensures Files(a + [x] + b + [y] + c) == Files(a) + FileOf(x) + Files(b) + FileOf(y) + Files(c)
    ensures Places(a + [x] + b + [y] + c) == Places(a) + x.space.places + Places(b) + y.space.places + Places(c)
  {
    OwnedAppend(a + [x] + b + [y], c); OwnedAppend(a + [x] + b, [y]); OwnedAppend(a + [x], b); OwnedAppend(a, [x]);
    FilesAppend(a + [x] + b + [y], c); FilesAppend(a + [x] + b, [y]); FilesAppend(a + [x], b); FilesAppend(a, [x]);
    PlacesAppend(a + [x] + b + [y], c); PlacesAppend(a + [x] + b, [y]); PlacesAppend(a + [x], b); PlacesAppend(a, [x]);
    assert Owned([x]) == Blocks(x) && Owned([y]) == Blocks(y);
    assert Files([x]) == FileOf(x) && Files([y]) == FileOf(y);
    assert Places([x]) == x.space.places && Places([y]) == y.space.places;
  }

  /** Three slices after one single entry. */
  lemma Split4(a: seq<TakenSpace>, x: TakenSpace, b: seq<TakenSpace>, c: seq<TakenSpace>)
    ensures Owned(a + [x] + b + c) == Owned(a) + Blocks(x) + Owned(b) + Owned(c)
    ensures Files(a + [x] + b + c) == Files(a) + FileOf(x) + Files(b) + Files(c)
    ensures Places(a + [x] + b + c) == Places(a) + x.space.places + Places(b) + Places(c)
  {
    OwnedAppend(a + [x] + b, c); OwnedAppend(a + [x], b); OwnedAppend(a, [x]);
    FilesAppend(a + [x] + b, c); FilesAppend(a + [x], b); FilesAppend(a, [x]);
    PlacesAppend(a + [x] + b, c); PlacesAppend(a + [x], b); PlacesAppend(a, [x]);
    assert Owned([x]) == Blocks(x) && Files([x]) == FileOf(x) && Places([x]) == x.space.places;
  }

  // ---- Vec operations -----------------------------------------------------------------

  /** `Vec::remove(i)`. */
  function Remove(s: seq<TakenSpace>, i: nat): (r: seq<TakenSpace>)
    requires i < |s|
    ensures r == s[..i] + s[i + 1..]
  {
    s[..i] + s[i + 1..]
  }

  /** `Vec::insert(i, x)`. */
  function Insert(s: seq<TakenSpace>, i: nat, x: TakenSpace): (r: seq<TakenSpace>)
    requires i <= |s|
    ensures r == s[..i] + [x] + s[i..]
  {
    s[..i] + [x] + s[i..]
  }

  // ---- part one -----------------------------------------------------------------------

  /** No file entry follows a free entry: all files are packed at the front. */
  predicate Compacted(row: seq<TakenSpace>)
  {
    forall i, j :: 0 <= i < j < |row| && row[i].Empty? ==> row[j].Empty?
  }

  /**
    `shift_row_p1`: a pointer from the front looks for free space, one from the back for
    file blocks; the blocks fill the space, splitting whichever of the two is larger.
    Every file keeps the blocks it owns, in the end every file entry precedes every free
    one, and the disk, padded with the free blocks of the entries removed on the way, is
    the block-by-block compaction of the original disk.
   */
  method ShiftRowP1(row0: seq<TakenSpace>) returns (row: seq<TakenSpace>)
    requires |row0| >= 1
    ensures Owned(row) == Owned(row0)
    ensures Compacted(row)
    ensures |Disk(row)| <= |Disk(row0)| && Padded(row, |Disk(row0)|) == Compact(Disk(row0))
  {
    row := row0;
    var pointerStart := 0;
    var pointerEnd := |row| - 1;
    assert Padded(row, |Disk(row0)|) == Disk(row0);
    assert Compacting(row0, row);
    while pointerEnd > pointerStart
      invariant 0 <= pointerEnd < |row| && pointerStart <= pointerEnd + 1
      invariant Owned(row) == Owned(row0)
      invariant Parted(row, pointerStart, pointerEnd)
      invariant Compacting(row0, row)
      decreases pointerEnd - pointerStart
    {
      var startItem := row[pointerStart];
      var endItem := row[pointerEnd];
      if startItem.Empty? && endItem.Number? {
        row, pointerStart, pointerEnd := FillSpace(row0, row, pointerStart, pointerEnd);
      } else if startItem.Number? {
        PartedFront(row, pointerStart, pointerEnd);
        pointerStart := pointerStart + 1;
      } else {
        PartedBack(row, pointerStart, pointerEnd);
        pointerEnd := pointerEnd - 1;
      }
    }
    PaddedCompact(row0, row);
  }

  /**
    The front space meets the back file: the file's blocks fill the space, splitting
    whichever of the two is larger, and the front pointer moves past the filled space.
   */
  method FillSpace(ghost row0: seq<TakenSpace>, row: seq<TakenSpace>, s: nat, e: nat) returns (r: seq<TakenSpace>, s': nat, e': nat)
    requires s < e < |row| && row[s].Empty? && row[e].Number?
    requires Parted(row, s, e) && Compacting(row0, row)
    ensures s' == s + 1 && s' <= e' + 1 && e' < |r| && e' <= e
    ensures Owned(r) == Owned(row) && Parted(r, s', e') && Compacting(row0, r)
  {
    var spaceEmpty := row[s].space;
    var spaceNumber := row[e].space;
    if spaceEmpty.places == spaceNumber.places {
      r := Remove(row[s := row[e]], e);
      StepWhole(row, r, s, e);
      CompactWhole(row0, row, r, s, e);
      s', e' := s + 1, e - 1;
    } else if spaceEmpty.places > spaceNumber.places {
      var rest := Empty(Space(spaceEmpty.id, spaceEmpty.places - spaceNumber.places));
      r := Insert(Remove(row[s := rest], e), s, Number(Space(spaceNumber.id, spaceNumber.places)));
      StepFileFits(row, r, s, e, rest);
      CompactFits(row0, row, r, s, e, rest);
      s', e' := s + 1, e;
    } else {
      var rest := Number(Space(spaceNumber.id, spaceNumber.places - spaceEmpty.places));
      var piece := Number(Space(spaceNumber.id, spaceEmpty.places));
      r := Insert(Remove(row[e := rest], s), s, piece);
      StepSpaceFills(row, r, s, e, rest);
      CompactFills(row0, row, r, s, e, rest, piece);
      s', e' := s + 1, e;
    }
  }

  /** Files before the front pointer, free space after the back pointer. */
  predicate Parted(row: seq<TakenSpace>, s: nat, e: nat)
  {
    (forall i :: 0 <= i < s && i < |row| ==> row[i].Number?) &&
    (forall i :: e < i < |row| ==> row[i].Empty?)
  }

  lemma PartedFront(row: seq<TakenSpace>, s: nat, e: nat)
    requires Parted(row, s, e) && s < |row| && row[s].Number?
    ensures Parted(row, s + 1, e)
  {
  }

  lemma PartedBack(row: seq<TakenSpace>, s: nat, e: nat)
    requires Parted(row, s, e) && 0 < e < |row| && row[e].Empty?
    ensures Parted(row, s, e - 1)
  {
  }

  /** A file took the front place and the back entry left the row. */
  lemma PartedRemoved(row: seq<TakenSpace>, r: seq<TakenSpace>, s: nat, e: nat)
    requires s < e < |row| && row[e].Number? && Parted(row, s, e)
    requires r == row[..s] + [row[e]] + row[s + 1..e] + row[e + 1..]
    ensures Parted(r, s + 1, e - 1)
  {
    assert forall i :: e <= i < |r| ==> r[i] == row[i + 1];
  }

  /** A file took the front place and everything after the back pointer stayed. */
  lemma PartedKept(row: seq<TakenSpace>, r: seq<TakenSpace>, s: nat, e: nat, mid: seq<TakenSpace>)
    requires s < e < |row| && Parted(row, s, e)
    requires r == row[..s] + mid + row[e + 1..] && |mid| == e + 1 - s && mid[0].Number?
    ensures Parted(r, s + 1, e)
  {
    assert forall i :: e < i < |r| ==> r[i] == row[i];
  }

  /** The file exactly fills the space: it takes the space's place and leaves the row. */
  lemma StepWhole(row: seq<TakenSpace>, r: seq<TakenSpace>, s: nat, e: nat)
    requires s < e < |row| && row[s].Empty? && row[e].Number? && row[s].space.places == row[e].space.places
    requires r == Remove(row[s := row[e]], e)
    ensures |r| == |row| - 1 && Owned(r) == Owned(row)
    ensures Parted(row, s, e) ==> Parted(r, s + 1, e - 1)
  {
    assert r == row[..s] + [row[e]] + row[s + 1..e] + row[e + 1..];
    WholeOwned(row, r, s, e);
    if Parted(row, s, e) {
      PartedRemoved(row, r, s, e);
    }
  }

  lemma WholeOwned(row: seq<TakenSpace>, r: seq<TakenSpace>, s: nat, e: nat)
    requires s < e < |row| && r == row[..s] + [row[e]] + row[s + 1..e] + row[e + 1..]
    requires row[s].Empty?
    ensures Owned(r) == Owned(row)
  {
    Slices5(row, s, e);
    Split5(row[..s], row[s], row[s + 1..e], row[e], row[e + 1..]);
    Split4(row[..s], row[e], row[s + 1..e], row[e + 1..]);
  }

  /** The file is smaller: it moves before what remains of the space. */
  lemma StepFileFits(row: seq<TakenSpace>, r: seq<TakenSpace>, s: nat, e: nat, rest: TakenSpace)
    requires s < e < |row| && row[s].Empty? && row[e].Number? && row[s].space.places > row[e].space.places
    requires rest == Empty(Space(row[s].space.id, row[s].space.places - row[e].space.places))
    requires r == Insert(Remove(row[s := rest], e), s, Number(Space(row[e].space.id, row[e].space.places)))
    ensures |r| == |row| && Owned(r) == Owned(row)
    ensures Parted(row, s, e) ==> Parted(r, s + 1, e)
  {
    FitsShape(row, s, e, rest);
    var mid := [rest] + row[s + 1..e];
    FitsOwned(row, r, s, e, rest);
    if Parted(row, s, e) {
      PartedKept(row, r, s, e, [row[e]] + mid);
    }
  }

  lemma FitsOwned(row: seq<TakenSpace>, r: seq<TakenSpace>, s: nat, e: nat, rest: TakenSpace)
    requires s < e < |row| && row[s].Empty? && rest.Empty?
    requires r == row[..s] + [row[e]] + ([rest] + row[s + 1..e]) + row[e + 1..]
    ensures Owned(r) == Owned(row)
  {
    var n := row[e];
    var mid, tail := row[s + 1..e], row[e + 1..];
    Slices5(row, s, e);
    Split5(row[..s], row[s], mid, n, tail);
    Split4(row[..s], n, [rest] + mid, tail);
    OwnedAppend([rest], mid);
    assert Owned([rest]) == multiset{};
  }

  lemma FitsShape(row: seq<TakenSpace>, s: nat, e: nat, rest: TakenSpace)
    requires s < e < |row| && row[e].Number?
    ensures var n := row[e];
      Insert(Remove(row[s := rest], e), s, Number(Space(n.space.id, n.space.places))) ==
      row[..s] + [row[e]] + ([rest] + row[s + 1..e]) + row[e + 1..]
    ensures var n := row[e];
      Insert(Remove(row[s := rest], e), s, Number(Space(n.space.id, n.space.places))) ==
      row[..s] + ([row[e]] + ([rest] + row[s + 1..e])) + row[e + 1..]
  {
    var v := Remove(row[s := rest], e);
    assert v == row[..s] + [rest] + row[s + 1..e] + row[e + 1..];
    assert v[..s] == row[..s];
    assert v[s..] == [rest] + row[s + 1..e] + row[e + 1..];
  }

  /** The space is smaller: it becomes a piece of the file, the rest of the file stays behind. */
  lemma StepSpaceFills(row: seq<TakenSpace>, r: seq<TakenSpace>, s: nat, e: nat, rest: TakenSpace)
    requires s < e < |row| && row[s].Empty? && row[e].Number? && row[s].space.places < row[e].space.places
    requires rest == Number(Space(row[e].space.id, row[e].space.places - row[s].space.places))
    requires r == Insert(Remove(row[e := rest], s), s, Number(Space(row[e].space.id, row[s].space.places)))
    ensures |r| == |row| && Owned(r) == Owned(row)
    ensures Parted(row, s, e) ==> Parted(r, s + 1, e)
  {
    var piece := Number(Space(row[e].space.id, row[s].space.places));
    FillsShape(row, s, e, rest, piece);
    FillsOwned(row, r, s, e, rest, piece);
    if Parted(row, s, e) {
      PartedKept(row, r, s, e, [piece] + row[s + 1..e] + [rest]);
    }
  }

  lemma FillsShape(row: seq<TakenSpace>, s: nat, e: nat, rest: TakenSpace, piece: TakenSpace)
    requires s < e < |row|
    ensures Insert(Remove(row[e := rest], s), s, piece) == row[..s] + [piece] + row[s + 1..e] + [rest] + row[e + 1..]
    ensures Insert(Remove(row[e := rest], s), s, piece) == row[..s] + ([piece] + row[s + 1..e] + [rest]) + row[e + 1..]
  {
    var v := Remove(row[e := rest], s);
    assert v == row[..s] + row[s + 1..e] + [rest] + row[e + 1..];
    assert v[..s] == row[..s];
    assert v[s..] == row[s + 1..e] + [rest] + row[e + 1..];
  }

  lemma FillsOwned(row: seq<TakenSpace>, r: seq<TakenSpace>, s: nat, e: nat, rest: TakenSpace, piece: TakenSpace)
    requires s < e < |row| && row[s].Empty? && row[e].Number? && row[s].space.places < row[e].space.places
    requires rest == Number(Space(row[e].space.id, row[e].space.places - row[s].space.places))
    requires piece == Number(Space(row[e].space.id, row[s].space.places))
    requires r == row[..s] + [piece] + row[s + 1..e] + [rest] + row[e + 1..]
    ensures Owned(r) == Owned(row)
  {
    Slices5(row, s, e);
    Split5(row[..s], row[s], row[s + 1..e], row[e], row[e + 1..]);
    Split5(row[..s], piece, row[s + 1..e], rest, row[e + 1..]);
    SplitBlocks(row[e], piece, rest);
    assert Blocks(row[s]) == multiset{};
    var a, b, c := Owned(row[..s]), Owned(row[s + 1..e]), Owned(row[e + 1..]);
    assert Owned(r) == a + Blocks(piece) + b + Blocks(rest) + c;
    assert Owned(row) == a + multiset{} + b + (Blocks(piece) + Blocks(rest)) + c;
  }

  /** A file split in two pieces keeps its blocks. */
  lemma SplitBlocks(t: TakenSpace, piece: TakenSpace, rest: TakenSpace)
    requires t.Number? && piece.Number? && rest.Number? && piece.space.id == t.space.id == rest.space.id
    requires piece.space.places + rest.space.places == t.space.places
    ensures Blocks(piece) + Blocks(rest) == Blocks(t)
  {
  }

  // ---- part one, block by block -------------------------------------------------------

  /** Only file blocks. */
  predicate Filled(d: seq<Option<nat>>)
  {
    forall j :: 0 <= j < |d| ==> d[j].Some?
  }

  /** Only free blocks. */
  predicate Free(d: seq<Option<nat>>)
  {
    forall j :: 0 <= j < |d| ==> d[j].None?
  }

  /** The index of the first free block, or the length of the disk when there is none. */
  function FirstFree(d: seq<Option<nat>>): (i: nat)
    ensures i <= |d| && (i < |d| ==> d[i].None?)
    ensures forall j :: 0 <= j < i ==> d[j].Some?
  {
    if d == [] || d[0].None? then 0 else 1 + FirstFree(d[1..])
  }

  /** One past the last file block, or zero when there is none. */
  function FileEnd(d: seq<Option<nat>>): (e: nat)
    ensures e <= |d| && (e > 0 ==> d[e - 1].Some?)
    ensures forall j :: e <= j < |d| ==> d[j].None?
  {
    if d == [] then 0 else if d[|d| - 1].Some? then |d| else FileEnd(d[..|d| - 1])
  }

  /** No file block follows a free block. */
  predicate Packed(d: seq<Option<nat>>)
  {
    forall i, j :: 0 <= i < j < |d| && d[i].None? ==> d[j].None?
  }

  /** One step of part one: the last file block moves into the first free block. */
  function MoveLast(d: seq<Option<nat>>): (r: seq<Option<nat>>)
    requires FirstFree(d) < FileEnd(d)
    ensures |r| == |d| && FirstFree(d) < FirstFree(r) && FileEnd(r) < FileEnd(d)
  {
    var i, e := FirstFree(d), FileEnd(d);
    var r := d[i := d[e - 1]][e - 1 := None];
    assert forall j :: 0 <= j <= i ==> r[j].Some?;
    assert forall j :: e - 1 <= j < |d| ==> r[j].None?;
    r
  }

  /**
    Part one as the puzzle states it, independently of the row of entries: while a free
    block precedes a file block, the last file block moves into the first free block.
   */
  function Compact(d: seq<Option<nat>>): (r: seq<Option<nat>>)
    ensures |r| == |d|
    decreases |d| - FirstFree(d) + FileEnd(d)
  {
    if FirstFree(d) < FileEnd(d) then Compact(MoveLast(d)) else d
  }

  /** The compacted disk keeps every block, and has every file block before every free one. */
  lemma {:induction false} CompactPacks(d: seq<Option<nat>>)
    ensures multiset(Compact(d)) == multiset(d) && Packed(Compact(d))
    decreases |d| - FirstFree(d) + FileEnd(d)
  {
    if FirstFree(d) < FileEnd(d) {
      var i, e := FirstFree(d), FileEnd(d);
      assert MoveLast(d) == d[i := d[e - 1]][e - 1 := None];
      assert multiset(MoveLast(d)) == multiset(d);
      CompactPacks(MoveLast(d));
    } else {
      assert forall j :: 0 <= j < |d| && d[j].None? ==> FileEnd(d) <= j;
    }
  }

  /** A disk with no file block after a free block is left as it is. */
  lemma CompactIdle(d: seq<Option<nat>>)
    requires Packed(d)
    ensures Compact(d) == d
  {
    assert forall j :: FirstFree(d) <= j < |d| ==> d[j].None?;
  }

  /** A compacted row, padded with free blocks, is already compact block by block. */
  lemma PaddedCompact(row0: seq<TakenSpace>, row: seq<TakenSpace>)
    requires Compacted(row) && Compacting(row0, row)
    ensures Padded(row, |Disk(row0)|) == Compact(Disk(row0))
  {
    var n := |Disk(row0)|;
    CompactedDisk(row);
    CompactIdle(Padded(row, n));
  }

  /** The row padded to the length of `row0` compacts, block by block, as `row0` does. */
  ghost predicate Compacting(row0: seq<TakenSpace>, row: seq<TakenSpace>)
  {
    |Disk(row)| <= |Disk(row0)| && Compact(Padded(row, |Disk(row0)|)) == Compact(Disk(row0))
  }

  /** Free blocks of the same number are the same. */
  lemma FreeEqual(a: seq<Option<nat>>, b: seq<Option<nat>>)
    requires |a| == |b|
    requires Free(a)
    requires Free(b)
    ensures a == b
  {
  }

  lemma RunFront(x: Option<nat>, n: nat)
    ensures Run(x, n + 1) == [x] + Run(x, n)
  {
  }

  lemma Regroup<T>(f: seq<T>, a: T, p: seq<T>, m: seq<T>, q: seq<T>, b: T, t: seq<T>)
    ensures f + ([a] + p) + m + (q + [b]) + t == f + [a] + (p + m + q) + [b] + t
    ensures f + [a] + (p + m + q) + [b] + t == (f + [a]) + p + m + q + ([b] + t)
  {
  }

  /** A move between a free block after files only and a file block before free blocks only. */
  lemma MoveShape(f: seq<Option<nat>>, mid: seq<Option<nat>>, x: nat, t: seq<Option<nat>>)
    requires Filled(f)
    requires Free(t)
    ensures var d := f + [None] + mid + [Some(x)] + t;
      FirstFree(d) < FileEnd(d) && MoveLast(d) == f + [Some(x)] + mid + [None] + t
  {
    var d := f + [None] + mid + [Some(x)] + t;
    var i, e := |f|, |d| - |t|;
    assert d[i].None? && forall j :: 0 <= j < i ==> d[j].Some?;
    assert FirstFree(d) == i;
    assert d[e - 1].Some? && forall j :: e <= j < |d| ==> d[j].None?;
    assert FileEnd(d) == e;
    assert d[i := Some(x)][e - 1 := None] == f + [Some(x)] + mid + [None] + t;
  }

  /**
    `k` moves carry a run of `k` blocks of file `x` at the back, after which there are
    only free blocks, into a run of `k` free blocks that follows files only.
   */
  lemma {:induction false} CompactRuns(f: seq<Option<nat>>, k: nat, m: seq<Option<nat>>, x: nat, t: seq<Option<nat>>)
    requires Filled(f)
    requires Free(t)
    ensures Compact(f + Run(None, k) + m + Run(Some(x), k) + t) == Compact(f + Run(Some(x), k) + m + Run(None, k) + t)
    decreases k
  {
    if k > 0 {
      CompactRunsStep(f, k, m, x, t);
      CompactRuns(f + [Some(x)], k - 1, m, x, [None] + t);
      RunsShape(f, k, m, x, t);
    }
  }

  /** The first of the `k` moves. */
  lemma CompactRunsStep(f: seq<Option<nat>>, k: nat, m: seq<Option<nat>>, x: nat, t: seq<Option<nat>>)
    requires Filled(f)
    requires Free(t)
    requires k > 0
    ensures Filled(f + [Some(x)]) && Free([None] + t)
    ensures Compact(f + Run(None, k) + m + Run(Some(x), k) + t) ==
      Compact((f + [Some(x)]) + Run(None, k - 1) + m + Run(Some(x), k - 1) + ([None] + t))
  {
    var free, file := Run(None, k - 1), Run(Some(x), k - 1);
    var mid := free + m + file;
    var d, d0 := f + Run(None, k) + m + Run(Some(x), k) + t, f + [None] + mid + [Some(x)] + t;
    assert d == d0 by {
      RunFront(None, k - 1);
      RunStep(Some(x), k - 1);
      Regroup(f, None, free, m, file, Some(x), t);
    }
    MoveShape(f, mid, x, t);
    assert Compact(d0) == Compact(MoveLast(d0));
    assert MoveLast(d0) == (f + [Some(x)]) + free + m + file + ([None] + t) by {
      Regroup(f, Some(x), free, m, file, None, t);
    }
  }

  lemma RunsShape(f: seq<Option<nat>>, k: nat, m: seq<Option<nat>>, x: nat, t: seq<Option<nat>>)
    requires k > 0
    ensures (f + [Some(x)]) + Run(Some(x), k - 1) + m + Run(None, k - 1) + ([None] + t) ==
      f + Run(Some(x), k) + m + Run(None, k) + t
  {
    RunFront(Some(x), k - 1);
    RunStep(None, k - 1);
    Regroup(f, Some(x), Run(Some(x), k - 1), m, Run(None, k - 1), None, t);
  }

  /** The disk of a row padded with free blocks to `n` blocks. */
  function Padded(row: seq<TakenSpace>, n: nat): seq<Option<nat>>
    requires |Disk(row)| <= n
  {
    Disk(row) + Run(None, n - |Disk(row)|)
  }

  lemma {:induction false} AllFilesDisk(row: seq<TakenSpace>)
    requires forall i :: 0 <= i < |row| ==> row[i].Number?
    ensures Filled(Disk(row))
  {
    if row != [] {
      AllFilesDisk(row[..|row| - 1]);
    }
  }

  lemma {:induction false} AllFreeDisk(row: seq<TakenSpace>)
    requires forall i :: 0 <= i < |row| ==> row[i].Empty?
    ensures Free(Disk(row))
  {
    if row != [] {
      AllFreeDisk(row[..|row| - 1]);
    }
  }

  lemma Disk5(a: seq<TakenSpace>, x: TakenSpace, b: seq<TakenSpace>, y: TakenSpace, c: seq<TakenSpace>)
    ensures Disk(a + [x] + b + [y] + c) == Disk(a) + Cells(x) + Disk(b) + Cells(y) + Disk(c)
  {
    DiskAppend(a + [x] + b + [y], c); DiskAppend(a + [x] + b, [y]); DiskAppend(a + [x], b); DiskAppend(a, [x]);
    assert Disk([x]) == Cells(x) && Disk([y]) == Cells(y);
  }

  lemma Disk4(a: seq<TakenSpace>, x: TakenSpace, b: seq<TakenSpace>, c: seq<TakenSpace>)
    ensures Disk(a + [x] + b + c) == Disk(a) + Cells(x) + Disk(b) + Disk(c)
  {
    DiskAppend(a + [x] + b, c); DiskAppend(a + [x], b); DiskAppend(a, [x]);
    assert Disk([x]) == Cells(x);
  }

  /** A sequence cut at two of its entries. */
  lemma Slices5<T>(row: seq<T>, s: nat, e: nat)
    requires s < e < |row|
    ensures row == row[..s] + [row[s]] + row[s + 1..e] + [row[e]] + row[e + 1..]
  {
    assert row == row[..s] + row[s..];
    assert row[s..] == [row[s]] + row[s + 1..];
    assert row[s + 1..] == row[s + 1..e] + row[e..];
    assert row[e..] == [row[e]] + row[e + 1..];
  }

  /** The row between the pointers, cut at both: the front and back all files and all free. */
  lemma PartedDisk(row: seq<TakenSpace>, s: nat, e: nat)
    requires s < e < |row| && Parted(row, s, e)
    ensures Filled(Disk(row[..s]))
    ensures Free(Disk(row[e + 1..]))
    ensures Disk(row) == Disk(row[..s]) + Cells(row[s]) + Disk(row[s + 1..e]) + Cells(row[e]) + Disk(row[e + 1..])
  {
    AllFilesDisk(row[..s]);
    AllFreeDisk(row[e + 1..]);
    Slices5(row, s, e);
    Disk5(row[..s], row[s], row[s + 1..e], row[e], row[e + 1..]);
  }

  lemma Regather<T>(a: seq<T>, b: seq<T>, c: seq<T>, d: seq<T>, e: seq<T>, g: seq<T>)
    ensures (a + b + c + d + e) + g == a + b + c + d + (e + g)
    ensures a + b + c + d + e == a + b + c + (d + e)
    ensures (a + b + c + e) + g == a + b + c + (e + g)
  {
  }

  /** A run splits into two runs. */
  lemma RunSplit(x: Option<nat>, a: nat, b: nat)
    ensures Run(x, a + b) == Run(x, a) + Run(x, b)
  {
  }

  lemma Regroup6<T>(f: seq<T>, a: seq<T>, b: seq<T>, c: seq<T>, d: seq<T>, t: seq<T>)
    ensures f + (a + b) + c + d + t == f + a + (b + c) + d + t
    ensures f + a + (b + c) + t == f + a + b + c + t
    ensures f + a + b + (c + d) + t == f + a + (b + c) + d + t
  {
  }

  lemma FreeAppend(a: seq<Option<nat>>, b: seq<Option<nat>>)
    requires Free(a) && Free(b)
    ensures Free(a + b)
  {
  }

  /**
    A step that moves `k` blocks of file `x` from the back into `k` free blocks at the
    front, padded with free blocks to `n`, moves them as `k` block moves do.
   */
  lemma CompactCut(d: seq<Option<nat>>, d': seq<Option<nat>>, n: nat, f: seq<Option<nat>>, k: nat, m: seq<Option<nat>>, x: nat, t: seq<Option<nat>>)
    requires Filled(f) && Free(t) && |d| <= n
    requires d == f + Run(None, k) + m + Run(Some(x), k) + t
    requires d' == f + Run(Some(x), k) + m + t
    ensures |d'| <= n && Compact(d' + Run(None, n - |d'|)) == Compact(d + Run(None, n - |d|))
  {
    var tail := CutShape(d, d', n, f, k, m, x, t);
    CompactRuns(f, k, m, x, tail);
  }

  /** The two padded disks of `CompactCut`, cut in the pieces `CompactRuns` takes. */
  lemma CutShape(d: seq<Option<nat>>, d': seq<Option<nat>>, n: nat, f: seq<Option<nat>>, k: nat, m: seq<Option<nat>>, x: nat, t: seq<Option<nat>>)
    returns (tail: seq<Option<nat>>)
    requires Free(t) && |d| <= n
    requires d == f + Run(None, k) + m + Run(Some(x), k) + t
    requires d' == f + Run(Some(x), k) + m + t
    ensures Free(tail) && |d'| <= n
    ensures d + Run(None, n - |d|) == f + Run(None, k) + m + Run(Some(x), k) + tail
    ensures d' + Run(None, n - |d'|) == f + Run(Some(x), k) + m + Run(None, k) + tail
  {
    var p := n - |d|;
    var free, file := Run(None, k), Run(Some(x), k);
    tail := t + Run(None, p);
    var tail' := t + Run(None, p + k);
    FreeAppend(t, Run(None, p));
    Regather(f, free, m, file, t, Run(None, p));
    FreeAppend(t, Run(None, p + k));
    FreeEqual(free + tail, tail');
    Regather(f, file, m, free, tail, []);
    assert n - |d'| == p + k;
    Regather(f, file, m, [], t, Run(None, p + k));
  }

  /** Equal sizes: the move is `k` block moves of the file into the space. */
  lemma CompactWhole(row0: seq<TakenSpace>, row: seq<TakenSpace>, r: seq<TakenSpace>, s: nat, e: nat)
    requires s < e < |row| && row[s].Empty? && row[e].Number? && row[s].space.places == row[e].space.places
    requires Parted(row, s, e) && Compacting(row0, row)
    requires r == Remove(row[s := row[e]], e)
    ensures Compacting(row0, r)
  {
    var n := |Disk(row0)|;
    var f, m, t := WholeShape(row, r, s, e);
    var d, d' := Disk(row), Disk(r);
    CompactCut(d, d', n, f, row[e].space.places, m, row[e].space.id, t);
    assert Padded(r, n) == d' + Run(None, n - |d'|);
    assert Padded(row, n) == d + Run(None, n - |d|);
  }

  lemma WholeShape(row: seq<TakenSpace>, r: seq<TakenSpace>, s: nat, e: nat)
    returns (f: seq<Option<nat>>, m: seq<Option<nat>>, t: seq<Option<nat>>)
    requires s < e < |row| && row[s].Empty? && row[e].Number? && row[s].space.places == row[e].space.places
    requires Parted(row, s, e)
    requires r == Remove(row[s := row[e]], e)
    ensures Filled(f) && Free(t)
    ensures var k, x := row[e].space.places, row[e].space.id;
      Disk(row) == f + Run(None, k) + m + Run(Some(x), k) + t && Disk(r) == f + Run(Some(x), k) + m + t
  {
    assert r == row[..s] + [row[e]] + row[s + 1..e] + row[e + 1..];
    PartedDisk(row, s, e);
    Disk4(row[..s], row[e], row[s + 1..e], row[e + 1..]);
    f, m, t := Disk(row[..s]), Disk(row[s + 1..e]), Disk(row[e + 1..]);
  }

  /** A larger space: the move is the file's block moves into the front of the space. */
  lemma CompactFits(row0: seq<TakenSpace>, row: seq<TakenSpace>, r: seq<TakenSpace>, s: nat, e: nat, rest: TakenSpace)
    requires s < e < |row| && row[s].Empty? && row[e].Number? && row[s].space.places > row[e].space.places
    requires rest == Empty(Space(row[s].space.id, row[s].space.places - row[e].space.places))
    requires Parted(row, s, e) && Compacting(row0, row)
    requires r == Insert(Remove(row[s := rest], e), s, Number(Space(row[e].space.id, row[e].space.places)))
    ensures Compacting(row0, r)
  {
    var n := |Disk(row0)|;
    var f, m, t := FitsCut(row, r, s, e, rest);
    var d, d' := Disk(row), Disk(r);
    CompactCut(d, d', n, f, row[e].space.places, m, row[e].space.id, t);
    assert Padded(r, n) == d' + Run(None, n - |d'|);
    assert Padded(row, n) == d + Run(None, n - |d|);
  }

  lemma FitsCut(row: seq<TakenSpace>, r: seq<TakenSpace>, s: nat, e: nat, rest: TakenSpace)
    returns (f: seq<Option<nat>>, m: seq<Option<nat>>, t: seq<Option<nat>>)
    requires s < e < |row| && row[s].Empty? && row[e].Number? && row[s].space.places > row[e].space.places
    requires rest == Empty(Space(row[s].space.id, row[s].space.places - row[e].space.places))
    requires Parted(row, s, e)
    requires r == Insert(Remove(row[s := rest], e), s, Number(Space(row[e].space.id, row[e].space.places)))
    ensures Filled(f) && Free(t)
    ensures var k, x := row[e].space.places, row[e].space.id;
      Disk(row) == f + Run(None, k) + m + Run(Some(x), k) + t && Disk(r) == f + Run(Some(x), k) + m + t
  {
    var k, x := row[e].space.places, row[e].space.id;
    var gap := Disk(row[s + 1..e]);
    f, t := Disk(row[..s]), Disk(row[e + 1..]);
    m := Cells(rest) + gap;
    assert Filled(f) && Free(t) && Disk(row) == f + Cells(row[s]) + gap + Cells(row[e]) + t by {
      PartedDisk(row, s, e);
    }
    assert Disk(r) == f + Cells(row[e]) + m + t by {
      FitsShape(row, s, e, rest);
      Disk4(row[..s], row[e], [rest] + row[s + 1..e], row[e + 1..]);
      DiskAppend([rest], row[s + 1..e]);
      assert Disk([rest]) == Cells(rest);
    }
    assert Cells(row[s]) == Run(None, k) + Cells(rest) by {
      RunSplit(None, k, rest.space.places);
    }
    Regroup6(f, Run(None, k), Cells(rest), gap, Cells(row[e]), t);
  }

  /** A smaller space: the move is block moves of the file's tail into all of the space. */
  lemma CompactFills(row0: seq<TakenSpace>, row: seq<TakenSpace>, r: seq<TakenSpace>, s: nat, e: nat, rest: TakenSpace, piece: TakenSpace)
    requires s < e < |row| && row[s].Empty? && row[e].Number? && row[s].space.places < row[e].space.places
    requires rest == Number(Space(row[e].space.id, row[e].space.places - row[s].space.places))
    requires piece == Number(Space(row[e].space.id, row[s].space.places))
    requires Parted(row, s, e) && Compacting(row0, row)
    requires r == Insert(Remove(row[e := rest], s), s, piece)
    ensures Compacting(row0, r)
  {
    var n := |Disk(row0)|;
    var f, m, t := FillsCut(row, r, s, e, rest, piece);
    var d, d' := Disk(row), Disk(r);
    CompactCut(d, d', n, f, row[s].space.places, m, row[e].space.id, t);
    assert Padded(r, n) == d' + Run(None, n - |d'|);
    assert Padded(row, n) == d + Run(None, n - |d|);
  }

  lemma FillsCut(row: seq<TakenSpace>, r: seq<TakenSpace>, s: nat, e: nat, rest: TakenSpace, piece: TakenSpace)
    returns (f: seq<Option<nat>>, m: seq<Option<nat>>, t: seq<Option<nat>>)
    requires s < e < |row| && row[s].Empty? && row[e].Number? && row[s].space.places < row[e].space.places
    requires rest == Number(Space(row[e].space.id, row[e].space.places - row[s].space.places))
    requires piece == Number(Space(row[e].space.id, row[s].space.places))
    requires Parted(row, s, e)
    requires r == Insert(Remove(row[e := rest], s), s, piece)
    ensures Filled(f) && Free(t)
    ensures var k, x := row[s].space.places, row[e].space.id;
      Disk(row) == f + Run(None, k) + m + Run(Some(x), k) + t && Disk(r) == f + Run(Some(x), k) + m + t
  {
    var k, x := row[s].space.places, row[e].space.id;
    var mid := Disk(row[s + 1..e]);
    f, t := Disk(row[..s]), Disk(row[e + 1..]);
    m := mid + Cells(rest);
    assert Filled(f) && Free(t) && Disk(row) == f + Cells(row[s]) + mid + Cells(row[e]) + t by {
      PartedDisk(row, s, e);
    }
    assert Disk(r) == f + Cells(piece) + mid + Cells(rest) + t by {
      FillsShape(row, s, e, rest, piece);
      Disk5(row[..s], piece, row[s + 1..e], rest, row[e + 1..]);
    }
    assert Cells(row[e]) == Cells(rest) + Run(Some(x), k) by {
      RunSplit(Some(x), rest.space.places, k);
    }
    Regroup6(f, Run(None, k), mid, Cells(rest), Run(Some(x), k), t);
  }

  // ---- part two -----------------------------------------------------------------------

  /**
    `shift_row_p2`: from the back, each file is tried once against the free spans from the
    front, and moves whole into the first one that fits; its old span becomes free space
    of the same size. The row must start with a file, as every row `makerow` builds does:
    otherwise the back pointer is decremented below zero.
   */
  method ShiftRowP2(row0: seq<TakenSpace>) returns (row: seq<TakenSpace>)
    requires |row0| >= 1 && row0[0].Number?
    ensures Files(row) == Files(row0)
    ensures Places(row) == Places(row0)
    ensures |row| >= 1 && row[0] == row0[0]
  {
    row := row0;
    var pointerEnd := |row| - 1;
    while pointerEnd > 0
      invariant 0 <= pointerEnd < |row| && row[0] == row0[0]
      invariant Files(row) == Files(row0) && Places(row) == Places(row0)
      decreases pointerEnd
    {
      row, pointerEnd := TryMove(row, pointerEnd);
      pointerEnd := pointerEnd - 1;
    }
  }

  /**
    The inner loop of `shift_row_p2`: free entries at the back are skipped, and the file
    there moves into the first free span from the front that holds it, if any. When the
    back pointer stops at a free entry, every entry before it is a file.
   */
  method TryMove(row0: seq<TakenSpace>, end0: nat) returns (row: seq<TakenSpace>, pointerEnd: nat)
    requires 1 <= end0 < |row0| && row0[0].Number?
    ensures 1 <= pointerEnd <= end0 && pointerEnd < |row| && row[0] == row0[0]
    ensures Files(row) == Files(row0) && Places(row) == Places(row0)
    ensures forall j :: pointerEnd < j <= end0 ==> row0[j].Empty?
    ensures row0[pointerEnd].Empty? ==> row == row0 && forall j :: 0 <= j < pointerEnd ==> row0[j].Number?
    ensures row0[pointerEnd].Number? ==>
      var g := FirstFit(row0, pointerEnd, 0);
      if g < pointerEnd then row == Moved(row0, g, pointerEnd) else row == row0
  {
    row, pointerEnd := row0, end0;
    var pointerStart := 0;
    var moved := false;
    while pointerEnd > pointerStart && !moved
      invariant 0 <= pointerStart <= pointerEnd < |row0| && 1 <= pointerEnd <= end0
      invariant forall j :: pointerEnd < j <= end0 ==> row0[j].Empty?
      invariant forall j :: 0 <= j < pointerStart ==> Passed(row0, j, pointerEnd)
      invariant !moved ==> row == row0
      invariant moved ==> Fits(row0, pointerStart, pointerEnd) && row == Moved(row0, pointerStart, pointerEnd)
      decreases pointerEnd - pointerStart + (if moved then 0 else 1)
    {
      var startItem := row[pointerStart];
      var endItem := row[pointerEnd];
      if startItem.Empty? && endItem.Number? {
        if startItem.space.places >= endItem.space.places {
          row := MoveFile(row, pointerStart, pointerEnd);
          moved := true;
        } else {
          pointerStart := pointerStart + 1;
        }
      } else if startItem.Number? {
        pointerStart := pointerStart + 1;
      } else {
        AllPassedFiles(row0, pointerStart, pointerEnd);
        pointerEnd := pointerEnd - 1;
      }
    }
    if row0[pointerEnd].Number? {
      FirstFitAt(row0, pointerEnd, 0, pointerStart);
    } else {
      AllPassedFiles(row0, pointerStart, pointerEnd);
    }
    if moved {
      MovedKeeps(row0, pointerStart, pointerEnd);
    }
  }

  /** The free entry at `s` before the file at `e` holds the file. */
  predicate Fits(row: seq<TakenSpace>, s: nat, e: nat)
  {
    s < e < |row| && row[s].Empty? && row[e].Number? && row[s].space.places >= row[e].space.places
  }

  /** The entry at `j` is passed over by the front pointer while the back one is at `e`. */
  predicate Passed(row: seq<TakenSpace>, j: nat, e: nat)
    requires j < |row| && e < |row|
  {
    row[j].Number? || (row[e].Number? && row[j].space.places < row[e].space.places)
  }

  /** With a free entry at the back, only files are passed over. */
  lemma AllPassedFiles(row: seq<TakenSpace>, s: nat, e: nat)
    requires s <= e < |row| && row[e].Empty?
    requires forall j :: 0 <= j < s ==> Passed(row, j, e)
    ensures forall j :: 0 <= j < s ==> row[j].Number?
    ensures forall e', j :: 0 <= e' < |row| && 0 <= j < s ==> Passed(row, j, e')
  {
    forall j | 0 <= j < s
      ensures row[j].Number?
    {
      assert Passed(row, j, e);
    }
  }

  /**
    The first free entry from `i` on, before the file at `e`, that holds the file; `e`
    when there is none.
   */
  function FirstFit(row: seq<TakenSpace>, e: nat, i: nat): (g: nat)
    requires e < |row| && row[e].Number? && i <= e
    ensures i <= g <= e && (g < e ==> Fits(row, g, e))
    ensures forall j :: i <= j < g ==> !Fits(row, j, e)
    decreases e - i
  {
    if i == e then e else if Fits(row, i, e) then i else FirstFit(row, e, i + 1)
  }

  /** Where the front pointer stops, the first fit from the front is. */
  lemma {:induction false} FirstFitAt(row: seq<TakenSpace>, e: nat, i: nat, g: nat)
    requires e < |row| && row[e].Number? && i <= g <= e
    requires forall j :: i <= j < g ==> Passed(row, j, e)
    requires g < e ==> Fits(row, g, e)
    ensures FirstFit(row, e, i) == g
    decreases g - i
  {
    if i < g {
      assert Passed(row, i, e);
      FirstFitAt(row, e, i + 1, g);
    }
  }

  /**
    The row after the file at `e` moved into the free span at `s` that holds it: into all
    of it when the sizes match, before what is left of it otherwise; its old span is freed.
   */
  function Moved(row: seq<TakenSpace>, s: nat, e: nat): seq<TakenSpace>
    requires Fits(row, s, e)
  {
    var freed := Empty(Space(0, row[e].space.places));
    if row[s].space.places == row[e].space.places then row[s := row[e]][e := freed]
    else
      var rest := Empty(Space(row[s].space.id, row[s].space.places - row[e].space.places));
      Insert(row[s := rest][e := freed], s, Number(row[e].space))
  }

  /** A move keeps every file whole and the places, and does not touch the first entry. */
  lemma MovedKeeps(row: seq<TakenSpace>, s: nat, e: nat)
    requires Fits(row, s, e) && 0 < s
    ensures var r := Moved(row, s, e);
      |r| >= |row| && r[0] == row[0] && Files(r) == Files(row) && Places(r) == Places(row)
  {
    if row[s].space.places == row[e].space.places {
      SwapWhole(row, s, e);
    } else {
      SwapFits(row, s, e, Empty(Space(row[s].space.id, row[s].space.places - row[e].space.places)));
    }
  }

  /** `shift_row_p2`'s move of a file into a free span that holds it. */
  method MoveFile(row0: seq<TakenSpace>, s: nat, e: nat) returns (row: seq<TakenSpace>)
    requires 0 < s < e < |row0| && row0[s].Empty? && row0[e].Number?
    requires row0[s].space.places >= row0[e].space.places
    ensures row == Moved(row0, s, e)
    ensures |row| >= |row0| && row[0] == row0[0]
    ensures Files(row) == Files(row0) && Places(row) == Places(row0)
  {
    var spaceEmpty := row0[s].space;
    var spaceNumber := row0[e].space;
    if spaceEmpty.places == spaceNumber.places {
      row := row0[s := row0[e]][e := Empty(Space(0, spaceNumber.places))];
      SwapWhole(row0, s, e);
    } else {
      var rest := Empty(Space(spaceEmpty.id, spaceEmpty.places - spaceNumber.places));
      row := row0[s := rest][e := Empty(Space(0, spaceNumber.places))];
      row := Insert(row, s, Number(Space(spaceNumber.id, spaceNumber.places)));
      SwapFits(row0, s, e, rest);
    }
  }

  /** A file moves into a span of its size; the span it leaves is freed. */
  lemma SwapWhole(row: seq<TakenSpace>, s: nat, e: nat)
    requires s < e < |row| && row[s].Empty? && row[e].Number? && row[s].space.places == row[e].space.places
    ensures var r := row[s := row[e]][e := Empty(Space(0, row[e].space.places))];
      Files(r) == Files(row) && Places(r) == Places(row)
  {
    var freed := Empty(Space(0, row[e].space.places));
    var r := row[s := row[e]][e := freed];
    var a, mid, tail := row[..s], row[s + 1..e], row[e + 1..];
    Slices5(row, s, e);
    assert r == a + [row[e]] + mid + [freed] + tail;
    Split5(a, row[s], mid, row[e], tail);
    Split5(a, row[e], mid, freed, tail);
  }

  /** A file moves into a larger span, before what is left of it; the span it leaves is freed. */
  lemma SwapFits(row: seq<TakenSpace>, s: nat, e: nat, rest: TakenSpace)
    requires s < e < |row| && row[s].Empty? && row[e].Number? && row[s].space.places > row[e].space.places
    requires rest == Empty(Space(row[s].space.id, row[s].space.places - row[e].space.places))
    ensures var n := row[e];
      var r := Insert(row[s := rest][e := Empty(Space(0, n.space.places))], s, Number(Space(n.space.id, n.space.places)));
      Files(r) == Files(row) && Places(r) == Places(row)
  {
    var n := row[e];
    var freed := Empty(Space(0, n.space.places));
    var a, mid, tail := row[..s], row[s + 1..e], row[e + 1..];
    var r := Insert(row[s := rest][e := freed], s, Number(Space(n.space.id, n.space.places)));
    assert r == a + [n] + ([rest] + mid) + [freed] + tail by {
      SwapFitsShape(row, s, e, rest);
    }
    assert Files(row) == Files(a) + FileOf(row[s]) + Files(mid) + FileOf(n) + Files(tail) &&
      Places(row) == Places(a) + row[s].space.places + Places(mid) + n.space.places + Places(tail) by {
      Slices5(row, s, e);
      Split5(a, row[s], mid, n, tail);
    }
    assert Files(r) == Files(a) + FileOf(n) + Files([rest] + mid) + FileOf(freed) + Files(tail) &&
      Places(r) == Places(a) + n.space.places + Places([rest] + mid) + freed.space.places + Places(tail) by {
      Split5(a, n, [rest] + mid, freed, tail);
    }
    assert Files([rest] + mid) == Files(mid) && Places([rest] + mid) == rest.space.places + Places(mid) by {
      FilesAppend([rest], mid);
      PlacesAppend([rest], mid);
      assert Files([rest]) == multiset{} && Places([rest]) == rest.space.places;
    }
  }

  lemma SwapFitsShape(row: seq<TakenSpace>, s: nat, e: nat, rest: TakenSpace)
    requires s < e < |row| && row[e].Number?
    ensures var n := row[e];
      Insert(row[s := rest][e := Empty(Space(0, n.space.places))], s, Number(Space(n.space.id, n.space.places))) ==
      row[..s] + [n] + ([rest] + row[s + 1..e]) + [Empty(Space(0, n.space.places))] + row[e + 1..]
  {
    var n := row[e];
    var freed := Empty(Space(0, n.space.places));
    var a, mid, tail := row[..s], row[s + 1..e], row[e + 1..];
    var v := row[s := rest][e := freed];
    assert v == a + [rest] + mid + [freed] + tail;
    assert v[..s] == a && v[s..] == [rest] + mid + [freed] + tail;
  }

  // ---- checksum -----------------------------------------------------------------------

  /** The sum of position times id over the file blocks of a disk. */
  function Score(d: seq<Option<nat>>): nat
  {
    if d == [] then 0
    else Score(d[..|d| - 1]) + (if d[|d| - 1].Some? then (|d| - 1) * d[|d| - 1].value else 0)
  }

  /** `checksum`: free entries advance the position, file entries add position times id per block. */
  method Checksum(row: seq<TakenSpace>) returns (acc: nat)
    ensures acc == Score(Disk(row))
  {
    acc := 0;
    var counterInSpace := 0;
    var k := 0;
    while k < |row|
      invariant 0 <= k <= |row|
      invariant counterInSpace == |Disk(row[..k])| && acc == Score(Disk(row[..k]))
    {
      var item := row[k];
      assert row[..k + 1][..k] == row[..k];
      ghost var d := Disk(row[..k]);
      match item {
        case Empty(nnn) => {
          FreeScore(d, nnn.places);
          counterInSpace := counterInSpace + nnn.places;
        }
        case Number(nnn) => {
          var j := 0;
          assert d + Run(Some(nnn.id), 0) == d;
          while j < nnn.places
            invariant 0 <= j <= nnn.places
            invariant counterInSpace == |d| + j
            invariant acc == Score(d + Run(Some(nnn.id), j))
          {
            FileScoreStep(d, nnn.id, j);
            acc := acc + counterInSpace * nnn.id;
            counterInSpace := counterInSpace + 1;
            j := j + 1;
          }

        }
      }
      k := k + 1;
    }
    assert row[..k] == row;
  }

  /** One more block of file `id` scores its position times `id`. */
  lemma {:induction false} FileScoreStep(d: seq<Option<nat>>, id: nat, j: nat)
    ensures Score(d + Run(Some(id), j + 1)) == Score(d + Run(Some(id), j)) + (|d| + j) * id
  {
    var run := Run(Some(id), j);
    var e := (d + run) + [Some(id)];
    RunStep(Some(id), j);
    assert d + Run(Some(id), j + 1) == e;
    assert e[..|e| - 1] == d + run;
    assert |e| - 1 == |d| + j && e[|e| - 1] == Some(id);
    assert Score(e) == Score(d + run) + (|d| + j) * id;
  }

  /** Free blocks score nothing. */
  lemma {:induction false} FreeScore(d: seq<Option<nat>>, n: nat)
    ensures Score(d + Run(None, n)) == Score(d)
  {
    if n > 0 {
      var free := Run(None, n);
      var shorter := Run(None, n - 1);
      RunStep(None, n - 1);
      assert (d + free)[..|d| + n - 1] == d + shorter;
      FreeScore(d, n - 1);
    } else {
      assert d + Run(None, n) == d;
    }
  }

  // ---- the parts ----------------------------------------------------------------------

  /**
    `part_one`: compacts block by block; the row returned is the compacted one, and the
    checksum is that of the block-by-block compaction of the laid-out disk.
   */
  method PartOne(input: string) returns (row: seq<TakenSpace>, sum: nat)
    requires RowReadable(input) && |Kept(input)| >= 1
    ensures Owned(row) == Owned(Layout(Kept(input)))
    ensures Compacted(row)
    ensures sum == Score(Disk(row))
    ensures sum == Score(Compact(Disk(Layout(Kept(input)))))
  {
    row := MakeRow(input);
    ghost var laid := row;
    row := ShiftRowP1(row);
    sum := Checksum(row);
    FreeScore(Disk(row), |Disk(laid)| - |Disk(row)|);
  }

  /** `part_two`: compacts whole files; the row returned is the compacted one. */
  method PartTwo(input: string) returns (row: seq<TakenSpace>, sum: nat)
    requires RowReadable(input) && |Kept(input)| >= 1
    ensures Files(row) == Files(Layout(Kept(input)))
    ensures Places(row) == Places(Layout(Kept(input)))
    ensures sum == Score(Disk(row))
  {
    row := MakeRow(input);
    row := ShiftRowP2(row);
    sum := Checksum(row);
  }

  // ---- properties ---------------------------------------------------------------------

  /** Every entry is a file. */
  predicate AllFiles(row: seq<TakenSpace>)
  {
    forall i :: 0 <= i < |row| ==> row[i].Number?
  }

  lemma {:induction false} AllFilesNoFree(row: seq<TakenSpace>)
    requires AllFiles(row)
    ensures forall i :: 0 <= i < |Disk(row)| ==> Disk(row)[i].Some?
  {
    if row != [] {
      AllFilesNoFree(row[..|row| - 1]);
    }
  }

  /** A compacted row's disk has no file block after a free block. */
  lemma {:induction false} CompactedDisk(row: seq<TakenSpace>)
    requires Compacted(row)
    ensures forall i, j :: 0 <= i < j < |Disk(row)| && Disk(row)[i].None? ==> Disk(row)[j].None?
  {
    if row != [] {
      var front, last := row[..|row| - 1], row[|row| - 1];
      CompactedDisk(front);
      var d := Disk(front);
      assert Disk(row) == d + Cells(last);
      if last.Number? {
        assert AllFiles(front);
        AllFilesNoFree(front);
      }
    }
  }

  /** The files of a laid-out disk map carry distinct ids, each below the next id to hand out. */
  lemma {:induction false} LayoutFilesUnique(ds: string)
    requires AllDigits(ds)
    ensures forall a :: a in Files(Layout(ds)) ==> a.id < (|ds| + 1) / 2
    ensures forall a, b :: a in Files(Layout(ds)) && b in Files(Layout(ds)) && a.id == b.id ==> a == b
    ensures forall a :: Files(Layout(ds))[a] <= 1
  {
    if ds != [] {
      var front := ds[..|ds| - 1];
      assert AllDigits(front);
      assert ds == front + [ds[|ds| - 1]];
      LayoutFilesUnique(front);
      LayoutAppend(front, ds[|ds| - 1]);
      var row := Layout(ds);
      assert row[..|row| - 1] == Layout(front);
    }
  }

  /**
    After part two every file of the disk map is still a single entry of its original
    size: the row holds exactly one entry of each file.
   */
  lemma PartTwoKeepsFilesWhole(ds: string, row: seq<TakenSpace>)
    requires AllDigits(ds) && Files(row) == Files(Layout(ds))
    ensures forall n :: 0 <= n < |ds| && n % 2 == 0 ==> Files(row)[Space(n / 2, DigitValue(ds[n]))] == 1
    ensures forall a, b :: a in Files(row) && b in Files(row) && a.id == b.id ==> a == b
  {
    LayoutFilesUnique(ds);
    var l := Layout(ds);
    forall n | 0 <= n < |ds| && n % 2 == 0 ensures Files(l)[Space(n / 2, DigitValue(ds[n]))] >= 1 {
      FileInFiles(l, n);
    }
  }

  lemma {:induction false} FileInFiles(row: seq<TakenSpace>, n: nat)
    requires n < |row| && row[n].Number?
    ensures row[n].space in Files(row)
  {
    var front := row[..|row| - 1];
    if n < |row| - 1 {
      FileInFiles(front, n);
    }
  }

  /** Free space at the end of the row adds nothing to the checksum. */
  lemma TrailingFreeSpace(row: seq<TakenSpace>, sp: Space)
    ensures Score(Disk(row + [Empty(sp)])) == Score(Disk(row))
  {
    assert (row + [Empty(sp)])[..|row|] == row;
    FreeScore(Disk(row), sp.places);
  }
}
