/** The flat register space that the published units of all intervals form, and the bytes a read collects. */
module FlatView {
  import opened RingSpec
  import opened IntervalTable

  /** The byte position of cell `k`. */
  function Pos(k: nat, cell: nat): nat {
    k * cell
  }

  lemma PosAdd(a: nat, b: nat, cell: nat)
    ensures Pos(a + b, cell) == Pos(a, cell) + Pos(b, cell)
    ensures Pos(0, cell) == 0 && Pos(1, cell) == cell
  {
  }

  /** The window a queue hands out, or nothing when it refuses a window beyond its unit. */
  function Window(unit: seq<Byte>, offset: nat, size: nat): (w: seq<Byte>)
    ensures |w| == if offset + size <= |unit| then size else 0
  {
    if offset + size <= |unit| then unit[offset..offset + size] else []
  }

  function Bytes(contents: seq<seq<Byte>>, sg: Segment, cell: nat): seq<Byte>
    requires sg.idx < |contents|
  {
    Window(contents[sg.idx], Pos(sg.offset, cell), Pos(sg.size, cell))
  }

  ghost predicate InRange(segs: seq<Segment>, n: nat) {
    forall k :: 0 <= k < |segs| ==> segs[k].idx < n
  }

  /** What the segments deliver, one after the other. */
  ghost function Collect(contents: seq<seq<Byte>>, segs: seq<Segment>, cell: nat): seq<Byte>
    requires InRange(segs, |contents|)
  {
    if segs == [] then []
    else Collect(contents, segs[..|segs| - 1], cell) + Bytes(contents, segs[|segs| - 1], cell)
  }

  lemma {:induction false} CollectCons(contents: seq<seq<Byte>>, sg: Segment, rest: seq<Segment>, cell: nat)
    requires sg.idx < |contents| && InRange(rest, |contents|)
    ensures InRange([sg] + rest, |contents|)
    ensures Collect(contents, [sg] + rest, cell) == Bytes(contents, sg, cell) + Collect(contents, rest, cell)
  {
    var all := [sg] + rest;
    hide Bytes;
    if rest == [] {
      assert all[..|all| - 1] == [];
    } else {
      var rest' := rest[..|rest| - 1];
      assert all[..|all| - 1] == [sg] + rest';
      CollectCons(contents, sg, rest', cell);
    }
  }

  /** One unit of cells for each interval. */
  ghost predicate Sized(t: Table, contents: seq<seq<Byte>>, cell: nat) {
    |contents| == |t| && forall i :: 0 <= i < |t| ==> |contents[i]| == Pos(t[i].length, cell)
  }

  /** The cell at a covered address. */
  ghost function CellAt(t: Table, contents: seq<seq<Byte>>, cell: nat, a: int): (c: seq<Byte>)
    requires ValidTable(t) && Sized(t, contents, cell) && Covered(t, a)
    ensures |c| == cell
  {
    var i := Scan(t, a);
    var k := a - t[i].start;
    PosAdd(k, 1, cell);
    PosAdd(k + 1, t[i].length - (k + 1), cell);
    contents[i][Pos(k, cell)..Pos(k, cell) + cell]
  }

  /** The cells at `length` addresses from `a` on. */
  ghost function Flat(t: Table, contents: seq<seq<Byte>>, cell: nat, a: int, length: nat): (f: seq<Byte>)
    requires ValidTable(t) && Sized(t, contents, cell) && AllCovered(t, a, a + length - 1)
    ensures |f| == Pos(length, cell)
    decreases length
  {
    if length == 0 then PosAdd(0, 0, cell); []
    else PosAdd(length - 1, 1, cell); Flat(t, contents, cell, a, length - 1) + CellAt(t, contents, cell, a + length - 1)
  }

  lemma {:induction false} FlatSplit(t: Table, contents: seq<seq<Byte>>, cell: nat, a: int, m: nat, n: nat)
    requires ValidTable(t) && Sized(t, contents, cell) && AllCovered(t, a, a + m + n - 1)
    ensures Flat(t, contents, cell, a, m + n) == Flat(t, contents, cell, a, m) + Flat(t, contents, cell, a + m, n)
  {
    hide CellAt, Scan, ValidTable, Covered, Pos;
    if n > 0 {
      FlatSplit(t, contents, cell, a, m, n - 1);
      assert m + n - 1 == m + (n - 1);
    }
  }

  lemma CellOfUnit(t: Table, contents: seq<seq<Byte>>, cell: nat, i: nat, k: nat)
    requires ValidTable(t) && Sized(t, contents, cell) && i < |t| && k < t[i].length
    ensures Covered(t, t[i].start + k) && Pos(k, cell) + cell <= |contents[i]|
    ensures CellAt(t, contents, cell, t[i].start + k) == contents[i][Pos(k, cell)..Pos(k, cell) + cell]
  {
    assert Contains(t[i], t[i].start + k);
    PosAdd(k, 1, cell);
    PosAdd(k + 1, t[i].length - (k + 1), cell);
    hide Pos;
    UniqueInterval(t, t[i].start + k, i);
  }

  lemma IntervalCovered(t: Table, i: nat, offset: nat, size: nat)
    requires ValidTable(t) && i < |t| && offset + size <= t[i].length
    ensures AllCovered(t, t[i].start + offset, t[i].start + offset + size - 1)
  {
    forall x | t[i].start + offset <= x <= t[i].start + offset + size - 1 ensures Covered(t, x) {
      assert Contains(t[i], x);
    }
  }

  /** Inside one interval the flat view is a window of that interval's unit. */
  lemma {:induction false} UnitIsFlat(t: Table, contents: seq<seq<Byte>>, cell: nat, i: nat, offset: nat, size: nat)
    requires ValidTable(t) && Sized(t, contents, cell) && i < |t| && offset + size <= t[i].length
    ensures AllCovered(t, t[i].start + offset, t[i].start + offset + size - 1)
    ensures Pos(offset, cell) + Pos(size, cell) <= |contents[i]|
    ensures Flat(t, contents, cell, t[i].start + offset, size)
         == contents[i][Pos(offset, cell)..Pos(offset, cell) + Pos(size, cell)]
  {
    hide Pos, CellAt, Scan, ValidTable, AllCovered, Covered;
    IntervalCovered(t, i, offset, size);
    PosAdd(offset, size, cell);
    PosAdd(offset + size, t[i].length - (offset + size), cell);
    PosAdd(0, 0, cell);
    if size > 0 {
      UnitIsFlat(t, contents, cell, i, offset, size - 1);
      UnitIsFlatStep(t, contents, cell, i, offset, size);
    }
  }

  lemma UnitIsFlatStep(t: Table, contents: seq<seq<Byte>>, cell: nat, i: nat, offset: nat, size: nat)
    requires ValidTable(t) && Sized(t, contents, cell) && i < |t| && 1 <= size && offset + size <= t[i].length
    requires AllCovered(t, t[i].start + offset, t[i].start + offset + size - 1)
    requires AllCovered(t, t[i].start + offset, t[i].start + offset + (size - 1) - 1)
    requires Pos(offset, cell) + Pos(size, cell) <= |contents[i]|
    requires Pos(offset, cell) + Pos(size - 1, cell) <= |contents[i]|
    requires Flat(t, contents, cell, t[i].start + offset, size - 1)
          == contents[i][Pos(offset, cell)..Pos(offset, cell) + Pos(size - 1, cell)]
    ensures Flat(t, contents, cell, t[i].start + offset, size)
         == contents[i][Pos(offset, cell)..Pos(offset, cell) + Pos(size, cell)]
  {
    hide *;
    var lo, mid := Pos(offset, cell), Pos(offset + (size - 1), cell);
    SizedLength(t, contents, cell);
    FlatStep(t, contents, cell, t[i].start + offset, size);
    CellOfUnit(t, contents, cell, i, offset + (size - 1));
    PosAdd(offset, size - 1, cell);
    PosAdd(size - 1, 1, cell);
    JoinWindows(contents[i], lo, mid, mid + cell);
    assert t[i].start + offset + size - 1 == t[i].start + (offset + (size - 1));
  }

  lemma FlatStep(t: Table, contents: seq<seq<Byte>>, cell: nat, a: int, size: nat)
    requires ValidTable(t) && Sized(t, contents, cell) && AllCovered(t, a, a + size - 1) && size >= 1
    ensures AllCovered(t, a, a + (size - 1) - 1) && Covered(t, a + size - 1)
    ensures Flat(t, contents, cell, a, size)
         == Flat(t, contents, cell, a, size - 1) + CellAt(t, contents, cell, a + size - 1)
  {
    hide CellAt, Sized, ValidTable, Pos;
    assert Covered(t, a + size - 1);
  }

  lemma JoinWindows(s: seq<Byte>, i: nat, j: nat, k: nat)
    requires i <= j <= k <= |s|
    ensures s[i..j] + s[j..k] == s[i..k]
  {
  }

  lemma TilesHead(t: Table, segs: seq<Segment>, a: int, length: int)
    requires Tiles(t, segs, a, length) && segs != []
    ensures segs[0].idx < |t| && segs[0].size <= length
    ensures t[segs[0].idx].start + segs[0].offset == a
    ensures segs[0].offset + segs[0].size <= t[segs[0].idx].length
    ensures Tiles(t, segs[1..], a + segs[0].size, length - segs[0].size)
    ensures segs == [segs[0]] + segs[1..]
  {
  }

  /** Segments that tile a window deliver exactly the flat view of it, each from its own unit. */
  lemma {:induction false} TilesDeliverFlat(
    t: Table, contents: seq<seq<Byte>>, cell: nat, segs: seq<Segment>, a: int, length: nat)
    requires ValidTable(t) && Sized(t, contents, cell) && Tiles(t, segs, a, length)
    ensures InRange(segs, |contents|) && AllCovered(t, a, a + length - 1)
    ensures Collect(contents, segs, cell) == Flat(t, contents, cell, a, length)
    decreases |segs|
  {
    hide CellAt, Scan, ValidTable, Covered, Sized, Bytes;
    if segs != [] {
      TilesHead(t, segs, a, length);
      TilesDeliverFlat(t, contents, cell, segs[1..], a + segs[0].size, length - segs[0].size);
      HeadDeliversFlat(t, contents, cell, segs[0], segs[1..], a, length);
    } else {
      PosAdd(0, 0, cell);
    }
  }

  lemma HeadDeliversFlat(t: Table, contents: seq<seq<Byte>>, cell: nat,
                         sg: Segment, rest: seq<Segment>, a: int, length: nat)
    requires ValidTable(t) && Sized(t, contents, cell)
    requires sg.idx < |t| && sg.size <= length
    requires t[sg.idx].start + sg.offset == a && sg.offset + sg.size <= t[sg.idx].length
    requires InRange(rest, |contents|) && AllCovered(t, a + sg.size, a + sg.size + (length - sg.size) - 1)
    requires Collect(contents, rest, cell) == Flat(t, contents, cell, a + sg.size, length - sg.size)
    ensures InRange([sg] + rest, |contents|) && AllCovered(t, a, a + length - 1)
    ensures Collect(contents, [sg] + rest, cell) == Flat(t, contents, cell, a, length)
  {
    hide *;
    SegmentIsFlat(t, contents, cell, sg);
    CollectCons(contents, sg, rest, cell);
    JoinCovered(t, a, sg.size, length - sg.size);
    assert sg.size + (length - sg.size) == length;
    FlatSplit(t, contents, cell, a, sg.size, length - sg.size);
  }

  lemma SizedLength(t: Table, contents: seq<seq<Byte>>, cell: nat)
    requires Sized(t, contents, cell)
    ensures |contents| == |t|
  {
  }

  lemma SegmentIsFlat(t: Table, contents: seq<seq<Byte>>, cell: nat, sg: Segment)
    requires ValidTable(t) && Sized(t, contents, cell)
    requires sg.idx < |t| && sg.offset + sg.size <= t[sg.idx].length
    ensures sg.idx < |contents|
    ensures AllCovered(t, t[sg.idx].start + sg.offset, t[sg.idx].start + sg.offset + sg.size - 1)
    ensures Flat(t, contents, cell, t[sg.idx].start + sg.offset, sg.size) == Bytes(contents, sg, cell)
  {
    hide Flat, ValidTable, AllCovered, Sized, Pos;
    UnitIsFlat(t, contents, cell, sg.idx, sg.offset, sg.size);
    SizedLength(t, contents, cell);
  }

  lemma JoinCovered(t: Table, a: int, m: nat, n: nat)
    requires AllCovered(t, a, a + m - 1) && AllCovered(t, a + m, a + m + n - 1)
    ensures AllCovered(t, a, a + m + n - 1)
  {
  }

  /** The segments with every one of them read from interval `s`. */
  ghost function Retarget(segs: seq<Segment>, s: nat): (r: seq<Segment>)
    ensures |r| == |segs|
    ensures forall k :: 0 <= k < |segs| ==> r[k] == segs[k].(idx := s)
  {
    seq(|segs|, k requires 0 <= k < |segs| => segs[k].(idx := s))
  }
}
