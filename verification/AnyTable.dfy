/** Reads of a list whose table did not pass the check. The initialisation goes on after a failed check, so such a
    list is read like any other. */
module AnyTable {
  import opened RingSpec
  import opened IntervalTable
  import opened FlatView
  import opened ListReads
  import opened SyncList
  import RQ = RingQueue

  // ---------------------------------------------------------------- the part of a table that a window meets

  /** The intervals s..e on their own. */
  function Part(t: Table, s: nat, e: nat): (p: Table)
    requires s <= e < |t|
    ensures |p| == e + 1 - s && forall i :: 0 <= i < |p| ==> p[i] == t[s + i]
  {
    t[s..e + 1]
  }

  /** Whatever the rest of the table is, intervals with filled-in ends that follow one another are a valid table. */
  lemma PartIsValid(t: Table, s: nat, e: nat)
    requires FilledIn(t, s, e) && Contiguous(t, s, e)
    ensures ValidTable(Part(t, s, e))
  {
    var p := Part(t, s, e);
    forall i | 0 < i < |p| ensures p[i - 1].end < p[i].start {
      RunSorted(t, s, e, s + i - 1);
    }
  }

  ghost predicate Between(segs: seq<Segment>, s: nat, e: nat) {
    forall k :: 0 <= k < |segs| ==> s <= segs[k].idx <= e
  }

  /** The segments with the intervals numbered from `s`. */
  ghost function Renumbered(segs: seq<Segment>, s: nat): (r: seq<Segment>)
    requires forall k :: 0 <= k < |segs| ==> s <= segs[k].idx
    ensures |r| == |segs| && forall k :: 0 <= k < |segs| ==> r[k] == segs[k].(idx := segs[k].idx - s)
  {
    seq(|segs|, k requires 0 <= k < |segs| => segs[k].(idx := segs[k].idx - s))
  }

  lemma {:induction false} PlanFromBetween(t: Table, a: U16, left: U16, idx: nat, s: nat, e: nat)
    requires s <= idx <= e + 1 && s < |t| && e < |t|
    ensures Between(PlanFrom(t, a, left, idx, s, e), s, e)
    decreases e + 1 - idx
  {
    if idx <= e {
      PlanFromBetween(t, a, Left(left, SegmentAt(t, a, left, idx, s, e).size), idx + 1, s, e);
    }
  }

  lemma {:induction false} RenumberedTiles(t: Table, segs: seq<Segment>, s: nat, e: nat, a: int, length: int)
    requires s <= e < |t| && Between(segs, s, e) && Tiles(t, segs, a, length)
    ensures Tiles(Part(t, s, e), Renumbered(segs, s), a, length)
    decreases |segs|
  {
    if segs != [] {
      hide Tiles, Renumbered;
      TilesHead(t, segs, a, length);
      FirstIsNotEmpty(t, segs, a, length);
      var sg, rest := segs[0], segs[1..];
      RenumberedTiles(t, rest, s, e, a + sg.size, length - sg.size);
      assert Renumbered(segs, s) == [sg.(idx := sg.idx - s)] + Renumbered(rest, s);
      TilesCons(Part(t, s, e), sg.(idx := sg.idx - s), Renumbered(rest, s), a, length);
    } else {
      assert Renumbered(segs, s) == [];
    }
  }

  lemma FirstIsNotEmpty(t: Table, segs: seq<Segment>, a: int, length: int)
    requires Tiles(t, segs, a, length) && segs != []
    ensures 1 <= segs[0].size
  {
  }

  lemma {:induction false} RenumberedCollect(contents: seq<seq<Byte>>, segs: seq<Segment>, s: nat, e: nat, cell: nat)
    requires s <= e < |contents| && Between(segs, s, e)
    ensures InRange(segs, |contents|) && InRange(Renumbered(segs, s), e + 1 - s)
    ensures Collect(contents, segs, cell) == Collect(contents[s..e + 1], Renumbered(segs, s), cell)
  {
    hide Bytes, Collect, Renumbered;
    var part := contents[s..e + 1];
    if segs == [] {
      NothingCollected(contents, cell);
      NothingCollected(part, cell);
      assert Renumbered(segs, s) == [];
    } else {
      var front, last := segs[..|segs| - 1], segs[|segs| - 1];
      RenumberedCollect(contents, front, s, e, cell);
      assert Renumbered(segs, s)[..|segs| - 1] == Renumbered(front, s);
      SameBytes(contents, s, e, last, cell);
      CollectLast(contents, segs, cell);
      CollectLast(part, Renumbered(segs, s), cell);
    }
  }

  lemma NothingCollected(contents: seq<seq<Byte>>, cell: nat)
    ensures Collect(contents, [], cell) == []
  {
  }

  lemma CollectLast(contents: seq<seq<Byte>>, segs: seq<Segment>, cell: nat)
    requires InRange(segs, |contents|) && segs != []
    ensures Collect(contents, segs, cell)
         == Collect(contents, segs[..|segs| - 1], cell) + Bytes(contents, segs[|segs| - 1], cell)
  {
  }

  lemma SameBytes(contents: seq<seq<Byte>>, s: nat, e: nat, sg: Segment, cell: nat)
    requires s <= sg.idx <= e < |contents|
    ensures Bytes(contents, sg, cell) == Bytes(contents[s..e + 1], sg.(idx := sg.idx - s), cell)
  {
  }

  // ---------------------------------------------------------------- reads

  /** In any table, when the intervals between the two ends found have their ends filled in, an accepted window
      inside the address space lies in those intervals, and a successful read returns the flat view of them. */
  lemma ReadOfAnyTable(v: ListView, a: U16, length: U16, ownQueue: bool, polls: nat -> nat -> RQ.Poll, done: nat,
                       before: seq<Byte>, after: seq<Byte>)
    requires v.Legal() && length >= 1 && a + length <= 0x1_0000 && Accepts(v.t, a, length) && Usable(v.t, a, length)
    requires ownQueue || Search(v.t, a) == Search(v.t, LastAddress(a, length))
    requires v.ReadThrough(v.Segments(a, length, ownQueue), polls, done, before, after)
    requires done == |v.Segments(a, length, ownQueue)|
    ensures 0 <= Search(v.t, a) <= Search(v.t, LastAddress(a, length)) < |v.t| == |v.Contents()|
    ensures var s, e := Search(v.t, a), Search(v.t, LastAddress(a, length));
            var part, contents := Part(v.t, s, e), v.Contents()[s..e + 1];
            && ValidTable(part) && Sized(part, contents, v.cell) && AllCovered(part, a, a + length - 1)
            && Pos(length, v.cell) <= |before|
            && after == Flat(part, contents, v.cell, a, length) + before[Pos(length, v.cell)..]
  {
    hide *;
    AcceptsIs(v.t, a, length);
    PlanTiles(v.t, a, length);
    OwnSegments(v, a, length, ownQueue);
    var s, e := Search(v.t, a), Search(v.t, LastAddress(a, length));
    var plan := Plan(v.t, a, length, s, e);
    AllRead(v, plan, polls, before, after);
    v.LegalSized();
    SizedLength(v.t, v.Contents(), v.cell);
    OverwrittenIs(before, Collect(v.Contents(), plan, v.cell), after);
    PlanDelivers(v.t, v.Contents(), v.cell, a, length, s, e);
  }

  lemma PlanDelivers(t: Table, contents: seq<seq<Byte>>, cell: nat, a: U16, length: U16, s: nat, e: nat)
    requires length >= 1 && Accepts(t, a, length) && Usable(t, a, length) && Sized(t, contents, cell)
    requires s == Search(t, a) && e == Search(t, LastAddress(a, length)) && s <= e < |t| == |contents|
    requires Contains(t[s], a) && Tiles(t, Plan(t, a, length, s, e), a, length)
    ensures ValidTable(Part(t, s, e)) && Sized(Part(t, s, e), contents[s..e + 1], cell)
    ensures AllCovered(Part(t, s, e), a, a + length - 1) && InRange(Plan(t, a, length, s, e), |contents|)
    ensures Collect(contents, Plan(t, a, length, s, e), cell)
         == Flat(Part(t, s, e), contents[s..e + 1], cell, a, length)
  {
    hide Tiles, ValidTable, Collect, Flat, PlanFrom, Search;
    var plan := Plan(t, a, length, s, e);
    if s < e {
      PlanFromBetween(t, a, length, s, s, e);
    }
    PartIsValid(t, s, e);
    RenumberedTiles(t, plan, s, e, a, length);
    RenumberedCollect(contents, plan, s, e, cell);
    TilesDeliverFlat(Part(t, s, e), contents[s..e + 1], cell, Renumbered(plan, s), a, length);
  }

  // ---------------------------------------------------------------- after a failed check

  /** The check has filled in the end of interval `i`: it stops at the first interval that is not legal, whose end it
      fills in if it fits. */
  ghost predicate Filled(before: Table, i: nat)
    requires i < |before|
  {
    i < FirstBad(before, 0) || (i == FirstBad(before, 0) && EndOf(before[i]) <= 0xFFFF)
  }

  lemma CheckedEnd(before: Table, after: Table, i: nat)
    requires CheckedTo(before, after, FirstBad(before, 0)) && i < |before| && before[i].length >= 1
    ensures |after| == |before|
    ensures Filled(before, i) ==> after[i].length >= 1 && after[i].end == after[i].start + after[i].length - 1
    ensures !Filled(before, i) ==> after[i] == before[i]
  {
    EndOfLegal(before[i]);
    if i < FirstBad(before, 0) {
      assert OkAt(before, i);
    }
  }

  lemma CheckedRun(before: Table, after: Table, s: nat, e: nat)
    requires CheckedTo(before, after, FirstBad(before, 0)) && s <= e < |before| == |after|
    requires forall i :: 0 <= i < |before| ==> before[i].length >= 1
    requires Filled(before, e)
    ensures FilledIn(after, s, e)
  {
    hide CheckedTo, FirstBad;
    forall i | s <= i <= e ensures after[i].length >= 1 && after[i].end == after[i].start + after[i].length - 1 {
      CheckedEnd(before, after, i);
    }
  }

  /** If no interval is empty, and the ends that the check has not filled in lie below their starts (as 0 does for
      every start but 0), then every window is usable: what the searches find has been filled in. */
  lemma FailedCheckIsUsable(before: Table, after: Table, a: U16, length: U16)
    requires CheckedTo(before, after, FirstBad(before, 0)) && length >= 1
    requires forall i :: 0 <= i < |before| ==> before[i].length >= 1
    requires forall i :: 0 <= i < |before| ==> Filled(before, i) || before[i].end < before[i].start
    ensures Usable(after, a, length)
  {
    hide CheckedTo, Filled, Search, FilledIn;
    var s, e := Search(after, a), Search(after, LastAddress(a, length));
    if Accepts(after, a, length) && s <= e {
      CheckedLength(before, after);
      CheckedEnd(before, after, e);
      CheckedRun(before, after, s, e);
    }
  }

  lemma CheckedLength(before: Table, after: Table)
    requires CheckedTo(before, after, FirstBad(before, 0))
    ensures |after| == |before|
  {
  }
}
