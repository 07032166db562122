/** The loop over a spanning read as shipped, which takes every segment from the queue of the first interval: when
    such a read can succeed with bytes that are not those of the flat register space. */
module SharedQueue {
  import opened RingSpec
  import opened IntervalTable
  import opened FlatView
  import opened ListReads
  import RQ = RingQueue

  // ---------------------------------------------------------------- contents that tell the queues apart

  lemma {:induction false} CollectZeros(contents: seq<seq<Byte>>, segs: seq<Segment>, s: nat, cell: nat)
    requires InRange(segs, |contents|) && s < |contents|
    requires forall k :: 0 <= k < |segs| ==> segs[k].idx == s
    requires forall b :: 0 <= b < |contents[s]| ==> contents[s][b] == 0
    ensures forall b :: 0 <= b < |Collect(contents, segs, cell)| ==> Collect(contents, segs, cell)[b] == 0
  {
    if segs != [] {
      CollectZeros(contents, segs[..|segs| - 1], s, cell);
    }
  }

  /** The unit of interval `s` holds zeros, the others ones. */
  ghost function ZeroOnlyAt(t: Table, s: nat, cell: nat): (contents: seq<seq<Byte>>)
    ensures Sized(t, contents, cell)
    ensures forall i, b :: 0 <= i < |t| && 0 <= b < |contents[i]| ==> contents[i][b] == if i == s then 0 else 1
  {
    seq(|t|, i requires 0 <= i < |t| => seq(Pos(t[i].length, cell), _ => if i == s then 0 else 1))
  }

  lemma LastByteIsOne(t: Table, cell: nat, s: nat, a: int, length: nat)
    requires ValidTable(t) && cell >= 1 && length >= 1 && AllCovered(t, a, a + length - 1)
    requires Scan(t, a + length - 1) != s
    ensures var f := Flat(t, ZeroOnlyAt(t, s, cell), cell, a, length);
            |f| > 0 && f[|f| - 1] == 1
  {
    var contents := ZeroOnlyAt(t, s, cell);
    var last := a + length - 1;
    hide CellAt, Scan, ValidTable, Sized, ZeroOnlyAt, Pos;
    assert Covered(t, last);
    LastCellIsOne(t, cell, s, last);
    assert Flat(t, contents, cell, a, length)
        == Flat(t, contents, cell, a, length - 1) + CellAt(t, contents, cell, last);
  }

  lemma LastCellIsOne(t: Table, cell: nat, s: nat, last: int)
    requires ValidTable(t) && cell >= 1 && Covered(t, last) && Scan(t, last) != s
    ensures CellAt(t, ZeroOnlyAt(t, s, cell), cell, last)[cell - 1] == 1
  {
    var contents := ZeroOnlyAt(t, s, cell);
    var i := Scan(t, last);
    var k := last - t[i].start;
    hide CellAt, ValidTable, ZeroOnlyAt, Scan;
    CellOfUnit(t, contents, cell, i, k);
    assert contents[i][Pos(k, cell) + (cell - 1)] == 1;
  }

  // ---------------------------------------------------------------- the exact condition

  /** Some contents, some polls and some destination let the shipped read of a window succeed without returning the
      flat view of it. */
  ghost predicate CanReturnWrongBytes(t: Table, cell: nat, a: U16, length: U16)
    requires ValidTable(t) && length >= 1 && Accepts(t, a, length) && AllCovered(t, a, a + length - 1)
  {
    exists v: ListView, polls, before, after ::
      WrongBytes(v, t, cell, a, length, polls, before, after)
  }

  ghost predicate WrongBytes(v: ListView, t: Table, cell: nat, a: U16, length: U16,
                             polls: nat -> nat -> RQ.Poll, before: seq<Byte>, after: seq<Byte>)
    requires ValidTable(t) && length >= 1 && Accepts(t, a, length) && AllCovered(t, a, a + length - 1)
  {
    && v.Legal() && v.t == t && v.cell == cell && Sized(t, v.Contents(), cell) && Pos(length, cell) <= |before|
    && v.ReadThrough(v.Segments(a, length, false), polls, |v.Segments(a, length, false)|, before, after)
    && after != Flat(t, v.Contents(), cell, a, length) + before[Pos(length, cell)..]
  }

  /** Every segment after the first is no longer than the first interval, so that its queue serves it. */
  ghost predicate LaterSegmentsFit(t: Table, a: U16, length: U16)
    requires length >= 1 && Accepts(t, a, length)
  {
    var s, e := Search(t, a), Search(t, LastAddress(a, length));
    forall k :: 0 < k < |Plan(t, a, length, s, e)| ==> Plan(t, a, length, s, e)[k].size <= t[s].length
  }

  /** The shipped read can return wrong bytes exactly for the windows whose ends lie in different intervals and
      whose later segments are no longer than the first interval. */
  lemma WrongBytesIff(t: Table, cell: nat, a: U16, length: U16)
    requires ValidTable(t) && 0 < |t| < 0x4000_0000 && 1 <= cell <= MAX_CELL
    requires length >= 1 && a + length <= 0x1_0000 && Accepts(t, a, length)
    ensures AllCovered(t, a, a + length - 1)
    ensures CanReturnWrongBytes(t, cell, a, length)
       <==> Search(t, a) != Search(t, LastAddress(a, length)) && LaterSegmentsFit(t, a, length)
  {
    AcceptsIff(t, a, length);
    hide *;
    if Search(t, a) != Search(t, LastAddress(a, length)) && LaterSegmentsFit(t, a, length) {
      WrongRead(t, cell, a, length);
    } else if CanReturnWrongBytes(t, cell, a, length) {
      NoWrongRead(t, cell, a, length);
    }
  }

  lemma NoWrongRead(t: Table, cell: nat, a: U16, length: U16)
    requires ValidTable(t) && length >= 1 && a + length <= 0x1_0000 && Accepts(t, a, length)
    requires AllCovered(t, a, a + length - 1) && CanReturnWrongBytes(t, cell, a, length)
    ensures Search(t, a) != Search(t, LastAddress(a, length)) && LaterSegmentsFit(t, a, length)
  {
    var v: ListView, polls, before, after :| WrongBytes(v, t, cell, a, length, polls, before, after);
    hide Flat, ListView.Legal, ListView.ReadThrough, ListView.Segments, AllCovered, Accepts, Search, ValidTable;
    var segs := v.Segments(a, length, false);
    if Search(t, a) == Search(t, LastAddress(a, length)) {
      SuccessfulRead(v, a, length, false, polls, |segs|, before, after);
    } else {
      SuccessMeansFit(v, a, length, polls, before, after);
    }
  }

  /** A shipped read that succeeds found every segment inside the unit of the first queue. */
  lemma SuccessMeansFit(v: ListView, a: U16, length: U16, polls: nat -> nat -> RQ.Poll,
                        before: seq<Byte>, after: seq<Byte>)
    requires v.Legal() && length >= 1 && Accepts(v.t, a, length)
    requires v.ReadThrough(v.Segments(a, length, false), polls, |v.Segments(a, length, false)|, before, after)
    ensures LaterSegmentsFit(v.t, a, length)
  {
    hide PlanFrom, Search, Collect;
    var s, e := Search(v.t, a), Search(v.t, LastAddress(a, length));
    var segs := v.Segments(a, length, false);
    forall k | 0 < k < |Plan(v.t, a, length, s, e)|
      ensures Plan(v.t, a, length, s, e)[k].size <= v.t[s].length
    {
      assert !v.Fails(segs[k], polls(k));
      if segs[k].size > v.t[s].length {
        BeyondTheUnit(v, segs[k], polls(k));
      }
    }
  }

  /** Queues that are in use and idle, the first one's unit zeros and the others' ones. */
  ghost function Telling(t: Table, s: nat, cell: nat): (v: ListView)
    requires 0 < |t| < 0x4000_0000 && 1 <= cell <= MAX_CELL
    ensures v.Legal() && v.t == t && v.cell == cell && v.Contents() == ZeroOnlyAt(t, s, cell)
    ensures forall i :: 0 <= i < |v.queues| ==> v.queues[i].ready && v.queues[i].timeout == 0
  {
    var contents := ZeroOnlyAt(t, s, cell);
    ListView(t, cell, seq(|t|, i requires 0 <= i < |t| => QueueView(|contents[i]|, true, 0, contents[i])))
  }

  function Idle(k: nat): nat -> RQ.Poll {
    n => RQ.Poll(0, 0)
  }

  /** The segments that are asked of the first queue are all inside its unit. */
  lemma ShippedFits(t: Table, a: U16, length: U16, s: nat, e: nat, k: nat)
    requires ValidTable(t) && length >= 1 && a + length <= 0x1_0000 && Accepts(t, a, length)
    requires s == Search(t, a) && e == Search(t, LastAddress(a, length)) && s != e
    requires LaterSegmentsFit(t, a, length) && k < |Plan(t, a, length, s, e)|
    ensures s < e && FilledIn(t, s, e)
    ensures Plan(t, a, length, s, e)[k].offset + Plan(t, a, length, s, e)[k].size <= t[s].length
  {
    hide Search, PlanFrom;
    EndsAscend(t, a, length);
    SpanHead(t, a, length, s, e);
    PlanHead(t, a, length, s, e);
    if k > 0 {
      LaterSegments(t, a, Left(length, SegmentAt(t, a, length, s, s, e).size), s + 1, s, e, k - 1);
    }
  }

  lemma {:induction false} RetargetedLength(
    t: Table, plan: seq<Segment>, a: int, length: nat, contents: seq<seq<Byte>>, s: nat, cell: nat)
    requires Tiles(t, plan, a, length) && s < |contents|
    requires forall k :: 0 <= k < |plan| ==> Pos(plan[k].offset, cell) + Pos(plan[k].size, cell) <= |contents[s]|
    ensures |Collect(contents, Retarget(plan, s), cell)| == Pos(length, cell)
    decreases |plan|
  {
    if plan == [] {
      PosAdd(0, 0, cell);
    } else {
      TilesHead(t, plan, a, length);
      var rest := plan[1..];
      RetargetedLength(t, rest, a + plan[0].size, length - plan[0].size, contents, s, cell);
      assert Retarget(plan, s) == [plan[0].(idx := s)] + Retarget(rest, s);
      CollectCons(contents, plan[0].(idx := s), Retarget(rest, s), cell);
      PosAdd(plan[0].size, length - plan[0].size, cell);
      hide *;
      assert plan[0].size + (length - plan[0].size) == length;
    }
  }

  lemma ShippedPositions(t: Table, a: U16, length: U16, s: nat, e: nat, cell: nat)
    requires ValidTable(t) && length >= 1 && a + length <= 0x1_0000 && Accepts(t, a, length)
    requires s == Search(t, a) && e == Search(t, LastAddress(a, length)) && s != e
    requires LaterSegmentsFit(t, a, length)
    ensures s < |t| && e < |t| && Contains(t[s], a)
    ensures var plan := Plan(t, a, length, s, e);
            forall k :: 0 <= k < |plan| ==>
              Pos(plan[k].offset, cell) + Pos(plan[k].size, cell) <= Pos(t[s].length, cell)
  {
    hide Plan, Search, ValidTable, Accepts, LaterSegmentsFit, Pos;
    AcceptsIs(t, a, length);
    var plan := Plan(t, a, length, s, e);
    forall k | 0 <= k < |plan|
      ensures Pos(plan[k].offset, cell) + Pos(plan[k].size, cell) <= Pos(t[s].length, cell)
    {
      ShippedFits(t, a, length, s, e, k);
      PosAdd(plan[k].offset, plan[k].size, cell);
      PosBounds(plan[k].offset + plan[k].size, t[s].length, cell);
    }
  }

  lemma ReadAll(v: ListView, segs: seq<Segment>, polls: nat -> nat -> RQ.Poll, before: seq<Byte>)
    requires InRange(segs, |v.queues|) && |before| == |Collect(v.Contents(), segs, v.cell)|
    requires forall k :: 0 <= k < |segs| ==> !v.Fails(segs[k], polls(k))
    ensures v.ReadThrough(segs, polls, |segs|, before, Collect(v.Contents(), segs, v.cell))
  {
    hide Collect, ListView.Fails;
    assert segs[..|segs|] == segs;
    assert before[|before|..] == [];
  }

  /** Idle queues in use refuse no segment inside the first unit. */
  lemma NoneRefused(v: ListView, segs: seq<Segment>, s: nat)
    requires v.Legal() && s < |v.t| && InRange(segs, |v.queues|)
    requires forall i :: 0 <= i < |v.queues| ==> v.queues[i].ready && v.queues[i].timeout == 0
    requires forall k :: 0 <= k < |segs| ==> segs[k].idx == s
    requires forall k :: 0 <= k < |segs| ==>
               Pos(segs[k].offset, v.cell) + Pos(segs[k].size, v.cell) <= Pos(v.t[s].length, v.cell)
    ensures forall k :: 0 <= k < |segs| ==> !v.Fails(segs[k], Idle(k))
  {
    hide Pos;
    forall k | 0 <= k < |segs| ensures !v.Fails(segs[k], Idle(k)) {
      assert !RQ.BusyForGet(Idle(k)(0));
    }
  }

  /** Zeros are not the flat view, whose last byte is a one. */
  lemma ZerosDiffer(t: Table, cell: nat, s: nat, a: U16, length: U16, got: seq<Byte>, rest: seq<Byte>)
    requires ValidTable(t) && cell >= 1 && length >= 1 && AllCovered(t, a, a + length - 1)
    requires Scan(t, a + length - 1) != s && |got| == Pos(length, cell)
    requires forall b :: 0 <= b < |got| ==> got[b] == 0
    ensures got != Flat(t, ZeroOnlyAt(t, s, cell), cell, a, length) + rest
  {
    hide Flat, ZeroOnlyAt, ValidTable, AllCovered, Scan;
    LastByteIsOne(t, cell, s, a, length);
    var f := Flat(t, ZeroOnlyAt(t, s, cell), cell, a, length);
    assert (f + rest)[|f| - 1] == 1;
  }

  /** What the shipped loop collects is as long as the window and all zeros, when only the first queue holds zeros. */
  lemma ShippedCollectsZeros(t: Table, cell: nat, a: U16, length: U16, s: nat, e: nat)
    requires ValidTable(t) && length >= 1 && a + length <= 0x1_0000 && Accepts(t, a, length)
    requires s == Search(t, a) && e == Search(t, LastAddress(a, length)) && s != e
    requires LaterSegmentsFit(t, a, length)
    ensures s < |t| && e < |t| && Contains(t[s], a)
    ensures var segs := Retarget(Plan(t, a, length, s, e), s);
            var contents := ZeroOnlyAt(t, s, cell);
            && InRange(segs, |contents|) && |Collect(contents, segs, cell)| == Pos(length, cell)
            && forall b :: 0 <= b < Pos(length, cell) ==> Collect(contents, segs, cell)[b] == 0
  {
    hide Plan, Search, ValidTable, Accepts, LaterSegmentsFit, Pos, Collect, Tiles;
    ShippedPositions(t, a, length, s, e, cell);
    ValidIsUsable(t, a, length);
    PlanTiles(t, a, length);
    var plan, contents := Plan(t, a, length, s, e), ZeroOnlyAt(t, s, cell);
    RetargetedLength(t, plan, a, length, contents, s, cell);
    CollectZeros(contents, Retarget(plan, s), s, cell);
  }

  lemma WrongRead(t: Table, cell: nat, a: U16, length: U16)
    requires ValidTable(t) && 0 < |t| < 0x4000_0000 && 1 <= cell <= MAX_CELL
    requires length >= 1 && a + length <= 0x1_0000 && Accepts(t, a, length) && AllCovered(t, a, a + length - 1)
    requires Search(t, a) != Search(t, LastAddress(a, length)) && LaterSegmentsFit(t, a, length)
    ensures CanReturnWrongBytes(t, cell, a, length)
  {
    hide Plan, Search, ValidTable, Accepts, LaterSegmentsFit, Pos, Collect, ListView.Legal, AllCovered, Flat;
    AcceptsIs(t, a, length);
    var s, e := Search(t, a), Search(t, LastAddress(a, length));
    var v := Telling(t, s, cell);
    var segs := v.Segments(a, length, false);
    var got := Collect(v.Contents(), segs, cell);
    var before: seq<Byte> := seq(Pos(length, cell), _ => 0);
    v.LegalSized();
    ShippedPositions(t, a, length, s, e, cell);
    ShippedCollectsZeros(t, cell, a, length, s, e);
    NoneRefused(v, segs, s);
    ReadAll(v, segs, Idle, before);
    SearchIsScan(t, LastAddress(a, length));
    LastAddressIs(a, length);
    ZerosDiffer(t, cell, s, a, length, got, before[Pos(length, cell)..]);
    assert WrongBytes(v, t, cell, a, length, Idle, before, got);
  }

  // ---------------------------------------------------------------- two intervals of one cell each

  /** Intervals of one cell at the addresses 0 and `second`; their queues are in use and hold 1 and 2. */
  ghost function TwoCells(second: U16): (v: ListView)
    requires second >= 1
    ensures v.Legal() && ValidTable(v.t)
  {
    var t := [Interval(0, 1, 0), Interval(second, 1, second)];
    ListView(t, 1, [QueueView(1, true, 0, [1]), QueueView(1, true, 0, [2])])
  }

  lemma TwoCellsSearch(second: U16)
    requires second >= 1
    ensures Search(TwoCells(second).t, 0) == 0 && Search(TwoCells(second).t, second) == 1
  {
    assert Contains(TwoCells(second).t[0], 0) && Contains(TwoCells(second).t[1], second);
    SearchIsScan(TwoCells(second).t, 0);
    SearchIsScan(TwoCells(second).t, second);
    UniqueInterval(TwoCells(second).t, 0, 0);
    UniqueInterval(TwoCells(second).t, second, 1);
  }

  lemma TwoCellsPlan(t: Table)
    requires t == [Interval(0, 1, 0), Interval(1, 1, 1)]
    ensures Plan(t, 0, 2, 0, 1) == [Segment(0, 0, 1), Segment(1, 0, 1)]
  {
    assert SegmentAt(t, 0, 2, 0, 0, 1) == Segment(0, 0, 1) && SegmentAt(t, 0, 1, 1, 0, 1) == Segment(1, 0, 1);
    assert PlanFrom(t, 0, 0, 2, 0, 1) == [];
    assert PlanFrom(t, 0, 1, 1, 0, 1) == [Segment(1, 0, 1)];
    PlanHead(t, 0, 2, 0, 1);
  }

  lemma TwoCellsSegments(ownQueue: bool)
    ensures Accepts(TwoCells(1).t, 0, 2)
    ensures TwoCells(1).Segments(0, 2, ownQueue) == [Segment(0, 0, 1), Segment(if ownQueue then 1 else 0, 0, 1)]
  {
    hide Search, Plan;
    var t := TwoCells(1).t;
    TwoCellsSearch(1);
    TwoCellsPlan(t);
    assert LastAddress(0, 2) == 1 && Contiguous(t, 0, 1);
    assert Retarget([Segment(0, 0, 1), Segment(1, 0, 1)], 0) == [Segment(0, 0, 1), Segment(0, 0, 1)];
  }

  lemma TwoCellsCollect(ownQueue: bool)
    ensures InRange([Segment(0, 0, 1), Segment(if ownQueue then 1 else 0, 0, 1)], 2)
    ensures Collect(TwoCells(1).Contents(), [Segment(0, 0, 1), Segment(if ownQueue then 1 else 0, 0, 1)], 1)
         == [1, if ownQueue then 2 else 1]
  {
    var contents := TwoCells(1).Contents();
    var first, second := Segment(0, 0, 1), Segment(if ownQueue then 1 else 0, 0, 1);
    assert Bytes(contents, first, 1) == [1] && Bytes(contents, second, 1) == [if ownQueue then 2 else 1];
    CollectCons(contents, second, [], 1);
    CollectCons(contents, first, [second], 1);
    assert [second] + [] == [second] && [first] + [second] == [first, second];
  }

  lemma TwoCellsRead(ownQueue: bool, polls: nat -> nat -> RQ.Poll)
    requires !RQ.BusyForGet(polls(0)(0)) && !RQ.BusyForGet(polls(1)(0))
    ensures Accepts(TwoCells(1).t, 0, 2)
    ensures TwoCells(1).ReadThrough(TwoCells(1).Segments(0, 2, ownQueue), polls, 2, [0, 0],
                                    [1, if ownQueue then 2 else 1])
  {
    hide *;
    var v := TwoCells(1);
    TwoCellsSegments(ownQueue);
    var segs := v.Segments(0, 2, ownQueue);
    TwoCellsCollect(ownQueue);
    TwoCellsAnswer(ownQueue, polls);
    ReadAll(v, segs, polls, [0, 0]);
  }

  lemma TwoCellsAnswer(ownQueue: bool, polls: nat -> nat -> RQ.Poll)
    requires !RQ.BusyForGet(polls(0)(0)) && !RQ.BusyForGet(polls(1)(0))
    ensures var v := TwoCells(1);
            var segs := [Segment(0, 0, 1), Segment(if ownQueue then 1 else 0, 0, 1)];
            v.cell == 1 && InRange(segs, |v.queues|) && forall k :: 0 <= k < 2 ==> !v.Fails(segs[k], polls(k))
  {
  }

  /** As shipped, a read over two idle queues reports success and returns the first one's cell twice; with own
      queues it returns both cells. */
  lemma ShippedSpanRepeats(polls: nat -> nat -> RQ.Poll)
    requires !RQ.BusyForGet(polls(0)(0)) && !RQ.BusyForGet(polls(1)(0))
    ensures Accepts(TwoCells(1).t, 0, 2)
    ensures TwoCells(1).ReadThrough(TwoCells(1).Segments(0, 2, false), polls, 2, [0, 0], [1, 1])
    ensures TwoCells(1).ReadThrough(TwoCells(1).Segments(0, 2, true), polls, 2, [0, 0], [1, 2])
  {
    hide *;
    TwoCellsRead(false, polls);
    TwoCellsRead(true, polls);
  }

  /** A window of two cells at 0xFFFF is accepted, and reading it succeeds without a byte. */
  lemma WrappedWindowReadsNothing(polls: nat -> nat -> RQ.Poll)
    ensures Accepts(TwoCells(0xFFFF).t, 0xFFFF, 2) && TwoCells(0xFFFF).Segments(0xFFFF, 2, true) == []
    ensures TwoCells(0xFFFF).ReadThrough([], polls, 0, [5, 5], [5, 5])
  {
    hide *;
    WrappedTwoCells(TwoCells(0xFFFF));
    NothingRead(TwoCells(0xFFFF), polls, [5, 5]);
  }

  lemma WrappedTwoCells(v: ListView)
    requires v == TwoCells(0xFFFF)
    ensures Accepts(v.t, 0xFFFF, 2) && v.Segments(0xFFFF, 2, true) == []
  {
    TwoCellsSearch(0xFFFF);
    LastAddressIs(0xFFFF, 2);
    hide TwoCells, Search, LastAddress, PlanFrom;
    assert Contiguous(v.t, 1, 0);
  }

  lemma NothingRead(v: ListView, polls: nat -> nat -> RQ.Poll, before: seq<Byte>)
    ensures v.ReadThrough([], polls, 0, before, before)
  {
  }
}
