/** The address table over rings: validation and initialisation in place, lookup by binary search, and a read
    of consecutive addresses that may span several intervals. */
module SyncList {
  import opened RingSpec
  import opened IntervalTable
  import opened FlatView
  import opened ListReads
  import RQ = RingQueue

  const OK: nat := 0
  const BAD_TABLE: nat := 2
  const NOT_COVERED: nat := 2
  const QUEUE_FAILED: nat := 4

  lemma StatusBits()
    ensures OK == 0 && BAD_TABLE == NOT_COVERED == 2 && QUEUE_FAILED == 4
  {
  }

  /** The first interval that is not legal, or the number of intervals. */
  function FirstBad(t: Table, i: nat): (k: nat)
    requires i <= |t|
    ensures i <= k <= |t|
    ensures forall j :: i <= j < k ==> OkAt(t, j)
    ensures k < |t| ==> !OkAt(t, k)
    decreases |t| - i
  {
    if i == |t| || !OkAt(t, i) then i else FirstBad(t, i + 1)
  }

  /** The table after the check has come as far as interval `bad`. */
  ghost predicate CheckedTo(before: Table, after: Table, bad: nat) {
    && |after| == |before|
    && forall i :: 0 <= i < |before| ==>
         after[i] == if i <= bad && EndOf(before[i]) <= 0xFFFF then FillEnd(before[i]) else before[i]
  }

  lemma EndOfLegal(iv: Interval)
    ensures iv.start + iv.length >= 1 ==> EndOf(iv) == iv.start + iv.length - 1
    ensures iv.start + iv.length == 0 ==> EndOf(iv) == 0xFFFF_FFFF
  {
  }

  /** A table that passes the check is valid afterwards. */
  lemma CheckedIsValid(before: Table, after: Table)
    requires CheckedTo(before, after, |before|) && Configured(before)
    ensures ValidTable(after)
  {
    forall i | 0 <= i < |before|
      ensures before[i].length >= 1 && after[i].start == before[i].start && after[i].length == before[i].length
              && after[i].end == before[i].start + before[i].length - 1
    {
      assert OkAt(before, i);
      EndOfLegal(before[i]);
    }
    forall i | 0 < i < |after| ensures after[i - 1].end < after[i].start {
      assert OkAt(before, i);
    }
  }

  lemma NoCells(k: nat, cell: nat)
    ensures cell == 0 ==> Pos(k, cell) == 0
  {
  }

  class List {
    var initializedState: bool
    const cellSize: nat
    const intervals: array<Interval>
    const queues: seq<RQ.Queue>

    constructor (cellSize: nat, intervals: array<Interval>, queues: seq<RQ.Queue>)
      ensures !initializedState
      ensures this.cellSize == cellSize && this.intervals == intervals && this.queues == queues
    {
      initializedState := false;
      this.cellSize, this.intervals, this.queues := cellSize, intervals, queues;
    }

    /** The check of the configured intervals, which fills in their ends as it goes. */
    method ConfigCheck() returns (ret: nat)
      requires intervals.Length > 0
      modifies intervals
      ensures ret == OK || ret == BAD_TABLE
      ensures ret == OK <==> Configured(old(intervals[..]))
      ensures ret == 0 <==> AddressesAscend(old(intervals[..]))
      ensures ret == OK ==> ValidTable(intervals[..])
      ensures CheckedTo(old(intervals[..]), intervals[..], FirstBad(old(intervals[..]), 0))
    {
      hide AddressesAscend;
      ghost var t := intervals[..];
      ConfiguredIff(t);
      ghost var bad := FirstBad(t, 0);
      var lastEnd := 0;
      var idx := 0;
      while idx < intervals.Length
        invariant 0 <= idx <= bad <= intervals.Length
        invariant forall i :: idx <= i < intervals.Length ==> intervals[i] == t[i]
        invariant forall i :: 0 <= i < idx ==> EndOf(t[i]) <= 0xFFFF && intervals[i] == FillEnd(t[i])
        invariant idx > 0 ==> lastEnd == t[idx - 1].start + t[idx - 1].length - 1
      {
        EndOfLegal(t[idx]);
        var end := EndOf(intervals[idx]);
        if end > 0xFFFF {
          assert !OkAt(t, idx);
          return BAD_TABLE;
        }
        intervals[idx] := intervals[idx].(end := end);
        if intervals[idx].start > intervals[idx].end {
          assert !OkAt(t, idx);
          return BAD_TABLE;
        }
        if idx != 0 && lastEnd >= intervals[idx].start {
          assert !OkAt(t, idx);
          return BAD_TABLE;
        }
        assert OkAt(t, idx);
        lastEnd := end;
        idx := idx + 1;
      }
      CheckedIsValid(t, intervals[..]);
      ret := OK;
    }

    /** The binary search, which is the same function of any table. What it finds contains the address; in a valid
        table it is the interval a linear scan finds, and -1 when no interval contains the address. */
    method Find(address: U16) returns (ret: int)
      requires initializedState && 0 < intervals.Length < 0x4000_0000
      ensures ret == Search(intervals[..], address)
      ensures ret == -1 || (0 <= ret < intervals.Length && Contains(intervals[ret], address))
      ensures ValidTable(intervals[..]) ==> ret == Scan(intervals[..], address)
    {
      var low, high := 0, intervals.Length;
      while low < high
        invariant 0 <= low <= high <= intervals.Length
        invariant SearchFrom(intervals[..], address, low, high)
               == SearchFrom(intervals[..], address, 0, intervals.Length)
        decreases high - low
      {
        var mid := (low + high) / 2;
        if intervals[mid].start > address {
          high := mid;
        } else {
          low := mid + 1;
        }
      }
      var idx := low - 1;
      ret := if idx >= 0 && intervals[idx].end >= address then idx else -1;
      if ValidTable(intervals[..]) {
        SearchIsScan(intervals[..], address);
      }
    }

    method ContinuityCheck(startIdx: int, endIdx: int) returns (ok: bool)
      requires -1 <= startIdx < intervals.Length && -1 <= endIdx < intervals.Length
      ensures ok <==> Contiguous(intervals[..], startIdx, endIdx)
    {
      if startIdx == -1 || endIdx == -1 {
        return false;
      }
      if startIdx == endIdx {
        return true;
      }
      var idx := startIdx;
      while idx < endIdx
        invariant startIdx <= idx && (idx <= endIdx || idx == startIdx)
        invariant forall i :: startIdx <= i < idx ==> intervals[i].end + 1 == intervals[i + 1].start
      {
        if intervals[idx].end + 1 != intervals[idx + 1].start {
          assert intervals[..][idx].end + 1 != intervals[..][idx + 1].start;
          return false;
        }
        idx := idx + 1;
      }
      ok := true;
    }

    // -------------------------------------------------------------- initialisation

    /** What the caller hands over: as many distinct queues as intervals. */
    ghost predicate Assembled()
      reads this, queues
    {
      && |queues| == intervals.Length && 0 < intervals.Length < 0x4000_0000 && cellSize <= MAX_CELL
      && (forall i, j :: 0 <= i < j < |queues| ==> queues[i] != queues[j])
      && forall i :: 0 <= i < |queues| ==>
           queues[i].initializeState < RQ.U16 && queues[i].timeoutWaitTime < RQ.U32 - 1
    }

    /** Queue `i` cannot be initialised: no cells, no units, already claimed, or out of memory. */
    ghost predicate CannotInit(i: nat, allocates: nat -> bool)
      reads this, intervals, queues
      requires i < intervals.Length && i < |queues|
    {
      || Pos(intervals[i].length, cellSize) == 0 || queues[i].unitNum == 0
      || queues[i].initializeState != 0 || !allocates(i)
    }

    /** Sizes one queue to its interval and initialises it. */
    method InitQueue(i: nat, allocates: bool, garbage: (nat, nat) -> Byte) returns (reply: nat)
      requires i < intervals.Length && i < |queues|
      requires queues[i].initializeState < RQ.U16 && queues[i].timeoutWaitTime < RQ.U32 - 1
      modifies queues[i]
      ensures queues[i].initializeState < RQ.U16 && queues[i].timeoutWaitTime < RQ.U32 - 1
      ensures reply == RQ.OK <==> !old(Pos(intervals[i].length, cellSize) == 0 || queues[i].unitNum == 0
                                       || queues[i].initializeState != 0 || !allocates)
      ensures reply == RQ.OK ==> InUse(queues[i], Pos(intervals[i].length, cellSize)) && fresh(queues[i].units)
      ensures reply != RQ.OK && old(queues[i].initializeState) == 0 ==> queues[i].initializeState == 0
    {
      queues[i].unitSize := Pos(intervals[i].length, cellSize);
      reply := queues[i].Init(allocates, garbage);
    }

    method DeinitFirst(n: nat)
      requires n <= |queues|
      modifies set i | 0 <= i < n :: queues[i]`initializeState
      ensures forall i :: 0 <= i < n ==> queues[i].initializeState == 0
    {
      for k := 0 to n
        invariant forall i :: 0 <= i < k ==> queues[i].initializeState == 0
      {
        queues[k].Deinit();
      }
    }

    /** The loop over the queues. `failed` is the first queue that cannot be initialised, or their number. */
    method InitQueues(allocates: nat -> bool, garbage: nat -> (nat, nat) -> Byte) returns (failed: nat)
      requires Assembled()
      modifies this`initializedState, queues
      ensures Assembled()
      ensures failed < |queues| && old(queues[failed].initializeState) == 0 ==> queues[failed].initializeState == 0
      ensures failed <= |queues| && forall i :: 0 <= i < failed ==> !old(CannotInit(i, allocates))
      ensures failed < |queues| ==> old(CannotInit(failed, allocates))
      ensures initializedState == (failed > 0 || old(initializedState))
      ensures failed == |queues| ==>
                forall i :: 0 <= i < |queues| ==> InUse(queues[i], Pos(intervals[i].length, cellSize))
      ensures failed < |queues| ==> forall i :: 0 <= i < failed ==> queues[i].initializeState == 0
      ensures forall i :: failed < i < |queues| ==> unchanged(queues[i])
    {
      hide RQ.Queue.Built, RQ.Queue.Valid, Pos, InUse;
      failed := 0;
      while failed < intervals.Length
        invariant failed <= intervals.Length
        invariant forall i :: 0 <= i < |queues| ==>
                    queues[i].initializeState < RQ.U16 && queues[i].timeoutWaitTime < RQ.U32 - 1
        invariant forall i :: failed <= i < |queues| ==> unchanged(queues[i])
        invariant forall i :: 0 <= i < failed ==> !old(CannotInit(i, allocates))
        invariant forall i :: 0 <= i < failed ==> InUse(queues[i], Pos(intervals[i].length, cellSize))
        invariant initializedState == (failed > 0 || old(initializedState))
      {
        var reply := InitQueue(failed, allocates(failed), garbage(failed));
        if reply != RQ.OK {
          DeinitFirst(failed);
          return failed;
        }
        initializedState := true;
        failed := failed + 1;
      }
    }

    /** The initialisation. A bad table is reported but does not stop it, and the list counts as initialised as
        soon as its first queue is. */
    method Init(allocates: nat -> bool, garbage: nat -> (nat, nat) -> Byte) returns (ret: nat, failed: nat)
      requires Assembled()
      modifies this`initializedState, intervals, queues
      ensures CheckedTo(old(intervals[..]), intervals[..], FirstBad(old(intervals[..]), 0))
      ensures failed <= |queues| && forall i :: 0 <= i < failed ==> !old(CannotInit(i, allocates))
      ensures failed < |queues| ==> old(CannotInit(failed, allocates))
      ensures ret == (if Configured(old(intervals[..])) then OK else BAD_TABLE)
                     + (if failed < |queues| then QUEUE_FAILED else OK)
      ensures initializedState == (failed > 0 || old(initializedState))
      ensures failed == |queues| ==>
                forall i :: 0 <= i < |queues| ==> InUse(queues[i], Pos(intervals[i].length, cellSize))
      ensures failed < |queues| ==> forall i :: 0 <= i < failed ==> queues[i].initializeState == 0
      ensures forall i :: failed < i < |queues| ==> unchanged(queues[i])
      ensures ret == 0 <==> AddressesAscend(old(intervals[..])) && failed == |queues|
      ensures ret == OK ==> Ready() && ValidTable(intervals[..])
      ensures failed > 0 && (forall i :: failed <= i < |queues| ==> old(queues[i].initializeState) == 0) ==> Ready()
    {
      hide FirstBad, Configured, AddressesAscend, ValidTable, RQ.Queue.Built, RQ.Queue.Valid, Pos;
      var reply := ConfigCheck();
      ret := if reply != OK then BAD_TABLE else OK;
      assert forall i :: 0 <= i < intervals.Length ==> intervals[i].length == old(intervals[i].length) by {
        assert forall i :: 0 <= i < intervals.Length ==> intervals[..][i].length == old(intervals[..])[i].length;
      }
      assert forall i :: 0 <= i < |queues| ==> CannotInit(i, allocates) == old(CannotInit(i, allocates));
      failed := InitQueues(allocates, garbage);
      if failed < |queues| {
        ret := ret + QUEUE_FAILED;
      }
      if failed > 0 {
        assert !old(CannotInit(0, allocates));
        NoCells(old(intervals[0].length), cellSize);
        if forall i :: failed <= i < |queues| ==> old(queues[i].initializeState) == 0 {
          SettledIsReady();
        }
      }
    }

    lemma SettledIsReady()
      requires Assembled() && initializedState && cellSize >= 1
      requires forall i :: 0 <= i < |queues| ==>
                 InUse(queues[i], Pos(intervals[i].length, cellSize)) || queues[i].initializeState == 0
      ensures Ready()
    {
      hide RQ.Queue.Built, Pos;
    }

    // -------------------------------------------------------------- reading

    /** What an initialisation establishes that sets up at least one queue, on queues not used before: a queue in use
        has the size of its interval. The table need not have passed the check. */
    ghost predicate Ready()
      reads this, intervals, queues, set q | q in queues :: q.units
    {
      var ready :=
        && initializedState && |queues| == intervals.Length
        && (forall i :: 0 <= i < |queues| ==>
             && queues[i].Valid()
             && (queues[i].initializeState == RQ.READY ==> queues[i].unitSize == Pos(intervals[i].length, cellSize)))
        && 0 < intervals.Length < 0x4000_0000 && 1 <= cellSize <= MAX_CELL;
      ready
    }

    static ghost function ViewOf(q: RQ.Queue, size: nat): (v: QueueView)
      reads q, q.units
      requires q.Valid() && (q.initializeState == RQ.READY ==> q.unitSize == size)
      ensures |v.unit| == v.unitSize == size
    {
      var ready := q.initializeState == RQ.READY;
      QueueView(size, ready, q.timeoutWaitTime, if ready then q.Published() else seq(size, _ => 0))
    }

    ghost function View(): (v: ListView)
      reads this, intervals, queues, set q | q in queues :: q.units
      requires Ready()
      ensures v.t == intervals[..] && v.cell == cellSize && v.Legal()
    {
      ListView(intervals[..], cellSize,
               seq(|queues|, i requires 0 <= i < |queues| && Ready()
                               reads this, intervals, queues, set q | q in queues :: q.units =>
                                 ViewOf(queues[i], Pos(intervals[i].length, cellSize))))
    }

    /** Reads one segment to position `at` of the destination. */
    method ReadSegment(sg: Segment, dst: array<Byte>, at: nat, polls: nat -> RQ.Poll) returns (reply: nat)
      requires Ready() && sg.idx < |queues| && at + Pos(sg.size, cellSize) <= dst.Length
      requires Pos(sg.offset, cellSize) + Pos(sg.size, cellSize) < RQ.U32
      modifies dst
      ensures Ready() && View() == old(View())
      ensures reply != RQ.OK <==> View().Fails(sg, polls)
      ensures reply != RQ.OK ==> dst[..] == old(dst[..])
      ensures reply == RQ.OK ==>
                var got := Bytes(View().Contents(), sg, cellSize);
                |got| == Pos(sg.size, cellSize) && dst[..] == old(dst[..at]) + got + old(dst[at + |got|..])
    {
      var taken;
      ghost var q := View().queues[sg.idx];
      assert q == ViewOf(queues[sg.idx], Pos(intervals[sg.idx].length, cellSize));
      reply, taken := queues[sg.idx].Get(dst, at, Pos(sg.offset, cellSize), Pos(sg.size, cellSize), polls);
      if Pos(sg.offset, cellSize) + Pos(sg.size, cellSize) <= queues[sg.idx].unitSize
         && queues[sg.idx].initializeState == RQ.READY {
        RQ.TimeoutIff(RQ.BusyForGet, polls, queues[sg.idx].timeoutWaitTime, reply, taken);
      }
    }

    /** The offset and size of the segment in interval `idx`, with `copyLength` cells to go. */
    method NextFields(address: U16, startIdx: nat, endIdx: nat, idx: nat, copyLength: U16)
        returns (offset: nat, size: nat)
      requires startIdx < intervals.Length && idx < intervals.Length
      ensures Segment(idx, offset, size) == SegmentAt(intervals[..], address, copyLength, idx, startIdx, endIdx)
    {
      if startIdx == idx {
        offset := (address - intervals[idx].start) % 0x1_0000_0000;
        size := (intervals[idx].length - offset) % 0x1_0000_0000;
      } else if endIdx == idx {
        offset := 0;
        size := copyLength;
      } else {
        offset := 0;
        size := intervals[idx].length;
      }
    }

    lemma ViewBounds()
      requires Ready()
      ensures |View().queues| == |queues| == |View().t| == intervals.Length && |View().Contents()| == |queues|
      ensures View().t == intervals[..] && View().cell == cellSize <= MAX_CELL
      ensures initializedState && 0 < intervals.Length < 0x4000_0000
    {
    }

    /** One turn of the loop over the intervals of a spanning read. */
    method ReadNext(ghost rd: SpanRead, address: U16, startIdx: nat, endIdx: nat, ownQueue: bool,
                    idx: nat, copyLength: U16, dst: array<Byte>, at: nat, polls: nat -> RQ.Poll)
        returns (reply: nat, left: U16, next: nat)
      requires Ready() && rd.v == View()
      requires rd.a == address && rd.s == startIdx && rd.e == endIdx && rd.ownQueue == ownQueue
      requires rd.Progress(idx, copyLength, at, dst[..]) && idx <= endIdx
      modifies dst
      ensures Ready() && View() == rd.v
      ensures startIdx <= idx && idx - startIdx < |rd.segs| && rd.segs[idx - startIdx].idx < |rd.v.queues|
      ensures reply != RQ.OK <==> rd.v.Fails(rd.segs[idx - startIdx], polls)
      ensures reply != RQ.OK ==> rd.Progress(idx, copyLength, at, dst[..])
      ensures reply == RQ.OK ==> rd.Progress(idx + 1, left, next, dst[..])
    {
      hide *;
      ViewBounds();
      rd.NextSegment(idx, copyLength, at, dst[..]);
      var offset, size := NextFields(address, startIdx, endIdx, idx, copyLength);
      var sg := Segment(if ownQueue then idx else startIdx, offset, size);
      assert rd.segs[idx - startIdx] == sg;
      ghost var now := dst[..];
      reply := ReadSegment(sg, dst, at, polls);
      left, next := Left(copyLength, size), at + Pos(size, cellSize);
      if reply == RQ.OK {
        rd.Advance(idx, copyLength, at, now, dst[..]);
      }
    }

    /** The loop over the intervals of a spanning read. */
    method ReadLoop(ghost rd: SpanRead, address: U16, length: U16, startIdx: nat, endIdx: nat, dst: array<Byte>,
                    ownQueue: bool, polls: nat -> nat -> RQ.Poll) returns (ret: nat, done: nat)
      requires Ready() && rd.v == View()
      requires rd.a == address && rd.s == startIdx && rd.e == endIdx && rd.ownQueue == ownQueue
      requires rd.Progress(startIdx, length, 0, dst[..]) && startIdx <= endIdx
      modifies dst
      ensures Ready() && View() == rd.v
      ensures rd.v.ReadThrough(rd.segs, polls, done, rd.before, dst[..])
      ensures ret == if done == |rd.segs| then OK else QUEUE_FAILED
    {
      hide *;
      done := 0;
      var copyLength: U16 := length;
      var at: nat := 0;
      var idx: nat := startIdx;
      rd.Stop(startIdx, length, 0, dst[..]);
      rd.NoneYet(polls);
      while idx <= endIdx
        invariant startIdx <= idx <= endIdx + 1 && done == idx - startIdx <= |rd.segs|
        invariant Ready() && View() == rd.v
        invariant rd.Progress(idx, copyLength, at, dst[..])
        invariant InRange(rd.segs, |rd.v.queues|) && rd.v.NoneFails(rd.segs, polls, done)
      {
        var reply, left, next :=
          ReadNext(rd, address, startIdx, endIdx, ownQueue, idx, copyLength, dst, at, polls(done));
        if reply != RQ.OK {
          rd.Failed(idx, copyLength, at, dst[..], polls);
          return QUEUE_FAILED, done;
        }
        rd.OneMore(polls, done);
        copyLength, at := left, next;
        done := done + 1;
        idx := idx + 1;
      }
      rd.Finished(idx, copyLength, at, dst[..], polls);
      ret := OK;
    }

    /** A read whose ends lie in different intervals. */
    method ReadSpan(address: U16, length: U16, startIdx: nat, endIdx: nat, dst: array<Byte>, ownQueue: bool,
                    polls: nat -> nat -> RQ.Poll) returns (ret: nat, done: nat)
      requires Ready() && length >= 1 && Accepts(intervals[..], address, length)
      requires Usable(intervals[..], address, length)
      requires startIdx == Search(intervals[..], address) && startIdx != endIdx
      requires endIdx == Search(intervals[..], LastAddress(address, length))
      requires Pos(length, cellSize) <= dst.Length
      modifies dst
      ensures Ready() && View() == old(View())
      ensures View().ReadThrough(View().Segments(address, length, ownQueue), polls, done, old(dst[..]), dst[..])
      ensures ret == if done == |View().Segments(address, length, ownQueue)| then OK else QUEUE_FAILED
    {
      if startIdx > endIdx {
        assert View().Segments(address, length, ownQueue) == [];
        return OK, 0;
      }
      ghost var segs := View().Segments(address, length, ownQueue);
      ghost var rd := SpanRead(View(), address, length, startIdx, endIdx, ownQueue, segs, dst[..]);
      rd.Start();
      hide *;
      ret, done := ReadLoop(rd, address, length, startIdx, endIdx, dst, ownQueue, polls);
    }

    /** A read of `length` cells from `address` on. With `ownQueue` false this is the shipped code, whose loop
        names the first interval's queue for every segment; with `ownQueue` true each segment is taken from
        its own interval's queue. `done` counts the segments read. The table may be any for which the window is
        usable, as every window of a valid table is. */
    method DataGet(address: U16, length: U16, dst: array<Byte>, ownQueue: bool, polls: nat -> nat -> RQ.Poll)
        returns (ret: nat, done: nat)
      requires Ready() && length >= 1 && Usable(intervals[..], address, length) && Pos(length, cellSize) <= dst.Length
      modifies dst
      ensures Ready() && View() == old(View())
      ensures !Accepts(View().t, address, length) ==> ret == NOT_COVERED && done == 0 && dst[..] == old(dst[..])
      ensures Accepts(View().t, address, length) ==>
                var segs := View().Segments(address, length, ownQueue);
                View().ReadThrough(segs, polls, done, old(dst[..]), dst[..])
                && ret == if done == |segs| then OK else QUEUE_FAILED
      ensures ret == 0 <==> Accepts(View().t, address, length)
                            && done == |View().Segments(address, length, ownQueue)|
    {
      hide *;
      StatusBits();
      ViewBounds();
      AcceptsIs(intervals[..], address, length);
      var last := LastAddress(address, length);
      var startIdx := Find(address);
      var endIdx := Find(last);
      var ok := ContinuityCheck(startIdx, endIdx);
      if !ok {
        return NOT_COVERED, 0;
      }
      if startIdx == endIdx {
        ret, done := ReadInside(address, length, startIdx, dst, ownQueue, polls);
      } else {
        ret, done := ReadSpan(address, length, startIdx, endIdx, dst, ownQueue, polls);
      }
    }

    /** A read whose ends lie in the same interval. */
    method ReadInside(address: U16, length: U16, startIdx: nat, dst: array<Byte>, ghost ownQueue: bool,
                      polls: nat -> nat -> RQ.Poll) returns (ret: nat, done: nat)
      requires Ready() && length >= 1 && Accepts(intervals[..], address, length)
      requires startIdx == Search(intervals[..], address) == Search(intervals[..], LastAddress(address, length))
      requires Pos(length, cellSize) <= dst.Length
      modifies dst
      ensures Ready() && View() == old(View())
      ensures View().ReadThrough(View().Segments(address, length, ownQueue), polls, done, old(dst[..]), dst[..])
      ensures ret == if done == |View().Segments(address, length, ownQueue)| then OK else QUEUE_FAILED
    {
      hide *;
      ViewBounds();
      ghost var v := View();
      ghost var before := dst[..];
      InsideSegments(v, address, length, startIdx, ownQueue);
      var sg := Segment(startIdx, address - intervals[startIdx].start, length);
      CellsFit(sg.offset, sg.size, cellSize);
      var reply := ReadSegment(sg, dst, 0, polls(0));
      done := if reply == RQ.OK then 1 else 0;
      ret := if reply == RQ.OK then OK else QUEUE_FAILED;
      OneSegment(v, sg, polls, reply == RQ.OK, before, dst[..]);
    }
  }

  /** The queue is initialised, empty, and has units of `size` bytes. */
  ghost predicate InUse(q: RQ.Queue, size: nat)
    reads q, q.units
  {
    q.initializeState == RQ.READY && q.Built() && q.Valid() && q.history == [] && q.unitSize == size
  }
}
