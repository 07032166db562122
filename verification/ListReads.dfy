/** Reads of the address table as a function of the values they depend on: what fails them, what they return,
    and the state of the loop over a spanning read. */
module ListReads {
  import opened RingSpec
  import opened IntervalTable
  import opened FlatView
  import Modular
  import RQ = RingQueue

  const MAX_CELL: nat := 0x7FFF

  lemma {:induction false} PlanFromInRange(t: Table, a: U16, left: U16, idx: nat, s: nat, e: nat)
    requires idx <= e + 1 && e < |t| && s < |t|
    ensures InRange(PlanFrom(t, a, left, idx, s, e), |t|)
    ensures |PlanFrom(t, a, left, idx, s, e)| == e + 1 - idx
    decreases e + 1 - idx
  {
    if idx <= e {
      var sg := SegmentAt(t, a, left, idx, s, e);
      PlanFromInRange(t, a, Left(left, sg.size), idx + 1, s, e);
    }
  }

  lemma PlanInRange(t: Table, a: U16, length: U16, s: nat, e: nat)
    requires s < |t| && e < |t| && Contains(t[s], a)
    ensures InRange(Plan(t, a, length, s, e), |t|)
  {
    if s < e {
      PlanFromInRange(t, a, length, s, s, e);
    }
  }

  /** `after` is `before` with its beginning replaced by `got`. */
  ghost predicate Overwritten(before: seq<Byte>, got: seq<Byte>, after: seq<Byte>) {
    |got| <= |before| && after == got + before[|got|..]
  }

  lemma OverwriteNext(before: seq<Byte>, got: seq<Byte>, more: seq<Byte>, now: seq<Byte>, next: seq<Byte>)
    requires Overwritten(before, got, now) && |got| + |more| <= |now|
    requires next == now[..|got|] + more + now[|got| + |more|..]
    ensures Overwritten(before, got + more, next)
  {
    assert now[..|got|] == got && now[|got| + |more|..] == before[|got + more|..];
  }

  lemma CollectSnoc(contents: seq<seq<Byte>>, segs: seq<Segment>, k: nat, cell: nat)
    requires InRange(segs, |contents|) && k < |segs|
    ensures Collect(contents, segs[..k + 1], cell)
         == Collect(contents, segs[..k], cell) + Bytes(contents, segs[k], cell)
  {
    assert segs[..k + 1][..k] == segs[..k];
  }

  /** A window whose ends lie in different intervals in ascending order does not run past 0xFFFF. */
  lemma WindowIsInside(t: Table, a: U16, length: U16, s: nat, e: nat)
    requires length >= 1 && s < e && FilledIn(t, s, e) && Contiguous(t, s, e)
    requires Contains(t[s], a) && Contains(t[e], LastAddress(a, length))
    ensures a + length <= 0x1_0000 && LastAddress(a, length) == a + length - 1
  {
    RunSorted(t, s, e, s);
  }

  /** What a read needs to know of a queue: the unit it hands out (zeros when it refuses all access). */
  datatype QueueView = QueueView(unitSize: nat, ready: bool, timeout: nat, unit: seq<Byte>)

  /** The list as the values a read depends on. */
  datatype ListView = ListView(t: Table, cell: nat, queues: seq<QueueView>) {
    ghost function Contents(): (contents: seq<seq<Byte>>)
      ensures |contents| == |queues|
      ensures forall i :: 0 <= i < |queues| ==> contents[i] == queues[i].unit
    {
      seq(|queues|, i requires 0 <= i < |queues| => queues[i].unit)
    }

    ghost predicate Legal() {
      && 0 < |t| < 0x4000_0000 && |queues| == |t| && 1 <= cell <= MAX_CELL
      && forall i :: 0 <= i < |t| ==>
           queues[i].unitSize == |queues[i].unit| == Pos(t[i].length, cell)
    }

    lemma LegalSized()
      requires Legal()
      ensures Sized(t, Contents(), cell)
    {
    }

    /** Why a segment read fails: the window is beyond the unit, the queue is not in use, or it stays busy. */
    ghost predicate Fails(sg: Segment, polls: nat -> RQ.Poll)
      requires sg.idx < |queues|
    {
      var q := queues[sg.idx];
      || Pos(sg.offset, cell) + Pos(sg.size, cell) > q.unitSize
      || !q.ready
      || forall k: nat :: k <= q.timeout ==> RQ.BusyForGet(polls(k))
    }

    ghost predicate NoneFails(segs: seq<Segment>, polls: nat -> nat -> RQ.Poll, done: nat)
      requires InRange(segs, |queues|) && done <= |segs|
    {
      forall k :: 0 <= k < done ==> !Fails(segs[k], polls(k))
    }

    /** The outcome of reading the first `done` of the segments to the beginning of a destination that held
        `before`: they succeeded, the next one (if any) failed, and nothing else was written. */
    ghost predicate ReadThrough(segs: seq<Segment>, polls: nat -> nat -> RQ.Poll, done: nat,
                                before: seq<Byte>, after: seq<Byte>)
    {
      var through :=
        && InRange(segs, |queues|) && done <= |segs|
        && NoneFails(segs, polls, done)
        && (done < |segs| ==> Fails(segs[done], polls(done)))
        && Overwritten(before, Collect(Contents(), segs[..done], cell), after);
      through
    }

    /** The segments a read takes: each from its own interval's queue, or, as the shipped loop does, all from
        the queue of the first interval. */
    ghost function Segments(a: U16, length: U16, ownQueue: bool): (segs: seq<Segment>)
      requires length >= 1 && Accepts(t, a, length)
      ensures InRange(segs, |t|)
    {
      var s, e := Search(t, a), Search(t, LastAddress(a, length));
      PlanInRange(t, a, length, s, e);
      if ownQueue then Plan(t, a, length, s, e) else Retarget(Plan(t, a, length, s, e), s)
    }
  }

  lemma PosBounds(k: nat, n: nat, cell: nat)
    requires k <= n
    ensures Pos(k, cell) <= Pos(n, cell)
  {
  }

  lemma PosStrict(k: nat, n: nat, cell: nat)
    requires k < n && cell >= 1
    ensures Pos(k, cell) < Pos(n, cell)
  {
    PosAdd(k, n - k, cell);
    Modular.MulMono(1, n - k, cell);
  }

  lemma CellsFit(offset: nat, size: nat, cell: nat)
    requires offset < 0x1_0000 && size < 0x1_0000 && cell <= MAX_CELL
    ensures Pos(offset, cell) + Pos(size, cell) < RQ.U32
  {
    PosMono(offset, cell);
    PosMono(size, cell);
  }

  lemma PosMono(k: nat, cell: nat)
    requires k < 0x1_0000 && cell <= MAX_CELL
    ensures Pos(k, cell) <= 0x1_0000 * MAX_CELL
  {
    Modular.MulMono(k, 0x1_0000, cell);
  }

  lemma AcceptsIs(t: Table, a: U16, length: U16)
    requires length >= 1
    ensures Accepts(t, a, length) <==> Contiguous(t, Search(t, a), Search(t, LastAddress(a, length)))
    ensures Accepts(t, a, length) ==> 0 <= Search(t, a) < |t| && 0 <= Search(t, LastAddress(a, length)) < |t|
  {
  }

  lemma InsideSegments(v: ListView, a: U16, length: U16, s: nat, ownQueue: bool)
    requires length >= 1 && Accepts(v.t, a, length)
    requires s == Search(v.t, a) == Search(v.t, LastAddress(a, length))
    ensures s < |v.t| && v.t[s].start <= a
    ensures v.Segments(a, length, ownQueue) == [Segment(s, a - v.t[s].start, length)]
  {
    hide PlanFrom, Search, ListView.Legal;
    assert Retarget([Segment(s, a - v.t[s].start, length)], s) == [Segment(s, a - v.t[s].start, length)];
  }

  lemma OneSegment(v: ListView, sg: Segment, polls: nat -> nat -> RQ.Poll, ok: bool,
                   before: seq<Byte>, after: seq<Byte>)
    requires sg.idx < |v.queues| && (ok <==> !v.Fails(sg, polls(0)))
    requires !ok ==> after == before
    requires ok ==> var got := Bytes(v.Contents(), sg, v.cell);
                    |got| <= |before| && after == got + before[|got|..]
    ensures v.ReadThrough([sg], polls, if ok then 1 else 0, before, after)
  {
    var got := Bytes(v.Contents(), sg, v.cell);
    assert [sg][..0] == [] && [sg][..1] == [sg];
    assert Collect(v.Contents(), [sg], v.cell) == [] + got;
    assert [] + before[0..] == before;
  }

  // ---------------------------------------------------------------- the loop over a spanning read

  /** A spanning read as the values it works on: the list, the window, the intervals of its two ends, the
      segments it will read and what the destination held. */
  datatype SpanRead = SpanRead(v: ListView, a: U16, length: U16, s: nat, e: nat, ownQueue: bool,
                               segs: seq<Segment>, before: seq<Byte>) {

    ghost predicate Legal() {
      var legal :=
        && s < e < |v.t| && Contains(v.t[s], a) && |v.queues| == |v.t| && v.cell <= MAX_CELL
        && Pos(length, v.cell) <= |before|
        && segs == (if ownQueue then PlanOf() else Retarget(PlanOf(), s))
        && |segs| == |PlanOf()| == e + 1 - s && InRange(segs, |v.queues|);
      legal
    }

    ghost function PlanOf(): seq<Segment>
      requires s < |v.t| && e < |v.t| && Contains(v.t[s], a)
    {
      Plan(v.t, a, length, s, e)
    }

    /** The loop has come to interval `idx` with `left` cells to go and the destination at `at`. */
    ghost predicate Progress(idx: nat, left: U16, at: nat, now: seq<Byte>) {
      var here := Legal() && Place(idx, left, at) && Copied(idx, at, now);
      here
    }

    ghost predicate Place(idx: nat, left: U16, at: nat)
      requires Legal()
    {
      var place :=
        && s <= idx <= e + 1 && left <= length
        && PlanOf()[idx - s..] == PlanFrom(v.t, a, left, idx, s, e)
        && Tiles(v.t, PlanOf()[idx - s..], a + length - left, left)
        && at + Pos(left, v.cell) == Pos(length, v.cell);
      place
    }

    ghost predicate Copied(idx: nat, at: nat, now: seq<Byte>)
      requires Legal()
    {
      var copied :=
        && s <= idx <= e + 1
        && at == |Collect(v.Contents(), segs[..idx - s], v.cell)|
        && Overwritten(before, Collect(v.Contents(), segs[..idx - s], v.cell), now);
      copied
    }

    lemma Start()
      requires v.Legal() && length >= 1 && Accepts(v.t, a, length) && Pos(length, v.cell) <= |before|
      requires Usable(v.t, a, length)
      requires s == Search(v.t, a) && e == Search(v.t, LastAddress(a, length)) && s < e
      requires segs == v.Segments(a, length, ownQueue)
      ensures Progress(s, length, 0, before)
    {
      WindowIsInside(v.t, a, length, s, e);
      PlanTiles(v.t, a, length);
      PlanFromInRange(v.t, a, length, s, s, e);
      hide Tiles, Accepts, FilledIn, ListView.Legal;
    }

    /** The segment computed next lies inside the window and the 16-bit subtraction does not wrap. */
    lemma NextSegment(idx: nat, left: U16, at: nat, now: seq<Byte>)
      requires Progress(idx, left, at, now) && idx <= e
      ensures s <= idx < |v.t| && s < |v.t| && idx - s < |segs|
      ensures segs[idx - s].idx < |v.queues|
      ensures var sg := SegmentAt(v.t, a, left, idx, s, e);
              && segs[idx - s] == sg.(idx := if ownQueue then idx else s)
              && 1 <= sg.size <= left && Left(left, sg.size) == left - sg.size
              && sg.offset + sg.size <= v.t[idx].length
              && at + Pos(sg.size, v.cell) <= |now|
              && Pos(sg.offset, v.cell) + Pos(sg.size, v.cell) < RQ.U32
    {
      var sg := SegmentAt(v.t, a, left, idx, s, e);
      PlaceSegment(idx, left, at);
      assert sg.idx == idx;
      CellsFit(sg.offset, sg.size, v.cell);
    }

    lemma PlaceHead(idx: nat, left: U16, at: nat)
      requires Legal() && Place(idx, left, at) && idx <= e
      ensures s <= idx < |v.t| && s < |v.t| && e < |v.t| && Contains(v.t[s], a) && idx - s < |PlanOf()|
      ensures PlanOf()[idx - s] == SegmentAt(v.t, a, left, idx, s, e)
      ensures PlanOf()[idx + 1 - s..]
           == PlanFrom(v.t, a, Left(left, SegmentAt(v.t, a, left, idx, s, e).size), idx + 1, s, e)
    {
      assert PlanOf()[idx - s..][0] == SegmentAt(v.t, a, left, idx, s, e);
      assert PlanOf()[idx - s..][1..] == PlanOf()[idx + 1 - s..];
    }

    lemma PlaceTiles(idx: nat, left: U16, at: nat)
      requires Legal() && Place(idx, left, at) && idx <= e && idx < |v.t| && s < |v.t|
      requires idx - s < |PlanOf()| && PlanOf()[idx - s] == SegmentAt(v.t, a, left, idx, s, e)
      ensures var sg := SegmentAt(v.t, a, left, idx, s, e);
              && sg.idx == idx && 1 <= sg.size <= left && sg.offset + sg.size <= v.t[idx].length
              && Tiles(v.t, PlanOf()[idx + 1 - s..], a + length - left + sg.size, left - sg.size)
              && at + Pos(sg.size, v.cell) + Pos(left - sg.size, v.cell) == Pos(length, v.cell)
    {
      var sg := SegmentAt(v.t, a, left, idx, s, e);
      var rest := PlanOf()[idx - s..];
      assert rest[0] == sg && rest[1..] == PlanOf()[idx + 1 - s..];
      TilesHead(v.t, rest, a + length - left, left);
      PosAdd(sg.size, left - sg.size, v.cell);
    }

    lemma PlaceSegment(idx: nat, left: U16, at: nat)
      requires Legal() && Place(idx, left, at) && idx <= e
      ensures s <= idx < |v.t| && s < |v.t| && e < |v.t| && Contains(v.t[s], a) && idx - s < |PlanOf()|
      ensures PlanOf()[idx - s] == SegmentAt(v.t, a, left, idx, s, e)
      ensures var sg := SegmentAt(v.t, a, left, idx, s, e);
              && 1 <= sg.size <= left && sg.offset + sg.size <= v.t[idx].length
              && Left(left, sg.size) == left - sg.size
              && Place(idx + 1, left - sg.size, at + Pos(sg.size, v.cell))
              && at + Pos(sg.size, v.cell) <= Pos(length, v.cell)
    {
      hide PlanFrom, Tiles, SegmentAt, Pos, SpanRead.PlanOf, SpanRead.Legal;
      PlaceHead(idx, left, at);
      PlaceTiles(idx, left, at);
    }

    lemma Unfold(idx: nat, left: U16, at: nat, now: seq<Byte>)
      ensures Progress(idx, left, at, now) <==> Legal() && Place(idx, left, at) && Copied(idx, at, now)
    {
      hide SpanRead.Legal, SpanRead.Place, SpanRead.Copied;
    }

    lemma Advance(idx: nat, left: U16, at: nat, now: seq<Byte>, next: seq<Byte>)
      requires Progress(idx, left, at, now) && idx <= e && s <= idx < |v.t| && idx - s < |segs|
      requires segs[idx - s].idx < |v.queues|
      requires var size := SegmentAt(v.t, a, left, idx, s, e).size;
               var got := Bytes(v.Contents(), segs[idx - s], v.cell);
               |got| == Pos(size, v.cell) && at + |got| <= |now| && next == now[..at] + got + now[at + |got|..]
      ensures var size := SegmentAt(v.t, a, left, idx, s, e).size;
              Progress(idx + 1, Left(left, size), at + Pos(size, v.cell), next)
    {
      hide *;
      Unfold(idx, left, at, now);
      PlaceSegment(idx, left, at);
      CopiedNext(idx, at, now, next);
      var size := SegmentAt(v.t, a, left, idx, s, e).size;
      Unfold(idx + 1, left - size, at + Pos(size, v.cell), next);
    }

    lemma CopiedNext(idx: nat, at: nat, now: seq<Byte>, next: seq<Byte>)
      requires Legal() && Copied(idx, at, now) && idx <= e
      requires var got := Bytes(v.Contents(), segs[idx - s], v.cell);
               at + |got| <= |now| && next == now[..at] + got + now[at + |got|..]
      ensures Copied(idx + 1, at + |Bytes(v.Contents(), segs[idx - s], v.cell)|, next)
    {
      hide Overwritten, Collect, Bytes;
      CollectSnoc(v.Contents(), segs, idx - s, v.cell);
      OverwriteNext(before, Collect(v.Contents(), segs[..idx - s], v.cell),
                    Bytes(v.Contents(), segs[idx - s], v.cell), now, next);
    }

    lemma Stop(idx: nat, left: U16, at: nat, now: seq<Byte>)
      requires Progress(idx, left, at, now)
      ensures s <= idx <= e + 1 && InRange(segs, |v.queues|) && |segs| == e + 1 - s
      ensures Overwritten(before, Collect(v.Contents(), segs[..idx - s], v.cell), now)
    {
    }

    lemma NoneYet(polls: nat -> nat -> RQ.Poll)
      requires InRange(segs, |v.queues|)
      ensures v.NoneFails(segs, polls, 0)
    {
    }

    lemma OneMore(polls: nat -> nat -> RQ.Poll, done: nat)
      requires InRange(segs, |v.queues|) && done < |segs|
      requires v.NoneFails(segs, polls, done) && !v.Fails(segs[done], polls(done))
      ensures v.NoneFails(segs, polls, done + 1)
    {
    }

    lemma Failed(idx: nat, left: U16, at: nat, now: seq<Byte>, polls: nat -> nat -> RQ.Poll)
      requires Progress(idx, left, at, now) && s <= idx && idx - s < |segs| && InRange(segs, |v.queues|)
      requires v.NoneFails(segs, polls, idx - s) && v.Fails(segs[idx - s], polls(idx - s))
      ensures v.ReadThrough(segs, polls, idx - s, before, now)
    {
      Stop(idx, left, at, now);
    }

    lemma Finished(idx: nat, left: U16, at: nat, now: seq<Byte>, polls: nat -> nat -> RQ.Poll)
      requires Progress(idx, left, at, now) && idx == e + 1 && s <= idx && idx - s <= |segs|
      requires InRange(segs, |v.queues|) && v.NoneFails(segs, polls, idx - s)
      ensures idx - s == |segs| && v.ReadThrough(segs, polls, idx - s, before, now)
    {
      Stop(idx, left, at, now);
    }
  }

  // ---------------------------------------------------------------- what a read returns

  /** A successful read of a window inside the address space returns the flat view of it and nothing more,
      when each segment is taken from its own queue; and also as shipped, when one interval holds it all. */
  lemma SuccessfulRead(v: ListView, a: U16, length: U16, ownQueue: bool, polls: nat -> nat -> RQ.Poll, done: nat,
                       before: seq<Byte>, after: seq<Byte>)
    requires v.Legal() && ValidTable(v.t) && length >= 1 && a + length <= 0x1_0000 && Accepts(v.t, a, length)
    requires ownQueue || Search(v.t, a) == Search(v.t, LastAddress(a, length))
    requires v.ReadThrough(v.Segments(a, length, ownQueue), polls, done, before, after)
    requires done == |v.Segments(a, length, ownQueue)|
    ensures AllCovered(v.t, a, a + length - 1) && Sized(v.t, v.Contents(), v.cell)
    ensures Pos(length, v.cell) <= |before|
    ensures after == Flat(v.t, v.Contents(), v.cell, a, length) + before[Pos(length, v.cell)..]
  {
    hide *;
    var segs := v.Segments(a, length, ownQueue);
    v.LegalSized();
    ValidIsUsable(v.t, a, length);
    OwnSegments(v, a, length, ownQueue);
    PlanTiles(v.t, a, length);
    TilesDeliverFlat(v.t, v.Contents(), v.cell, segs, a, length);
    AllRead(v, segs, polls, before, after);
    OverwrittenIs(before, Collect(v.Contents(), segs, v.cell), after);
  }

  lemma OwnSegments(v: ListView, a: U16, length: U16, ownQueue: bool)
    requires length >= 1 && Accepts(v.t, a, length)
    requires ownQueue || Search(v.t, a) == Search(v.t, LastAddress(a, length))
    ensures var s, e := Search(v.t, a), Search(v.t, LastAddress(a, length));
            && 0 <= s < |v.t| && 0 <= e < |v.t|
            && v.Segments(a, length, ownQueue) == Plan(v.t, a, length, s, e)
  {
    var s, e := Search(v.t, a), Search(v.t, LastAddress(a, length));
    hide PlanFrom, Search, ListView.Legal;
    if s == e {
      assert Retarget(Plan(v.t, a, length, s, e), s) == Plan(v.t, a, length, s, e);
    }
  }

  /** When all segments succeed the destination begins with what they deliver. */
  lemma AllRead(v: ListView, segs: seq<Segment>, polls: nat -> nat -> RQ.Poll, before: seq<Byte>, after: seq<Byte>)
    requires v.ReadThrough(segs, polls, |segs|, before, after)
    ensures InRange(segs, |v.Contents()|) && Overwritten(before, Collect(v.Contents(), segs, v.cell), after)
  {
    hide Collect, ListView.Fails;
    assert segs[..|segs|] == segs;
  }

  /** List, polls and destination determine the outcome of a read, so every outcome that `ReadThrough` allows is
      what a read returns. */
  lemma OutcomeIsUnique(v: ListView, segs: seq<Segment>, polls: nat -> nat -> RQ.Poll, before: seq<Byte>,
                        done: nat, after: seq<Byte>, done': nat, after': seq<Byte>)
    requires v.ReadThrough(segs, polls, done, before, after)
    requires v.ReadThrough(segs, polls, done', before, after')
    ensures done == done' && after == after'
  {
    hide Collect, ListView.Fails;
    assert !(done < done') && !(done' < done);
  }

  lemma OverwrittenIs(before: seq<Byte>, got: seq<Byte>, after: seq<Byte>)
    ensures Overwritten(before, got, after) <==> |got| <= |before| && after == got + before[|got|..]
  {
  }

  /** Segments that tile a window never ask for more than their units hold. */
  lemma {:induction false} SegmentsFitTheirUnits(v: ListView, segs: seq<Segment>, a: int, length: int, k: nat)
    requires v.Legal() && Tiles(v.t, segs, a, length) && k < |segs|
    ensures segs[k].idx < |v.queues|
    ensures Pos(segs[k].offset, v.cell) + Pos(segs[k].size, v.cell) <= v.queues[segs[k].idx].unitSize
    decreases k
  {
    TilesHead(v.t, segs, a, length);
    if k == 0 {
      PosAdd(segs[0].offset, segs[0].size, v.cell);
      PosBounds(segs[0].offset + segs[0].size, v.t[segs[0].idx].length, v.cell);
    } else {
      SegmentsFitTheirUnits(v, segs[1..], a + segs[0].size, length - segs[0].size, k - 1);
    }
  }

  /** A window that runs past 0xFFFF is accepted when its first address and its truncated last address are
      covered, and then nothing is read: the call reports success without writing a byte when the two ends lie
      in different intervals, and a failed queue when they lie in one. */
  lemma WrappedWindow(v: ListView, a: U16, length: U16, ownQueue: bool, polls: nat -> nat -> RQ.Poll, done: nat,
                      before: seq<Byte>, after: seq<Byte>)
    requires v.Legal() && length >= 1 && a + length > 0x1_0000 && Accepts(v.t, a, length) && Usable(v.t, a, length)
    requires v.ReadThrough(v.Segments(a, length, ownQueue), polls, done, before, after)
    ensures after == before && done == 0
    ensures |v.Segments(a, length, ownQueue)| == 0 <==> Search(v.t, a) != Search(v.t, LastAddress(a, length))
  {
    hide Search, PlanFrom, ListView.Legal;
    var s, e := Search(v.t, a), Search(v.t, LastAddress(a, length));
    var segs := v.Segments(a, length, ownQueue);
    if s < e {
      WindowIsInside(v.t, a, length, s, e);
    }
    assert segs[..0] == [];
    if s == e {
      var sg := Segment(s, a - v.t[s].start, length);
      assert segs == [sg];
      BeyondTheUnit(v, sg, polls(0));
    } else {
      assert segs == [];
    }
  }

  lemma BeyondTheUnit(v: ListView, sg: Segment, polls: nat -> RQ.Poll)
    requires v.Legal() && sg.idx < |v.t| && sg.offset + sg.size > v.t[sg.idx].length
    ensures sg.idx < |v.queues| && v.Fails(sg, polls)
  {
    PosAdd(sg.offset, sg.size, v.cell);
    PosStrict(v.t[sg.idx].length, sg.offset + sg.size, v.cell);
  }

  /** With each segment read from its own queue, reading a covered window inside the address space fails only
      where a queue is not in use or stays busy for all its polls. */
  lemma OwnQueueFailsIff(v: ListView, a: U16, length: U16, k: nat, polls: nat -> RQ.Poll)
    requires v.Legal() && length >= 1 && a + length <= 0x1_0000 && Accepts(v.t, a, length)
    requires Usable(v.t, a, length)
    requires k < |v.Segments(a, length, true)|
    ensures var sg := v.Segments(a, length, true)[k];
            && sg.idx < |v.queues|
            && (v.Fails(sg, polls) <==>
                 !v.queues[sg.idx].ready
                 || forall n: nat :: n <= v.queues[sg.idx].timeout ==> RQ.BusyForGet(polls(n)))
  {
    PlanTiles(v.t, a, length);
    SegmentsFitTheirUnits(v, v.Segments(a, length, true), a, length, k);
  }
}
