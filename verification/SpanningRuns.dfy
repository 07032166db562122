/** A spanning read while other threads go on publishing. Each queue has a run of its own, in which the get of one
    segment is a part; the runs share no state, so every interleaving of the threads is a choice of runs. */
module SpanningRuns {
  import opened RingSpec
  import opened RingProtocol
  import opened RingTornRead
  import opened IntervalTable
  import opened FlatView

  /** A queue from its initialisation on. */
  datatype QueueRun = QueueRun(c: Config, init: seq<seq<Byte>>, s: State, acts: seq<Action>) {
    ghost predicate Legal() {
      var legal := Initial(c, init, s) && Shape(c, s);
      legal
    }

    /** What is published before step `i`. */
    ghost function PublishedAt(i: nat): (unit: seq<Byte>)
      requires Legal() && i <= |acts|
      ensures |unit| == c.unitSize
    {
      AtInv(c, init, s, acts, i);
      Current(init, At(c, s, acts, i).history, c.unitSize)
    }
  }

  /** A whole get: reader `r` loads the latest index at step `i`, increments at `j` and decrements at `k`. */
  datatype Get = Get(r: nat, i: nat, j: nat, k: nat)

  /** In `run` the get reads the window `q`, with few enough stores between its load and its increment. */
  ghost predicate Gets(run: QueueRun, g: Get, q: Request) {
    && run.Legal() && GetRun(run.c, run.s, run.acts, g.r, g.i, g.j, g.k)
    && StoresBetween(run.c, run.s, run.acts, g.i, g.j) < run.c.unitNum - 1
    && g.k < |run.acts| && run.acts[g.k] == ReaderStep(g.r)
    && At(run.c, run.s, run.acts, g.k).readers[g.r].RRelease?
    && At(run.c, run.s, run.acts, g.i).readers[g.r].req == q
  }

  /** The bytes the get has copied to its caller. */
  ghost function Result(run: QueueRun, g: Get, q: Request): (bytes: seq<Byte>)
    requires Gets(run, g, q)
  {
    var rd := At(run.c, run.s, run.acts, g.k + 1).readers[g.r];
    if rd.RIdle? then rd.result else []
  }

  lemma ResultIsWindow(run: QueueRun, g: Get, q: Request)
    requires Gets(run, g, q)
    ensures g.i <= |run.acts| && q.offset + q.size <= run.c.unitSize
    ensures Result(run, g, q) == run.PublishedAt(g.i)[q.offset..q.offset + q.size]
  {
    GetIsLinearizable(run.c, run.init, run.s, run.acts, g.r, g.i, g.j, g.k);
    RequestFits(run.c, At(run.c, run.s, run.acts, g.i), g.r);
  }

  lemma RequestFits(c: Config, s: State, r: nat)
    requires Shape(c, s) && r < |s.readers| && s.readers[r].RLoadLatest?
    ensures s.readers[r].req.offset + s.readers[r].req.size <= c.unitSize
  {
  }

  // ---------------------------------------------------------------- the segments

  function RequestOf(sg: Segment, cell: nat): Request {
    Request(Pos(sg.offset, cell), Pos(sg.size, cell))
  }

  /** Every segment is got from its own interval's queue. */
  ghost predicate AllGot(runs: seq<QueueRun>, segs: seq<Segment>, gets: seq<Get>, cell: nat) {
    |gets| == |segs| && InRange(segs, |runs|)
    && forall k :: 0 <= k < |segs| ==> Gets(runs[segs[k].idx], gets[k], RequestOf(segs[k], cell))
  }

  /** What the read delivers, segment after segment. */
  ghost function Delivered(runs: seq<QueueRun>, segs: seq<Segment>, gets: seq<Get>, cell: nat): seq<Byte>
    requires AllGot(runs, segs, gets, cell)
  {
    if segs == [] then []
    else
      var k := |segs| - 1;
      Delivered(runs, segs[..k], gets[..k], cell)
      + Result(runs[segs[k].idx], gets[k], RequestOf(segs[k], cell))
  }

  lemma {:induction false} DeliveredIsCollect(
    runs: seq<QueueRun>, segs: seq<Segment>, gets: seq<Get>, cell: nat, contents: seq<seq<Byte>>)
    requires AllGot(runs, segs, gets, cell) && InRange(segs, |contents|)
    requires forall k :: 0 <= k < |segs| ==>
               Result(runs[segs[k].idx], gets[k], RequestOf(segs[k], cell)) == Bytes(contents, segs[k], cell)
    ensures Delivered(runs, segs, gets, cell) == Collect(contents, segs, cell)
  {
    hide Gets, Result, Bytes, RequestOf;
    if segs != [] {
      var k := |segs| - 1;
      DeliveredIsCollect(runs, segs[..k], gets[..k], cell, contents);
    }
  }

  /** The table's queues: one run for each interval, with units of its size. */
  ghost predicate Serves(runs: seq<QueueRun>, t: Table, cell: nat) {
    && |runs| == |t|
    && forall i :: 0 <= i < |t| ==> runs[i].Legal() && runs[i].c.unitSize == Pos(t[i].length, cell)
  }

  /** The gets are of the queues from `s` on, in order. */
  ghost predicate Loaded(runs: seq<QueueRun>, s: nat, gets: seq<Get>) {
    && s + |gets| <= |runs|
    && forall k :: 0 <= k < |gets| ==> runs[s + k].Legal() && gets[k].i <= |runs[s + k].acts|
  }

  ghost function UnitAtLoad(run: QueueRun, i: nat): (unit: seq<Byte>)
    ensures |unit| == run.c.unitSize
  {
    if run.Legal() && i <= |run.acts| then run.PublishedAt(i) else seq(run.c.unitSize, _ => 0)
  }

  /** The step at which the get of queue `i` loaded the latest index. */
  function LoadOf(s: nat, gets: seq<Get>, i: nat): nat {
    if s <= i < s + |gets| then gets[i - s].i else 0
  }

  /** Each unit as it was published when its get loaded the latest index; the queues that are not read do not
      matter. */
  ghost function UnitsAtLoads(runs: seq<QueueRun>, s: nat, gets: seq<Get>): (contents: seq<seq<Byte>>)
    ensures |contents| == |runs| && forall i :: 0 <= i < |runs| ==> |contents[i]| == runs[i].c.unitSize
    ensures forall i :: 0 <= i < |runs| ==> contents[i] == UnitAtLoad(runs[i], LoadOf(s, gets, i))
  {
    seq(|runs|, i requires 0 <= i < |runs| => UnitAtLoad(runs[i], LoadOf(s, gets, i)))
  }

  lemma {:induction false} PlanFromInOrder(t: Table, a: U16, left: U16, idx: nat, s: nat, e: nat, k: nat)
    requires idx <= e + 1 && s < |t| && e < |t| && k < |PlanFrom(t, a, left, idx, s, e)|
    ensures PlanFrom(t, a, left, idx, s, e)[k].idx == idx + k <= e
    decreases k
  {
    if k > 0 {
      PlanFromInOrder(t, a, Left(left, SegmentAt(t, a, left, idx, s, e).size), idx + 1, s, e, k - 1);
    }
  }

  ghost predicate InOrder(segs: seq<Segment>, s: nat) {
    forall k :: 0 <= k < |segs| ==> segs[k].idx == s + k
  }

  lemma PlanInOrder(t: Table, a: U16, length: U16, s: nat, e: nat)
    requires s < |t| && e < |t| && Contains(t[s], a)
    ensures InOrder(Plan(t, a, length, s, e), s)
  {
    hide PlanFrom;
    if s < e {
      var plan := PlanFrom(t, a, length, s, s, e);
      forall k | 0 <= k < |plan| ensures plan[k].idx == s + k {
        PlanFromInOrder(t, a, length, s, s, e, k);
      }
    }
  }

  lemma GetIsInRun(run: QueueRun, g: Get, q: Request)
    requires Gets(run, g, q)
    ensures run.Legal() && g.i <= |run.acts|
  {
  }

  lemma GotIsLoaded(runs: seq<QueueRun>, segs: seq<Segment>, gets: seq<Get>, cell: nat, s: nat)
    requires AllGot(runs, segs, gets, cell) && InOrder(segs, s) && s < |runs|
    ensures Loaded(runs, s, gets)
  {
    hide Gets, Result, QueueRun.Legal;
    if segs != [] {
      var last := |segs| - 1;
      assert segs[last].idx == s + last < |runs|;
    }
    forall k | 0 <= k < |gets| ensures runs[s + k].Legal() && gets[k].i <= |runs[s + k].acts| {
      assert segs[k].idx == s + k;
      GetIsInRun(runs[segs[k].idx], gets[k], RequestOf(segs[k], cell));
    }
  }

  lemma ResultsAreBytes(runs: seq<QueueRun>, segs: seq<Segment>, gets: seq<Get>, cell: nat, s: nat)
    requires AllGot(runs, segs, gets, cell) && InOrder(segs, s) && Loaded(runs, s, gets)
    ensures Delivered(runs, segs, gets, cell) == Collect(UnitsAtLoads(runs, s, gets), segs, cell)
  {
    hide Gets, Result, Bytes, Collect, Delivered, RequestOf, UnitsAtLoads, UnitAtLoad, QueueRun.Legal;
    var contents := UnitsAtLoads(runs, s, gets);
    forall k | 0 <= k < |segs|
      ensures Result(runs[segs[k].idx], gets[k], RequestOf(segs[k], cell)) == Bytes(contents, segs[k], cell)
    {
      assert contents[s + k] == UnitAtLoad(runs[s + k], gets[k].i);
      SegmentResult(runs[segs[k].idx], gets[k], segs[k], cell, contents);
    }
    DeliveredIsCollect(runs, segs, gets, cell, contents);
  }

  lemma ServesSized(runs: seq<QueueRun>, t: Table, cell: nat, contents: seq<seq<Byte>>)
    requires Serves(runs, t, cell)
    requires |contents| == |runs| && forall i :: 0 <= i < |runs| ==> |contents[i]| == runs[i].c.unitSize
    ensures Sized(t, contents, cell) && |runs| == |t|
  {
    hide QueueRun.Legal;
  }

  /** With each segment read from its own queue, and fewer than n - 1 stores between load and increment in each, a
      read returns the flat register space in which every interval shows what was published at the load of its own
      segment, whatever is published before, between and after. */
  lemma SpanningReadAtLoads(runs: seq<QueueRun>, t: Table, cell: nat, a: U16, length: U16,
                            s: nat, e: nat, gets: seq<Get>)
    requires ValidTable(t) && Serves(runs, t, cell)
    requires length >= 1 && a + length <= 0x1_0000 && Accepts(t, a, length)
    requires s == Search(t, a) && e == Search(t, LastAddress(a, length))
    requires s < |t| && e < |t| && Contains(t[s], a)
    requires AllGot(runs, Plan(t, a, length, s, e), gets, cell)
    ensures AllCovered(t, a, a + length - 1) && Loaded(runs, s, gets)
    ensures Sized(t, UnitsAtLoads(runs, s, gets), cell)
    ensures Delivered(runs, Plan(t, a, length, s, e), gets, cell)
         == Flat(t, UnitsAtLoads(runs, s, gets), cell, a, length)
  {
    hide *;
    var segs := Plan(t, a, length, s, e);
    ServesSized(runs, t, cell, seq(|runs|, i requires 0 <= i < |runs| => seq(runs[i].c.unitSize, _ => 0)));
    PlanInOrder(t, a, length, s, e);
    GotIsLoaded(runs, segs, gets, cell, s);
    ResultsAreBytes(runs, segs, gets, cell, s);
    ServesSized(runs, t, cell, UnitsAtLoads(runs, s, gets));
    ValidIsUsable(t, a, length);
    PlanTiles(t, a, length);
    TilesDeliverFlat(t, UnitsAtLoads(runs, s, gets), cell, segs, a, length);
  }

  lemma SegmentResult(run: QueueRun, g: Get, sg: Segment, cell: nat, contents: seq<seq<Byte>>)
    requires Gets(run, g, RequestOf(sg, cell)) && sg.idx < |contents|
    requires g.i <= |run.acts| && run.Legal() && contents[sg.idx] == UnitAtLoad(run, g.i)
    ensures Result(run, g, RequestOf(sg, cell)) == Bytes(contents, sg, cell)
  {
    hide Gets, Result, QueueRun.PublishedAt;
    ResultIsWindow(run, g, RequestOf(sg, cell));
  }
}
