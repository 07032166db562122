/** What a poll of the holders means: the two counters tell which threads are inside their copy sections, so the
    decision of a poll is a statement about where the other threads are. And how often a call polls. */
module RingPolls {
  import opened RingSpec
  import opened RingProtocol
  import opened RingTornRead
  import RQ = RingQueue
  import Modular

  // ---------------------------------------------------------------- one poll

  /** The counters of a unit, read off the program counters of the threads. */
  lemma HoldersTell(c: Config, init: seq<seq<Byte>>, s: State, u: nat)
    requires Inv(c, init, s) && u < c.unitNum
    ensures u < |s.units|
    ensures s.units[u].read == HolderCount(s.readers, u) <= MAX_READERS
    ensures s.units[u].write == if Writing(s.writer, u) then 1 else 0
  {
    hide HolderCount;
    assert UnitInv(c, init[u], s, u);
  }

  /** In every state of a run, the test of a get finds a unit busy exactly when 255 readers or the writer are copying in
      it, and the test of a put exactly when any thread is. */
  lemma BusyMeansCopying(c: Config, init: seq<seq<Byte>>, s: State, u: nat)
    requires Inv(c, init, s) && u < c.unitNum
    ensures u < |s.units|
    ensures RQ.BusyForGet(RQ.Poll(s.units[u].read, s.units[u].write))
       <==> HolderCount(s.readers, u) == 255 || Writing(s.writer, u)
    ensures RQ.BusyForPut(RQ.Poll(s.units[u].read, s.units[u].write))
       <==> HolderCount(s.readers, u) > 0 || Writing(s.writer, u)
  {
    HoldersTell(c, init, s, u);
  }

  lemma ReaderUnit(c: Config, s: State, r: nat)
    requires Shape(c, s) && r < |s.readers| && (Waiting(s.readers[r]) || Holding(s.readers[r]))
    ensures s.readers[r].unit < c.unitNum == |s.units|
  {
  }

  /** The first half of a reader's poll sees how many readers are copying. */
  lemma ReaderSees(c: Config, init: seq<seq<Byte>>, s: State, r: nat)
    requires Inv(c, init, s) && Shape(c, s) && r < |s.readers| && s.readers[r].RPollRead?
    ensures var rd := s.readers[r];
            Apply(c, s, ReaderStep(r)).readers[r]
            == RPollWrite(rd.req, rd.unit, rd.waited, HolderCount(s.readers, rd.unit))
  {
    ReaderUnit(c, s, r);
    HoldersTell(c, init, s, s.readers[r].unit);
  }

  /** The second half decides: the reader goes on to its increment if and only if it saw fewer than 255 readers and
      the writer is not copying into the unit. Otherwise it polls again, or gives up without a byte. */
  lemma ReaderDecides(c: Config, init: seq<seq<Byte>>, s: State, r: nat)
    requires Inv(c, init, s) && Shape(c, s) && r < |s.readers| && s.readers[r].RPollWrite?
    ensures var rd, after := s.readers[r], Apply(c, s, ReaderStep(r)).readers[r];
            && (after == RClaim(rd.req, rd.unit) <==> rd.seenRead != 255 && !Writing(s.writer, rd.unit))
            && (after != RClaim(rd.req, rd.unit) ==>
                 after == if rd.waited < c.timeout then RPollRead(rd.req, rd.unit, rd.waited + 1) else RIdle(4, []))
  {
    ReaderUnit(c, s, r);
    HoldersTell(c, init, s, s.readers[r].unit);
  }

  /** The writer looks at the unit after the published one. */
  lemma WriterAims(c: Config, init: seq<seq<Byte>>, s: State)
    requires Inv(c, init, s) && Shape(c, s) && s.writer.WLoadLatest?
    ensures var w := s.writer;
            Apply(c, s, WriterStep).writer == WPollRead(w.put, w.waited, (|s.history| + 1) % c.unitNum)
  {
    Modular.ModSucc(|s.history|, c.unitNum);
  }

  lemma WriterSees(c: Config, init: seq<seq<Byte>>, s: State)
    requires Inv(c, init, s) && Shape(c, s) && s.writer.WPollRead?
    ensures var w := s.writer;
            Apply(c, s, WriterStep).writer == WPollWrite(w.put, w.waited, w.target, HolderCount(s.readers, w.target))
  {
    HoldersTell(c, init, s, s.writer.target);
  }

  /** The writer goes on to its claim if and only if it saw no reader copying: it is never copying itself when it
      polls. */
  lemma WriterDecides(c: Config, init: seq<seq<Byte>>, s: State)
    requires Inv(c, init, s) && Shape(c, s) && s.writer.WPollWrite?
    ensures var w, after := s.writer, Apply(c, s, WriterStep).writer;
            && (after == WClaim(w.put, w.target) <==> w.seenRead == 0)
            && (after != WClaim(w.put, w.target) ==>
                 after == if w.waited < c.timeout then WLoadLatest(w.put, w.waited + 1) else WIdle(4))
  {
    HoldersTell(c, init, s, s.writer.target);
  }

  /** A get beyond the unit is refused at once, any other begins with the load of the latest index. */
  lemma GetBegins(c: Config, s: State, r: nat, q: Request)
    requires Shape(c, s) && r < |s.readers| && s.readers[r].RIdle?
    ensures Apply(c, s, StartGet(r, q)) == s.(readers := s.readers[r := Apply(c, s, StartGet(r, q)).readers[r]])
    ensures Apply(c, s, StartGet(r, q)).readers[r]
         == if q.offset + q.size > c.unitSize then RIdle(1, []) else RLoadLatest(q)
  {
  }

  /** A put beyond the unit is refused at once, any other begins with the load of the latest index. */
  lemma PutBegins(c: Config, s: State, p: Put)
    requires Shape(c, s) && s.writer.WIdle?
    ensures Apply(c, s, StartPut(p)) == s.(writer := Apply(c, s, StartPut(p)).writer)
    ensures Apply(c, s, StartPut(p)).writer
         == if p.offset + |p.src| > c.unitSize then WIdle(1) else WLoadLatest(p, 0)
  {
  }

  /** In any state, also one that a second writer has left behind, a poll of the writer passes only when both counters
      are 0. */
  lemma WriterTestsBoth(c: Config, s: State)
    requires Shape(c, s) && s.writer.WPollWrite?
    ensures s.writer.target < |s.units|
    ensures Apply(c, s, WriterStep).writer.WClaim? <==> s.writer.seenRead == 0 && s.units[s.writer.target].write == 0
  {
  }

  // ---------------------------------------------------------------- all polls of a get

  predicate Polling(rd: Reader) {
    rd.RPollRead? || rd.RPollWrite?
  }

  /** Step `m` is the second half of a poll of reader `r`, and the unit is taken: it had seen 255 readers, or the
      writer is copying. */
  ghost predicate BusyPoll(c: Config, s: State, acts: seq<Action>, r: nat, m: nat)
    requires Shape(c, s) && m < |acts| && r < |s.readers|
  {
    var now := At(c, s, acts, m);
    && acts[m] == ReaderStep(r) && now.readers[r].RPollWrite?
    && (now.readers[r].seenRead == 255 || Writing(now.writer, now.readers[r].unit))
  }

  ghost function BusyPolls(c: Config, s: State, acts: seq<Action>, r: nat, i: nat, k: nat): nat
    requires Shape(c, s) && k <= |acts| && r < |s.readers|
  {
    if k <= i then 0 else BusyPolls(c, s, acts, r, i, k - 1) + if BusyPoll(c, s, acts, r, k - 1) then 1 else 0
  }

  /** The steps of reader `r` itself from step `i` on. */
  ghost function OwnSteps(acts: seq<Action>, r: nat, i: nat, k: nat): nat
    requires k <= |acts|
  {
    if k <= i then 0 else OwnSteps(acts, r, i, k - 1) + if acts[k - 1] == ReaderStep(r) then 1 else 0
  }

  /** Reader `r` loads the latest index at step `i` and is polling from then until before step `k`. */
  ghost predicate PollsFrom(c: Config, s: State, acts: seq<Action>, r: nat, i: nat, k: nat)
    requires Shape(c, s)
  {
    && i < k <= |acts| && r < |s.readers|
    && acts[i] == ReaderStep(r) && At(c, s, acts, i).readers[r].RLoadLatest?
    && forall m :: i < m <= k ==> Polling(At(c, s, acts, m).readers[r])
  }

  /** The waiting counter has counted the busy polls, each of them two operations of the reader. */
  ghost predicate Counted(c: Config, s: State, acts: seq<Action>, r: nat, i: nat, k: nat)
    requires Shape(c, s) && k <= |acts| && r < |s.readers|
  {
    var rd := At(c, s, acts, k).readers[r];
    && Polling(rd) && rd.waited == BusyPolls(c, s, acts, r, i, k) <= c.timeout
    && OwnSteps(acts, r, i, k) == 1 + 2 * rd.waited + if rd.RPollWrite? then 1 else 0
  }

  lemma {:induction false} PollsAreCounted(
    c: Config, init: seq<seq<Byte>>, s: State, acts: seq<Action>, r: nat, i: nat, k: nat)
    requires Initial(c, init, s) && Shape(c, s) && PollsFrom(c, s, acts, r, i, k)
    ensures Counted(c, s, acts, r, i, k)
    decreases k
  {
    hide Counted, At, Exec, Apply, Shape, Initial, Inv;
    if k == i + 1 {
      FirstPoll(c, s, acts, r, i);
    } else {
      PollsAreCounted(c, init, s, acts, r, i, k - 1);
      AtInv(c, init, s, acts, k - 1);
      NextPoll(c, init, s, acts, r, i, k - 1);
    }
  }

  lemma FirstPoll(c: Config, s: State, acts: seq<Action>, r: nat, i: nat)
    requires Shape(c, s) && i < |acts| && r < |s.readers|
    requires acts[i] == ReaderStep(r) && At(c, s, acts, i).readers[r].RLoadLatest?
    ensures Counted(c, s, acts, r, i, i + 1)
  {
    hide At, Exec, Apply, Shape;
    AtStep(c, s, acts, i);
    LoadChooses(c, At(c, s, acts, i), r);
    assert BusyPolls(c, s, acts, r, i, i) == 0 && OwnSteps(acts, r, i, i) == 0;
  }

  lemma NextPoll(c: Config, init: seq<seq<Byte>>, s: State, acts: seq<Action>, r: nat, i: nat, k: nat)
    requires Shape(c, s) && i < k < |acts| && r < |s.readers| && Counted(c, s, acts, r, i, k)
    requires Inv(c, init, At(c, s, acts, k)) && Polling(At(c, s, acts, k + 1).readers[r])
    ensures Counted(c, s, acts, r, i, k + 1)
  {
    hide At, Exec, Apply, Shape, Inv, HolderCount;
    var now := At(c, s, acts, k);
    AtStep(c, s, acts, k);
    if acts[k] != ReaderStep(r) {
      ReaderFrame(c, now, acts[k], r);
    } else if now.readers[r].RPollRead? {
      ReaderSees(c, init, now, r);
    } else {
      ReaderDecides(c, init, now, r);
    }
  }

  /** Whatever the other threads do, a get times out, without a byte, exactly when timeout + 1 of its polls found the
      unit taken; it goes on to its increment exactly at a poll that did not; and it makes no more polls than that. */
  lemma GetPollsBounded(
    c: Config, init: seq<seq<Byte>>, s: State, acts: seq<Action>, r: nat, i: nat, k: nat)
    requires Initial(c, init, s) && Shape(c, s) && PollsFrom(c, s, acts, r, i, k)
    requires k < |acts| && acts[k] == ReaderStep(r)
    ensures var before, after := At(c, s, acts, k).readers[r], At(c, s, acts, k + 1).readers[r];
            && (after == RIdle(4, []) <==> BusyPolls(c, s, acts, r, i, k + 1) == c.timeout + 1)
            && (after == RClaim(before.req, before.unit)
                <==> before.RPollWrite? && !BusyPoll(c, s, acts, r, k))
            && (after == RIdle(4, []) || after == RClaim(before.req, before.unit) || Polling(after))
            && OwnSteps(acts, r, i, k + 1) <= 2 * c.timeout + 3
  {
    hide At, Exec, Apply, Shape, Inv, HolderCount, Initial;
    var now := At(c, s, acts, k);
    PollsAreCounted(c, init, s, acts, r, i, k);
    AtInv(c, init, s, acts, k);
    AtStep(c, s, acts, k);
    if now.readers[r].RPollRead? {
      ReaderSees(c, init, now, r);
    } else {
      ReaderDecides(c, init, now, r);
    }
  }

  // ---------------------------------------------------------------- all polls of a put

  predicate PutPolling(w: Writer) {
    w.WLoadLatest? || w.WPollRead? || w.WPollWrite?
  }

  /** Step `m` is the second half of a poll of the writer, and a reader was copying when it looked. */
  ghost predicate PutBusyPoll(c: Config, s: State, acts: seq<Action>, m: nat)
    requires Shape(c, s) && m < |acts|
  {
    var w := At(c, s, acts, m).writer;
    acts[m] == WriterStep && w.WPollWrite? && w.seenRead > 0
  }

  ghost function PutBusyPolls(c: Config, s: State, acts: seq<Action>, i: nat, k: nat): nat
    requires Shape(c, s) && k <= |acts|
  {
    if k <= i then 0 else PutBusyPolls(c, s, acts, i, k - 1) + if PutBusyPoll(c, s, acts, k - 1) then 1 else 0
  }

  /** The put `p` is accepted at step `i`, and the writer is polling from then until before step `k`. */
  ghost predicate PutPollsFrom(c: Config, s: State, acts: seq<Action>, p: Put, i: nat, k: nat)
    requires Shape(c, s)
  {
    && i < k <= |acts| && p.Fits(c.unitSize)
    && acts[i] == StartPut(p) && At(c, s, acts, i).writer.WIdle?
    && forall m :: i < m <= k ==> PutPolling(At(c, s, acts, m).writer)
  }

  ghost predicate PutCounted(c: Config, s: State, acts: seq<Action>, p: Put, i: nat, k: nat)
    requires Shape(c, s) && k <= |acts|
  {
    var w := At(c, s, acts, k).writer;
    PutPolling(w) && w.put == p && w.waited == PutBusyPolls(c, s, acts, i, k) <= c.timeout
  }

  lemma WriterFrame(c: Config, s: State, a: Action)
    requires Shape(c, s) && !s.writer.WIdle? && a != WriterStep
    ensures Apply(c, s, a).writer == s.writer
  {
  }

  lemma PutStarts(c: Config, s: State, p: Put)
    requires Shape(c, s) && s.writer.WIdle? && p.Fits(c.unitSize)
    ensures Apply(c, s, StartPut(p)).writer == WLoadLatest(p, 0)
  {
  }

  lemma {:induction false} PutPollsAreCounted(
    c: Config, init: seq<seq<Byte>>, s: State, acts: seq<Action>, p: Put, i: nat, k: nat)
    requires Initial(c, init, s) && Shape(c, s) && PutPollsFrom(c, s, acts, p, i, k)
    ensures PutCounted(c, s, acts, p, i, k)
    decreases k
  {
    hide At, Exec, Apply, Shape, Initial, Inv;
    AtStep(c, s, acts, k - 1);
    if k == i + 1 {
      PutStarts(c, At(c, s, acts, i), p);
      assert PutBusyPolls(c, s, acts, i, i) == 0;
    } else {
      PutPollsAreCounted(c, init, s, acts, p, i, k - 1);
      AtInv(c, init, s, acts, k - 1);
      NextPutPoll(c, init, s, acts, p, i, k - 1);
    }
  }

  lemma NextPutPoll(c: Config, init: seq<seq<Byte>>, s: State, acts: seq<Action>, p: Put, i: nat, k: nat)
    requires Shape(c, s) && i < k < |acts| && PutCounted(c, s, acts, p, i, k)
    requires Inv(c, init, At(c, s, acts, k)) && PutPolling(At(c, s, acts, k + 1).writer)
    ensures PutCounted(c, s, acts, p, i, k + 1)
  {
    hide At, Exec, Apply, Shape, Inv, HolderCount;
    var now := At(c, s, acts, k);
    AtStep(c, s, acts, k);
    if acts[k] != WriterStep {
      WriterFrame(c, now, acts[k]);
    } else if now.writer.WLoadLatest? {
      WriterAims(c, init, now);
    } else if now.writer.WPollRead? {
      WriterSees(c, init, now);
    } else {
      WriterDecides(c, init, now);
    }
  }

  /** A put times out exactly when timeout + 1 of its polls found a reader copying, and goes on to its claim exactly at
      a poll that did not. */
  lemma PutPollsBounded(c: Config, init: seq<seq<Byte>>, s: State, acts: seq<Action>, p: Put, i: nat, k: nat)
    requires Initial(c, init, s) && Shape(c, s) && PutPollsFrom(c, s, acts, p, i, k)
    requires k < |acts| && acts[k] == WriterStep
    ensures var before, after := At(c, s, acts, k).writer, At(c, s, acts, k + 1).writer;
            && (after == WIdle(4) <==> PutBusyPolls(c, s, acts, i, k + 1) == c.timeout + 1)
            && (after.WClaim? <==> before.WPollWrite? && !PutBusyPoll(c, s, acts, k))
            && (after == WIdle(4) || after.WClaim? || PutPolling(after))
  {
    hide At, Exec, Apply, Shape, Inv, HolderCount, Initial;
    var now := At(c, s, acts, k);
    PutPollsAreCounted(c, init, s, acts, p, i, k);
    AtInv(c, init, s, acts, k);
    AtStep(c, s, acts, k);
    if now.writer.WLoadLatest? {
      WriterAims(c, init, now);
    } else if now.writer.WPollRead? {
      WriterSees(c, init, now);
    } else {
      WriterDecides(c, init, now);
    }
  }
}
