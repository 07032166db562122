/** The ring shared by one writer thread and many reader threads, one atomic operation or one copied byte
    a step. A run is any list of actions, so a theorem about every list is about every interleaving. */
module RingProtocol {
  import opened RingSpec
  import Modular

  /** The fixed parameters of an initialised queue. */
  datatype Config = Config(unitNum: nat, unitSize: nat, timeout: nat)

  /** `read` and `write` are the 8-bit holder counters. */
  datatype Unit = Unit(read: nat, write: nat, buf: seq<Byte>)

  datatype Request = Request(offset: nat, size: nat)

  /** Where the writer is inside `put`; each constructor is the next operation it will execute. */
  datatype Writer =
    | WIdle(status: nat)
    | WLoadLatest(put: Put, waited: nat)
    | WPollRead(put: Put, waited: nat, target: nat)
    | WPollWrite(put: Put, waited: nat, target: nat, seenRead: nat)
    | WClaim(put: Put, target: nat)
    | WCopy(put: Put, target: nat, copied: nat)
    | WRelease(put: Put, target: nat)
    | WPublish(put: Put, target: nat)

  /** Where a reader is inside `get`. The unit is chosen once, before the polling loop. */
  datatype Reader =
    | RIdle(status: nat, result: seq<Byte>)
    | RLoadLatest(req: Request)
    | RPollRead(req: Request, unit: nat, waited: nat)
    | RPollWrite(req: Request, unit: nat, waited: nat, seenRead: nat)
    | RClaim(req: Request, unit: nat)
    | RCopy(req: Request, unit: nat, dst: seq<Byte>)
    | RRelease(req: Request, unit: nat, dst: seq<Byte>)

  /** `history` is not in memory: it records the puts whose index has been stored to `latest`. */
  datatype State = State(latest: nat, units: seq<Unit>, writer: Writer, readers: seq<Reader>, history: seq<Put>)

  datatype Action = StartPut(put: Put) | WriterStep | StartGet(r: nat, req: Request) | ReaderStep(r: nat)

  const STATUS_OK: nat := 0
  const STATUS_BAD_ARGUMENT: nat := 1
  const STATUS_TIMEOUT: nat := 4
  const MAX_READERS: nat := 255

  predicate HasTarget(w: Writer) {
    !w.WIdle? && !w.WLoadLatest?
  }

  /** The reader has chosen its unit but not yet raised the holder counter. */
  predicate Waiting(rd: Reader) {
    rd.RPollRead? || rd.RPollWrite? || rd.RClaim?
  }

  /** The reader is between its increment and its decrement of the holder counter. */
  predicate Holding(rd: Reader) {
    rd.RCopy? || rd.RRelease?
  }

  ghost predicate WriterShape(c: Config, w: Writer) {
    && (!w.WIdle? ==> w.put.Fits(c.unitSize))
    && (HasTarget(w) ==> w.target < c.unitNum)
    && (w.WCopy? ==> w.copied <= |w.put.src|)
  }

  ghost predicate ReaderShape(c: Config, rd: Reader) {
    && (!rd.RIdle? ==> rd.req.offset + rd.req.size <= c.unitSize)
    && (Waiting(rd) || Holding(rd) ==> rd.unit < c.unitNum)
    && (rd.RCopy? ==> |rd.dst| <= rd.req.size)
    && (rd.RRelease? ==> |rd.dst| == rd.req.size)
  }

  ghost predicate Shape(c: Config, s: State) {
    && c.unitNum > 0
    && |s.units| == c.unitNum && s.latest < c.unitNum
    && (forall u :: 0 <= u < |s.units| ==> |s.units[u].buf| == c.unitSize)
    && WriterShape(c, s.writer)
    && (forall r :: 0 <= r < |s.readers| ==> ReaderShape(c, s.readers[r]))
    && AllFit(s.history, c.unitSize)
  }

  /** One operation of the writer. */
  function WriterNext(c: Config, s: State): (s': State)
    requires Shape(c, s)
    ensures Shape(c, s')
  {
    match s.writer
    case WIdle(_) => s
    case WLoadLatest(p, waited) =>
      s.(writer := WPollRead(p, waited, (s.latest + 1) % c.unitNum))
    case WPollRead(p, waited, t) =>
      s.(writer := WPollWrite(p, waited, t, s.units[t].read))
    case WPollWrite(p, waited, t, seenRead) =>
      if seenRead != 0 || s.units[t].write != 0 then
        if waited + 1 > c.timeout then s.(writer := WIdle(STATUS_TIMEOUT))
        else s.(writer := WLoadLatest(p, waited + 1))
      else s.(writer := WClaim(p, t))
    case WClaim(p, t) =>
      s.(units := s.units[t := s.units[t].(write := (s.units[t].write + 1) % 256)], writer := WCopy(p, t, 0))
    case WCopy(p, t, k) =>
      if k < |p.src| then
        s.(units := s.units[t := s.units[t].(buf := s.units[t].buf[p.offset + k := p.src[k]])],
           writer := WCopy(p, t, k + 1))
      else s.(writer := WRelease(p, t))
    case WRelease(p, t) =>
      s.(units := s.units[t := s.units[t].(write := (s.units[t].write - 1) % 256)], writer := WPublish(p, t))
    case WPublish(p, t) =>
      s.(latest := t, writer := WIdle(STATUS_OK), history := s.history + [p])
  }

  /** One operation of reader `r`. */
  function ReaderNext(c: Config, s: State, r: nat): (s': State)
    requires Shape(c, s) && r < |s.readers|
    ensures Shape(c, s')
  {
    match s.readers[r]
    case RIdle(_, _) => s
    case RLoadLatest(q) =>
      s.(readers := s.readers[r := RPollRead(q, s.latest, 0)])
    case RPollRead(q, u, waited) =>
      s.(readers := s.readers[r := RPollWrite(q, u, waited, s.units[u].read)])
    case RPollWrite(q, u, waited, seenRead) =>
      if seenRead == 0xFF || s.units[u].write != 0 then
        if waited + 1 > c.timeout then s.(readers := s.readers[r := RIdle(STATUS_TIMEOUT, [])])
        else s.(readers := s.readers[r := RPollRead(q, u, waited + 1)])
      else s.(readers := s.readers[r := RClaim(q, u)])
    case RClaim(q, u) =>
      s.(units := s.units[u := s.units[u].(read := (s.units[u].read + 1) % 256)],
         readers := s.readers[r := RCopy(q, u, [])])
    case RCopy(q, u, dst) =>
      if |dst| < q.size then
        s.(readers := s.readers[r := RCopy(q, u, dst + [s.units[u].buf[q.offset + |dst|]])])
      else s.(readers := s.readers[r := RRelease(q, u, dst)])
    case RRelease(q, u, dst) =>
      s.(units := s.units[u := s.units[u].(read := (s.units[u].read - 1) % 256)],
         readers := s.readers[r := RIdle(STATUS_OK, dst)])
  }

  /** Any action; a call made while the thread is inside another call, or by no reader, changes nothing. */
  function Apply(c: Config, s: State, a: Action): (s': State)
    requires Shape(c, s)
    ensures Shape(c, s') && |s'.readers| == |s.readers|
  {
    match a
    case StartPut(p) =>
      if !s.writer.WIdle? then s
      else if p.Fits(c.unitSize) then s.(writer := WLoadLatest(p, 0))
      else s.(writer := WIdle(STATUS_BAD_ARGUMENT))
    case WriterStep => WriterNext(c, s)
    case StartGet(r, q) =>
      if r >= |s.readers| || !s.readers[r].RIdle? then s
      else if q.offset + q.size <= c.unitSize then s.(readers := s.readers[r := RLoadLatest(q)])
      else s.(readers := s.readers[r := RIdle(STATUS_BAD_ARGUMENT, [])])
    case ReaderStep(r) =>
      if r < |s.readers| then ReaderNext(c, s, r) else s
  }

  function Exec(c: Config, s: State, acts: seq<Action>): (s': State)
    requires Shape(c, s)
    ensures Shape(c, s') && |s'.readers| == |s.readers|
  {
    if acts == [] then s else Apply(c, Exec(c, s, acts[..|acts| - 1]), acts[|acts| - 1])
  }

  /** A freshly initialised queue whose units hold the memory `init`, with `readerNum` idle readers. */
  ghost predicate Initial(c: Config, init: seq<seq<Byte>>, s: State) {
    && c.unitNum == |init| && RingMemory(init, c.unitSize)
    && s.latest == 0 && |s.units| == c.unitNum
    && (forall u :: 0 <= u < c.unitNum ==> s.units[u] == Unit(0, 0, init[u]))
    && s.writer.WIdle? && |s.readers| <= MAX_READERS
    && (forall r :: 0 <= r < |s.readers| ==> s.readers[r].RIdle?)
    && s.history == []
  }

  // ---------------------------------------------------------------- the whole-run invariant

  /** How many readers are inside their copy section on unit `u`. */
  ghost function HolderCount(readers: seq<Reader>, u: nat): (n: nat)
    ensures n <= |readers|
  {
    if readers == [] then 0
    else
      var rd := readers[|readers| - 1];
      HolderCount(readers[..|readers| - 1], u) + if Holding(rd) && rd.unit == u then 1 else 0
  }

  ghost predicate Writing(w: Writer, u: nat) {
    (w.WCopy? || w.WRelease?) && w.target == u
  }

  /** The bytes unit `u` holds: the puts so far, and the part of the current put already copied into it. */
  ghost function Content(init: seq<Byte>, s: State, n: nat, u: nat): (r: seq<Byte>)
    requires n > 0 && AllFit(s.history, |init|) && (!s.writer.WIdle? ==> s.writer.put.Fits(|init|))
    requires s.writer.WCopy? ==> s.writer.copied <= |s.writer.put.src|
  {
    var done := UnitAfter(init, s.history, n, u);
    match s.writer
    case WCopy(p, t, k) => if t == u then Overlay(done, Put(p.offset, p.src[..k])) else done
    case WRelease(p, t) => if t == u then Overlay(done, p) else done
    case WPublish(p, t) => if t == u then Overlay(done, p) else done
    case _ => done
  }

  ghost predicate Inv(c: Config, init: seq<seq<Byte>>, s: State) {
    && Shape(c, s) && c.unitNum == |init| && RingMemory(init, c.unitSize)
    && |s.readers| <= MAX_READERS
    && s.latest == Latest(s.history, c.unitNum)
    && (HasTarget(s.writer) ==> s.writer.target == (s.latest + 1) % c.unitNum)
    && (forall u :: 0 <= u < c.unitNum ==> UnitInv(c, init[u], s, u))
  }

  ghost predicate UnitInv(c: Config, initU: seq<Byte>, s: State, u: nat)
    requires Shape(c, s) && u < c.unitNum && |initU| == c.unitSize
  {
    && s.units[u].write == (if Writing(s.writer, u) then 1 else 0)
    && s.units[u].read == HolderCount(s.readers, u)
    && s.units[u].buf == Content(initU, s, c.unitNum, u)
  }

  lemma {:induction false} HolderCountUpdate(readers: seq<Reader>, r: nat, rd: Reader, u: nat)
    requires r < |readers|
    ensures HolderCount(readers[r := rd], u)
         == HolderCount(readers, u)
            - (if Holding(readers[r]) && readers[r].unit == u then 1 else 0)
            + (if Holding(rd) && rd.unit == u then 1 else 0)
  {
    var k := |readers| - 1;
    if r == k {
      assert readers[r := rd][..k] == readers[..k];
    } else {
      assert readers[r := rd][..k] == readers[..k][r := rd];
      HolderCountUpdate(readers[..k], r, rd, u);
    }
  }

  lemma {:induction false} IdleHolderCount(readers: seq<Reader>, u: nat)
    requires forall r :: 0 <= r < |readers| ==> readers[r].RIdle?
    ensures HolderCount(readers, u) == 0
  {
    if readers != [] {
      IdleHolderCount(readers[..|readers| - 1], u);
    }
  }

  /** Every counted reader outside position `r` leaves room for `r`: no 8-bit wrap. */
  lemma HolderRoom(readers: seq<Reader>, r: nat, u: nat)
    requires r < |readers| && !Holding(readers[r])
    ensures HolderCount(readers, u) < |readers|
  {
    HolderCountUpdate(readers, r, RCopy(Request(0, 0), u, []), u);
  }

  lemma HolderPresent(readers: seq<Reader>, r: nat)
    requires r < |readers| && Holding(readers[r])
    ensures HolderCount(readers, readers[r].unit) >= 1
  {
    HolderCountUpdate(readers, r, RIdle(0, []), readers[r].unit);
  }

  lemma InitialInv(c: Config, init: seq<seq<Byte>>, s: State)
    requires Initial(c, init, s)
    ensures Inv(c, init, s)
  {
    forall u | 0 <= u < c.unitNum ensures UnitInv(c, init[u], s, u) {
      IdleHolderCount(s.readers, u);
    }
  }

  lemma OverlayExtend(buf: seq<Byte>, p: Put, k: nat)
    requires p.Fits(|buf|) && k < |p.src|
    ensures Overlay(buf, Put(p.offset, p.src[..k]))[p.offset + k := p.src[k]]
         == Overlay(buf, Put(p.offset, p.src[..k + 1]))
  {
  }

  lemma WriterKeepsUnit(c: Config, initU: seq<Byte>, s: State, u: nat)
    requires Shape(c, s) && u < c.unitNum && |initU| == c.unitSize && UnitInv(c, initU, s, u)
    requires s.latest == Latest(s.history, c.unitNum)
    requires HasTarget(s.writer) ==> s.writer.target == (s.latest + 1) % c.unitNum
    ensures UnitInv(c, initU, WriterNext(c, s), u)
  {
    var s' := WriterNext(c, s);
    var done := UnitAfter(initU, s.history, c.unitNum, u);
    match s.writer
    case WCopy(p, t, k) =>
      if k < |p.src| {
        OverlayExtend(done, p, k);
      } else {
        assert p.src[..k] == p.src;
      }
    case WClaim(p, t) =>
      assert Overlay(done, Put(p.offset, p.src[..0])) == done;
    case WPublish(p, t) =>
      Modular.ModSucc(|s.history|, c.unitNum);
      assert s'.history[..|s.history|] == s.history;
    case _ =>
  }

  lemma WriterKeepsInv(c: Config, init: seq<seq<Byte>>, s: State)
    requires Inv(c, init, s)
    ensures Inv(c, init, WriterNext(c, s))
  {
    forall u | 0 <= u < c.unitNum ensures UnitInv(c, init[u], WriterNext(c, s), u) {
      WriterKeepsUnit(c, init[u], s, u);
    }
    if s.writer.WPublish? {
      Modular.ModSucc(|s.history|, c.unitNum);
    }
  }

  lemma ReaderKeepsUnit(c: Config, initU: seq<Byte>, s: State, r: nat, u: nat)
    requires Shape(c, s) && u < c.unitNum && |initU| == c.unitSize && UnitInv(c, initU, s, u)
    requires r < |s.readers| <= MAX_READERS
    ensures UnitInv(c, initU, ReaderNext(c, s, r), u)
  {
    var s' := ReaderNext(c, s, r);
    ReaderKeepsBuffers(c, s, r, u);
    ReaderKeepsCount(c, s, r, u);
  }

  lemma ReaderKeepsCount(c: Config, s: State, r: nat, u: nat)
    requires Shape(c, s) && u < c.unitNum && r < |s.readers| <= MAX_READERS
    requires s.units[u].read == HolderCount(s.readers, u)
    ensures ReaderNext(c, s, r).units[u].read == HolderCount(ReaderNext(c, s, r).readers, u)
  {
    hide ReaderNext, Shape;
    var rd := s.readers[r];
    ReaderChanges(c, s, r, u);
    HolderCountUpdate(s.readers, r, ReaderNext(c, s, r).readers[r], u);
    if rd.RClaim? {
      HolderRoom(s.readers, r, u);
    } else if rd.RRelease? {
      HolderPresent(s.readers, r);
    }
  }

  lemma ReaderChanges(c: Config, s: State, r: nat, u: nat)
    requires Shape(c, s) && u < c.unitNum && r < |s.readers|
    ensures var s', rd := ReaderNext(c, s, r), s.readers[r];
            && |s.units| == |s'.units| == c.unitNum && |s'.readers| == |s.readers|
            && s'.readers == s.readers[r := s'.readers[r]]
            && (rd.RClaim? ==> s'.readers[r].RCopy? && s'.readers[r].unit == rd.unit)
            && (rd.RRelease? ==> s'.readers[r].RIdle?)
            && (!rd.RClaim? && Holding(s'.readers[r]) ==> Holding(rd) && s'.readers[r].unit == rd.unit)
            && (Holding(rd) && !rd.RRelease? ==> Holding(s'.readers[r]))
            && s'.units[u].read == (if rd.RClaim? && rd.unit == u then (s.units[u].read + 1) % 256
                                    else if rd.RRelease? && rd.unit == u then (s.units[u].read - 1) % 256
                                    else s.units[u].read)
  {
  }

  lemma ReaderKeepsBuffers(c: Config, s: State, r: nat, u: nat)
    requires Shape(c, s) && r < |s.readers| && u < c.unitNum
    ensures var s' := ReaderNext(c, s, r);
            s'.units[u].buf == s.units[u].buf && s'.units[u].write == s.units[u].write
            && s'.writer == s.writer && s'.history == s.history && s'.latest == s.latest
            && s'.readers == s.readers[r := s'.readers[r]]
  {
  }

  lemma ReaderKeepsInv(c: Config, init: seq<seq<Byte>>, s: State, r: nat)
    requires Inv(c, init, s) && r < |s.readers|
    ensures Inv(c, init, ReaderNext(c, s, r))
  {
    forall u | 0 <= u < c.unitNum ensures UnitInv(c, init[u], ReaderNext(c, s, r), u) {
      ReaderKeepsUnit(c, init[u], s, r, u);
    }
  }

  lemma StepKeepsInv(c: Config, init: seq<seq<Byte>>, s: State, a: Action)
    requires Inv(c, init, s)
    ensures Inv(c, init, Apply(c, s, a))
  {
    hide Inv, Shape, WriterNext, ReaderNext;
    match a
    case WriterStep => WriterKeepsInv(c, init, s);
    case ReaderStep(r) => ReaderStepKeepsInv(c, init, s, r);
    case StartPut(p) => PutStartKeepsInv(c, init, s, p);
    case StartGet(r, q) => GetStartKeepsInv(c, init, s, r, q);
  }

  lemma ReaderStepKeepsInv(c: Config, init: seq<seq<Byte>>, s: State, r: nat)
    requires Inv(c, init, s)
    ensures Inv(c, init, Apply(c, s, ReaderStep(r)))
  {
    hide ReaderNext, Shape, UnitInv;
    if r < |s.readers| {
      ReaderKeepsInv(c, init, s, r);
    }
  }

  lemma PutStartKeepsInv(c: Config, init: seq<seq<Byte>>, s: State, p: Put)
    requires Inv(c, init, s)
    ensures Inv(c, init, Apply(c, s, StartPut(p)))
  {
    hide UnitAfter;
  }

  lemma GetStartKeepsInv(c: Config, init: seq<seq<Byte>>, s: State, r: nat, q: Request)
    requires Inv(c, init, s)
    ensures Inv(c, init, Apply(c, s, StartGet(r, q)))
  {
    hide UnitAfter, Content, HolderCount;
    var s' := Apply(c, s, StartGet(r, q));
    if r < |s.readers| && s.readers[r].RIdle? {
      forall u | 0 <= u < c.unitNum ensures UnitInv(c, init[u], s', u) {
        assert UnitInv(c, init[u], s, u);
        HolderCountUpdate(s.readers, r, s'.readers[r], u);
        SameContent(init[u], s, s', c.unitNum, u);
      }
    }
  }

  lemma SameContent(init: seq<Byte>, s: State, s': State, n: nat, u: nat)
    requires s'.writer == s.writer && s'.history == s.history
    requires n > 0 && AllFit(s.history, |init|) && (!s.writer.WIdle? ==> s.writer.put.Fits(|init|))
    requires s.writer.WCopy? ==> s.writer.copied <= |s.writer.put.src|
    ensures Content(init, s', n, u) == Content(init, s, n, u)
  {
    hide UnitAfter, Overlay;
  }

  /** Every interleaving from a fresh queue keeps the invariant. */
  lemma {:induction false} RunKeepsInv(c: Config, init: seq<seq<Byte>>, s: State, acts: seq<Action>)
    requires Initial(c, init, s)
    ensures Shape(c, s) && Inv(c, init, Exec(c, s, acts))
  {
    InitialInv(c, init, s);
    if acts != [] {
      RunKeepsInv(c, init, s, acts[..|acts| - 1]);
      StepKeepsInv(c, init, Exec(c, s, acts[..|acts| - 1]), acts[|acts| - 1]);
    }
  }

  /** What every interleaving of one writer and at most 255 readers keeps. */
  lemma WholeRun(c: Config, init: seq<seq<Byte>>, s: State, acts: seq<Action>)
    requires Initial(c, init, s)
    ensures Shape(c, s)
    ensures var e := Exec(c, s, acts);
            && e.latest == Latest(e.history, c.unitNum) && |e.units| == c.unitNum
            // the unit aimed at is the one after the published one, and another one if there is another
            && (HasTarget(e.writer) ==> e.writer.target == (e.latest + 1) % c.unitNum)
            && (HasTarget(e.writer) && c.unitNum >= 2 ==> e.writer.target != e.latest)
            // one unit at most is held for writing, and the counter says which
            && (forall u :: 0 <= u < c.unitNum ==>
                 e.units[u].write <= 1 && (e.units[u].write == 1 <==> Writing(e.writer, u)))
            // the read counters count the readers in their copy sections and never wrap
            && (forall u :: 0 <= u < c.unitNum ==> e.units[u].read == HolderCount(e.readers, u) <= MAX_READERS)
            // with two units or more, the published one holds what the published puts left there
            && (c.unitNum >= 2 ==> e.units[e.latest].buf == Current(init, e.history, c.unitSize))
  {
    hide *;
    RunKeepsInv(c, init, s, acts);
    InvMeans(c, init, Exec(c, s, acts));
  }

  lemma InvMeans(c: Config, init: seq<seq<Byte>>, e: State)
    requires Inv(c, init, e)
    ensures c.unitNum > 0 && e.latest == Latest(e.history, c.unitNum) && |e.units| == c.unitNum
    ensures HasTarget(e.writer) ==> e.writer.target == (e.latest + 1) % c.unitNum
    ensures HasTarget(e.writer) && c.unitNum >= 2 ==> e.writer.target != e.latest
    ensures forall u :: 0 <= u < c.unitNum ==>
              e.units[u].write <= 1 && (e.units[u].write == 1 <==> Writing(e.writer, u))
    ensures forall u :: 0 <= u < c.unitNum ==> e.units[u].read == HolderCount(e.readers, u) <= MAX_READERS
    ensures RingMemory(init, c.unitSize) && AllFit(e.history, c.unitSize) && |init| == c.unitNum
    ensures c.unitNum >= 2 ==> e.units[e.latest].buf == Current(init, e.history, c.unitSize)
  {
    hide UnitAfter, HolderCount, Content;
    if c.unitNum >= 2 {
      NextIsAnother(c, e);
      assert UnitInv(c, init[e.latest], e, e.latest);
      NotWritten(init[e.latest], e, c.unitNum, e.latest);
    }
    forall u | 0 <= u < c.unitNum
      ensures e.units[u].write <= 1 && (e.units[u].write == 1 <==> Writing(e.writer, u))
      ensures e.units[u].read == HolderCount(e.readers, u) <= MAX_READERS
    {
      assert UnitInv(c, init[u], e, u);
    }
  }

  lemma NextIsAnother(c: Config, e: State)
    requires c.unitNum >= 2 && e.latest == Latest(e.history, c.unitNum)
    ensures (e.latest + 1) % c.unitNum != e.latest
  {
    Modular.NearbyDiffer(|e.history|, |e.history| + 1, c.unitNum);
    Modular.ModSucc(|e.history|, c.unitNum);
  }

  lemma NotWritten(init: seq<Byte>, s: State, n: nat, u: nat)
    requires n > 0 && AllFit(s.history, |init|) && (!s.writer.WIdle? ==> s.writer.put.Fits(|init|))
    requires s.writer.WCopy? ==> s.writer.copied <= |s.writer.put.src|
    requires HasTarget(s.writer) ==> s.writer.target != u
    ensures Content(init, s, n, u) == UnitAfter(init, s.history, n, u)
  {
    hide UnitAfter, Overlay;
  }
}
