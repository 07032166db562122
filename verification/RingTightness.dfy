/** The bound of the torn-read theorem is exact: schedules that break a get for every other number of stores. */
module RingTightness {
  import opened RingSpec
  import opened RingProtocol
  import opened RingTornRead
  import Modular

  lemma ExecOne(c: Config, s: State, acts: seq<Action>, a: Action)
    requires Shape(c, s)
    ensures Exec(c, s, acts + [a]) == Apply(c, Exec(c, s, acts), a)
  {
    assert (acts + [a])[..|acts|] == acts;
  }

  lemma {:induction false} ExecConcat(c: Config, s: State, a: seq<Action>, b: seq<Action>)
    requires Shape(c, s)
    ensures Exec(c, s, a + b) == Exec(c, Exec(c, s, a), b)
  {
    hide Apply, Shape;
    if b == [] {
      assert a + b == a;
    } else {
      var b' := b[..|b| - 1];
      ExecConcat(c, s, a, b');
      assert a + b == (a + b') + [b[|b| - 1]];
      ExecOne(c, s, a + b', b[|b| - 1]);
    }
  }

  lemma ExecThree(c: Config, s: State, a1: Action, a2: Action, a3: Action)
    requires Shape(c, s)
    ensures Exec(c, s, [a1, a2, a3]) == Apply(c, Apply(c, Apply(c, s, a1), a2), a3)
  {
    hide Apply, Shape;
    ExecOne(c, s, [], a1);
    ExecOne(c, s, [a1], a2);
    ExecOne(c, s, [a1, a2], a3);
    assert [] + [a1] == [a1] && [a1] + [a2] == [a1, a2] && [a1, a2] + [a3] == [a1, a2, a3];
  }

  lemma ExecFour(c: Config, s: State, a1: Action, a2: Action, a3: Action, a4: Action)
    requires Shape(c, s)
    ensures Exec(c, s, [a1, a2, a3, a4]) == Apply(c, Apply(c, Apply(c, Apply(c, s, a1), a2), a3), a4)
  {
    hide Apply, Shape;
    ExecThree(c, s, a1, a2, a3);
    ExecOne(c, s, [a1, a2, a3], a4);
    assert [a1, a2, a3] + [a4] == [a1, a2, a3, a4];
  }

  /** The state part way through the second of two runs. */
  lemma AtConcat(c: Config, s: State, a: seq<Action>, b: seq<Action>, m: nat)
    requires Shape(c, s) && m <= |b|
    ensures At(c, s, a + b, |a| + m) == At(c, Exec(c, s, a), b, m)
  {
    assert (a + b)[..|a| + m] == a + b[..m];
    ExecConcat(c, s, a, b[..m]);
  }

  lemma AtPrefix(c: Config, s: State, a: seq<Action>, b: seq<Action>, m: nat)
    requires Shape(c, s) && m <= |a|
    ensures At(c, s, a + b, m) == At(c, s, a, m)
  {
    assert (a + b)[..m] == a[..m];
  }

  // ---------------------------------------------------------------- the writer alone

  /** Nobody is inside a copy section and the writer is between puts. */
  ghost predicate Quiet(c: Config, s: State) {
    && Shape(c, s) && s.writer.WIdle? && s.latest == Latest(s.history, c.unitNum)
    && (forall u :: 0 <= u < c.unitNum ==> s.units[u].read == 0 && s.units[u].write == 0)
  }

  const CLAIM_STEPS := [WriterStep, WriterStep, WriterStep]

  function ToClaim(p: Put): seq<Action> {
    [StartPut(p)] + CLAIM_STEPS
  }

  function Writers(n: nat): (w: seq<Action>)
    ensures |w| == n
  {
    seq(n, _ => WriterStep)
  }

  /** The whole of an undisturbed put. */
  function SoloPut(p: Put): seq<Action> {
    ToClaim(p) + [WriterStep] + Writers(|p.src|) + CLAIM_STEPS
  }

  lemma ReachClaim(c: Config, s: State, p: Put)
    requires Quiet(c, s) && p.Fits(c.unitSize)
    ensures Exec(c, s, ToClaim(p)) == s.(writer := WClaim(p, (s.latest + 1) % c.unitNum))
  {
    hide Exec;
    assert ToClaim(p) == [StartPut(p), WriterStep, WriterStep, WriterStep];
    ExecFour(c, s, StartPut(p), WriterStep, WriterStep, WriterStep);
  }

  lemma {:induction false} CopyLoop(c: Config, s: State, p: Put, t: nat, k: nat)
    requires Shape(c, s) && s.writer == WCopy(p, t, 0) && k <= |p.src|
    ensures Exec(c, s, Writers(k))
         == s.(units := s.units[t := s.units[t].(buf := Overlay(s.units[t].buf, Put(p.offset, p.src[..k])))],
               writer := WCopy(p, t, k))
  {
    var buf := s.units[t].buf;
    if k == 0 {
      assert Overlay(buf, Put(p.offset, p.src[..0])) == buf;
      assert s.units[t := s.units[t]] == s.units;
    } else {
      CopyLoop(c, s, p, t, k - 1);
      assert Writers(k) == Writers(k - 1) + [WriterStep];
      ExecOne(c, s, Writers(k - 1), WriterStep);
      CopyStep(c, s, Exec(c, s, Writers(k - 1)), p, t, k - 1);
      hide Apply, Exec, Shape, Overlay, Writers;
    }
  }

  lemma CopyStep(c: Config, s: State, s1: State, p: Put, t: nat, k: nat)
    requires Shape(c, s) && Shape(c, s1) && s.writer == WCopy(p, t, 0) && k < |p.src|
    requires s1 == s.(units := s.units[t := s.units[t].(buf := Overlay(s.units[t].buf, Put(p.offset, p.src[..k])))],
                      writer := WCopy(p, t, k))
    ensures Apply(c, s1, WriterStep)
         == s.(units := s.units[t := s.units[t].(buf := Overlay(s.units[t].buf, Put(p.offset, p.src[..k + 1])))],
               writer := WCopy(p, t, k + 1))
  {
    OverlayExtend(s.units[t].buf, p, k);
    hide Overlay;
  }

  lemma FinishPut(c: Config, s: State, p: Put, t: nat)
    requires Shape(c, s) && s.writer == WCopy(p, t, |p.src|) && s.units[t].write == 1
    ensures Exec(c, s, CLAIM_STEPS)
         == s.(units := s.units[t := s.units[t].(write := 0)], writer := WIdle(STATUS_OK),
               latest := t, history := s.history + [p])
  {
    hide Exec;
    ExecThree(c, s, WriterStep, WriterStep, WriterStep);
  }

  lemma CopyAll(c: Config, s: State, p: Put)
    requires Quiet(c, s) && p.Fits(c.unitSize)
    ensures var t := (s.latest + 1) % c.unitNum;
            Exec(c, s, ToClaim(p) + [WriterStep] + Writers(|p.src|))
            == s.(units := s.units[t := Unit(0, 1, Overlay(s.units[t].buf, p))], writer := WCopy(p, t, |p.src|))
  {
    var t := (s.latest + 1) % c.unitNum;
    var s1 := s.(units := s.units[t := Unit(0, 1, s.units[t].buf)], writer := WCopy(p, t, 0));
    ClaimAlone(c, s, p);
    hide Exec, Apply, Shape, Overlay, Writers, ToClaim, Quiet;
    CopyLoop(c, s1, p, t, |p.src|);
    assert p.src[..|p.src|] == p.src;
    ExecConcat(c, s, ToClaim(p) + [WriterStep], Writers(|p.src|));
    assert s1.units[t := Unit(0, 1, Overlay(s.units[t].buf, p))]
        == s.units[t := Unit(0, 1, Overlay(s.units[t].buf, p))];
  }

  lemma ClaimAlone(c: Config, s: State, p: Put)
    requires Quiet(c, s) && p.Fits(c.unitSize)
    ensures var t := (s.latest + 1) % c.unitNum;
            && t < |s.units| && |s.units[t].buf| == c.unitSize
            && Exec(c, s, ToClaim(p) + [WriterStep])
               == s.(units := s.units[t := Unit(0, 1, s.units[t].buf)], writer := WCopy(p, t, 0))
  {
    hide Exec;
    ReachClaim(c, s, p);
    ExecOne(c, s, ToClaim(p), WriterStep);
  }

  /** The state after a put made by the writer alone. */
  ghost function AfterPut(c: Config, s: State, p: Put): State
    requires Quiet(c, s) && p.Fits(c.unitSize)
  {
    var t := (s.latest + 1) % c.unitNum;
    s.(units := s.units[t := Unit(0, 0, Overlay(s.units[t].buf, p))],
       writer := WIdle(0), latest := t, history := s.history + [p])
  }

  /** An undisturbed put does what the abstract put does: it lays its bytes over the next unit and
      publishes it. */
  lemma SoloPutRefines(c: Config, s: State, p: Put)
    requires Quiet(c, s) && p.Fits(c.unitSize)
    ensures Exec(c, s, SoloPut(p)) == AfterPut(c, s, p)
  {
    var t := (s.latest + 1) % c.unitNum;
    CopyAll(c, s, p);
    var acts := ToClaim(p) + [WriterStep] + Writers(|p.src|);
    var s2 := Exec(c, s, acts);
    ExecConcat(c, s, acts, CLAIM_STEPS);
    FinishPut(c, s2, p, t);
    assert s2.units[t := Unit(0, 0, Overlay(s.units[t].buf, p))]
        == s.units[t := Unit(0, 0, Overlay(s.units[t].buf, p))];
  }

  lemma AfterPutQuiet(c: Config, s: State, p: Put)
    requires Quiet(c, s) && p.Fits(c.unitSize)
    ensures Quiet(c, AfterPut(c, s, p))
  {
    Modular.ModSucc(|s.history|, c.unitNum);
  }

  const NOTHING := Put(0, [])

  function EmptyPuts(m: nat): seq<Action> {
    if m == 0 then [] else EmptyPuts(m - 1) + SoloPut(NOTHING)
  }

  /** Puts of no bytes only advance the ring. */
  lemma {:induction false} EmptyPutsAdvance(c: Config, s: State, m: nat)
    requires Quiet(c, s)
    ensures var s' := Exec(c, s, EmptyPuts(m));
            Quiet(c, s') && s'.units == s.units && s'.readers == s.readers
            && |s'.history| == |s.history| + m
  {
    if m > 0 {
      EmptyPutsAdvance(c, s, m - 1);
      var before := Exec(c, s, EmptyPuts(m - 1));
      SoloPutRefines(c, before, NOTHING);
      AfterPutQuiet(c, before, NOTHING);
      ExecConcat(c, s, EmptyPuts(m - 1), SoloPut(NOTHING));
      var t := (before.latest + 1) % c.unitNum;
      assert Overlay(before.units[t].buf, NOTHING) == before.units[t].buf;
    }
  }

  ghost predicate WriterOnly(acts: seq<Action>) {
    forall m :: 0 <= m < |acts| ==> acts[m].WriterStep? || acts[m].StartPut?
  }

  lemma {:induction false} EmptyPutsWriterOnly(m: nat)
    ensures WriterOnly(EmptyPuts(m))
  {
    if m > 0 {
      EmptyPutsWriterOnly(m - 1);
    }
  }

  lemma {:induction false} WriterOnlyKeepsReaders(c: Config, s: State, acts: seq<Action>)
    requires Shape(c, s) && WriterOnly(acts)
    ensures Exec(c, s, acts).readers == s.readers
  {
    if acts != [] {
      WriterOnlyKeepsReaders(c, s, acts[..|acts| - 1]);
    }
  }

  // ---------------------------------------------------------------- broken gets

  /** Reader 0 starts a get, loads the latest index and passes both polls. */
  function ReaderToClaim(q: Request): seq<Action> {
    [StartGet(0, q), ReaderStep(0), ReaderStep(0), ReaderStep(0)]
  }

  /** The reader is stopped before its increment while the writer runs `writing`, and then runs `ending`. */
  function Broken(q: Request, writing: seq<Action>, ending: seq<Action>): seq<Action> {
    ReaderToClaim(q) + writing + ([ReaderStep(0)] + ending)
  }

  lemma ReaderReachesClaim(c: Config, init: seq<seq<Byte>>, s: State, q: Request)
    requires Initial(c, init, s) && |s.readers| > 0 && q.offset + q.size <= c.unitSize
    ensures Shape(c, s)
    ensures var acts := ReaderToClaim(q);
            && At(c, s, acts, 1).readers[0].RLoadLatest? && At(c, s, acts, 1).latest == 0
            && At(c, s, acts, 1).history == [] && At(c, s, acts, 1).units == s.units
            && Waiting(At(c, s, acts, 2).readers[0]) && Waiting(At(c, s, acts, 3).readers[0])
            && At(c, s, acts, 4) == s.(readers := s.readers[0 := RClaim(q, 0)])
            && Quiet(c, At(c, s, acts, 4)) && Exec(c, s, acts) == At(c, s, acts, 4)
  {
    hide Initial, Inv, Shape, Quiet, Apply, Exec, At, With, Waiting, ReaderShape;
    FreshQueue(c, init, s);
    var acts := ReaderToClaim(q);
    AtZero(c, s, acts);
    AtStep(c, s, acts, 0);
    AtStep(c, s, acts, 1);
    AtStep(c, s, acts, 2);
    AtStep(c, s, acts, 3);
    ReaderSteps(c, s, q);
    AfterReaderSteps(c, s, q);
    AtEnd(c, s, acts);
  }

  lemma FreshQueue(c: Config, init: seq<seq<Byte>>, s: State)
    requires Initial(c, init, s) && |s.readers| > 0
    ensures Shape(c, s) && s.readers[0].RIdle? && s.latest == 0 && s.history == [] && Quiet(c, s)
    ensures s.units[0].read == 0 && s.units[0].write == 0
  {
    InitialInv(c, init, s);
    Modular.DivModUnique(0, 0, 0, c.unitNum);
  }

  /** The state with reader 0 somewhere in its get. */
  function With(s: State, rd: Reader): State
    requires |s.readers| > 0
  {
    s.(readers := s.readers[0 := rd])
  }

  lemma ReaderSteps(c: Config, s: State, q: Request)
    requires Shape(c, s) && |s.readers| > 0 && s.readers[0].RIdle? && q.offset + q.size <= c.unitSize
    requires s.latest == 0 && s.units[0].read == 0 && s.units[0].write == 0
    ensures forall rd :: ReaderShape(c, rd) ==> Shape(c, With(s, rd))
    ensures Apply(c, s, StartGet(0, q)) == With(s, RLoadLatest(q))
    ensures ReaderShape(c, RLoadLatest(q)) && ReaderShape(c, RPollRead(q, 0, 0))
    ensures ReaderShape(c, RPollWrite(q, 0, 0, 0))
    ensures Apply(c, With(s, RLoadLatest(q)), ReaderStep(0)) == With(s, RPollRead(q, 0, 0))
    ensures Apply(c, With(s, RPollRead(q, 0, 0)), ReaderStep(0)) == With(s, RPollWrite(q, 0, 0, 0))
    ensures Apply(c, With(s, RPollWrite(q, 0, 0, 0)), ReaderStep(0)) == With(s, RClaim(q, 0))
  {
  }

  lemma AfterReaderSteps(c: Config, s: State, q: Request)
    requires |s.readers| > 0 && Quiet(c, s) && q.offset + q.size <= c.unitSize
    ensures With(s, RLoadLatest(q)).readers[0].RLoadLatest? && With(s, RLoadLatest(q)).latest == s.latest
    ensures With(s, RLoadLatest(q)).history == s.history && With(s, RLoadLatest(q)).units == s.units
    ensures Waiting(With(s, RPollRead(q, 0, 0)).readers[0]) && Waiting(With(s, RPollWrite(q, 0, 0, 0)).readers[0])
    ensures With(s, RClaim(q, 0)) == s.(readers := s.readers[0 := RClaim(q, 0)])
    ensures Quiet(c, With(s, RClaim(q, 0)))
  {
  }

  lemma BrokenStart(c: Config, init: seq<seq<Byte>>, s: State, q: Request,
                    writing: seq<Action>, ending: seq<Action>, m: nat)
    requires Initial(c, init, s) && |s.readers| > 0 && q.offset + q.size <= c.unitSize && m <= 4
    ensures Shape(c, s) && At(c, s, Broken(q, writing, ending), m) == At(c, s, ReaderToClaim(q), m)
  {
    InitialInv(c, init, s);
    assert Broken(q, writing, ending) == ReaderToClaim(q) + (writing + ([ReaderStep(0)] + ending));
    AtPrefix(c, s, ReaderToClaim(q), writing + ([ReaderStep(0)] + ending), m);
  }

  lemma BrokenMiddle(c: Config, init: seq<seq<Byte>>, s: State, q: Request,
                     writing: seq<Action>, ending: seq<Action>, m: nat)
    requires Initial(c, init, s) && |s.readers| > 0 && q.offset + q.size <= c.unitSize
    requires WriterOnly(writing) && m <= |writing|
    ensures Shape(c, s)
    ensures var s' := At(c, s, Broken(q, writing, ending), 4 + m);
            s'.readers[0] == RClaim(q, 0) && s' == Exec(c, Exec(c, s, ReaderToClaim(q)), writing[..m])
  {
    InitialInv(c, init, s);
    var pre := ReaderToClaim(q);
    ReaderReachesClaim(c, init, s, q);
    assert pre[..4] == pre;
    AtPrefix(c, s, pre + writing, [ReaderStep(0)] + ending, 4 + m);
    AtConcat(c, s, pre, writing, m);
    WriterOnlyKeepsReaders(c, Exec(c, s, pre), writing[..m]);
  }

  /** Such a schedule is a get of reader 0 from load (step 1) to increment (after the writer's part). */
  lemma BrokenIsGetRun(c: Config, init: seq<seq<Byte>>, s: State, q: Request,
                       writing: seq<Action>, ending: seq<Action>)
    requires Initial(c, init, s) && |s.readers| > 0 && q.offset + q.size <= c.unitSize
    requires WriterOnly(writing) && Shape(c, s)
    requires var acts := Broken(q, writing, ending);
             forall m :: 4 + |writing| < m <= |acts| ==> Holding(At(c, s, acts, m).readers[0])
    ensures GetRun(c, s, Broken(q, writing, ending), 0, 1, 4 + |writing|, |Broken(q, writing, ending)|)
  {
    hide Apply, Shape, Exec, At, Initial, Quiet;
    var acts := Broken(q, writing, ending);
    ReaderReachesClaim(c, init, s, q);
    BrokenStart(c, init, s, q, writing, ending, 1);
    forall m | 1 < m <= 4 + |writing| ensures Waiting(At(c, s, acts, m).readers[0]) {
      if m <= 4 {
        BrokenStart(c, init, s, q, writing, ending, m);
      } else {
        BrokenMiddle(c, init, s, q, writing, ending, m - 4);
      }
    }
    BrokenMiddle(c, init, s, q, writing, ending, |writing|);
  }

  /** In a broken schedule, the part from the increment on starts in the state `sj`. */
  lemma BrokenEnd(c: Config, init: seq<seq<Byte>>, s: State, q: Request,
                  writing: seq<Action>, ending: seq<Action>, m: nat)
    requires Initial(c, init, s) && |s.readers| > 0 && q.offset + q.size <= c.unitSize
    requires WriterOnly(writing) && m <= 1 + |ending|
    ensures Shape(c, s)
    ensures At(c, s, Broken(q, writing, ending), 4 + |writing| + m)
         == At(c, Exec(c, Exec(c, s, ReaderToClaim(q)), writing), [ReaderStep(0)] + ending, m)
  {
    hide Apply, Exec, At;
    InitialInv(c, init, s);
    AtConcat(c, s, ReaderToClaim(q) + writing, [ReaderStep(0)] + ending, m);
    ExecConcat(c, s, ReaderToClaim(q), writing);
  }

  /** All there is to know about a broken schedule, given what happens from the increment on. */
  lemma BrokenGet(c: Config, init: seq<seq<Byte>>, s: State, q: Request,
                  writing: seq<Action>, ending: seq<Action>, sj: State)
    requires Initial(c, init, s) && |s.readers| > 0 && q.offset + q.size <= c.unitSize
    requires WriterOnly(writing) && Shape(c, s)
    requires sj == Exec(c, Exec(c, s, ReaderToClaim(q)), writing)
    requires forall m :: 0 < m <= 1 + |ending| ==> Holding(At(c, sj, [ReaderStep(0)] + ending, m).readers[0])
    ensures var acts := Broken(q, writing, ending);
            var j := 4 + |writing|;
            && GetRun(c, s, acts, 0, 1, j, |acts|) && StoresBetween(c, s, acts, 1, j) == |sj.history|
            && At(c, s, acts, 1).latest == 0 && At(c, s, acts, 1).units == s.units
            && At(c, s, acts, j) == sj
            && At(c, s, acts, |acts|) == At(c, sj, [ReaderStep(0)] + ending, 1 + |ending|)
  {
    hide Apply, Shape, Exec, At, GetRun, Initial, Quiet;
    var acts := Broken(q, writing, ending);
    var j := 4 + |writing|;
    ReaderReachesClaim(c, init, s, q);
    forall m | j < m <= |acts| ensures Holding(At(c, s, acts, m).readers[0]) {
      BrokenEnd(c, init, s, q, writing, ending, m - j);
    }
    BrokenEnd(c, init, s, q, writing, ending, 0);
    BrokenEnd(c, init, s, q, writing, ending, 1 + |ending|);
    BrokenStart(c, init, s, q, writing, ending, 1);
    AtZero(c, sj, [ReaderStep(0)] + ending);
    BrokenIsGetRun(c, init, s, q, writing, ending);
  }

  lemma UnitLength(c: Config, s: State)
    requires Shape(c, s)
    ensures |s.units| > 0 && |s.units[0].buf| == c.unitSize
  {
  }

  lemma AtEnd(c: Config, s: State, acts: seq<Action>)
    requires Shape(c, s)
    ensures At(c, s, acts, |acts|) == Exec(c, s, acts)
  {
    assert acts[..|acts|] == acts;
  }

  lemma AtZero(c: Config, s: State, acts: seq<Action>)
    requires Shape(c, s)
    ensures At(c, s, acts, 0) == s
  {
  }

  const TORN_ENDING := [ReaderStep(0), WriterStep, WriterStep, WriterStep, ReaderStep(0)]

  /** Both threads hold the unit: the reader takes the old first byte and the new second byte. */
  lemma TornEnd(c: Config, s: State, p: Put)
    requires Shape(c, s) && |s.readers| > 0 && c.unitSize >= 2
    requires s.readers[0] == RClaim(Request(0, 2), 0) && s.writer == WClaim(p, 0)
    requires p.offset == 0 && |p.src| == 2
    ensures forall m :: 0 < m <= 6 ==> At(c, s, [ReaderStep(0)] + TORN_ENDING, m).readers[0].RCopy?
    ensures At(c, s, [ReaderStep(0)] + TORN_ENDING, 6).readers[0]
         == RCopy(Request(0, 2), 0, [s.units[0].buf[0], p.src[1]])
  {
    hide At, Exec, Shape;
    var acts := [ReaderStep(0)] + TORN_ENDING;
    AtZero(c, s, acts);
    UnitLength(c, s);
    AtStep(c, s, acts, 0);
    AtStep(c, s, acts, 1);
    AtStep(c, s, acts, 2);
    AtStep(c, s, acts, 3);
    AtStep(c, s, acts, 4);
    AtStep(c, s, acts, 5);
    forall m | 0 < m <= 6 ensures At(c, s, acts, m).readers[0].RCopy? {
      assert m == 1 || m == 2 || m == 3 || m == 4 || m == 5 || m == 6;
    }
  }

  lemma LastIndex(d: nat, n: nat)
    requires n > 0 && d % n == n - 1
    ensures (d % n + 1) % n == 0
  {
    Modular.DivModUnique(n, 1, 0, n);
  }

  /** The writer makes `d` empty puts and comes to aim at unit 0 again, past the holder test. */
  lemma AimAtUnitZero(c: Config, s: State, d: nat, p: Put)
    requires Quiet(c, s) && s.history == [] && d % c.unitNum == c.unitNum - 1 && p.Fits(c.unitSize)
    ensures WriterOnly(EmptyPuts(d) + ToClaim(p))
    ensures var sj := Exec(c, s, EmptyPuts(d) + ToClaim(p));
            sj.writer == WClaim(p, 0) && sj.units == s.units && sj.readers == s.readers && |sj.history| == d
  {
    hide Apply, Shape, Exec;
    EmptyPutsAdvance(c, s, d);
    EmptyPutsWriterOnly(d);
    ExecConcat(c, s, EmptyPuts(d), ToClaim(p));
    ReachClaim(c, Exec(c, s, EmptyPuts(d)), p);
    LastIndex(d, c.unitNum);
  }

  /** With n - 1 stores in between, modulo n, a reader can copy a mixture: the old first byte, which the put
      [x, y] replaces, and that put's second byte. */
  lemma TornReadPossible(c: Config, init: seq<seq<Byte>>, s: State, d: nat)
      returns (acts: seq<Action>, j: nat, x: Byte, y: Byte)
    requires Initial(c, init, s) && |s.readers| > 0 && c.unitSize >= 2
    requires d % c.unitNum == c.unitNum - 1
    ensures Shape(c, s) && GetRun(c, s, acts, 0, 1, j, |acts|) && StoresBetween(c, s, acts, 1, j) == d
    ensures At(c, s, acts, 1).latest == 0 && At(c, s, acts, 1).units == s.units
    ensures At(c, s, acts, j).units == s.units && At(c, s, acts, j).writer == WClaim(Put(0, [x, y]), 0)
    ensures At(c, s, acts, |acts|).readers[0] == RCopy(Request(0, 2), 0, [init[0][0], y])
    ensures x != init[0][0] && y != init[0][1]
  {
    InitialInv(c, init, s);
    x := if init[0][0] == 0 then 1 else 0;
    y := if init[0][1] == 0 then 1 else 0;
    acts, j := TornSchedule(c, init, s, d, Put(0, [x, y]));
  }

  lemma TornSchedule(c: Config, init: seq<seq<Byte>>, s: State, d: nat, p: Put)
      returns (acts: seq<Action>, j: nat)
    requires Initial(c, init, s) && Shape(c, s) && |s.readers| > 0 && c.unitSize >= 2
    requires d % c.unitNum == c.unitNum - 1 && p.offset == 0 && |p.src| == 2
    ensures GetRun(c, s, acts, 0, 1, j, |acts|) && StoresBetween(c, s, acts, 1, j) == d
    ensures At(c, s, acts, 1).latest == 0 && At(c, s, acts, 1).units == s.units
    ensures At(c, s, acts, j).units == s.units && At(c, s, acts, j).writer == WClaim(p, 0)
    ensures At(c, s, acts, |acts|).readers[0] == RCopy(Request(0, 2), 0, [init[0][0], p.src[1]])
  {
    hide Initial, Apply, Exec, Shape, At, GetRun, WriterOnly, Quiet, StoresBetween, EmptyPuts;
    FreshByte(c, init, s);
    var q := Request(0, 2);
    var writing, sj := AimBehindReader(c, init, s, d, q, p);
    TornEnd(c, sj, p);
    BrokenGet(c, init, s, q, writing, TORN_ENDING, sj);
    acts, j := Broken(q, writing, TORN_ENDING), 4 + |writing|;
  }

  lemma FreshByte(c: Config, init: seq<seq<Byte>>, s: State)
    requires Initial(c, init, s) && c.unitSize >= 1
    ensures |init| > 0 && |init[0]| > 0 && |s.units| > 0 && s.units[0].buf == init[0]
  {
  }

  /** A reader is stopped before its increment on unit 0 until the writer, `d` stores later, is about to claim
      the same unit. */
  lemma AimBehindReader(c: Config, init: seq<seq<Byte>>, s: State, d: nat, q: Request, p: Put)
      returns (writing: seq<Action>, sj: State)
    requires Initial(c, init, s) && Shape(c, s) && |s.readers| > 0 && q.offset + q.size <= c.unitSize
    requires d % c.unitNum == c.unitNum - 1 && p.Fits(c.unitSize)
    ensures WriterOnly(writing) && Shape(c, sj) && sj == Exec(c, Exec(c, s, ReaderToClaim(q)), writing)
    ensures sj.readers[0] == RClaim(q, 0) && sj.writer == WClaim(p, 0)
    ensures sj.units == s.units && |sj.history| == d
  {
    hide Apply, Exec, Shape;
    writing := EmptyPuts(d) + ToClaim(p);
    ReaderReachesClaim(c, init, s, q);
    var s4 := Exec(c, s, ReaderToClaim(q));
    AimAtUnitZero(c, s4, d, p);
    sj := Exec(c, s4, writing);
  }

  const UNPUBLISHED_ENDING := [WriterStep, WriterStep, ReaderStep(0)]

  /** Both threads hold the unit: the reader takes a byte that the writer has just copied in. */
  lemma UnpublishedEnd(c: Config, s: State, p: Put)
    requires Shape(c, s) && |s.readers| > 0 && c.unitSize >= 1
    requires s.readers[0] == RClaim(Request(0, 1), 0) && s.writer == WClaim(p, 0)
    requires p.offset == 0 && |p.src| == 1
    ensures forall m :: 0 < m <= 4 ==> At(c, s, [ReaderStep(0)] + UNPUBLISHED_ENDING, m).readers[0].RCopy?
    ensures At(c, s, [ReaderStep(0)] + UNPUBLISHED_ENDING, 4).readers[0] == RCopy(Request(0, 1), 0, p.src)
  {
    hide At, Exec, Shape;
    var acts := [ReaderStep(0)] + UNPUBLISHED_ENDING;
    AtZero(c, s, acts);
    UnitLength(c, s);
    AtStep(c, s, acts, 0);
    AtStep(c, s, acts, 1);
    AtStep(c, s, acts, 2);
    AtStep(c, s, acts, 3);
    forall m | 0 < m <= 4 ensures At(c, s, acts, m).readers[0].RCopy? {
      assert m == 1 || m == 2 || m == 3 || m == 4;
    }
  }

  /** With n - 1 stores in between, modulo n, a reader can return a byte of a put that is not yet published and
      that its unit did not hold when it was claimed. */
  lemma UnpublishedReadPossible(c: Config, init: seq<seq<Byte>>, s: State, d: nat)
      returns (acts: seq<Action>, j: nat, x: Byte)
    requires Initial(c, init, s) && |s.readers| > 0 && c.unitSize >= 1
    requires d % c.unitNum == c.unitNum - 1
    ensures Shape(c, s) && GetRun(c, s, acts, 0, 1, j, |acts|) && StoresBetween(c, s, acts, 1, j) == d
    ensures At(c, s, acts, 1).latest == 0 && At(c, s, acts, 1).units == s.units
    ensures At(c, s, acts, j).units == s.units && At(c, s, acts, j).writer == WClaim(Put(0, [x]), 0)
    ensures At(c, s, acts, |acts|).readers[0] == RCopy(Request(0, 1), 0, [x]) && x != init[0][0]
  {
    hide Initial, Apply, Exec, Shape, At, GetRun, Quiet;
    FreshQueue(c, init, s);
    FreshByte(c, init, s);
    x := if init[0][0] == 0 then 1 else 0;
    acts, j := UnpublishedSchedule(c, init, s, d, Put(0, [x]));
  }

  lemma UnpublishedSchedule(c: Config, init: seq<seq<Byte>>, s: State, d: nat, p: Put)
      returns (acts: seq<Action>, j: nat)
    requires Initial(c, init, s) && Shape(c, s) && |s.readers| > 0 && c.unitSize >= 1
    requires d % c.unitNum == c.unitNum - 1 && p.offset == 0 && |p.src| == 1
    ensures GetRun(c, s, acts, 0, 1, j, |acts|) && StoresBetween(c, s, acts, 1, j) == d
    ensures At(c, s, acts, 1).latest == 0 && At(c, s, acts, 1).units == s.units
    ensures At(c, s, acts, j).units == s.units && At(c, s, acts, j).writer == WClaim(p, 0)
    ensures At(c, s, acts, |acts|).readers[0] == RCopy(Request(0, 1), 0, p.src)
  {
    hide Initial, Apply, Exec, Shape, At, GetRun, WriterOnly, Quiet, StoresBetween, EmptyPuts;
    var q := Request(0, 1);
    var writing, sj := AimBehindReader(c, init, s, d, q, p);
    UnpublishedEnd(c, sj, p);
    BrokenGet(c, init, s, q, writing, UNPUBLISHED_ENDING, sj);
    acts, j := Broken(q, writing, UNPUBLISHED_ENDING), 4 + |writing|;
  }

  /** The writer goes once round the ring, rewriting byte 0 of unit 0, and `d - n` puts further. */
  function Rewrite(n: nat, d: nat, p: Put): seq<Action>
    requires 0 < n <= d
  {
    EmptyPuts(n - 1) + (SoloPut(p) + EmptyPuts(d - n))
  }

  lemma RewriteWriterOnly(n: nat, d: nat, p: Put)
    requires 0 < n <= d
    ensures WriterOnly(Rewrite(n, d, p))
  {
    EmptyPutsWriterOnly(n - 1);
    EmptyPutsWriterOnly(d - n);
    assert WriterOnly(SoloPut(p));
    assert WriterOnly(SoloPut(p) + EmptyPuts(d - n));
  }

  lemma RewriteUnitZero(c: Config, s: State, d: nat, p: Put)
    requires Quiet(c, s) && s.history == [] && c.unitNum <= d && p.Fits(c.unitSize)
    ensures var sj := Exec(c, s, Rewrite(c.unitNum, d, p));
            Quiet(c, sj) && sj.units[0].buf == Overlay(s.units[0].buf, p)
            && sj.readers == s.readers && |sj.history| == d
  {
    hide Apply, SoloPut, Shape, Exec;
    var first := EmptyPuts(c.unitNum - 1);
    var rest := SoloPut(p) + EmptyPuts(d - c.unitNum);
    EmptyPutsAdvance(c, s, c.unitNum - 1);
    var s1 := Exec(c, s, first);
    AimsAtZero(c, s1);
    PutThenEmpties(c, s1, d - c.unitNum, p);
    ExecConcat(c, s, first, rest);
  }

  lemma AimsAtZero(c: Config, s: State)
    requires Quiet(c, s) && |s.history| == c.unitNum - 1
    ensures (s.latest + 1) % c.unitNum == 0
  {
    Modular.DivModUnique(c.unitNum - 1, 0, c.unitNum - 1, c.unitNum);
    LastIndex(c.unitNum - 1, c.unitNum);
  }

  lemma ThenEmpties(c: Config, s: State, acts: seq<Action>, m: nat)
    requires Shape(c, s) && Quiet(c, Exec(c, s, acts))
    ensures var s1, sj := Exec(c, s, acts), Exec(c, s, acts + EmptyPuts(m));
            Quiet(c, sj) && sj.units == s1.units && sj.readers == s1.readers
            && |sj.history| == |s1.history| + m
  {
    ExecConcat(c, s, acts, EmptyPuts(m));
    EmptyPutsAdvance(c, Exec(c, s, acts), m);
  }

  lemma PutThenEmpties(c: Config, s: State, m: nat, p: Put)
    requires Quiet(c, s) && p.Fits(c.unitSize) && (s.latest + 1) % c.unitNum == 0
    ensures var sj := Exec(c, s, SoloPut(p) + EmptyPuts(m));
            Quiet(c, sj) && sj.units[0].buf == Overlay(s.units[0].buf, p)
            && sj.readers == s.readers && |sj.history| == |s.history| + 1 + m
  {
    var acts := SoloPut(p);
    SoloPutRefines(c, s, p);
    AfterPutQuiet(c, s, p);
    ThenEmpties(c, s, acts, m);
  }

  /** With n stores or more a reader can return bytes published after its load. */
  lemma StaleUnitPossible(c: Config, init: seq<seq<Byte>>, s: State, d: nat)
      returns (acts: seq<Action>, j: nat, x: Byte)
    requires Initial(c, init, s) && |s.readers| > 0 && c.unitSize >= 1 && d >= c.unitNum
    ensures Shape(c, s) && GetRun(c, s, acts, 0, 1, j, |acts|) && StoresBetween(c, s, acts, 1, j) == d
    ensures At(c, s, acts, 1).latest == 0 && At(c, s, acts, 1).units == s.units
    ensures At(c, s, acts, |acts|).readers[0] == RCopy(Request(0, 1), 0, [x]) && x != init[0][0]
  {
    hide Initial, Apply, Exec, Shape, At, GetRun, Rewrite, WriterOnly, Quiet, Broken, Overlay;
    FreshQueue(c, init, s);
    FreshByte(c, init, s);
    x := if init[0][0] == 0 then 1 else 0;
    var p := Put(0, [x]);
    var q := Request(0, 1);
    var writing := Rewrite(c.unitNum, d, p);
    var ending := [ReaderStep(0)];
    acts := Broken(q, writing, ending);
    j := 4 + |writing|;
    ReaderReachesClaim(c, init, s, q);
    var s4 := Exec(c, s, ReaderToClaim(q));
    RewriteUnitZero(c, s4, d, p);
    RewriteWriterOnly(c.unitNum, d, p);
    var sj := Exec(c, s4, writing);
    StaleEnd(c, sj);
    BrokenGet(c, init, s, q, writing, ending, sj);
  }

  lemma StaleEnd(c: Config, s: State)
    requires Shape(c, s) && |s.readers| > 0 && c.unitSize >= 1
    requires s.readers[0] == RClaim(Request(0, 1), 0)
    ensures forall m :: 0 < m <= 2 ==> At(c, s, [ReaderStep(0)] + [ReaderStep(0)], m).readers[0].RCopy?
    ensures At(c, s, [ReaderStep(0)] + [ReaderStep(0)], 2).readers[0]
         == RCopy(Request(0, 1), 0, [s.units[0].buf[0]])
  {
    var acts := [ReaderStep(0)] + [ReaderStep(0)];
    assert At(c, s, acts, 0) == s;
    AtStep(c, s, acts, 0);
    AtStep(c, s, acts, 1);
    forall m | 0 < m <= 2 ensures At(c, s, acts, m).readers[0].RCopy? {
      assert m == 1 || m == 2;
    }
  }

  // ---------------------------------------------------------------- the exact conditions

  /** What a get has copied before step `k` are bytes the unit chosen at step `i` held before step `at`. */
  ghost predicate CopiedAsOf(c: Config, s: State, acts: seq<Action>, r: nat, i: nat, at: nat, k: nat)
    requires Shape(c, s) && i <= |acts| && at <= |acts| && k <= |acts| && r < |s.readers|
  {
    var u, rd := At(c, s, acts, i).latest, At(c, s, acts, k).readers[r];
    Holding(rd) && CopiedFrom(At(c, s, acts, at).units[u].buf, rd.req, rd.dst)
  }

  /** Every get with `d` stores between its load and its increment copies one consistent unit. */
  ghost predicate AlwaysConsistent(c: Config, d: nat) {
    forall init, s, acts, r, i, j, k ::
      Initial(c, init, s) && Shape(c, s) && GetRun(c, s, acts, r, i, j, k) && StoresBetween(c, s, acts, i, j) == d
      ==> CopiedAsOf(c, s, acts, r, i, j, k)
  }

  /** Every get with `d` stores between its load and its increment copies what was published at its load. */
  ghost predicate AlwaysFresh(c: Config, d: nat) {
    forall init, s, acts, r, i, j, k ::
      Initial(c, init, s) && Shape(c, s) && GetRun(c, s, acts, r, i, j, k) && StoresBetween(c, s, acts, i, j) == d
      ==> CopiedAsOf(c, s, acts, r, i, i, k)
  }

  /** A fresh queue of zeros with one reader. */
  lemma SomeQueue(c: Config) returns (init: seq<seq<Byte>>, s: State)
    requires c.unitNum > 0
    ensures Initial(c, init, s) && Shape(c, s) && |s.readers| > 0
  {
    init := seq(c.unitNum, _ => seq(c.unitSize, _ => 0));
    s := State(0, seq(c.unitNum, u requires 0 <= u < c.unitNum => Unit(0, 0, init[u])), WIdle(0), [RIdle(0, [])], []);
    InitialInv(c, init, s);
  }

  /** Reads are never torn exactly when the stores in between are not n - 1 modulo n. */
  lemma ConsistentIff(c: Config, d: nat)
    requires c.unitNum > 0 && c.unitSize > 0
    ensures AlwaysConsistent(c, d) <==> d % c.unitNum != c.unitNum - 1
  {
    if d % c.unitNum != c.unitNum - 1 {
      forall init, s, acts, r, i, j, k
        | Initial(c, init, s) && Shape(c, s) && GetRun(c, s, acts, r, i, j, k)
          && StoresBetween(c, s, acts, i, j) == d
        ensures CopiedAsOf(c, s, acts, r, i, j, k)
      {
        ExclusiveCopy(c, init, s, acts, r, i, j, k);
      }
    } else {
      var init, s := SomeQueue(c);
      var acts, j, x := UnpublishedReadPossible(c, init, s, d);
      assert !CopiedAsOf(c, s, acts, 0, 1, j, |acts|);
    }
  }

  /** Reads return the unit published at their load exactly when fewer than n - 1 stores come in between. */
  lemma FreshIff(c: Config, d: nat)
    requires c.unitNum > 0 && c.unitSize > 0
    ensures AlwaysFresh(c, d) <==> d < c.unitNum - 1
  {
    if d < c.unitNum - 1 {
      forall init, s, acts, r, i, j, k
        | Initial(c, init, s) && Shape(c, s) && GetRun(c, s, acts, r, i, j, k)
          && StoresBetween(c, s, acts, i, j) == d
        ensures CopiedAsOf(c, s, acts, r, i, i, k)
      {
        NoTornRead(c, init, s, acts, r, i, j, k);
      }
    } else {
      var init, s := SomeQueue(c);
      if d < c.unitNum {
        Modular.DivModUnique(d, 0, d, c.unitNum);
        var acts, j, x := UnpublishedReadPossible(c, init, s, d);
        assert !CopiedAsOf(c, s, acts, 0, 1, 1, |acts|);
      } else {
        var acts, j, x := StaleUnitPossible(c, init, s, d);
        assert !CopiedAsOf(c, s, acts, 0, 1, 1, |acts|);
      }
    }
  }
}
