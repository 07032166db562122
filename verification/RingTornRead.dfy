/** When a reader gets the unit it chose: the number of stores to the latest index between the reader's load
    of that index and its increment of the read holder decides it. */
module RingTornRead {
  import opened RingSpec
  import opened RingProtocol
  import Modular

  function At(c: Config, s: State, acts: seq<Action>, m: nat): (s': State)
    requires Shape(c, s) && m <= |acts|
    ensures Shape(c, s') && |s'.readers| == |s.readers|
  {
    Exec(c, s, acts[..m])
  }

  lemma AtStep(c: Config, s: State, acts: seq<Action>, m: nat)
    requires Shape(c, s) && m < |acts|
    ensures At(c, s, acts, m + 1) == Apply(c, At(c, s, acts, m), acts[m])
  {
    assert acts[..m + 1][..m] == acts[..m];
  }

  /** In the run `acts` from `s`, reader `r` loads the latest index at step `i`, raises the read holder at
      step `j`, and is still between its increment and its decrement before step `k`. */
  ghost predicate GetRun(c: Config, s: State, acts: seq<Action>, r: nat, i: nat, j: nat, k: nat)
    requires Shape(c, s)
  {
    && i < j < k <= |acts| && r < |s.readers|
    && acts[i] == ReaderStep(r) && At(c, s, acts, i).readers[r].RLoadLatest?
    && (forall m :: i < m <= j ==> Waiting(At(c, s, acts, m).readers[r]))
    && acts[j] == ReaderStep(r) && At(c, s, acts, j).readers[r].RClaim?
    && (forall m :: j < m <= k ==> Holding(At(c, s, acts, m).readers[r]))
  }

  /** The number of stores to `latest` between the load and the increment. */
  ghost function StoresBetween(c: Config, s: State, acts: seq<Action>, i: nat, j: nat): int
    requires Shape(c, s) && i <= j <= |acts|
  {
    |At(c, s, acts, j).history| - |At(c, s, acts, i).history|
  }

  lemma AtInv(c: Config, init: seq<seq<Byte>>, s: State, acts: seq<Action>, m: nat)
    requires Initial(c, init, s) && m <= |acts|
    ensures Shape(c, s) && Inv(c, init, At(c, s, acts, m))
  {
    RunKeepsInv(c, init, s, acts[..m]);
  }

  lemma HistoryStep(c: Config, s: State, a: Action)
    requires Shape(c, s)
    ensures s.history <= Apply(c, s, a).history
  {
  }

  lemma {:induction false} HistoryGrows(c: Config, s: State, acts: seq<Action>, i: nat, j: nat)
    requires Shape(c, s) && i <= j <= |acts|
    ensures At(c, s, acts, i).history <= At(c, s, acts, j).history
    decreases j
  {
    hide *;
    if i < j {
      HistoryGrows(c, s, acts, i, j - 1);
      AtStep(c, s, acts, j - 1);
      HistoryStep(c, At(c, s, acts, j - 1), acts[j - 1]);
    }
  }

  /** Only a writer copying into unit `u` changes its bytes. */
  lemma BufferFrame(c: Config, s: State, a: Action, u: nat)
    requires Shape(c, s) && u < c.unitNum
    requires !(s.writer.WCopy? && s.writer.target == u)
    ensures Apply(c, s, a).units[u].buf == s.units[u].buf
  {
    match a
    case ReaderStep(r) =>
      if r < |s.readers| {
        ReaderKeepsBuffers(c, s, r, u);
      }
    case _ =>
  }

  lemma ReaderFrame(c: Config, s: State, a: Action, r: nat)
    requires Shape(c, s) && r < |s.readers| && !s.readers[r].RIdle?
    requires a != ReaderStep(r)
    ensures Apply(c, s, a).readers[r] == s.readers[r]
  {
  }

  /** The writer aims elsewhere while fewer than n - 1 puts have been published since unit `u` was. */
  lemma AimsElsewhere(c: Config, init: seq<seq<Byte>>, s: State, h0: nat)
    requires Inv(c, init, s) && h0 <= |s.history|
    requires (|s.history| - h0) % c.unitNum != c.unitNum - 1 && HasTarget(s.writer)
    ensures s.writer.target != h0 % c.unitNum
  {
    var n, h := c.unitNum, |s.history|;
    Modular.ModSucc(h, n);
    if (h + 1) % n == h0 % n {
      Modular.SameResidue(h0, h + 1, n);
      Modular.ModSucc(h - h0, n);
      assert ((h - h0) % n + 1) % n == 0;
      if (h - h0) % n + 1 < n {
        Modular.DivModUnique((h - h0) % n + 1, 0, (h - h0) % n + 1, n);
      }
    }
  }

  lemma FewStoresKeepBuffer(c: Config, init: seq<seq<Byte>>, s: State, a: Action, h0: nat)
    requires Inv(c, init, s) && h0 <= |s.history| && |s.history| - h0 < c.unitNum - 1
    ensures Apply(c, s, a).units[h0 % c.unitNum].buf == s.units[h0 % c.unitNum].buf
  {
    if s.writer.WCopy? {
      Modular.DivModUnique(|s.history| - h0, 0, |s.history| - h0, c.unitNum);
      AimsElsewhere(c, init, s, h0);
    }
    BufferFrame(c, s, a, h0 % c.unitNum);
  }

  lemma LatestIs(c: Config, init: seq<seq<Byte>>, s: State)
    requires Inv(c, init, s)
    ensures c.unitNum > 0 && s.latest == |s.history| % c.unitNum < |s.units|
  {
  }

  lemma Bounds(c: Config, s: State, acts: seq<Action>, i: nat, j: nat)
    requires Shape(c, s) && i < j <= |acts|
    ensures StoresBetween(c, s, acts, i, j) == |At(c, s, acts, j).history| - |At(c, s, acts, i).history|
    ensures StoresBetween(c, s, acts, i, j - 1) == |At(c, s, acts, j - 1).history| - |At(c, s, acts, i).history|
  {
  }

  /** From the load to the increment: with fewer than n - 1 stores the chosen unit keeps its bytes. */
  lemma {:induction false} FreshUntilClaim(
    c: Config, init: seq<seq<Byte>>, s: State, acts: seq<Action>, i: nat, j: nat)
    requires Initial(c, init, s) && i <= j <= |acts|
    requires StoresBetween(c, s, acts, i, j) < c.unitNum - 1
    ensures var u := At(c, s, acts, i).latest;
            At(c, s, acts, j).units[u].buf == At(c, s, acts, i).units[u].buf
    decreases j
  {
    hide *;
    AtInv(c, init, s, acts, i);
    if i < j {
      LatestIs(c, init, At(c, s, acts, i));
      Bounds(c, s, acts, i, j);
      AtInv(c, init, s, acts, j - 1);
      HistoryGrows(c, s, acts, i, j - 1);
      HistoryGrows(c, s, acts, j - 1, j);
      FreshUntilClaim(c, init, s, acts, i, j - 1);
      AtStep(c, s, acts, j - 1);
      FewStoresKeepBuffer(c, init, At(c, s, acts, j - 1), acts[j - 1], |At(c, s, acts, i).history|);
    }
  }

  /** The writer has not passed the holder test for unit `u`. */
  ghost predicate KeptOut(s: State, u: nat) {
    var w := s.writer;
    HasTarget(w) && w.target == u ==> w.WPollRead? || w.WPublish? || (w.WPollWrite? && w.seenRead != 0)
  }

  /** `dst` is the beginning of the requested window of `buf`. */
  ghost predicate CopiedFrom(buf: seq<Byte>, req: Request, dst: seq<Byte>) {
    |dst| <= req.size && req.offset + req.size <= |buf| && dst == buf[req.offset..req.offset + |dst|]
  }

  /** Reader `r` holds unit `u`, whose bytes are `buf`, and has copied the beginning of its window. */
  ghost predicate Held(s: State, r: nat, u: nat, req: Request, buf: seq<Byte>) {
    && r < |s.readers| && u < |s.units| && Holding(s.readers[r])
    && s.readers[r].unit == u && s.readers[r].req == req
    && KeptOut(s, u) && s.units[u].buf == buf && CopiedFrom(buf, req, s.readers[r].dst)
  }

  lemma ClaimGivesHeld(c: Config, s: State, r: nat)
    requires Shape(c, s) && r < |s.readers| && s.readers[r].RClaim? && KeptOut(s, s.readers[r].unit)
    ensures var u := s.readers[r].unit;
            Held(Apply(c, s, ReaderStep(r)), r, u, s.readers[r].req, s.units[u].buf)
  {
  }

  lemma StepKeepsOut(c: Config, init: seq<seq<Byte>>, s: State, a: Action, r: nat)
    requires Inv(c, init, s) && r < |s.readers| && Holding(s.readers[r]) && KeptOut(s, s.readers[r].unit)
    ensures KeptOut(Apply(c, s, a), s.readers[r].unit)
  {
    var u := s.readers[r].unit;
    HolderPresent(s.readers, r);
    assert UnitInv(c, init[u], s, u);
    assert s.units[u].read != 0;
  }

  lemma StepKeepsHeld(c: Config, init: seq<seq<Byte>>, s: State, a: Action,
                      r: nat, u: nat, req: Request, buf: seq<Byte>)
    requires Inv(c, init, s) && Held(s, r, u, req, buf)
    requires Holding(Apply(c, s, a).readers[r])
    ensures Held(Apply(c, s, a), r, u, req, buf)
  {
    StepKeepsOut(c, init, s, a, r);
    BufferFrame(c, s, a, u);
    if a != ReaderStep(r) {
      ReaderFrame(c, s, a, r);
    }
  }

  /** From the increment to the decrement: a writer that was not aiming at the unit stays out of it. */
  lemma {:induction false} HeldUntilRelease(
    c: Config, init: seq<seq<Byte>>, s: State, acts: seq<Action>,
    r: nat, u: nat, req: Request, buf: seq<Byte>, j: nat, k: nat)
    requires Initial(c, init, s) && Shape(c, s) && j <= k <= |acts| && r < |s.readers|
    requires forall m :: j < m <= k ==> Holding(At(c, s, acts, m).readers[r])
    requires Held(At(c, s, acts, j), r, u, req, buf)
    ensures Held(At(c, s, acts, k), r, u, req, buf)
    decreases k
  {
    hide *;
    if j < k {
      HeldUntilRelease(c, init, s, acts, r, u, req, buf, j, k - 1);
      AtInv(c, init, s, acts, k - 1);
      AtStep(c, s, acts, k - 1);
      StepKeepsHeld(c, init, At(c, s, acts, k - 1), acts[k - 1], r, u, req, buf);
    }
  }

  lemma ExclusiveWhileHeld(
    c: Config, init: seq<seq<Byte>>, s: State, acts: seq<Action>, r: nat, j: nat, k: nat)
    requires Initial(c, init, s) && Shape(c, s) && j < k <= |acts| && r < |s.readers|
    requires acts[j] == ReaderStep(r) && At(c, s, acts, j).readers[r].RClaim?
    requires forall m :: j < m <= k ==> Holding(At(c, s, acts, m).readers[r])
    requires KeptOut(At(c, s, acts, j), At(c, s, acts, j).readers[r].unit)
    ensures var before := At(c, s, acts, j);
            var u := before.readers[r].unit;
            Held(At(c, s, acts, k), r, u, before.readers[r].req, before.units[u].buf)
  {
    var before := At(c, s, acts, j);
    var u := before.readers[r].unit;
    hide *;
    AtStep(c, s, acts, j);
    ClaimGivesHeld(c, before, r);
    HeldUntilRelease(c, init, s, acts, r, u, before.readers[r].req, before.units[u].buf, j + 1, k);
  }

  lemma WaitingKeepsChoice(c: Config, s: State, a: Action, r: nat)
    requires Shape(c, s) && r < |s.readers| && Waiting(s.readers[r])
    requires Waiting(Apply(c, s, a).readers[r])
    ensures Apply(c, s, a).readers[r].unit == s.readers[r].unit
    ensures Apply(c, s, a).readers[r].req == s.readers[r].req
  {
  }

  lemma LoadChooses(c: Config, s: State, r: nat)
    requires Shape(c, s) && r < |s.readers| && s.readers[r].RLoadLatest?
    ensures Apply(c, s, ReaderStep(r)).readers[r] == RPollRead(s.readers[r].req, s.latest, 0)
  {
  }

  lemma {:induction false} ChoiceIsKept(c: Config, s: State, acts: seq<Action>, r: nat, i: nat, j: nat)
    requires Shape(c, s) && i < j <= |acts| && r < |s.readers|
    requires acts[i] == ReaderStep(r) && At(c, s, acts, i).readers[r].RLoadLatest?
    requires forall m :: i < m <= j ==> Waiting(At(c, s, acts, m).readers[r])
    ensures At(c, s, acts, j).readers[r].unit == At(c, s, acts, i).latest
    ensures At(c, s, acts, j).readers[r].req == At(c, s, acts, i).readers[r].req
    decreases j
  {
    hide Apply, Shape, Exec, At, Waiting;
    AtStep(c, s, acts, j - 1);
    if i < j - 1 {
      ChoiceIsKept(c, s, acts, r, i, j - 1);
      WaitingKeepsChoice(c, At(c, s, acts, j - 1), acts[j - 1], r);
    } else {
      LoadChooses(c, At(c, s, acts, i), r);
    }
  }

  /** If the number of stores between load and increment is not n - 1 modulo n, the copy is exclusive: from
      the increment on nobody writes the unit, and the bytes copied are the unit's bytes at the increment. */
  lemma ExclusiveCopy(
    c: Config, init: seq<seq<Byte>>, s: State, acts: seq<Action>, r: nat, i: nat, j: nat, k: nat)
    requires Initial(c, init, s) && Shape(c, s) && GetRun(c, s, acts, r, i, j, k)
    requires StoresBetween(c, s, acts, i, j) % c.unitNum != c.unitNum - 1
    ensures var u := At(c, s, acts, i).latest;
            && (forall m :: j < m <= k ==>
                 At(c, s, acts, m).units[u].buf == At(c, s, acts, j).units[u].buf
                 && !Writing(At(c, s, acts, m).writer, u))
            && At(c, s, acts, k).readers[r].req == At(c, s, acts, i).readers[r].req
            && CopiedFrom(At(c, s, acts, j).units[u].buf, At(c, s, acts, i).readers[r].req,
                          At(c, s, acts, k).readers[r].dst)
  {
    AtInv(c, init, s, acts, i);
    AtInv(c, init, s, acts, j);
    HistoryGrows(c, s, acts, i, j);
    ChoiceIsKept(c, s, acts, r, i, j);
    if HasTarget(At(c, s, acts, j).writer) {
      AimsElsewhere(c, init, At(c, s, acts, j), |At(c, s, acts, i).history|);
    }
    forall m | j < m <= k
      ensures var u := At(c, s, acts, i).latest;
              At(c, s, acts, m).units[u].buf == At(c, s, acts, j).units[u].buf
              && !Writing(At(c, s, acts, m).writer, u)
    {
      ExclusiveWhileHeld(c, init, s, acts, r, j, m);
    }
    ExclusiveWhileHeld(c, init, s, acts, r, j, k);
  }

  /** No torn and no stale read: with fewer than n - 1 stores in between, no byte of the unit changes from the
      load to the decrement, and the bytes copied are those published at the load. */
  lemma NoTornRead(
    c: Config, init: seq<seq<Byte>>, s: State, acts: seq<Action>, r: nat, i: nat, j: nat, k: nat)
    requires Initial(c, init, s) && Shape(c, s) && GetRun(c, s, acts, r, i, j, k)
    requires StoresBetween(c, s, acts, i, j) < c.unitNum - 1
    ensures var u := At(c, s, acts, i).latest;
            && (forall m :: i <= m <= k ==>
                 At(c, s, acts, m).units[u].buf == At(c, s, acts, i).units[u].buf)
            && At(c, s, acts, k).readers[r].req == At(c, s, acts, i).readers[r].req
            && CopiedFrom(At(c, s, acts, i).units[u].buf, At(c, s, acts, i).readers[r].req,
                          At(c, s, acts, k).readers[r].dst)
  {
    HistoryGrows(c, s, acts, i, j);
    var d := StoresBetween(c, s, acts, i, j);
    Modular.DivModUnique(d, 0, d, c.unitNum);
    ExclusiveCopy(c, init, s, acts, r, i, j, k);
    FreshUntilClaim(c, init, s, acts, i, j);
    forall m | i <= m <= j
      ensures var u := At(c, s, acts, i).latest;
              At(c, s, acts, m).units[u].buf == At(c, s, acts, i).units[u].buf
    {
      HistoryGrows(c, s, acts, m, j);
      FreshUntilClaim(c, init, s, acts, i, m);
    }
  }

  /** Such a get takes effect at its load: it returns the window of what the puts published by then leave
      in the current unit. */
  lemma GetIsLinearizable(
    c: Config, init: seq<seq<Byte>>, s: State, acts: seq<Action>, r: nat, i: nat, j: nat, k: nat)
    requires Initial(c, init, s) && Shape(c, s) && GetRun(c, s, acts, r, i, j, k)
    requires StoresBetween(c, s, acts, i, j) < c.unitNum - 1
    requires k < |acts| && acts[k] == ReaderStep(r) && At(c, s, acts, k).readers[r].RRelease?
    ensures var q := At(c, s, acts, i).readers[r].req;
            At(c, s, acts, k + 1).readers[r]
            == RIdle(0,
                     Current(init, At(c, s, acts, i).history, c.unitSize)[q.offset..q.offset + q.size])
  {
    hide Apply, Exec, Shape, At, Inv, Initial, Current, StoresBetween;
    NoTornRead(c, init, s, acts, r, i, j, k);
    AtStep(c, s, acts, k);
    AtInv(c, init, s, acts, i);
    HistoryGrows(c, s, acts, i, j);
    AtLeastTwo(c, s, acts, i, j);
    InvMeans(c, init, At(c, s, acts, i));
    ReleaseReturns(c, At(c, s, acts, k), r);
  }

  lemma AtLeastTwo(c: Config, s: State, acts: seq<Action>, i: nat, j: nat)
    requires Shape(c, s) && i <= j <= |acts| && StoresBetween(c, s, acts, i, j) < c.unitNum - 1
    requires At(c, s, acts, i).history <= At(c, s, acts, j).history
    ensures c.unitNum >= 2
  {
  }

  lemma ReleaseReturns(c: Config, s: State, r: nat)
    requires Shape(c, s) && r < |s.readers| && s.readers[r].RRelease?
    ensures |s.readers[r].dst| == s.readers[r].req.size
    ensures Apply(c, s, ReaderStep(r)).readers[r] == RIdle(STATUS_OK, s.readers[r].dst)
  {
  }
}
