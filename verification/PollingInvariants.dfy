/** What every run of sync calls keeps, for every test of failure and every answer of the devices. */
module PollingInvariants {
  import opened PollingSpec

  // ---------------------------------------------------------------- the parts of the invariant

  ghost predicate LinkInv(timing: Timing, l: Link, clock: nat) {
    && (l.connected ==> l.retryCnt == 0) && l.retryCnt <= 1
    && l.firstHandshake <= l.lastHandshake <= clock
    && l.nextHandshake <= clock + timing.retryInterval
  }

  ghost predicate LinksInv(timing: Timing, slaves: seq<Slave>, clock: nat) {
    forall s :: 0 <= s < |slaves| ==> LinkInv(timing, slaves[s].link, clock)
  }

  ghost predicate TimesPast(items: seq<Item>, clock: nat) {
    forall k, d :: 0 <= k < |items| && 0 <= d < |items[k].lastTime| ==> items[k].lastTime[d] <= clock
  }

  ghost predicate CallsPast(log: seq<Entry>, calls: nat) {
    forall p :: 0 <= p < |log| ==> log[p].call <= calls
  }

  /** Every scheduled attempt is the retry interval after the link went down, and none was moved forward. */
  ghost predicate Scheduled(timing: Timing, slaves: seq<Slave>, log: seq<Entry>) {
    forall p :: 0 <= p < |log| && log[p].Offline? ==>
      log[p].slave < |slaves| && log[p].next == log[p].at + timing.retryInterval
      && log[p].next <= slaves[log[p].slave].link.nextHandshake
  }

  ghost predicate OnlineBetween(log: seq<Entry>, p: int, q: int) {
    exists m :: p < m < q && 0 <= m < |log| && log[m].Online?
  }

  /** A successful read leaves its mark in the schedule of its item, until the next connection. */
  ghost predicate Marked(items: seq<Item>, e: Entry, log: seq<Entry>, p: nat)
    requires e.ReadOk?
  {
    && e.item < |items| && e.device < |items[e.item].lastTime| && e.device < |items[e.item].firstRecord|
    && (items[e.item].interval > 0 ==> e.storeAt <= items[e.item].lastTime[e.device])
    && (items[e.item].interval == 0 ==>
         items[e.item].firstRecord[e.device] || OnlineBetween(log, p, |log|))
  }

  ghost predicate AllMarked(items: seq<Item>, log: seq<Entry>) {
    forall p :: 0 <= p < |log| && log[p].ReadOk? ==> Marked(items, log[p], log, p)
  }

  predicate SameTarget(e: Entry, f: Entry) {
    e.ReadOk? && f.ReadOk? && e.item == f.item && e.device == f.device
  }

  ghost predicate IntervalIs(items: seq<Item>, k: nat, periodic: bool) {
    k < |items| && (items[k].interval > 0 <==> periodic)
  }

  /** Successive successful reads of a periodic item on one device are at least its interval apart. */
  ghost predicate Spaced(items: seq<Item>, log: seq<Entry>) {
    forall p, q :: 0 <= p < q < |log| && SameTarget(log[p], log[q]) && IntervalIs(items, log[p].item, true) ==>
      log[q].checkAt >= log[p].storeAt + items[log[p].item].interval
  }

  /** Between two successful reads of a once-per-connection item on one device a slave came on line. */
  ghost predicate OncePerConnection(items: seq<Item>, log: seq<Entry>) {
    forall p, q :: 0 <= p < q < |log| && SameTarget(log[p], log[q]) && IntervalIs(items, log[p].item, false) ==>
      OnlineBetween(log, p, q)
  }

  predicate LaterRequest(e: Entry, f: Entry) {
    e.Offline? && IsRequest(f) && f.slave == e.slave && f.call > e.call
  }

  /** After a link goes down, no later call sends a request before the scheduled attempt. */
  ghost predicate Gated(log: seq<Entry>) {
    forall p, q :: 0 <= p < q < |log| && LaterRequest(log[p], log[q]) ==> log[q].gateAt >= log[p].next
  }

  ghost predicate Inv(timing: Timing, st: State) {
    && Shape(st)
    && LinksInv(timing, st.slaves, st.clock) && TimesPast(st.items, st.clock) && CallsPast(st.log, st.calls)
    && Scheduled(timing, st.slaves, st.log) && AllMarked(st.items, st.log)
    && Spaced(st.items, st.log) && OncePerConnection(st.items, st.log) && Gated(st.log)
  }

  /** The running call passed its gate: no attempt that an earlier call scheduled lies beyond it. */
  ghost predicate GatePassed(st: State, s: nat, gateAt: nat) {
    forall p :: 0 <= p < |st.log| && st.log[p].Offline? && st.log[p].slave == s && st.log[p].call < st.calls ==>
      st.log[p].next <= gateAt
  }

  // ---------------------------------------------------------------- the clock alone

  lemma ClockKeepsInv(timing: Timing, st: State, clock: nat, calls: nat)
    requires Inv(timing, st) && clock >= st.clock && calls >= st.calls
    ensures Inv(timing, st.(clock := clock, calls := calls))
  {
    hide Marked, OnlineBetween, Spaced, OncePerConnection, Gated, Scheduled;
    assert AllMarked(st.items, st.log);
  }

  // ---------------------------------------------------------------- one more entry

  lemma OnlineStays(log: seq<Entry>, e: Entry, p: int, q: int)
    requires OnlineBetween(log, p, q) && q <= |log|
    ensures OnlineBetween(log + [e], p, q) && OnlineBetween(log + [e], p, |log| + 1)
  {
    var m :| p < m < q && 0 <= m < |log| && log[m].Online?;
    assert (log + [e])[m].Online?;
  }

  /** An entry that is not a read leaves the facts about reads alone. */
  lemma AppendOther(items: seq<Item>, log: seq<Entry>, e: Entry)
    requires AllMarked(items, log) && Spaced(items, log) && OncePerConnection(items, log) && !e.ReadOk?
    ensures AllMarked(items, log + [e]) && Spaced(items, log + [e]) && OncePerConnection(items, log + [e])
  {
    AppendMarked(items, log, e);
    AppendSpaced(items, log, e);
    AppendOnce(items, log, e);
  }

  lemma AppendMarked(items: seq<Item>, log: seq<Entry>, e: Entry)
    requires AllMarked(items, log) && (e.ReadOk? ==> Marked(items, e, log + [e], |log|))
    ensures AllMarked(items, log + [e])
  {
    var log' := log + [e];
    forall p | 0 <= p < |log'| && log'[p].ReadOk? ensures Marked(items, log'[p], log', p) {
      if p < |log| {
        assert log'[p] == log[p] && Marked(items, log[p], log, p);
        if OnlineBetween(log, p, |log|) {
          OnlineStays(log, e, p, |log|);
        }
      }
    }
  }

  lemma AppendSpaced(items: seq<Item>, log: seq<Entry>, e: Entry)
    requires Spaced(items, log)
    requires forall p :: 0 <= p < |log| && SameTarget(log[p], e) && IntervalIs(items, log[p].item, true) ==>
               e.checkAt >= log[p].storeAt + items[log[p].item].interval
    ensures Spaced(items, log + [e])
  {
    var log' := log + [e];
    forall p, q | 0 <= p < q < |log'| && SameTarget(log'[p], log'[q]) && IntervalIs(items, log'[p].item, true)
      ensures log'[q].checkAt >= log'[p].storeAt + items[log'[p].item].interval
    {
      assert log'[p] == log[p];
      if q < |log| {
        assert log'[q] == log[q];
      }
    }
  }

  lemma AppendOnce(items: seq<Item>, log: seq<Entry>, e: Entry)
    requires OncePerConnection(items, log)
    requires forall p :: 0 <= p < |log| && SameTarget(log[p], e) && IntervalIs(items, log[p].item, false) ==>
               OnlineBetween(log, p, |log|)
    ensures OncePerConnection(items, log + [e])
  {
    var log' := log + [e];
    forall p, q | 0 <= p < q < |log'| && SameTarget(log'[p], log'[q]) && IntervalIs(items, log'[p].item, false)
      ensures OnlineBetween(log', p, q)
    {
      assert log'[p] == log[p];
      if q < |log| {
        assert log'[q] == log[q];
      }
      OnlineStays(log, e, p, q);
    }
  }

  lemma AppendGated(log: seq<Entry>, e: Entry)
    requires Gated(log)
    requires forall p :: 0 <= p < |log| && LaterRequest(log[p], e) ==> e.gateAt >= log[p].next
    ensures Gated(log + [e])
  {
    var log' := log + [e];
    forall p, q | 0 <= p < q < |log'| && LaterRequest(log'[p], log'[q]) ensures log'[q].gateAt >= log'[p].next {
      assert log'[p] == log[p];
      if q < |log| {
        assert log'[q] == log[q];
      }
    }
  }

  // ---------------------------------------------------------------- a request

  /** The read marks its item, for the new entry and for all earlier ones. */
  lemma MarkKeeps(items: seq<Item>, log: seq<Entry>, k: nat, device: nat, now: nat)
    requires AllMarked(items, log) && k < |items|
    requires device < |items[k].lastTime| && device < |items[k].firstRecord|
    requires TimesPast(items, now)
    ensures AllMarked(items[k := MarkRead(items[k], device, now)], log)
  {
    var items' := items[k := MarkRead(items[k], device, now)];
    forall p | 0 <= p < |log| && log[p].ReadOk? ensures Marked(items', log[p], log, p) {
      assert Marked(items, log[p], log, p);
      hide OnlineBetween;
      if log[p].item == k && log[p].device == device {
        assert items[k].lastTime[device] <= now;
      }
    }
  }

  lemma SameIntervals(items: seq<Item>, items': seq<Item>, log: seq<Entry>)
    requires |items'| == |items| && forall k :: 0 <= k < |items| ==> items'[k].interval == items[k].interval
    requires Spaced(items, log) && OncePerConnection(items, log)
    ensures Spaced(items', log) && OncePerConnection(items', log)
  {
    hide OnlineBetween;
  }

  /** A read that was due comes late enough after, or a connection after, every earlier one. */
  lemma DueMeansSpaced(items: seq<Item>, log: seq<Entry>, e: Entry)
    requires AllMarked(items, log) && e.ReadOk? && e.item < |items|
    requires e.device < |items[e.item].lastTime| && e.device < |items[e.item].firstRecord|
    requires Due(items[e.item], e.device, e.checkAt)
    ensures forall p :: 0 <= p < |log| && SameTarget(log[p], e) && IntervalIs(items, log[p].item, true) ==>
              e.checkAt >= log[p].storeAt + items[log[p].item].interval
    ensures forall p :: 0 <= p < |log| && SameTarget(log[p], e) && IntervalIs(items, log[p].item, false) ==>
              OnlineBetween(log, p, |log|)
  {
    forall p | 0 <= p < |log| && SameTarget(log[p], e)
      ensures IntervalIs(items, log[p].item, true) ==>
                e.checkAt >= log[p].storeAt + items[log[p].item].interval
      ensures IntervalIs(items, log[p].item, false) ==> OnlineBetween(log, p, |log|)
    {
      assert Marked(items, log[p], log, p);
    }
  }

  lemma ReadKeepsInv(timing: Timing, st: State, s: nat, k: nat, gateAt: nat, answer: Answer)
    requires Inv(timing, st) && s < |st.slaves| && k < |st.items| && GatePassed(st, s, gateAt)
    ensures Inv(timing, ReadOne(st, s, k, gateAt, answer).0)
    ensures GatePassed(ReadOne(st, s, k, gateAt, answer).0, s, gateAt)
  {
    var st' := ReadOne(st, s, k, gateAt, answer).0;
    var device := st.slaves[s].device;
    ClockKeepsInv(timing, st, st'.clock, st.calls);
    if device < MAX_SLAVE_NUM && Due(st.items[k], device, st.clock + answer.delays.check) {
      if answer.reply == -1 {
        RequestKeepsInv(timing, st.(clock := st'.clock), s, gateAt, st'.log[|st.log|]);
      } else {
        SuccessKeepsInv(timing, st, s, k, gateAt, answer);
      }
    }
  }

  /** An entry for a request that is not a successful read. */
  lemma RequestKeepsInv(timing: Timing, st: State, s: nat, gateAt: nat, e: Entry)
    requires Inv(timing, st) && GatePassed(st, s, gateAt)
    requires (e.ReadFailed? || e.Written?) && e.call == st.calls && e.slave == s && e.gateAt == gateAt
    ensures Inv(timing, st.(log := st.log + [e])) && GatePassed(st.(log := st.log + [e]), s, gateAt)
  {
    AppendOther(st.items, st.log, e);
    AppendGated(st.log, e);
    hide AllMarked, Spaced, OncePerConnection, Gated;
  }

  lemma SuccessKeepsInv(timing: Timing, st: State, s: nat, k: nat, gateAt: nat, answer: Answer)
    requires Inv(timing, st) && s < |st.slaves| && k < |st.items| && GatePassed(st, s, gateAt)
    requires st.slaves[s].device < MAX_SLAVE_NUM && answer.reply != -1
    requires Due(st.items[k], st.slaves[s].device, st.clock + answer.delays.check)
    ensures Inv(timing, ReadOne(st, s, k, gateAt, answer).0)
    ensures GatePassed(ReadOne(st, s, k, gateAt, answer).0, s, gateAt)
  {
    var st' := ReadOne(st, s, k, gateAt, answer).0;
    var device := st.slaves[s].device;
    var e := st'.log[|st.log|];
    assert st'.log == st.log + [e];
    DueMeansSpaced(st.items, st.log, e);
    AppendSpaced(st.items, st.log, e);
    AppendOnce(st.items, st.log, e);
    AppendGated(st.log, e);
    SameIntervals(st.items, st'.items, st'.log);
    MarkKeeps(st.items, st.log, k, device, st'.clock);
    AppendMarked(st'.items, st.log, e);
    hide AllMarked, Spaced, OncePerConnection, Gated;
  }

  lemma WriteKeepsInv(timing: Timing, st: State, s: nat, k: nat, gateAt: nat, answer: Answer)
    requires Inv(timing, st) && s < |st.slaves| && k < |st.writes| && GatePassed(st, s, gateAt)
    ensures Inv(timing, WriteOne(st, s, k, gateAt, answer).0)
    ensures GatePassed(WriteOne(st, s, k, gateAt, answer).0, s, gateAt)
  {
    var st' := WriteOne(st, s, k, gateAt, answer).0;
    ClockKeepsInv(timing, st, st'.clock, st.calls);
    if st'.log != st.log {
      RequestKeepsInv(timing, st.(clock := st'.clock), s, gateAt, st'.log[|st.log|]);
    }
  }

  // ---------------------------------------------------------------- a change of a link

  /** Coming on line clears the records of the once-per-connection items, and is itself the connection that
      accounts for it. */
  lemma ClearKeepsMarks(items: seq<Item>, log: seq<Entry>, e: Entry)
    requires AllMarked(items, log) && e.Online?
    requires forall k :: 0 <= k < |items| ==> |items[k].firstRecord| == MAX_SLAVE_NUM
    ensures AllMarked(ClearFirst(items), log + [e])
  {
    var log' := log + [e];
    forall p | 0 <= p < |log'| && log'[p].ReadOk? ensures Marked(ClearFirst(items), log'[p], log', p) {
      assert log'[p] == log[p] && Marked(items, log[p], log, p);
      assert log'[|log|].Online?;
    }
  }

  lemma OnlineKeepsInv(timing: Timing, st: State, s: nat, d: Delays)
    requires Inv(timing, st) && s < |st.slaves| && !st.slaves[s].link.connected
    ensures var st1 := SetOnline(st, s, st.clock + d.link);
            var l := st1.slaves[s].(link := st1.slaves[s].link.(lastHandshake := st.clock + d.link + d.last));
            Inv(timing, st1.(clock := st.clock + d.link + d.last, slaves := st1.slaves[s := l]))
  {
    var e := Online(st.calls, s, st.slaves[s].device);
    ClearKeepsMarks(st.items, st.log, e);
    AppendSpaced(st.items, st.log, e);
    AppendOnce(st.items, st.log, e);
    SameIntervals(st.items, ClearFirst(st.items), st.log + [e]);
    AppendGated(st.log, e);
    hide AllMarked, Spaced, OncePerConnection, Gated;
  }

  /** A link that goes down was connected, so its retry counter is 0, the delay is the plain retry interval,
      and the new attempt is not before the one scheduled last. */
  lemma OfflineKeepsInv(timing: Timing, st: State, s: nat, at: nat, setAt: nat)
    requires Inv(timing, st) && s < |st.slaves| && st.slaves[s].link.connected && st.clock <= setAt
    ensures Inv(timing, SetOffline(timing, st, s, at, setAt).(clock := setAt))
  {
    var st' := SetOffline(timing, st, s, at, setAt);
    ClockKeepsInv(timing, st, setAt, st.calls);
    if st' != st {
      var l := st.slaves[s].link;
      assert LinkInv(timing, l, st.clock) && Pow(timing.delayCardinality, l.retryCnt) == 1;
      var next := setAt + timing.retryInterval;
      var e := Offline(st.calls, s, st.slaves[s].device, setAt, next);
      assert st'.log == st.log + [e] && st'.slaves[s].link.nextHandshake == next;
      AppendOther(st.items, st.log, e);
      AppendGated(st.log, e);
      hide AllMarked, Spaced, OncePerConnection, Gated;
    }
  }

  lemma SettleKeepsInv(timing: Timing, fails: int -> bool, st: State, s: nat, feedback: int, d: Delays, gateAt: nat)
    requires Inv(timing, st) && s < |st.slaves| && GatePassed(st, s, gateAt)
    ensures Inv(timing, Settle(timing, fails, st, s, feedback, d))
    ensures GatePassed(Settle(timing, fails, st, s, feedback, d), s, gateAt)
  {
    hide AllMarked, Spaced, OncePerConnection, Gated;
    var lastAt := st.clock + d.link + d.last;
    ClockKeepsInv(timing, st, lastAt, st.calls);
    if feedback == FEEDBACK_OK {
      if !st.slaves[s].link.connected {
        OnlineKeepsInv(timing, st, s, d);
      }
    } else if fails(feedback) && st.slaves[s].link.connected {
      OfflineKeepsInv(timing, st, s, st.clock + d.link, lastAt);
    }
  }

  // ---------------------------------------------------------------- calls and runs

  lemma {:induction false} SyncReadsKeepsInv(timing: Timing, fails: int -> bool, st: State, s: nat, k: nat,
                                             gateAt: nat, answers: nat -> Answer)
    requires Shape(st) && Inv(timing, st) && s < |st.slaves| && k <= |st.items| && GatePassed(st, s, gateAt)
    ensures Inv(timing, SyncReads(timing, fails, st, s, k, gateAt, answers))
    decreases |st.items| - k
  {
    hide Inv, GatePassed, ReadOne, Settle;
    if k < |st.items| {
      var (st1, feedback) := ReadOne(st, s, k, gateAt, answers(k));
      ReadKeepsInv(timing, st, s, k, gateAt, answers(k));
      SettleKeepsInv(timing, fails, st1, s, feedback, answers(k).delays, gateAt);
      SyncReadsKeepsInv(timing, fails, Settle(timing, fails, st1, s, feedback, answers(k).delays), s, k + 1,
                        gateAt, answers);
    }
  }

  lemma {:induction false} SyncWritesKeepsInv(timing: Timing, fails: int -> bool, st: State, s: nat, k: nat,
                                              gateAt: nat, answers: nat -> Answer)
    requires Shape(st) && Inv(timing, st) && s < |st.slaves| && k <= |st.writes| && GatePassed(st, s, gateAt)
    ensures Inv(timing, SyncWrites(timing, fails, st, s, k, gateAt, answers))
    decreases |st.writes| - k
  {
    hide Inv, GatePassed, WriteOne, Settle;
    if k < |st.writes| {
      var (st1, feedback) := WriteOne(st, s, k, gateAt, answers(k));
      WriteKeepsInv(timing, st, s, k, gateAt, answers(k));
      SettleKeepsInv(timing, fails, st1, s, feedback, answers(k).delays, gateAt);
      SyncWritesKeepsInv(timing, fails, Settle(timing, fails, st1, s, feedback, answers(k).delays), s, k + 1,
                         gateAt, answers);
    }
  }

  lemma GateOpens(timing: Timing, st: State, s: nat, now: nat)
    requires Inv(timing, st) && s < |st.slaves| && st.slaves[s].link.nextHandshake <= now
    ensures GatePassed(st.(clock := now, calls := st.calls + 1), s, now)
  {
  }

  lemma CallKeepsInv(timing: Timing, fails: int -> bool, st: State, c: Call)
    requires Inv(timing, st)
    ensures Inv(timing, DoCall(timing, fails, st, c))
  {
    hide SyncReads, SyncWrites, Gated, Spaced, AllMarked, OncePerConnection;
    if c.slave < |st.slaves| {
      var now := st.clock + c.delay;
      var st1 := st.(clock := now, calls := st.calls + 1);
      ClockKeepsInv(timing, st, now, st.calls + 1);
      if st.slaves[c.slave].link.nextHandshake <= now {
        GateOpens(timing, st, c.slave, now);
        match c
        case ReadSync(s, _, answers) => SyncReadsKeepsInv(timing, fails, st1, s, 0, now, answers);
        case WriteSync(s, _, answers) => SyncWritesKeepsInv(timing, fails, st1, s, 0, now, answers);
      }
    }
  }

  /** Every run keeps the invariant, whatever counts as a failure. */
  lemma {:induction false} RunKeepsInv(timing: Timing, fails: int -> bool, st: State, calls: seq<Call>)
    requires Initial(st)
    ensures Inv(timing, Run(timing, fails, st, calls))
  {
    hide DoCall;
    if calls == [] {
      assert Inv(timing, st);
    } else {
      RunKeepsInv(timing, fails, st, calls[..|calls| - 1]);
      CallKeepsInv(timing, fails, Run(timing, fails, st, calls[..|calls| - 1]), calls[|calls| - 1]);
    }
  }

  /** The link states over all runs and all tests of failure. */
  lemma LinkStates(timing: Timing, fails: int -> bool, st: State, calls: seq<Call>)
    requires Initial(st)
    ensures var e := Run(timing, fails, st, calls);
            // connected means no retries, and there is never more than one
            && (forall s :: 0 <= s < |e.slaves| ==>
                 (e.slaves[s].link.connected ==> e.slaves[s].link.retryCnt == 0)
                 && e.slaves[s].link.retryCnt <= 1
                 && e.slaves[s].link.firstHandshake <= e.slaves[s].link.lastHandshake <= e.clock)
            // so every scheduled delay is the retry interval times the base to the power 0
            && (forall p :: 0 <= p < |e.log| && e.log[p].Offline? ==>
                 e.log[p].next == e.log[p].at + timing.retryInterval)
            // and no later call sends a request before it has passed
            && (forall p, q :: 0 <= p < q < |e.log| && LaterRequest(e.log[p], e.log[q]) ==>
                 e.log[q].gateAt >= e.log[p].next)
  {
    RunKeepsInv(timing, fails, st, calls);
    hide Run, AllMarked, Spaced, OncePerConnection;
    var e := Run(timing, fails, st, calls);
    forall s | 0 <= s < |e.slaves| ensures LinkInv(timing, e.slaves[s].link, e.clock) {
    }
  }

  ghost predicate SameIntervalsAs(items: seq<Item>, items': seq<Item>) {
    |items'| == |items| && forall k :: 0 <= k < |items| ==> items'[k].interval == items[k].interval
  }

  lemma ReadKeepsIntervals(st: State, s: nat, k: nat, gateAt: nat, answer: Answer)
    requires Shape(st) && s < |st.slaves| && k < |st.items|
    ensures SameIntervalsAs(st.items, ReadOne(st, s, k, gateAt, answer).0.items)
  {
  }

  lemma SettleKeepsIntervals(timing: Timing, fails: int -> bool, st: State, s: nat, feedback: int, d: Delays)
    requires Shape(st) && s < |st.slaves|
    ensures SameIntervalsAs(st.items, Settle(timing, fails, st, s, feedback, d).items)
  {
  }

  lemma {:induction false} ReadsKeepIntervals(timing: Timing, fails: int -> bool, st: State, s: nat, k: nat,
                                              gateAt: nat, answers: nat -> Answer)
    requires Shape(st) && s < |st.slaves| && k <= |st.items|
    ensures SameIntervalsAs(st.items, SyncReads(timing, fails, st, s, k, gateAt, answers).items)
    decreases |st.items| - k
  {
    hide ReadOne, Settle;
    if k < |st.items| {
      var (st1, feedback) := ReadOne(st, s, k, gateAt, answers(k));
      var st2 := Settle(timing, fails, st1, s, feedback, answers(k).delays);
      ReadKeepsIntervals(st, s, k, gateAt, answers(k));
      SettleKeepsIntervals(timing, fails, st1, s, feedback, answers(k).delays);
      ReadsKeepIntervals(timing, fails, st2, s, k + 1, gateAt, answers);
    }
  }

  lemma {:induction false} WritesKeepIntervals(timing: Timing, fails: int -> bool, st: State, s: nat, k: nat,
                                               gateAt: nat, answers: nat -> Answer)
    requires Shape(st) && s < |st.slaves| && k <= |st.writes|
    ensures SameIntervalsAs(st.items, SyncWrites(timing, fails, st, s, k, gateAt, answers).items)
    decreases |st.writes| - k
  {
    hide WriteOne, Settle;
    if k < |st.writes| {
      var (st1, feedback) := WriteOne(st, s, k, gateAt, answers(k));
      var st2 := Settle(timing, fails, st1, s, feedback, answers(k).delays);
      SettleKeepsIntervals(timing, fails, st1, s, feedback, answers(k).delays);
      WritesKeepIntervals(timing, fails, st2, s, k + 1, gateAt, answers);
    }
  }

  lemma CallKeepsIntervals(timing: Timing, fails: int -> bool, st: State, c: Call)
    requires Shape(st)
    ensures SameIntervalsAs(st.items, DoCall(timing, fails, st, c).items)
  {
    hide SyncReads, SyncWrites;
    if c.slave < |st.slaves| {
      var now := st.clock + c.delay;
      var st1 := st.(clock := now, calls := st.calls + 1);
      match c
      case ReadSync(s, _, answers) => ReadsKeepIntervals(timing, fails, st1, s, 0, now, answers);
      case WriteSync(s, _, answers) => WritesKeepIntervals(timing, fails, st1, s, 0, now, answers);
    }
  }

  lemma {:induction false} IntervalsStay(timing: Timing, fails: int -> bool, st: State, calls: seq<Call>)
    requires Shape(st)
    ensures SameIntervalsAs(st.items, Run(timing, fails, st, calls).items)
  {
    hide DoCall;
    if calls != [] {
      IntervalsStay(timing, fails, st, calls[..|calls| - 1]);
      CallKeepsIntervals(timing, fails, Run(timing, fails, st, calls[..|calls| - 1]), calls[|calls| - 1]);
    }
  }

  /** The reads over all runs: two successful reads of one item on one device are at least the item's interval
      apart, or, for interval 0, a slave of the table came on line in between. */
  lemma ReadSchedule(timing: Timing, fails: int -> bool, st: State, calls: seq<Call>, p: nat, q: nat)
    requires Initial(st) && p < q < |Run(timing, fails, st, calls).log|
    requires SameTarget(Run(timing, fails, st, calls).log[p], Run(timing, fails, st, calls).log[q])
    ensures var log := Run(timing, fails, st, calls).log;
            && log[p].item < |st.items|
            && (st.items[log[p].item].interval > 0 ==>
                 log[q].checkAt >= log[p].storeAt + st.items[log[p].item].interval)
            && (st.items[log[p].item].interval == 0 ==> exists m :: p < m < q && log[m].Online?)
  {
    RunKeepsInv(timing, fails, st, calls);
    IntervalsStay(timing, fails, st, calls);
    hide Run;
    var e := Run(timing, fails, st, calls);
    assert Marked(e.items, e.log[p], e.log, p);
    if e.items[e.log[p].item].interval > 0 {
      assert IntervalIs(e.items, e.log[p].item, true);
    } else {
      assert IntervalIs(e.items, e.log[p].item, false);
      assert OnlineBetween(e.log, p, q);
    }
  }
}
