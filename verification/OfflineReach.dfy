/** Which tests of failure can ever take a link down. */
module OfflineReach {
  import opened PollingSpec
  import opened RegisterTransfer

  ghost predicate HasOffline(log: seq<Entry>) {
    exists p :: 0 <= p < |log| && log[p].Offline?
  }

  /** Some run from a fresh state takes a link down. */
  ghost predicate CanGoOffline(timing: Timing, fails: int -> bool) {
    exists st: State, calls: seq<Call> :: Initial(st) && HasOffline(Run(timing, fails, st, calls).log)
  }

  predicate SomeFeedbackFails(fails: int -> bool) {
    fails(READ_FAILED) || fails(NOT_DUE) || fails(WRITE_FAILED) || fails(NO_DATA)
  }

  // ---------------------------------------------------------------- no feedback fails

  /** A slave whose device number is out of range never gets an answer, so its link never comes up. */
  ghost predicate NeverDown(st: State) {
    && !HasOffline(st.log)
    && forall s :: 0 <= s < |st.slaves| && st.slaves[s].device >= MAX_SLAVE_NUM ==> !st.slaves[s].link.connected
  }

  lemma AppendNotOffline(log: seq<Entry>, e: Entry)
    requires !HasOffline(log) && !e.Offline?
    ensures !HasOffline(log + [e])
  {
  }

  lemma ReadStaysUp(timing: Timing, fails: int -> bool, st: State, s: nat, k: nat, gateAt: nat, answer: Answer)
    requires Shape(st) && s < |st.slaves| && k < |st.items| && NeverDown(st) && !SomeFeedbackFails(fails)
    ensures var (st1, feedback) := ReadOne(st, s, k, gateAt, answer);
            NeverDown(Settle(timing, fails, st1, s, feedback, answer.delays))
  {
    var (st1, feedback) := ReadOne(st, s, k, gateAt, answer);
    if st1.log != st.log {
      AppendNotOffline(st.log, st1.log[|st.log|]);
    }
    SettleStaysUp(timing, fails, st1, s, feedback, answer.delays);
  }

  lemma WriteStaysUp(timing: Timing, fails: int -> bool, st: State, s: nat, k: nat, gateAt: nat, answer: Answer)
    requires Shape(st) && s < |st.slaves| && k < |st.writes| && NeverDown(st) && !SomeFeedbackFails(fails)
    ensures var (st1, feedback) := WriteOne(st, s, k, gateAt, answer);
            NeverDown(Settle(timing, fails, st1, s, feedback, answer.delays))
  {
    var (st1, feedback) := WriteOne(st, s, k, gateAt, answer);
    if st1.log != st.log {
      AppendNotOffline(st.log, st1.log[|st.log|]);
    }
    SettleStaysUp(timing, fails, st1, s, feedback, answer.delays);
  }

  lemma SettleStaysUp(timing: Timing, fails: int -> bool, st: State, s: nat, feedback: int, d: Delays)
    requires Shape(st) && s < |st.slaves| && NeverDown(st) && !SomeFeedbackFails(fails)
    requires feedback in {FEEDBACK_OK, BAD_DEVICE, READ_FAILED, NOT_DUE, WRITE_FAILED, NO_DATA}
    requires feedback == BAD_DEVICE <==> st.slaves[s].device >= MAX_SLAVE_NUM
    ensures NeverDown(Settle(timing, fails, st, s, feedback, d))
  {
    if feedback == FEEDBACK_OK && !st.slaves[s].link.connected {
      AppendNotOffline(st.log, Online(st.calls, s, st.slaves[s].device));
    }
  }

  lemma {:induction false} SyncReadsStaysUp(timing: Timing, fails: int -> bool, st: State, s: nat, k: nat,
                                            gateAt: nat, answers: nat -> Answer)
    requires Shape(st) && s < |st.slaves| && k <= |st.items| && NeverDown(st) && !SomeFeedbackFails(fails)
    ensures NeverDown(SyncReads(timing, fails, st, s, k, gateAt, answers))
    decreases |st.items| - k
  {
    hide ReadOne, Settle, NeverDown;
    if k < |st.items| {
      var (st1, feedback) := ReadOne(st, s, k, gateAt, answers(k));
      ReadStaysUp(timing, fails, st, s, k, gateAt, answers(k));
      SyncReadsStaysUp(timing, fails, Settle(timing, fails, st1, s, feedback, answers(k).delays), s, k + 1,
                       gateAt, answers);
    }
  }

  lemma {:induction false} SyncWritesStaysUp(timing: Timing, fails: int -> bool, st: State, s: nat, k: nat,
                                             gateAt: nat, answers: nat -> Answer)
    requires Shape(st) && s < |st.slaves| && k <= |st.writes| && NeverDown(st) && !SomeFeedbackFails(fails)
    ensures NeverDown(SyncWrites(timing, fails, st, s, k, gateAt, answers))
    decreases |st.writes| - k
  {
    hide WriteOne, Settle, NeverDown;
    if k < |st.writes| {
      var (st1, feedback) := WriteOne(st, s, k, gateAt, answers(k));
      WriteStaysUp(timing, fails, st, s, k, gateAt, answers(k));
      SyncWritesStaysUp(timing, fails, Settle(timing, fails, st1, s, feedback, answers(k).delays), s, k + 1,
                        gateAt, answers);
    }
  }

  lemma {:induction false} RunStaysUp(timing: Timing, fails: int -> bool, st: State, calls: seq<Call>)
    requires Initial(st) && !SomeFeedbackFails(fails)
    ensures NeverDown(Run(timing, fails, st, calls))
  {
    hide SyncReads, SyncWrites;
    if calls != [] {
      RunStaysUp(timing, fails, st, calls[..|calls| - 1]);
      var before := Run(timing, fails, st, calls[..|calls| - 1]);
      var c := calls[|calls| - 1];
      if c.slave < |before.slaves| {
        var now := before.clock + c.delay;
        var st1 := before.(clock := now, calls := before.calls + 1);
        match c
        case ReadSync(s, _, answers) => SyncReadsStaysUp(timing, fails, st1, s, 0, now, answers);
        case WriteSync(s, _, answers) => SyncWritesStaysUp(timing, fails, st1, s, 0, now, answers);
      }
    }
  }

  // ---------------------------------------------------------------- some feedback fails

  const NO_DELAYS := Delays(0, 0, 0, 0)

  const ONE: Register := RegisterData(Holding, 0, 1, 0)
  const ZEROS: Buffer := seq(PDU_MAX, _ => 0)

  /** One slave, one item read once per connection, and one item written on demand. */
  function Fresh(): (st: State) {
    var zeros := seq(MAX_SLAVE_NUM, _ => 0);
    State([Item(ONE, 0, zeros, seq(MAX_SLAVE_NUM, _ => false))], [WriteItem(ONE, 0, zeros, true)],
          [Slave(0, Link(false, 0, 0, 0, 0))], 0, 0, [])
  }

  function Always(a: Answer): nat -> Answer {
    _ => a
  }

  const GOOD := Answer(true, 0, ZEROS, NO_DELAYS)
  const SILENT := Answer(true, -1, ZEROS, NO_DELAYS)
  const NOTHING_TO_WRITE := Answer(false, 0, ZEROS, NO_DELAYS)

  lemma RunMore(timing: Timing, fails: int -> bool, st: State, calls: seq<Call>, c: Call)
    requires Shape(st)
    ensures Run(timing, fails, st, calls + [c]) == DoCall(timing, fails, Run(timing, fails, st, calls), c)
  {
    assert (calls + [c])[..|calls|] == calls;
  }

  /** A slave that has just come on line: its item has not been read, or it has. */
  ghost predicate Up(st: State, read: bool) {
    && Shape(st) && |st.items| == 1 && st.items[0].interval == 0 && st.items[0].firstRecord[0] == read
    && st.writes == Fresh().writes && |st.slaves| == 1 && st.slaves[0].device == 0
    && st.slaves[0].link == Link(true, 0, 0, 0, 0) && st.clock == 0
  }

  lemma ComesUp(timing: Timing, fails: int -> bool)
    ensures Up(DoCall(timing, fails, Fresh(), WriteSync(0, 0, Always(GOOD))), false)
  {
    var st := Fresh();
    var st1 := st.(calls := 1);
    var (st2, feedback) := WriteOne(st1, 0, 0, 0, GOOD);
    var st3 := Settle(timing, fails, st2, 0, feedback, NO_DELAYS);
    assert SyncWrites(timing, fails, st3, 0, 1, 0, Always(GOOD)) == st3;
  }

  lemma ReadsItem(timing: Timing, fails: int -> bool, st: State)
    requires Up(st, false)
    ensures Up(DoCall(timing, fails, st, ReadSync(0, 0, Always(GOOD))), true)
  {
    var st1 := st.(calls := st.calls + 1);
    var (st2, feedback) := ReadOne(st1, 0, 0, 0, GOOD);
    var st3 := Settle(timing, fails, st2, 0, feedback, NO_DELAYS);
    assert SyncReads(timing, fails, st3, 0, 1, 0, Always(GOOD)) == st3;
  }

  lemma SettlesOffline(timing: Timing, fails: int -> bool, st: State, feedback: int)
    requires Shape(st) && |st.slaves| == 1 && st.slaves[0].link == Link(true, 0, 0, 0, 0)
    requires feedback != FEEDBACK_OK && fails(feedback) && st.clock == timing.timeoutThreshold
    ensures HasOffline(Settle(timing, fails, st, 0, feedback, NO_DELAYS).log)
  {
    var log := Settle(timing, fails, st, 0, feedback, NO_DELAYS).log;
    assert log[|st.log|].Offline?;
  }

  lemma GoesDownOnRead(timing: Timing, fails: int -> bool, st: State, read: bool, answer: Answer)
    requires Up(st, read) && answer.delays == NO_DELAYS
    requires if read then fails(NOT_DUE) else fails(READ_FAILED) && answer.reply == -1
    ensures HasOffline(DoCall(timing, fails, st, ReadSync(0, timing.timeoutThreshold, Always(answer))).log)
  {
    var now := timing.timeoutThreshold;
    var st1 := st.(clock := now, calls := st.calls + 1);
    var (st2, feedback) := ReadOne(st1, 0, 0, now, answer);
    SettlesOffline(timing, fails, st2, feedback);
    var st3 := Settle(timing, fails, st2, 0, feedback, NO_DELAYS);
    assert SyncReads(timing, fails, st3, 0, 1, now, Always(answer)) == st3;
  }

  lemma GoesDownOnWrite(timing: Timing, fails: int -> bool, st: State, answer: Answer)
    requires Up(st, false) && answer.delays == NO_DELAYS
    requires if answer.hasData then fails(WRITE_FAILED) && answer.reply == -1 else fails(NO_DATA)
    ensures HasOffline(DoCall(timing, fails, st, WriteSync(0, timing.timeoutThreshold, Always(answer))).log)
  {
    var now := timing.timeoutThreshold;
    var st1 := st.(clock := now, calls := st.calls + 1);
    var (st2, feedback) := WriteOne(st1, 0, 0, now, answer);
    SettlesOffline(timing, fails, st2, feedback);
    var st3 := Settle(timing, fails, st2, 0, feedback, NO_DELAYS);
    assert SyncWrites(timing, fails, st3, 0, 1, now, Always(answer)) == st3;
  }

  lemma SomeRunGoesDown(timing: Timing, fails: int -> bool)
    requires SomeFeedbackFails(fails)
    ensures CanGoOffline(timing, fails)
  {
    hide DoCall, Run, Up;
    var st := Fresh();
    var up := WriteSync(0, 0, Always(GOOD));
    var T := timing.timeoutThreshold;
    RunNone(timing, fails, st);
    RunMore(timing, fails, st, [], up);
    ComesUp(timing, fails);
    var st1 := Run(timing, fails, st, [] + [up]);
    var before := [] + [up];
    var last := if fails(READ_FAILED) then ReadSync(0, T, Always(SILENT))
                else if fails(WRITE_FAILED) then WriteSync(0, T, Always(SILENT))
                else if fails(NO_DATA) then WriteSync(0, T, Always(NOTHING_TO_WRITE))
                else ReadSync(0, T, Always(GOOD));
    if fails(READ_FAILED) {
      GoesDownOnRead(timing, fails, st1, false, SILENT);
    } else if fails(WRITE_FAILED) {
      GoesDownOnWrite(timing, fails, st1, SILENT);
    } else if fails(NO_DATA) {
      GoesDownOnWrite(timing, fails, st1, NOTHING_TO_WRITE);
    } else {
      var read := ReadSync(0, 0, Always(GOOD));
      ReadsItem(timing, fails, st1);
      RunMore(timing, fails, st, before, read);
      before := before + [read];
      GoesDownOnRead(timing, fails, Run(timing, fails, st, before), true, GOOD);
    }
    RunMore(timing, fails, st, before, last);
    assert HasOffline(Run(timing, fails, st, before + [last]).log);
  }

  lemma RunNone(timing: Timing, fails: int -> bool, st: State)
    requires Shape(st)
    ensures Run(timing, fails, st, []) == st
  {
  }

  /** A link can go down exactly when the test of failure accepts a feedback that a slave in range produces. */
  lemma CanGoOfflineIff(timing: Timing, fails: int -> bool)
    ensures CanGoOffline(timing, fails) <==> SomeFeedbackFails(fails)
  {
    hide Run;
    if SomeFeedbackFails(fails) {
      SomeRunGoesDown(timing, fails);
    } else if CanGoOffline(timing, fails) {
      var st: State, calls: seq<Call> :| Initial(st) && HasOffline(Run(timing, fails, st, calls).log);
      RunStaysUp(timing, fails, st, calls);
    }
  }

  /** The shipped test compares the feedback with -1, so no link ever goes down; comparing it with the feedback
      of a failed read lets links go down. */
  lemma ShippedTestNeverFires(timing: Timing)
    ensures !CanGoOffline(timing, f => f == -1)
    ensures CanGoOffline(timing, f => f == READ_FAILED)
  {
    CanGoOfflineIff(timing, f => f == -1);
    CanGoOfflineIff(timing, f => f == READ_FAILED);
  }
}
