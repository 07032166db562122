/** The schedule as a function of what happened: over all runs the records and times of the items say exactly which
    successful reads and connections the log holds. */
module PollingHistory {
  import opened PollingSpec
  import opened PollingTrail

  /** Whether item `k`, read once per connection, counts as read on the device: the last entry that bears on it is a
      successful read, and not a slave that came on line. */
  function ReadSinceOnline(was: bool, log: seq<Entry>, k: nat, device: nat): bool {
    if log == [] then was
    else
      match log[|log| - 1]
      case Online(_, _, _) => false
      case ReadOk(_, _, d, i, _, _, _, _, _) =>
        if i == k && d == device then true else ReadSinceOnline(was, log[..|log| - 1], k, device)
      case _ => ReadSinceOnline(was, log[..|log| - 1], k, device)
  }

  /** When item `k` was last read on the device. */
  function LastRead(was: nat, log: seq<Entry>, k: nat, device: nat): nat {
    if log == [] then was
    else
      match log[|log| - 1]
      case ReadOk(_, _, d, i, _, _, storeAt, _, _) =>
        if i == k && d == device then storeAt else LastRead(was, log[..|log| - 1], k, device)
      case _ => LastRead(was, log[..|log| - 1], k, device)
  }

  ghost predicate RecordIs(it: Item, now: Item, log: seq<Entry>, k: nat, d: nat)
    requires d < |it.firstRecord| && d < |it.lastTime| && d < |now.firstRecord| && d < |now.lastTime|
  {
    && now.interval == it.interval
    && (it.interval == 0 ==> now.firstRecord[d] == ReadSinceOnline(it.firstRecord[d], log, k, d))
    && (it.interval > 0 ==> now.lastTime[d] == LastRead(it.lastTime[d], log, k, d))
  }

  /** The schedule of `st` is what its log makes of the schedule `items` that the run began with. */
  ghost predicate Recorded(items: seq<Item>, st: State)
    requires Shape(st)
    requires forall k :: 0 <= k < |items| ==> |items[k].lastTime| == 255 && |items[k].firstRecord| == 255
  {
    && |items| == |st.items|
    && forall k, d :: 0 <= k < |items| && 0 <= d < 255 ==> RecordIs(items[k], st.items[k], st.log, k, d)
  }

  lemma {:induction false} HistoryAppend(was: bool, at: nat, log: seq<Entry>, more: seq<Entry>, k: nat, device: nat)
    ensures ReadSinceOnline(was, log + more, k, device)
         == ReadSinceOnline(ReadSinceOnline(was, log, k, device), more, k, device)
    ensures LastRead(at, log + more, k, device) == LastRead(LastRead(at, log, k, device), more, k, device)
  {
    if more == [] {
      assert log + more == log;
    } else {
      HistoryAppend(was, at, log, more[..|more| - 1], k, device);
      assert (log + more)[..|log + more| - 1] == log + more[..|more| - 1];
    }
  }

  /** One entry more. */
  lemma OneEntry(was: bool, at: nat, e: Entry, k: nat, device: nat)
    ensures ReadSinceOnline(was, [e], k, device)
         == if e.Online? then false else if e.ReadOk? && e.item == k && e.device == device then true else was
    ensures LastRead(at, [e], k, device)
         == if e.ReadOk? && e.item == k && e.device == device then e.storeAt else at
  {
    assert [e][..0] == [];
  }

  lemma NoEntry(was: bool, at: nat, k: nat, device: nat)
    ensures ReadSinceOnline(was, [], k, device) == was && LastRead(at, [], k, device) == at
  {
  }

  /** What at most one request and one change of a link make of the history. */
  lemma TurnHistory(was: bool, at: nat, log: seq<Entry>, request: seq<Entry>, link: seq<Entry>, k: nat, device: nat)
    requires |request| <= 1 && |link| <= 1
    requires |request| == 1 ==> IsRequest(request[0])
    requires |link| == 1 ==> link[0].Online? || link[0].Offline?
    ensures var read := |request| == 1 && request[0].ReadOk? && request[0].item == k && request[0].device == device;
            var up := |link| == 1 && link[0].Online?;
            && ReadSinceOnline(was, log + request + link, k, device)
               == (if up then false else if read then true else ReadSinceOnline(was, log, k, device))
            && LastRead(at, log + request + link, k, device)
               == (if read then request[0].storeAt else LastRead(at, log, k, device))
  {
    hide ReadSinceOnline, LastRead;
    var x, y := ReadSinceOnline(was, log, k, device), LastRead(at, log, k, device);
    HistoryAppend(was, at, log, request, k, device);
    HistoryAppend(was, at, log + request, link, k, device);
    NoEntry(x, y, k, device);
    if |request| == 1 {
      assert request == [request[0]];
      OneEntry(x, y, request[0], k, device);
    }
    var x1, y1 := ReadSinceOnline(was, log + request, k, device), LastRead(at, log + request, k, device);
    NoEntry(x1, y1, k, device);
    if |link| == 1 {
      assert link == [link[0]];
      OneEntry(x1, y1, link[0], k, device);
    }
  }

  lemma LinkEntriesAre(st: State, s: nat, after: Link, lastAt: nat)
    requires s < |st.slaves|
    ensures var link := LinkEntries(st, s, after, lastAt);
            && |link| <= 1 && (|link| == 1 ==> link[0].Online? || link[0].Offline?)
            && (|link| == 1 && link[0].Online? <==> after.connected && !st.slaves[s].link.connected)
  {
  }

  lemma ReadTurnRecords(timing: Timing, fails: int -> bool, items: seq<Item>, a: State, b: State, s: nat, k: nat,
                        gateAt: nat, answer: Answer)
    requires forall m :: 0 <= m < |items| ==> |items[m].lastTime| == 255 && |items[m].firstRecord| == 255
    requires Shape(a) && Shape(b) && s < |a.slaves| && k < |a.items| && Recorded(items, a)
    requires ReadTurn(timing, fails, a, b, s, k, gateAt, answer)
    ensures Recorded(items, b)
  {
    hide ReadSinceOnline, LastRead, Pow, ReadAsked;
    var request := ReadEntries(a, s, k, gateAt, answer);
    var link := b.log[|a.log| + |request|..];
    assert b.log == a.log + request + link;
    forall m, d | 0 <= m < |items| && 0 <= d < 255 ensures RecordIs(items[m], b.items[m], b.log, m, d) {
      assert RecordIs(items[m], a.items[m], a.log, m, d);
      TurnHistory(items[m].firstRecord[d], items[m].lastTime[d], a.log, request, link, m, d);
    }
  }

  lemma WriteTurnRecords(timing: Timing, fails: int -> bool, items: seq<Item>, a: State, b: State, s: nat, k: nat,
                         gateAt: nat, answer: Answer)
    requires forall m :: 0 <= m < |items| ==> |items[m].lastTime| == 255 && |items[m].firstRecord| == 255
    requires Shape(a) && Shape(b) && s < |a.slaves| && k < |a.writes| && Recorded(items, a)
    requires WriteTurn(timing, fails, a, b, s, k, gateAt, answer)
    ensures Recorded(items, b)
  {
    hide ReadSinceOnline, LastRead, Pow, WriteAsked;
    var request := WriteEntries(a, s, k, gateAt, answer);
    var link := b.log[|a.log| + |request|..];
    assert b.log == a.log + request + link;
    forall m, d | 0 <= m < |items| && 0 <= d < 255 ensures RecordIs(items[m], b.items[m], b.log, m, d) {
      assert RecordIs(items[m], a.items[m], a.log, m, d);
      TurnHistory(items[m].firstRecord[d], items[m].lastTime[d], a.log, request, link, m, d);
    }
  }

  lemma {:induction false} ReadTrailRecords(timing: Timing, fails: int -> bool, items: seq<Item>, states: seq<State>,
                                            s: nat, gateAt: nat, answers: nat -> Answer, n: nat)
    requires forall m :: 0 <= m < |items| ==> |items[m].lastTime| == 255 && |items[m].firstRecord| == 255
    requires ReadTrail(timing, fails, states, s, 0, gateAt, answers) && n < |states| && Recorded(items, states[0])
    ensures Recorded(items, states[n])
  {
    hide ReadTurn, Recorded, Shape;
    if n > 0 {
      ReadTrailRecords(timing, fails, items, states, s, gateAt, answers, n - 1);
      ReadTurnRecords(timing, fails, items, states[n - 1], states[n - 1 + 1], s, n - 1, gateAt, answers(n - 1));
    }
  }

  lemma {:induction false} WriteTrailRecords(timing: Timing, fails: int -> bool, items: seq<Item>, states: seq<State>,
                                             s: nat, gateAt: nat, answers: nat -> Answer, n: nat)
    requires forall m :: 0 <= m < |items| ==> |items[m].lastTime| == 255 && |items[m].firstRecord| == 255
    requires WriteTrail(timing, fails, states, s, 0, gateAt, answers) && n < |states| && Recorded(items, states[0])
    ensures Recorded(items, states[n])
  {
    hide WriteTurn, Recorded, Shape;
    if n > 0 {
      WriteTrailRecords(timing, fails, items, states, s, gateAt, answers, n - 1);
      WriteTurnRecords(timing, fails, items, states[n - 1], states[n - 1 + 1], s, n - 1, gateAt, answers(n - 1));
    }
  }

  lemma CallRecords(timing: Timing, fails: int -> bool, items: seq<Item>, st: State, c: Call)
    requires forall m :: 0 <= m < |items| ==> |items[m].lastTime| == 255 && |items[m].firstRecord| == 255
    requires Shape(st) && Recorded(items, st)
    ensures Recorded(items, DoCall(timing, fails, st, c))
  {
    hide SyncReads, SyncWrites, ReadTrail, WriteTrail, RecordIs;
    if c.slave < |st.slaves| && st.slaves[c.slave].link.nextHandshake <= st.clock + c.delay {
      assert Recorded(items, Begun(st, c.delay));
      match c
      case ReadSync(s, delay, answers) =>
        var states := ReadSyncCoversItems(timing, fails, st, s, delay, answers);
        ReadTrailRecords(timing, fails, items, states, s, st.clock + delay, answers, |st.items|);
      case WriteSync(s, delay, answers) =>
        var states := WriteSyncCoversItems(timing, fails, st, s, delay, answers);
        WriteTrailRecords(timing, fails, items, states, s, st.clock + delay, answers, |st.writes|);
    }
  }

  /** After every run, an item read once per connection counts as read on a device exactly when it was read there
      successfully since a slave of the table last came on line, and a periodic item carries the time of its last
      successful read there. */
  lemma {:induction false} ScheduleIsHistory(timing: Timing, fails: int -> bool, st: State, calls: seq<Call>)
    requires Shape(st) && st.log == []
    ensures Recorded(st.items, Run(timing, fails, st, calls))
  {
    if calls == [] {
      forall k, d | 0 <= k < |st.items| && 0 <= d < 255 ensures RecordIs(st.items[k], st.items[k], st.log, k, d) {
      }
    } else {
      hide Recorded, DoCall;
      ScheduleIsHistory(timing, fails, st, calls[..|calls| - 1]);
      CallRecords(timing, fails, st.items, Run(timing, fails, st, calls[..|calls| - 1]), calls[|calls| - 1]);
    }
  }
}
