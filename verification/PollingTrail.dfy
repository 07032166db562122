/** What one sync call does, item by item: which requests it makes, what it leaves in the log, and what becomes of
    link, schedule and clock. Everything is written in the fields of items, links and answers. */
module PollingTrail {
  import opened PollingSpec
  import opened RegisterTransfer

  // ---------------------------------------------------------------- one item

  /** A periodic item is read when its interval has passed since its last read on the device, any other when its record
      for the device is clear. */
  predicate Wanted(it: Item, device: nat, checkAt: nat)
    requires device < |it.lastTime| && device < |it.firstRecord|
  {
    || (it.interval > 0 && checkAt - it.lastTime[device] >= it.interval)
    || (it.interval == 0 && !it.firstRecord[device])
  }

  /** Whether the turn of item `k` asks the device. */
  predicate ReadAsked(st: State, s: nat, k: nat, answer: Answer)
    requires Shape(st) && s < |st.slaves| && k < |st.items|
  {
    st.slaves[s].device < 255 && Wanted(st.items[k], st.slaves[s].device, st.clock + answer.delays.check)
  }

  /** Whether the turn of item `k` sends: there is a source, its interval has passed, the source has data, and the
      registers can be written. */
  predicate WriteAsked(st: State, s: nat, k: nat, answer: Answer)
    requires Shape(st) && s < |st.slaves| && k < |st.writes|
  {
    var w := st.writes[k];
    && st.slaves[s].device < 255 && w.hasSource && answer.hasData
    && (w.interval == 0 || st.clock + answer.delays.check - w.lastTime[st.slaves[s].device] >= w.interval)
    && (w.reg.kind.Holding? || w.reg.kind.CoilStatus?)
  }

  /** The link of the slave after a turn with that feedback: success brings it up and refreshes it, a failure takes it
      down when the last success is too long ago. */
  function LinkAfter(timing: Timing, failed: bool, l: Link, ok: bool, linkAt: nat, lastAt: nat): Link {
    if ok then
      Link(true, if l.connected then l.firstHandshake else linkAt, lastAt, l.nextHandshake,
           if l.connected then l.retryCnt else 0)
    else if failed && l.connected && linkAt - l.lastHandshake >= timing.timeoutThreshold then
      Link(false, l.firstHandshake, l.lastHandshake,
           lastAt + timing.retryInterval * Pow(timing.delayCardinality, l.retryCnt), l.retryCnt + 1)
    else l
  }

  /** What the change of a link leaves in the log. */
  function LinkEntries(st: State, s: nat, after: Link, lastAt: nat): seq<Entry>
    requires s < |st.slaves|
  {
    var was := st.slaves[s];
    if after.connected == was.link.connected then []
    else if after.connected then [Online(st.calls, s, was.device)]
    else [Offline(st.calls, s, was.device, lastAt, after.nextHandshake)]
  }

  /** The slaves after a turn: one link may change. */
  ghost predicate OneLink(a: State, b: State, s: nat, after: Link)
    requires s < |a.slaves|
  {
    b.slaves == a.slaves[s := Slave(a.slaves[s].device, after)]
  }

  /** The schedules after a turn: the item read is marked for the device, and when the slave has come on line all
      once-per-connection records are cleared, that of the item just read among them. */
  ghost predicate Rescheduled(a: State, b: State, k: nat, device: nat, read: bool, storeAt: nat, up: bool)
    requires Shape(a) && Shape(b)
  {
    && |b.items| == |a.items|
    && (forall m :: 0 <= m < |a.items| ==>
         b.items[m].reg == a.items[m].reg && b.items[m].interval == a.items[m].interval)
    && (forall m, d :: 0 <= m < |a.items| && 0 <= d < 255 ==>
         b.items[m].lastTime[d]
         == if read && m == k && d == device && a.items[m].interval > 0 then storeAt else a.items[m].lastTime[d])
    && forall m, d :: 0 <= m < |a.items| && 0 <= d < 255 ==>
         b.items[m].firstRecord[d]
         == if a.items[m].interval == 0 && up then false
            else if a.items[m].interval == 0 && read && m == k && d == device then true
            else a.items[m].firstRecord[d]
  }

  /** The request that the turn of readable item `k` leaves in the log, if it makes one. */
  function ReadEntries(a: State, s: nat, k: nat, gateAt: nat, answer: Answer): seq<Entry>
    requires Shape(a) && s < |a.slaves| && k < |a.items|
  {
    var it, checkAt := a.items[k], a.clock + answer.delays.check;
    if !ReadAsked(a, s, k, answer) then []
    else if answer.reply == -1 then [ReadFailed(a.calls, s, k, gateAt, ReadRequest(it.reg))]
    else [ReadOk(a.calls, s, a.slaves[s].device, k, gateAt, checkAt, checkAt + answer.delays.store,
                 ReadRequest(it.reg), Reversed(it.reg, answer.words))]
  }

  /** The request that the turn of writable item `k` leaves in the log, if it makes one. */
  function WriteEntries(a: State, s: nat, k: nat, gateAt: nat, answer: Answer): seq<Entry>
    requires Shape(a) && s < |a.slaves| && k < |a.writes|
  {
    if !WriteAsked(a, s, k, answer) then []
    else [Written(a.calls, s, k, gateAt, WriteRequest(a.writes[k].reg, answer.words))]
  }

  /** The feedback of a write, by the first reason that applies. */
  function WriteFeedback(a: State, s: nat, k: nat, answer: Answer): int
    requires Shape(a) && s < |a.slaves| && k < |a.writes|
  {
    var device, w, checkAt := a.slaves[s].device, a.writes[k], a.clock + answer.delays.check;
    if device >= 255 then 4
    else if !w.hasSource then 8
    else if !answer.hasData || (w.interval > 0 && checkAt - w.lastTime[device] < w.interval) then 64
    else if !WriteAsked(a, s, k, answer) then 16
    else if answer.reply == -1 then 32
    else 0
  }

  /** The turn of readable item `k`, from state `a` to state `b`. */
  ghost predicate ReadTurn(timing: Timing, fails: int -> bool, a: State, b: State, s: nat, k: nat, gateAt: nat,
                           answer: Answer)
    requires Shape(a) && Shape(b) && s < |a.slaves| && k < |a.items|
  {
    var device, link := a.slaves[s].device, a.slaves[s].link;
    var asked := ReadAsked(a, s, k, answer);
    var read := asked && answer.reply != -1;
    var feedback := if device >= 255 then 4 else if !asked then 16 else if !read then 8 else 0;
    var checkAt := a.clock + answer.delays.check;
    var storeAt := if asked then checkAt + answer.delays.store else checkAt;
    var linkAt := storeAt + answer.delays.link;
    var lastAt := linkAt + answer.delays.last;
    var after := LinkAfter(timing, fails(feedback), link, read, linkAt, lastAt);
    && b.clock == lastAt && b.calls == a.calls && b.writes == a.writes
    && b.log == a.log + ReadEntries(a, s, k, gateAt, answer) + LinkEntries(a, s, after, lastAt)
    && OneLink(a, b, s, after) && Rescheduled(a, b, k, device, read, storeAt, read && !link.connected)
  }

  /** The turn of writable item `k`, from state `a` to state `b`. */
  ghost predicate WriteTurn(timing: Timing, fails: int -> bool, a: State, b: State, s: nat, k: nat, gateAt: nat,
                            answer: Answer)
    requires Shape(a) && Shape(b) && s < |a.slaves| && k < |a.writes|
  {
    var link := a.slaves[s].link;
    var checkAt := a.clock + answer.delays.check;
    var feedback := WriteFeedback(a, s, k, answer);
    var sentAt := if WriteAsked(a, s, k, answer) then checkAt + answer.delays.store else checkAt;
    var linkAt := sentAt + answer.delays.link;
    var lastAt := linkAt + answer.delays.last;
    var after := LinkAfter(timing, fails(feedback), link, feedback == 0, linkAt, lastAt);
    && b.clock == lastAt && b.calls == a.calls && b.writes == a.writes
    && b.log == a.log + WriteEntries(a, s, k, gateAt, answer) + LinkEntries(a, s, after, lastAt)
    && OneLink(a, b, s, after)
    && Rescheduled(a, b, k, a.slaves[s].device, false, 0, feedback == 0 && !link.connected)
  }

  /** What the sync loops do with a feedback, in the same terms. */
  lemma SettleTurns(timing: Timing, fails: int -> bool, m: State, s: nat, k: nat, feedback: int, d: Delays)
    requires Shape(m) && s < |m.slaves|
    ensures var b := Settle(timing, fails, m, s, feedback, d);
            var linkAt, lastAt := m.clock + d.link, m.clock + d.link + d.last;
            var after := LinkAfter(timing, fails(feedback), m.slaves[s].link, feedback == 0, linkAt, lastAt);
            && b.clock == lastAt && b.calls == m.calls && b.writes == m.writes
            && b.log == m.log + LinkEntries(m, s, after, lastAt) && OneLink(m, b, s, after)
            && Rescheduled(m, b, k, m.slaves[s].device, false, 0, feedback == 0 && !m.slaves[s].link.connected)
  {
    hide Pow;
  }

  lemma ReadOneAlone(a: State, s: nat, k: nat, gateAt: nat, answer: Answer)
    requires Shape(a) && s < |a.slaves| && k < |a.items|
    ensures var (m, feedback) := ReadOne(a, s, k, gateAt, answer);
            var device, asked := a.slaves[s].device, ReadAsked(a, s, k, answer);
            var read := asked && answer.reply != -1;
            var checkAt := a.clock + answer.delays.check;
            var storeAt := if asked then checkAt + answer.delays.store else checkAt;
            && feedback == (if device >= 255 then 4 else if !asked then 16 else if !read then 8 else 0)
            && m.clock == storeAt && m.calls == a.calls && m.writes == a.writes && m.slaves == a.slaves
            && m.log == a.log + ReadEntries(a, s, k, gateAt, answer)
            && Rescheduled(a, m, k, device, read, storeAt, false)
  {
  }

  lemma WriteOneAlone(a: State, s: nat, k: nat, gateAt: nat, answer: Answer)
    requires Shape(a) && s < |a.slaves| && k < |a.writes|
    ensures var (m, feedback) := WriteOne(a, s, k, gateAt, answer);
            var device, sent, w := a.slaves[s].device, WriteAsked(a, s, k, answer), a.writes[k];
            var checkAt := a.clock + answer.delays.check;
            && feedback == WriteFeedback(a, s, k, answer)
            && m.clock == (if sent then checkAt + answer.delays.store else checkAt)
            && m.calls == a.calls && m.writes == a.writes && m.slaves == a.slaves && m.items == a.items
            && m.log == a.log + WriteEntries(a, s, k, gateAt, answer)
  {
  }

  lemma TwoParts(a: State, m: State, b: State, k: nat, device: nat, read: bool, storeAt: nat, up: bool)
    requires Shape(a) && Shape(m) && Shape(b) && Rescheduled(a, m, k, device, read, storeAt, false)
    requires Rescheduled(m, b, k, device, false, 0, up)
    ensures Rescheduled(a, b, k, device, read, storeAt, up)
  {
  }

  lemma ReadOneTurns(timing: Timing, fails: int -> bool, a: State, s: nat, k: nat, gateAt: nat, answer: Answer)
    requires Shape(a) && s < |a.slaves| && k < |a.items|
    ensures var (m, feedback) := ReadOne(a, s, k, gateAt, answer);
            ReadTurn(timing, fails, a, Settle(timing, fails, m, s, feedback, answer.delays), s, k, gateAt, answer)
  {
    hide ReadOne, Settle, Rescheduled, LinkAfter, Shape, ReadAsked, ReadEntries;
    var (m, feedback) := ReadOne(a, s, k, gateAt, answer);
    var device, asked := a.slaves[s].device, ReadAsked(a, s, k, answer);
    var read := asked && answer.reply != -1;
    ReadOneAlone(a, s, k, gateAt, answer);
    SettleTurns(timing, fails, m, s, k, feedback, answer.delays);
    AskedInRange(a, s, k, answer);
    TwoParts(a, m, Settle(timing, fails, m, s, feedback, answer.delays), k, device, read, m.clock,
             read && !a.slaves[s].link.connected);
  }

  lemma AskedInRange(a: State, s: nat, k: nat, answer: Answer)
    requires Shape(a) && s < |a.slaves| && k < |a.items|
    ensures ReadAsked(a, s, k, answer) ==> a.slaves[s].device < 255
  {
  }

  lemma WriteOneTurns(timing: Timing, fails: int -> bool, a: State, s: nat, k: nat, gateAt: nat, answer: Answer)
    requires Shape(a) && s < |a.slaves| && k < |a.writes|
    ensures var (m, feedback) := WriteOne(a, s, k, gateAt, answer);
            WriteTurn(timing, fails, a, Settle(timing, fails, m, s, feedback, answer.delays), s, k, gateAt, answer)
  {
    hide WriteOne, Settle, Rescheduled, LinkAfter, Shape, WriteAsked, WriteEntries, WriteFeedback;
    var (m, feedback) := WriteOne(a, s, k, gateAt, answer);
    WriteOneAlone(a, s, k, gateAt, answer);
    WriteFeedbackOk(a, s, k, answer);
    SettleTurns(timing, fails, m, s, k, feedback, answer.delays);
    SameItems(a, m, Settle(timing, fails, m, s, feedback, answer.delays), k, a.slaves[s].device, 0,
              feedback == 0 && !a.slaves[s].link.connected);
  }

  lemma WriteFeedbackOk(a: State, s: nat, k: nat, answer: Answer)
    requires Shape(a) && s < |a.slaves| && k < |a.writes|
    ensures WriteFeedback(a, s, k, answer) == 0 <==> WriteAsked(a, s, k, answer) && answer.reply != -1
  {
  }

  lemma SameItems(a: State, m: State, b: State, k: nat, device: nat, t: nat, up: bool)
    requires Shape(a) && Shape(m) && Shape(b) && m.items == a.items && Rescheduled(m, b, k, device, false, t, up)
    ensures Rescheduled(a, b, k, device, false, t, up)
  {
  }

  // ---------------------------------------------------------------- all items of a call

  /** Consecutive turns of the readable items from item `first` on. */
  ghost predicate ReadTrail(timing: Timing, fails: int -> bool, states: seq<State>, s: nat, first: nat, gateAt: nat,
                            answers: nat -> Answer)
  {
    && states != [] && first + |states| - 1 == |states[0].items|
    && (forall j :: 0 <= j < |states| ==>
         Shape(states[j]) && s < |states[j].slaves| && |states[j].items| == |states[0].items|)
    && forall j :: 0 <= j < |states| - 1 ==>
         ReadTurn(timing, fails, states[j], states[j + 1], s, first + j, gateAt, answers(first + j))
  }

  ghost predicate WriteTrail(timing: Timing, fails: int -> bool, states: seq<State>, s: nat, first: nat, gateAt: nat,
                             answers: nat -> Answer)
  {
    && states != [] && first + |states| - 1 == |states[0].writes|
    && (forall j :: 0 <= j < |states| ==>
         Shape(states[j]) && s < |states[j].slaves| && |states[j].writes| == |states[0].writes|)
    && forall j :: 0 <= j < |states| - 1 ==>
         WriteTurn(timing, fails, states[j], states[j + 1], s, first + j, gateAt, answers(first + j))
  }

  lemma {:induction false} ReadsLeaveTrail(timing: Timing, fails: int -> bool, st: State, s: nat, k: nat, gateAt: nat,
                                           answers: nat -> Answer) returns (states: seq<State>)
    requires Shape(st) && s < |st.slaves| && k <= |st.items|
    ensures ReadTrail(timing, fails, states, s, k, gateAt, answers) && states[0] == st
    ensures states[|states| - 1] == SyncReads(timing, fails, st, s, k, gateAt, answers)
    decreases |st.items| - k
  {
    hide ReadTurn, ReadOne, Settle, Shape;
    if k == |st.items| {
      states := [st];
    } else {
      var (m, feedback) := ReadOne(st, s, k, gateAt, answers(k));
      var next := Settle(timing, fails, m, s, feedback, answers(k).delays);
      ReadOneTurns(timing, fails, st, s, k, gateAt, answers(k));
      var rest := ReadsLeaveTrail(timing, fails, next, s, k + 1, gateAt, answers);
      states := [st] + rest;
      assert forall j :: 0 < j < |states| ==> states[j] == rest[j - 1];
    }
  }

  lemma {:induction false} WritesLeaveTrail(timing: Timing, fails: int -> bool, st: State, s: nat, k: nat,
                                            gateAt: nat, answers: nat -> Answer) returns (states: seq<State>)
    requires Shape(st) && s < |st.slaves| && k <= |st.writes|
    ensures WriteTrail(timing, fails, states, s, k, gateAt, answers) && states[0] == st
    ensures states[|states| - 1] == SyncWrites(timing, fails, st, s, k, gateAt, answers)
    decreases |st.writes| - k
  {
    hide WriteTurn, WriteOne, Settle, Shape;
    if k == |st.writes| {
      states := [st];
    } else {
      var (m, feedback) := WriteOne(st, s, k, gateAt, answers(k));
      var next := Settle(timing, fails, m, s, feedback, answers(k).delays);
      WriteOneTurns(timing, fails, st, s, k, gateAt, answers(k));
      var rest := WritesLeaveTrail(timing, fails, next, s, k + 1, gateAt, answers);
      states := [st] + rest;
      assert forall j :: 0 < j < |states| ==> states[j] == rest[j - 1];
    }
  }

  /** The items of the requests in the log, in order. */
  function RequestedItems(log: seq<Entry>): seq<nat> {
    if log == [] then []
    else
      var e := log[|log| - 1];
      RequestedItems(log[..|log| - 1]) + if IsRequest(e) then [e.item] else []
  }

  lemma {:induction false} RequestsAppend(log: seq<Entry>, more: seq<Entry>)
    ensures RequestedItems(log + more) == RequestedItems(log) + RequestedItems(more)
  {
    if more == [] {
      assert log + more == log;
    } else {
      RequestsAppend(log, more[..|more| - 1]);
      assert (log + more)[..|log + more| - 1] == log + more[..|more| - 1];
    }
  }

  lemma ReadTurnRequests(timing: Timing, fails: int -> bool, a: State, b: State, s: nat, k: nat, gateAt: nat,
                         answer: Answer)
    requires Shape(a) && Shape(b) && s < |a.slaves| && k < |a.items|
    requires ReadTurn(timing, fails, a, b, s, k, gateAt, answer)
    ensures RequestedItems(b.log) == RequestedItems(a.log) + if ReadAsked(a, s, k, answer) then [k] else []
  {
    hide RequestedItems, LinkAfter, Rescheduled, OneLink, ReadAsked, Shape;
    var request := ReadEntries(a, s, k, gateAt, answer);
    var rest := b.log[|a.log| + |request|..];
    RequestsAppend(a.log + request, rest);
    RequestsAppend(a.log, request);
    AtMostOne(request);
    AtMostOne(rest);
    assert b.log == a.log + request + rest;
  }

  lemma WriteTurnRequests(timing: Timing, fails: int -> bool, a: State, b: State, s: nat, k: nat, gateAt: nat,
                          answer: Answer)
    requires Shape(a) && Shape(b) && s < |a.slaves| && k < |a.writes|
    requires WriteTurn(timing, fails, a, b, s, k, gateAt, answer)
    ensures RequestedItems(b.log) == RequestedItems(a.log) + if WriteAsked(a, s, k, answer) then [k] else []
  {
    hide RequestedItems, LinkAfter, Rescheduled, OneLink, WriteAsked, Shape;
    var request := WriteEntries(a, s, k, gateAt, answer);
    var rest := b.log[|a.log| + |request|..];
    RequestsAppend(a.log + request, rest);
    RequestsAppend(a.log, request);
    AtMostOne(request);
    AtMostOne(rest);
    assert b.log == a.log + request + rest;
  }

  lemma AtMostOne(log: seq<Entry>)
    requires |log| <= 1
    ensures RequestedItems(log) == if |log| == 1 && IsRequest(log[0]) then [log[0].item] else []
  {
  }

  /** The first `n` items whose turn asks, in ascending order. */
  ghost function AskedItems(states: seq<State>, s: nat, answers: nat -> Answer, n: nat): seq<nat>
    requires n < |states|
    requires forall j :: 0 <= j < |states| ==> Shape(states[j]) && s < |states[j].slaves| && n <= |states[j].items|
  {
    if n == 0 then []
    else AskedItems(states, s, answers, n - 1)
         + if ReadAsked(states[n - 1], s, n - 1, answers(n - 1)) then [n - 1] else []
  }

  /** The first `n` items whose turn sends, in ascending order. */
  ghost function SentItems(states: seq<State>, s: nat, answers: nat -> Answer, n: nat): seq<nat>
    requires n < |states|
    requires forall j :: 0 <= j < |states| ==> Shape(states[j]) && s < |states[j].slaves| && n <= |states[j].writes|
  {
    if n == 0 then []
    else SentItems(states, s, answers, n - 1)
         + if WriteAsked(states[n - 1], s, n - 1, answers(n - 1)) then [n - 1] else []
  }

  ghost predicate Ascending(items: seq<nat>, n: nat) {
    && (forall p :: 0 <= p < |items| ==> items[p] < n)
    && forall p, q :: 0 <= p < q < |items| ==> items[p] < items[q]
  }

  /** Every item that asks is in the list, once, and no other. */
  lemma {:induction false} AskedItemsAre(states: seq<State>, s: nat, answers: nat -> Answer, n: nat, k: nat)
    requires n < |states|
    requires forall j :: 0 <= j < |states| ==> Shape(states[j]) && s < |states[j].slaves| && n <= |states[j].items|
    ensures Ascending(AskedItems(states, s, answers, n), n)
    ensures k in AskedItems(states, s, answers, n) <==> k < n && ReadAsked(states[k], s, k, answers(k))
  {
    hide ReadAsked, Shape;
    if n > 0 {
      AskedItemsAre(states, s, answers, n - 1, k);
    }
  }

  lemma {:induction false} SentItemsAre(states: seq<State>, s: nat, answers: nat -> Answer, n: nat, k: nat)
    requires n < |states|
    requires forall j :: 0 <= j < |states| ==> Shape(states[j]) && s < |states[j].slaves| && n <= |states[j].writes|
    ensures Ascending(SentItems(states, s, answers, n), n)
    ensures k in SentItems(states, s, answers, n) <==> k < n && WriteAsked(states[k], s, k, answers(k))
  {
    hide WriteAsked, Shape;
    if n > 0 {
      SentItemsAre(states, s, answers, n - 1, k);
    }
  }

  lemma {:induction false} TrailRequests(timing: Timing, fails: int -> bool, states: seq<State>, s: nat, gateAt: nat,
                                         answers: nat -> Answer, n: nat)
    requires ReadTrail(timing, fails, states, s, 0, gateAt, answers) && n < |states|
    ensures RequestedItems(states[n].log) == RequestedItems(states[0].log) + AskedItems(states, s, answers, n)
  {
    hide ReadTurn, RequestedItems, ReadAsked, Shape;
    if n > 0 {
      TrailRequests(timing, fails, states, s, gateAt, answers, n - 1);
      ReadTurnRequests(timing, fails, states[n - 1], states[n - 1 + 1], s, n - 1, gateAt, answers(n - 1));
    }
  }

  lemma {:induction false} WriteTrailRequests(timing: Timing, fails: int -> bool, states: seq<State>, s: nat,
                                              gateAt: nat, answers: nat -> Answer, n: nat)
    requires WriteTrail(timing, fails, states, s, 0, gateAt, answers) && n < |states|
    ensures RequestedItems(states[n].log) == RequestedItems(states[0].log) + SentItems(states, s, answers, n)
  {
    hide WriteTurn, RequestedItems, WriteAsked, Shape;
    if n > 0 {
      WriteTrailRequests(timing, fails, states, s, gateAt, answers, n - 1);
      WriteTurnRequests(timing, fails, states[n - 1], states[n - 1 + 1], s, n - 1, gateAt, answers(n - 1));
    }
  }

  // ---------------------------------------------------------------- the item at its check

  predicate HasOnline(log: seq<Entry>) {
    exists p :: 0 <= p < |log| && log[p].Online?
  }

  /** At its check, item `k` has the interval and the times it had when the call began, and its records too unless the
      slave came on line earlier in the call, which clears those of an item read once per connection. */
  ghost predicate AsAtStart(st: State, now: State, k: nat)
    requires Shape(st) && Shape(now) && k < |st.items|
  {
    && k < |now.items| && st.log <= now.log
    && now.items[k].reg == st.items[k].reg && now.items[k].interval == st.items[k].interval
    && now.items[k].lastTime == st.items[k].lastTime
    && forall d :: 0 <= d < 255 ==>
         now.items[k].firstRecord[d]
         == if st.items[k].interval == 0 && HasOnline(now.log[|st.log|..]) then false else st.items[k].firstRecord[d]
  }

  lemma TurnOnline(timing: Timing, fails: int -> bool, a: State, b: State, s: nat, k: nat, gateAt: nat, answer: Answer)
    requires Shape(a) && Shape(b) && s < |a.slaves| && k < |a.items|
    requires ReadTurn(timing, fails, a, b, s, k, gateAt, answer)
    ensures a.log <= b.log
    ensures HasOnline(b.log[|a.log|..])
       <==> ReadAsked(a, s, k, answer) && answer.reply != -1 && !a.slaves[s].link.connected
  {
    hide Shape, ReadAsked, Rescheduled, OneLink, Pow;
    var gain := b.log[|a.log|..];
    var up := ReadAsked(a, s, k, answer) && answer.reply != -1 && !a.slaves[s].link.connected;
    if up {
      assert gain[1].Online?;
    }
  }

  lemma GainJoins(st: seq<Entry>, a: seq<Entry>, b: seq<Entry>)
    requires st <= a <= b
    ensures HasOnline(b[|st|..]) <==> HasOnline(a[|st|..]) || HasOnline(b[|a|..])
  {
    var u, v, w := a[|st|..], b[|a|..], b[|st|..];
    assert w == u + v;
    if HasOnline(u) {
      var p :| 0 <= p < |u| && u[p].Online?;
      assert w[p].Online?;
    }
    if HasOnline(v) {
      var p :| 0 <= p < |v| && v[p].Online?;
      assert w[|u| + p].Online?;
    }
  }

  lemma TurnKeepsOthers(timing: Timing, fails: int -> bool, st: State, a: State, b: State, s: nat, j: nat, k: nat,
                        gateAt: nat, answer: Answer)
    requires Shape(st) && Shape(a) && Shape(b) && s < |a.slaves| && j < |a.items| && k < |st.items| && j != k
    requires ReadTurn(timing, fails, a, b, s, j, gateAt, answer) && AsAtStart(st, a, k)
    ensures AsAtStart(st, b, k)
  {
    TurnOnline(timing, fails, a, b, s, j, gateAt, answer);
    GainJoins(st.log, a.log, b.log);
    SameTimes(timing, fails, a, b, s, j, k, gateAt, answer);
    hide HasOnline, ReadAsked, LinkAfter, OneLink, ReadEntries, LinkEntries;
  }

  lemma SameTimes(timing: Timing, fails: int -> bool, a: State, b: State, s: nat, j: nat, k: nat,
                  gateAt: nat, answer: Answer)
    requires Shape(a) && Shape(b) && s < |a.slaves| && j < |a.items| && k < |a.items| && j != k
    requires ReadTurn(timing, fails, a, b, s, j, gateAt, answer)
    ensures k < |b.items| && b.items[k].lastTime == a.items[k].lastTime
  {
    hide ReadAsked, LinkAfter, OneLink, ReadEntries, LinkEntries;
    assert |a.items[k].lastTime| == |b.items[k].lastTime| == 255;
  }

  lemma {:induction false} TrailKeepsItem(timing: Timing, fails: int -> bool, states: seq<State>, s: nat, gateAt: nat,
                                          answers: nat -> Answer, n: nat, k: nat)
    requires ReadTrail(timing, fails, states, s, 0, gateAt, answers) && n <= k < |states| - 1
    ensures AsAtStart(states[0], states[n], k)
  {
    if n == 0 {
      assert states[0].log[|states[0].log|..] == [];
    } else {
      TrailKeepsItem(timing, fails, states, s, gateAt, answers, n - 1, k);
      assert ReadTurn(timing, fails, states[n - 1], states[n - 1 + 1], s, 0 + (n - 1), gateAt, answers(0 + (n - 1)));
      hide ReadTurn, AsAtStart, Shape;
      TurnKeepsOthers(timing, fails, states[0], states[n - 1], states[n], s, n - 1, k, gateAt, answers(n - 1));
    }
  }

  // ---------------------------------------------------------------- the calls

  /** The state in which the loop of a call begins. */
  function Begun(st: State, delay: nat): State {
    st.(clock := st.clock + delay, calls := st.calls + 1)
  }

  /** Before the next handshake time of the slave a call does nothing. */
  lemma GateShut(timing: Timing, fails: int -> bool, st: State, c: Call)
    requires Shape(st) && c.slave < |st.slaves| && st.slaves[c.slave].link.nextHandshake > st.clock + c.delay
    ensures DoCall(timing, fails, st, c) == Begun(st, c.delay)
  {
  }

  /** A read sync from the handshake time on takes every item of the table in turn, in ascending order. It makes exactly
      one request for each item that is wanted at its check, and none for any other. */
  lemma ReadSyncCoversItems(timing: Timing, fails: int -> bool, st: State, s: nat, delay: nat, answers: nat -> Answer)
      returns (states: seq<State>)
    requires Shape(st) && s < |st.slaves| && st.slaves[s].link.nextHandshake <= st.clock + delay
    ensures ReadTrail(timing, fails, states, s, 0, st.clock + delay, answers) && |states| == |st.items| + 1
    ensures states[0] == Begun(st, delay)
    ensures states[|st.items|] == DoCall(timing, fails, st, ReadSync(s, delay, answers))
    ensures RequestedItems(states[|st.items|].log)
         == RequestedItems(st.log) + AskedItems(states, s, answers, |st.items|)
    ensures forall k :: 0 <= k < |st.items| ==> AsAtStart(states[0], states[k], k)
  {
    hide SyncReads, ReadTurn, RequestedItems, AsAtStart;
    states := ReadsLeaveTrail(timing, fails, Begun(st, delay), s, 0, st.clock + delay, answers);
    TrailRequests(timing, fails, states, s, st.clock + delay, answers, |st.items|);
    forall k | 0 <= k < |st.items| ensures AsAtStart(states[0], states[k], k) {
      TrailKeepsItem(timing, fails, states, s, st.clock + delay, answers, k, k);
    }
  }

  /** The same for a write sync, whose items never change. */
  lemma WriteSyncCoversItems(timing: Timing, fails: int -> bool, st: State, s: nat, delay: nat, answers: nat -> Answer)
      returns (states: seq<State>)
    requires Shape(st) && s < |st.slaves| && st.slaves[s].link.nextHandshake <= st.clock + delay
    ensures WriteTrail(timing, fails, states, s, 0, st.clock + delay, answers) && |states| == |st.writes| + 1
    ensures states[0] == Begun(st, delay)
    ensures states[|st.writes|] == DoCall(timing, fails, st, WriteSync(s, delay, answers))
    ensures RequestedItems(states[|st.writes|].log)
         == RequestedItems(st.log) + SentItems(states, s, answers, |st.writes|)
    ensures forall k :: 0 <= k <= |st.writes| ==> states[k].writes == st.writes
  {
    hide SyncWrites, WriteTurn, RequestedItems;
    states := WritesLeaveTrail(timing, fails, Begun(st, delay), s, 0, st.clock + delay, answers);
    WriteTrailRequests(timing, fails, states, s, st.clock + delay, answers, |st.writes|);
    forall k | 0 <= k <= |st.writes| ensures states[k].writes == st.writes {
      TrailKeepsWrites(timing, fails, states, s, st.clock + delay, answers, k);
    }
  }

  lemma {:induction false} TrailKeepsWrites(timing: Timing, fails: int -> bool, states: seq<State>, s: nat,
                                            gateAt: nat, answers: nat -> Answer, n: nat)
    requires WriteTrail(timing, fails, states, s, 0, gateAt, answers) && n < |states|
    ensures states[n].writes == states[0].writes
  {
    if n > 0 {
      TrailKeepsWrites(timing, fails, states, s, gateAt, answers, n - 1);
      assert WriteTurn(timing, fails, states[n - 1], states[n - 1 + 1], s, 0 + (n - 1), gateAt, answers(0 + (n - 1)));
    }
  }
}
