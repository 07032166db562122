/** The polling of slaves that share one protocol table, as a function of the answers and the clock: a link
    state per slave, a schedule per item and device, and a log of what happened. */
module PollingSpec {
  import opened RegisterTransfer

  const MAX_SLAVE_NUM: nat := 255

  /** The times of a protocol, in milliseconds. */
  datatype Timing = Timing(retryInterval: nat, delayCardinality: nat, timeoutThreshold: nat)

  /** A readable item: interval 0 means once per connection. */
  datatype Item = Item(reg: Register, interval: nat, lastTime: seq<nat>, firstRecord: seq<bool>)

  /** A writable item; `lastTime` is never written. */
  datatype WriteItem = WriteItem(reg: Register, interval: nat, lastTime: seq<nat>, hasSource: bool)

  datatype Link = Link(connected: bool, firstHandshake: nat, lastHandshake: nat, nextHandshake: nat, retryCnt: nat)

  datatype Slave = Slave(device: nat, link: Link)

  /** What the log records: a request that was answered or not, with the words handed to the read-back callback, and
      the changes of a link. `call` numbers the sync calls; `gateAt` is when the call compared the clock with the
      handshake time. */
  datatype Entry =
    | ReadOk(call: nat, slave: nat, device: nat, item: nat, gateAt: nat, checkAt: nat, storeAt: nat,
             request: Request, words: Buffer)
    | ReadFailed(call: nat, slave: nat, item: nat, gateAt: nat, request: Request)
    | Written(call: nat, slave: nat, item: nat, gateAt: nat, request: Request)
    | Online(call: nat, slave: nat, device: nat)
    | Offline(call: nat, slave: nat, device: nat, at: nat, next: nat)

  predicate IsRequest(e: Entry) {
    e.ReadOk? || e.ReadFailed? || e.Written?
  }

  datatype State = State(items: seq<Item>, writes: seq<WriteItem>, slaves: seq<Slave>,
                         clock: nat, calls: nat, log: seq<Entry>)

  /** The time that passes before each clock reading while one item is processed. */
  datatype Delays = Delays(check: nat, store: nat, link: nat, last: nat)

  /** What the device answers to a read: the reply and the words left in the buffer. What a write finds: whether its
      source has data, that data, and the reply. */
  datatype Answer = Answer(hasData: bool, reply: int, words: Buffer, delays: Delays)

  const FEEDBACK_OK := 0
  const BAD_DEVICE := 4
  const NO_SOURCE := 8
  const READ_FAILED := 8
  const NOT_DUE := 16
  const ILLEGAL_TYPE := 16
  const WRITE_FAILED := 32
  const NO_DATA := 64

  function Pow(b: nat, e: nat): nat {
    if e == 0 then 1 else b * Pow(b, e - 1)
  }

  // ---------------------------------------------------------------- one item

  ghost predicate Shape(st: State) {
    && (forall k :: 0 <= k < |st.items| ==>
         |st.items[k].lastTime| == MAX_SLAVE_NUM && |st.items[k].firstRecord| == MAX_SLAVE_NUM)
    && (forall k :: 0 <= k < |st.writes| ==> |st.writes[k].lastTime| == MAX_SLAVE_NUM)
  }

  /** Whether an item is to be read: not read since the connection, or its interval has passed. */
  predicate Due(it: Item, device: nat, now: nat)
    requires device < |it.lastTime| && device < |it.firstRecord|
  {
    if it.interval == 0 then !it.firstRecord[device] else now - it.lastTime[device] >= it.interval
  }

  function MarkRead(it: Item, device: nat, now: nat): Item
    requires device < |it.lastTime| && device < |it.firstRecord|
  {
    if it.interval == 0 then it.(firstRecord := it.firstRecord[device := true])
    else it.(lastTime := it.lastTime[device := now])
  }

  /** The read of one item for slave `s`, and its feedback. */
  function ReadOne(st: State, s: nat, k: nat, gateAt: nat, answer: Answer): (r: (State, int))
    requires Shape(st) && s < |st.slaves| && k < |st.items|
    ensures Shape(r.0) && |r.0.items| == |st.items| && r.0.writes == st.writes && r.0.slaves == st.slaves
  {
    var device := st.slaves[s].device;
    var checkAt := st.clock + answer.delays.check;
    var storeAt := checkAt + answer.delays.store;
    if device >= MAX_SLAVE_NUM then (st.(clock := checkAt), BAD_DEVICE)
    else if !Due(st.items[k], device, checkAt) then (st.(clock := checkAt), NOT_DUE)
    else if answer.reply == -1 then
      (st.(clock := storeAt, log := st.log + [ReadFailed(st.calls, s, k, gateAt, ReadRequest(st.items[k].reg))]),
       READ_FAILED)
    else
      (st.(clock := storeAt, items := st.items[k := MarkRead(st.items[k], device, storeAt)],
           log := st.log + [ReadOk(st.calls, s, device, k, gateAt, checkAt, storeAt,
                                   ReadRequest(st.items[k].reg), Reversed(st.items[k].reg, answer.words))]),
       FEEDBACK_OK)
  }

  /** The write of one item for slave `s`, and its feedback. */
  function WriteOne(st: State, s: nat, k: nat, gateAt: nat, answer: Answer): (r: (State, int))
    requires Shape(st) && s < |st.slaves| && k < |st.writes|
    ensures Shape(r.0) && r.0.items == st.items && r.0.writes == st.writes && r.0.slaves == st.slaves
  {
    var device := st.slaves[s].device;
    var w := st.writes[k];
    var checkAt := st.clock + answer.delays.check;
    var sentAt := checkAt + answer.delays.store;
    if device >= MAX_SLAVE_NUM then (st.(clock := checkAt), BAD_DEVICE)
    else if !w.hasSource then (st.(clock := checkAt), NO_SOURCE)
    else if !((w.interval == 0 || checkAt - w.lastTime[device] >= w.interval) && answer.hasData) then
      (st.(clock := checkAt), NO_DATA)
    else if !Writable(w.reg) then (st.(clock := checkAt), ILLEGAL_TYPE)
    else
      (st.(clock := sentAt, log := st.log + [Written(st.calls, s, k, gateAt, WriteRequest(w.reg, answer.words))]),
       if answer.reply == -1 then WRITE_FAILED else FEEDBACK_OK)
  }

  function ClearFirst(items: seq<Item>): (r: seq<Item>)
    ensures |r| == |items|
    ensures forall k :: 0 <= k < |items| ==>
              r[k] == if items[k].interval == 0 then items[k].(firstRecord := seq(MAX_SLAVE_NUM, _ => false))
                      else items[k]
  {
    if items == [] then []
    else
      var it := items[|items| - 1];
      ClearFirst(items[..|items| - 1])
      + [if it.interval == 0 then it.(firstRecord := seq(MAX_SLAVE_NUM, _ => false)) else it]
  }

  /** The slave comes on line: every once-per-connection item of the table may be read again, for all devices. */
  function SetOnline(st: State, s: nat, at: nat): (st': State)
    requires Shape(st) && s < |st.slaves|
    ensures Shape(st') && |st'.items| == |st.items| && st'.writes == st.writes && |st'.slaves| == |st.slaves|
  {
    var sl := st.slaves[s];
    st.(slaves := st.slaves[s := sl.(link := sl.link.(connected := true, firstHandshake := at, retryCnt := 0))],
        items := ClearFirst(st.items),
        log := st.log + [Online(st.calls, s, sl.device)])
  }

  /** The slave goes off line if its last handshake is too old, and schedules the next attempt. */
  function SetOffline(timing: Timing, st: State, s: nat, at: nat, setAt: nat): (st': State)
    requires Shape(st) && s < |st.slaves|
    ensures Shape(st') && |st'.items| == |st.items| && st'.writes == st.writes && |st'.slaves| == |st.slaves|
  {
    var sl := st.slaves[s];
    if at - sl.link.lastHandshake < timing.timeoutThreshold then st
    else
      var next := setAt + timing.retryInterval * Pow(timing.delayCardinality, sl.link.retryCnt);
      st.(slaves := st.slaves[s := sl.(link := sl.link.(connected := false, nextHandshake := next,
                                                        retryCnt := sl.link.retryCnt + 1))],
          log := st.log + [Offline(st.calls, s, sl.device, setAt, next)])
  }

  /** What a sync loop does with the feedback of an item; `fails` is the test for a failure. */
  function Settle(timing: Timing, fails: int -> bool, st: State, s: nat, feedback: int, d: Delays): (st': State)
    requires Shape(st) && s < |st.slaves|
    ensures Shape(st') && |st'.items| == |st.items| && st'.writes == st.writes && |st'.slaves| == |st.slaves|
  {
    var linkAt := st.clock + d.link;
    var lastAt := linkAt + d.last;
    if feedback == FEEDBACK_OK then
      var st1 := if st.slaves[s].link.connected then st else SetOnline(st, s, linkAt);
      var sl := st1.slaves[s];
      st1.(clock := lastAt, slaves := st1.slaves[s := sl.(link := sl.link.(lastHandshake := lastAt))])
    else if fails(feedback) && st.slaves[s].link.connected then
      SetOffline(timing, st, s, linkAt, lastAt).(clock := lastAt)
    else st.(clock := lastAt)
  }

  // ---------------------------------------------------------------- the sync calls

  /** The read loop from item `k` on. */
  function SyncReads(timing: Timing, fails: int -> bool, st: State, s: nat, k: nat, gateAt: nat,
                     answers: nat -> Answer): (st': State)
    requires Shape(st) && s < |st.slaves| && k <= |st.items|
    ensures Shape(st') && |st'.items| == |st.items| && st'.writes == st.writes && |st'.slaves| == |st.slaves|
    decreases |st.items| - k
  {
    if k == |st.items| then st
    else
      var (st1, feedback) := ReadOne(st, s, k, gateAt, answers(k));
      SyncReads(timing, fails, Settle(timing, fails, st1, s, feedback, answers(k).delays), s, k + 1, gateAt, answers)
  }

  /** The write loop from item `k` on. */
  function SyncWrites(timing: Timing, fails: int -> bool, st: State, s: nat, k: nat, gateAt: nat,
                      answers: nat -> Answer): (st': State)
    requires Shape(st) && s < |st.slaves| && k <= |st.writes|
    ensures Shape(st') && |st'.items| == |st.items| && st'.writes == st.writes && |st'.slaves| == |st.slaves|
    decreases |st.writes| - k
  {
    if k == |st.writes| then st
    else
      var (st1, feedback) := WriteOne(st, s, k, gateAt, answers(k));
      SyncWrites(timing, fails, Settle(timing, fails, st1, s, feedback, answers(k).delays), s, k + 1, gateAt, answers)
  }

  /** A sync call for slave `slave` after `delay`; the answers are by item. */
  datatype Call = ReadSync(slave: nat, delay: nat, answers: nat -> Answer)
                | WriteSync(slave: nat, delay: nat, answers: nat -> Answer)

  /** A call does nothing for a slave that does not exist, or before its next handshake time. */
  function DoCall(timing: Timing, fails: int -> bool, st: State, c: Call): (st': State)
    requires Shape(st)
    ensures Shape(st') && |st'.slaves| == |st.slaves|
  {
    if c.slave >= |st.slaves| then st
    else
      var now := st.clock + c.delay;
      var st1 := st.(clock := now, calls := st.calls + 1);
      if st.slaves[c.slave].link.nextHandshake > now then st1
      else
        match c
        case ReadSync(s, _, answers) => SyncReads(timing, fails, st1, s, 0, now, answers)
        case WriteSync(s, _, answers) => SyncWrites(timing, fails, st1, s, 0, now, answers)
  }

  function Run(timing: Timing, fails: int -> bool, st: State, calls: seq<Call>): (st': State)
    requires Shape(st)
    ensures Shape(st') && |st'.slaves| == |st.slaves|
  {
    if calls == [] then st
    else DoCall(timing, fails, Run(timing, fails, st, calls[..|calls| - 1]), calls[|calls| - 1])
  }

  /** No slave has been connected and nothing has happened yet. */
  ghost predicate Initial(st: State) {
    && Shape(st) && st.log == [] && st.calls == 0
    && (forall s :: 0 <= s < |st.slaves| ==> st.slaves[s].link == Link(false, 0, 0, 0, 0))
    && (forall k, d :: 0 <= k < |st.items| && 0 <= d < MAX_SLAVE_NUM ==> st.items[k].lastTime[d] <= st.clock)
  }
}
