/** The polling as the code does it: schedules and link states updated in place, one loop per sync call. The
    clock field is the last reading of the clock; answers and delays are given from outside. */
module Polling {
  import opened PollingSpec
  import opened RegisterTransfer

  class Channel {
    const timing: Timing
    const items: array<Item>
    const writes: seq<WriteItem>
    const slaves: array<Slave>
    var clock: nat
    ghost var calls: nat
    ghost var log: seq<Entry>

    ghost function View(): State
      reads this, items, slaves
    {
      State(items[..], writes, slaves[..], clock, calls, log)
    }

    ghost predicate Valid()
      reads this, items, slaves
    {
      Shape(View())
    }

    constructor (timing: Timing, items: array<Item>, writes: seq<WriteItem>, slaves: array<Slave>, clock: nat)
      ensures this.timing == timing && this.items == items && this.writes == writes && this.slaves == slaves
      ensures View() == State(items[..], writes, slaves[..], clock, 0, [])
    {
      this.timing, this.items, this.writes, this.slaves := timing, items, writes, slaves;
      this.clock, this.calls, this.log := clock, 0, [];
    }

    /** Reads one item if it is due. */
    method RegisterInfoRead(s: nat, k: nat, ghost gateAt: nat, answer: Answer) returns (feedback: int)
      requires Valid() && s < slaves.Length && k < items.Length
      modifies `clock, `log, items
      ensures Valid() && (View(), feedback) == old(ReadOne(View(), s, k, gateAt, answer))
    {
      var device := slaves[s].device;
      clock := clock + answer.delays.check;
      if device >= MAX_SLAVE_NUM {
        return BAD_DEVICE;
      }
      assert View().items[k] == items[k];
      var it := items[k];
      var readAllow := false;
      if it.interval == 0 {
        if !it.firstRecord[device] {
          readAllow := true;
        }
      } else if clock - it.lastTime[device] >= it.interval {
        readAllow := true;
      }
      if !readAllow {
        return NOT_DUE;
      }
      ghost var checkAt := clock;
      var request;
      match it.reg.kind {
        case Holding => request := ReadRegisters(it.reg.addr, it.reg.length);
        case Input => request := ReadInputRegisters(it.reg.addr, it.reg.length);
        case CoilStatus => request := ReadBits(it.reg.addr, it.reg.length);
        case InputStatus => request := ReadInputBits(it.reg.addr, it.reg.length);
      }
      clock := clock + answer.delays.store;
      if answer.reply == -1 {
        log := log + [ReadFailed(calls, s, k, gateAt, request)];
        return READ_FAILED;
      }
      if it.interval == 0 {
        items[k] := it.(firstRecord := it.firstRecord[device := true]);
      } else {
        items[k] := it.(lastTime := it.lastTime[device := clock]);
      }
      var delivered := DeliverRead(it.reg, answer.words);
      log := log + [ReadOk(calls, s, device, k, gateAt, checkAt, clock, request, delivered)];
      assert items[..] == old(items[..])[k := items[k]];
      feedback := FEEDBACK_OK;
    }

    /** Writes one item if it is due and its source has data. */
    method RegisterInfoWrite(s: nat, k: nat, ghost gateAt: nat, answer: Answer) returns (feedback: int)
      requires Valid() && s < slaves.Length && k < |writes|
      modifies `clock, `log
      ensures Valid() && (View(), feedback) == old(WriteOne(View(), s, k, gateAt, answer))
    {
      var device := slaves[s].device;
      clock := clock + answer.delays.check;
      if device >= MAX_SLAVE_NUM {
        return BAD_DEVICE;
      }
      assert View().writes[k] == writes[k];
      var w := writes[k];
      if !w.hasSource {
        return NO_SOURCE;
      }
      var dataGetAllow := w.interval == 0 || clock - w.lastTime[device] >= w.interval;
      var syncAllow := dataGetAllow && answer.hasData;
      if !syncAllow {
        return NO_DATA;
      }
      if !Writable(w.reg) {
        return ILLEGAL_TYPE;
      }
      var request := PrepareWrite(w.reg, answer.words);
      clock := clock + answer.delays.store;
      log := log + [Written(calls, s, k, gateAt, request)];
      feedback := if answer.reply == -1 then WRITE_FAILED else FEEDBACK_OK;
    }

    method SetSlaveOnline(s: nat, at: nat)
      requires Valid() && s < slaves.Length
      modifies `log, items, slaves
      ensures Valid() && View() == old(SetOnline(View(), s, at))
    {
      ghost var before := View();
      var sl := slaves[s];
      slaves[s] := sl.(link := sl.link.(connected := true, firstHandshake := at, retryCnt := 0));
      log := log + [Online(calls, s, sl.device)];
      ClearRecords();
      assert items[..] == ClearFirst(before.items);
      assert slaves[..] == before.slaves[s := slaves[s]];
    }

    /** The loop that clears the records of the items read once per connection. */
    method ClearRecords()
      modifies items
      ensures items[..] == ClearFirst(old(items[..]))
    {
      ghost var before := items[..];
      for k := 0 to items.Length
        invariant forall i :: 0 <= i < items.Length ==>
                    items[i] == if i < k then ClearFirst(before)[i] else before[i]
      {
        if items[k].interval == 0 {
          items[k] := items[k].(firstRecord := seq(MAX_SLAVE_NUM, _ => false));
        }
      }
      assert items[..] == ClearFirst(before);
    }

    method SetSlaveOffline(s: nat, at: nat, setAt: nat)
      requires Valid() && s < slaves.Length
      modifies `log, slaves
      ensures Valid() && View() == old(SetOffline(timing, View(), s, at, setAt))
    {
      ghost var before := View();
      var sl := slaves[s];
      if at - sl.link.lastHandshake >= timing.timeoutThreshold {
        var next := setAt + timing.retryInterval * Pow(timing.delayCardinality, sl.link.retryCnt);
        slaves[s] := sl.(link := sl.link.(connected := false, nextHandshake := next,
                                          retryCnt := sl.link.retryCnt + 1));
        log := log + [Offline(calls, s, sl.device, setAt, next)];
        assert slaves[..] == before.slaves[s := slaves[s]];
      }
    }

    /** What both sync loops do with the feedback of an item. */
    method SettleFeedback(fails: int -> bool, s: nat, feedback: int, d: Delays)
      requires Valid() && s < slaves.Length
      modifies `clock, `log, items, slaves
      ensures Valid() && View() == old(Settle(timing, fails, View(), s, feedback, d))
    {
      ghost var before := View();
      var linkAt := clock + d.link;
      var lastAt := linkAt + d.last;
      if feedback == FEEDBACK_OK {
        if !slaves[s].link.connected {
          SetSlaveOnline(s, linkAt);
        }
        ghost var st1 := View();
        clock := lastAt;
        slaves[s] := slaves[s].(link := slaves[s].link.(lastHandshake := lastAt));
        assert slaves[..] == st1.slaves[s := slaves[s]];
      } else {
        if fails(feedback) && slaves[s].link.connected {
          SetSlaveOffline(s, linkAt, lastAt);
        }
        clock := lastAt;
      }
    }

    /** The loop over the readable items. */
    method ReadAll(fails: int -> bool, s: nat, ghost gateAt: nat, answers: nat -> Answer)
      requires Valid() && s < slaves.Length
      modifies `clock, `log, items, slaves
      ensures Valid() && View() == old(SyncReads(timing, fails, View(), s, 0, gateAt, answers))
    {
      hide Settle, ReadOne, Shape;
      ghost var goal := SyncReads(timing, fails, View(), s, 0, gateAt, answers);
      var k := 0;
      while k < items.Length
        invariant 0 <= k <= items.Length && Valid()
        invariant SyncReads(timing, fails, View(), s, k, gateAt, answers) == goal
      {
        var feedback := RegisterInfoRead(s, k, gateAt, answers(k));
        SettleFeedback(fails, s, feedback, answers(k).delays);
        k := k + 1;
      }
    }

    /** The loop over the writable items. */
    method WriteAll(fails: int -> bool, s: nat, ghost gateAt: nat, answers: nat -> Answer)
      requires Valid() && s < slaves.Length
      modifies `clock, `log, items, slaves
      ensures Valid() && View() == old(SyncWrites(timing, fails, View(), s, 0, gateAt, answers))
    {
      hide Settle, WriteOne, Shape;
      ghost var goal := SyncWrites(timing, fails, View(), s, 0, gateAt, answers);
      var k := 0;
      while k < |writes|
        invariant 0 <= k <= |writes| && Valid()
        invariant SyncWrites(timing, fails, View(), s, k, gateAt, answers) == goal
      {
        var feedback := RegisterInfoWrite(s, k, gateAt, answers(k));
        SettleFeedback(fails, s, feedback, answers(k).delays);
        k := k + 1;
      }
    }

    /** A sync of all readable items of a slave: nothing before its handshake time, else one item after the
        other. */
    method ReadableInfosSync(fails: int -> bool, s: nat, delay: nat, answers: nat -> Answer)
      requires Valid()
      modifies this, items, slaves
      ensures Valid() && View() == old(DoCall(timing, fails, View(), ReadSync(s, delay, answers)))
    {
      hide SyncReads, SyncWrites;
      if s >= slaves.Length {
        return;
      }
      clock := clock + delay;
      calls := calls + 1;
      if slaves[s].link.nextHandshake <= clock {
        ReadAll(fails, s, clock, answers);
      }
    }

    /** A sync of all writable items of a slave. */
    method WritableInfosSync(fails: int -> bool, s: nat, delay: nat, answers: nat -> Answer)
      requires Valid()
      modifies this, items, slaves
      ensures Valid() && View() == old(DoCall(timing, fails, View(), WriteSync(s, delay, answers)))
    {
      hide SyncReads, SyncWrites;
      if s >= slaves.Length {
        return;
      }
      clock := clock + delay;
      calls := calls + 1;
      if slaves[s].link.nextHandshake <= clock {
        WriteAll(fails, s, clock, answers);
      }
    }
  }
}
