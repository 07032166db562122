/** The link states of a channel and the connection word of the plant: the connect and lose callbacks that the
    polling makes keep the two in agreement, so the channel is reconnected when all its slaves are lost. */
module LinkMirror {
  import opened PollingSpec
  import CB = ConnectBitmap

  /** The callbacks made, in order: connect when a slave comes on line, lose when one goes off line. */
  function Callbacks(log: seq<Entry>): (calls: seq<CB.Call>)
    ensures |calls| <= |log|
  {
    if log == [] then []
    else
      var earlier := Callbacks(log[..|log| - 1]);
      match log[|log| - 1]
      case Online(_, _, d) => earlier + [CB.Connect(d)]
      case Offline(_, _, d, _, _) => earlier + [CB.Lose(d)]
      case _ => earlier
  }

  /** Every slave has its own device number, below the number of devices of the plant. */
  ghost predicate DistinctDevices(slaves: seq<Slave>) {
    && (forall s :: 0 <= s < |slaves| ==> slaves[s].device < CB.DEVICES)
    && forall s, r :: 0 <= s < r < |slaves| ==> slaves[s].device != slaves[r].device
  }

  ghost predicate InRange(calls: seq<CB.Call>) {
    forall k :: 0 <= k < |calls| ==> calls[k].d < CB.DEVICES
  }

  function Connected(calls: seq<CB.Call>): (c: seq<bool>)
    requires forall k :: 0 <= k < |calls| ==> calls[k].d < CB.DEVICES
    ensures |c| == CB.DEVICES
  {
    CB.Run(CB.NoLinks(), calls).connected
  }

  /** The plant sees device d connected exactly when it is the device of a connected slave. */
  ghost predicate Agree(slaves: seq<Slave>, connected: seq<bool>)
    requires |connected| == CB.DEVICES
  {
    && (forall s :: 0 <= s < |slaves| && slaves[s].device < CB.DEVICES ==>
         (connected[slaves[s].device] <==> slaves[s].link.connected))
    && forall d :: 0 <= d < CB.DEVICES && connected[d] ==> exists s :: 0 <= s < |slaves| && slaves[s].device == d
  }

  ghost predicate Mirrored(slaves: seq<Slave>, log: seq<Entry>) {
    && DistinctDevices(slaves) && InRange(Callbacks(log))
    && Agree(slaves, Connected(Callbacks(log)))
  }

  lemma CallbacksAppend(log: seq<Entry>, e: Entry)
    ensures e.Online? ==> Callbacks(log + [e]) == Callbacks(log) + [CB.Connect(e.device)]
    ensures e.Offline? ==> Callbacks(log + [e]) == Callbacks(log) + [CB.Lose(e.device)]
    ensures IsRequest(e) ==> Callbacks(log + [e]) == Callbacks(log)
  {
    assert (log + [e])[..|log|] == log;
  }

  lemma ConnectedAppend(calls: seq<CB.Call>, c: CB.Call)
    requires InRange(calls) && c.d < CB.DEVICES
    ensures InRange(calls + [c]) && Connected(calls + [c]) == Connected(calls)[c.d := c.Connect?]
  {
    assert (calls + [c])[..|calls|] == calls;
  }

  /** The same slaves up to times and retry counters. */
  ghost predicate SameLinks(slaves: seq<Slave>, slaves': seq<Slave>) {
    |slaves'| == |slaves| && forall s :: 0 <= s < |slaves| ==>
      slaves'[s].device == slaves[s].device && slaves'[s].link.connected == slaves[s].link.connected
  }

  lemma SameLinksAgree(slaves: seq<Slave>, slaves': seq<Slave>, log: seq<Entry>)
    requires Mirrored(slaves, log) && SameLinks(slaves, slaves')
    ensures Mirrored(slaves', log)
  {
    hide Callbacks, Connected;
    var c := Connected(Callbacks(log));
    forall d | 0 <= d < CB.DEVICES && c[d] ensures exists s :: 0 <= s < |slaves'| && slaves'[s].device == d {
      var s :| 0 <= s < |slaves| && slaves[s].device == d;
      assert slaves'[s].device == d;
    }
  }

  /** One link changes and its callback is made. */
  lemma ChangeAgrees(slaves: seq<Slave>, log: seq<Entry>, s: nat, l: Link, e: Entry)
    requires Mirrored(slaves, log) && s < |slaves|
    requires (e.Online? && l.connected && e.device == slaves[s].device)
             || (e.Offline? && !l.connected && e.device == slaves[s].device)
    ensures Mirrored(slaves[s := slaves[s].(link := l)], log + [e])
  {
    hide Callbacks, Connected, Agree;
    var call := if e.Online? then CB.Connect(e.device) else CB.Lose(e.device);
    CallbacksAppend(log, e);
    ConnectedAppend(Callbacks(log), call);
    UpdateAgrees(slaves, Connected(Callbacks(log)), s, l);
  }

  lemma UpdateAgrees(slaves: seq<Slave>, c: seq<bool>, s: nat, l: Link)
    requires |c| == CB.DEVICES && DistinctDevices(slaves) && Agree(slaves, c) && s < |slaves|
    ensures DistinctDevices(slaves[s := slaves[s].(link := l)])
    ensures Agree(slaves[s := slaves[s].(link := l)], c[slaves[s].device := l.connected])
  {
    var slaves' := slaves[s := slaves[s].(link := l)];
    var c' := c[slaves[s].device := l.connected];
    forall d | 0 <= d < CB.DEVICES && c'[d] ensures exists r :: 0 <= r < |slaves'| && slaves'[r].device == d {
      if d == slaves[s].device {
        assert slaves'[s].device == d;
      } else {
        var r :| 0 <= r < |slaves| && slaves[r].device == d;
        assert slaves'[r].device == d;
      }
    }
  }

  lemma RequestAgrees(slaves: seq<Slave>, log: seq<Entry>, e: Entry)
    requires Mirrored(slaves, log) && IsRequest(e)
    ensures Mirrored(slaves, log + [e])
  {
    CallbacksAppend(log, e);
    hide Callbacks, Connected;
  }

  lemma SettleMirrors(timing: Timing, fails: int -> bool, st: State, s: nat, feedback: int, d: Delays)
    requires Shape(st) && s < |st.slaves| && Mirrored(st.slaves, st.log)
    ensures var e := Settle(timing, fails, st, s, feedback, d); Mirrored(e.slaves, e.log)
  {
    hide Mirrored;
    var st' := Settle(timing, fails, st, s, feedback, d);
    if feedback == FEEDBACK_OK && !st.slaves[s].link.connected {
      var st1 := SetOnline(st, s, st.clock + d.link);
      ChangeAgrees(st.slaves, st.log, s, st1.slaves[s].link, Online(st.calls, s, st.slaves[s].device));
      SameLinksAgree(st1.slaves, st'.slaves, st1.log);
    } else if feedback != FEEDBACK_OK && fails(feedback) && st.slaves[s].link.connected && st'.log != st.log {
      ChangeAgrees(st.slaves, st.log, s, st'.slaves[s].link, st'.log[|st.log|]);
    } else {
      assert st'.log == st.log && SameLinks(st.slaves, st'.slaves);
      SameLinksAgree(st.slaves, st'.slaves, st.log);
    }
  }

  lemma {:induction false} SyncReadsMirrors(timing: Timing, fails: int -> bool, st: State, s: nat, k: nat,
                                            gateAt: nat, answers: nat -> Answer)
    requires Shape(st) && s < |st.slaves| && k <= |st.items| && Mirrored(st.slaves, st.log)
    ensures var e := SyncReads(timing, fails, st, s, k, gateAt, answers); Mirrored(e.slaves, e.log)
    decreases |st.items| - k
  {
    hide Settle, Mirrored;
    if k < |st.items| {
      var (st1, feedback) := ReadOne(st, s, k, gateAt, answers(k));
      if st1.log != st.log {
        RequestAgrees(st.slaves, st.log, st1.log[|st.log|]);
      }
      SettleMirrors(timing, fails, st1, s, feedback, answers(k).delays);
      SyncReadsMirrors(timing, fails, Settle(timing, fails, st1, s, feedback, answers(k).delays), s, k + 1,
                       gateAt, answers);
    }
  }

  lemma {:induction false} SyncWritesMirrors(timing: Timing, fails: int -> bool, st: State, s: nat, k: nat,
                                             gateAt: nat, answers: nat -> Answer)
    requires Shape(st) && s < |st.slaves| && k <= |st.writes| && Mirrored(st.slaves, st.log)
    ensures var e := SyncWrites(timing, fails, st, s, k, gateAt, answers); Mirrored(e.slaves, e.log)
    decreases |st.writes| - k
  {
    hide Settle, Mirrored;
    if k < |st.writes| {
      var (st1, feedback) := WriteOne(st, s, k, gateAt, answers(k));
      if st1.log != st.log {
        RequestAgrees(st.slaves, st.log, st1.log[|st.log|]);
      }
      SettleMirrors(timing, fails, st1, s, feedback, answers(k).delays);
      SyncWritesMirrors(timing, fails, Settle(timing, fails, st1, s, feedback, answers(k).delays), s, k + 1,
                        gateAt, answers);
    }
  }

  lemma NothingYet(st: State)
    requires Initial(st) && DistinctDevices(st.slaves)
    ensures Mirrored(st.slaves, st.log)
  {
    assert Callbacks([]) == [];
  }

  lemma {:induction false} RunMirrors(timing: Timing, fails: int -> bool, st: State, calls: seq<Call>)
    requires Initial(st) && DistinctDevices(st.slaves)
    ensures var e := Run(timing, fails, st, calls); Mirrored(e.slaves, e.log)
  {
    hide SyncReads, SyncWrites, Mirrored;
    if calls == [] {
      NothingYet(st);
    } else {
      RunMirrors(timing, fails, st, calls[..|calls| - 1]);
      var before := Run(timing, fails, st, calls[..|calls| - 1]);
      var c := calls[|calls| - 1];
      if c.slave < |before.slaves| {
        var now := before.clock + c.delay;
        var st1 := before.(clock := now, calls := before.calls + 1);
        match c
        case ReadSync(s, _, answers) => SyncReadsMirrors(timing, fails, st1, s, 0, now, answers);
        case WriteSync(s, _, answers) => SyncWritesMirrors(timing, fails, st1, s, 0, now, answers);
      }
    }
  }

  /** After any run, whatever counts as a failure: bit d of the connection word is set exactly for the devices
      of connected slaves, and the word is zero, the condition for reconnecting the channel, exactly when no
      slave is connected. */
  lemma WordZeroIffAllDown(timing: Timing, fails: int -> bool, st: State, calls: seq<Call>)
    requires Initial(st) && DistinctDevices(st.slaves)
    ensures var e := Run(timing, fails, st, calls);
            && InRange(Callbacks(e.log))
            && var word := CB.Run(CB.NoLinks(), Callbacks(e.log)).status;
               && (forall s :: 0 <= s < |e.slaves| ==>
                    e.slaves[s].device < CB.DEVICES
                    && (CB.Has(word, CB.Mask(e.slaves[s].device)) <==> e.slaves[s].link.connected))
               && (word == 0 <==> forall s :: 0 <= s < |e.slaves| ==> !e.slaves[s].link.connected)
  {
    RunMirrors(timing, fails, st, calls);
    var e := Run(timing, fails, st, calls);
    AgreeingWord(e.slaves, e.log);
  }

  lemma AgreeingWord(slaves: seq<Slave>, log: seq<Entry>)
    requires Mirrored(slaves, log)
    ensures var word := CB.Run(CB.NoLinks(), Callbacks(log)).status;
            && (forall s :: 0 <= s < |slaves| ==>
                 slaves[s].device < CB.DEVICES
                 && (CB.Has(word, CB.Mask(slaves[s].device)) <==> slaves[s].link.connected))
            && (word == 0 <==> forall s :: 0 <= s < |slaves| ==> !slaves[s].link.connected)
  {
    hide Callbacks, CB.Run, CB.Mask, CB.Has;
    var calls := Callbacks(log);
    CB.RunMirrors(calls);
    var c := Connected(calls);
    var word := CB.Run(CB.NoLinks(), calls).status;
    if word == 0 {
      forall s | 0 <= s < |slaves| ensures !slaves[s].link.connected {
        assert !c[slaves[s].device];
      }
    } else {
      var d :| 0 <= d < CB.DEVICES && c[d];
      var s :| 0 <= s < |slaves| && slaves[s].device == d;
      assert slaves[s].link.connected;
    }
  }
}
