/** The queue object as one thread sees it: its units overwritten in place, with the holder readings that the
    other threads cause given as input. */
module RingQueue {
  import opened RingSpec
  import Modular

  /** One reading of the two holder counters of a unit. */
  datatype Poll = Poll(read: nat, write: nat)

  predicate BusyForGet(p: Poll) {
    p.read == 0xFF || p.write != 0
  }

  predicate BusyForPut(p: Poll) {
    p.read != 0 || p.write != 0
  }

  const READY: nat := 0xAA55
  const U16: nat := 0x1_0000
  const U32: nat := 0x1_0000_0000

  const OK: nat := 0
  const BAD_ARGUMENT: nat := 1
  const NOT_READY: nat := 2
  const ALREADY_INITIALIZED: nat := 2
  const NO_MEMORY: nat := 4
  const TIMEOUT: nat := 4

  /** The status of a polling loop that tolerates `timeout` busy readings, and the readings it takes: it goes
      on at the first reading that is not busy, unless `timeout` + 1 busy ones come before it. */
  ghost predicate Polled(busy: Poll -> bool, polls: nat -> Poll, timeout: nat, status: nat, taken: nat) {
    && 1 <= taken <= timeout + 1
    && (forall k: nat :: k < taken - 1 ==> busy(polls(k)))
    && (status == OK ==> !busy(polls(taken - 1)))
    && (status == TIMEOUT ==> taken == timeout + 1 && busy(polls(timeout)))
    && (status == OK || status == TIMEOUT)
  }

  /** The timeout is reported exactly when all `timeout` + 1 readings found the unit busy. */
  lemma TimeoutIff(busy: Poll -> bool, polls: nat -> Poll, timeout: nat, status: nat, taken: nat)
    requires Polled(busy, polls, timeout, status, taken)
    ensures status == TIMEOUT <==> forall k: nat :: k <= timeout ==> busy(polls(k))
  {
    if forall k: nat :: k <= timeout ==> busy(polls(k)) {
      assert busy(polls(taken - 1));
    } else if status == TIMEOUT {
      assert forall k: nat :: k <= timeout ==> busy(polls(k));
    }
  }

  ghost function Snapshot(n: nat, m: nat, garbage: (nat, nat) -> Byte): (r: seq<seq<Byte>>)
    ensures |r| == n && forall u :: 0 <= u < n ==> |r[u]| == m
    ensures forall u, b :: 0 <= u < n && 0 <= b < m ==> r[u][b] == garbage(u, b)
  {
    seq(n, u requires u >= 0 => seq(m, b requires b >= 0 => garbage(u, b)))
  }

  /** Memory for `n` units of `m` bytes, holding whatever the allocator left there. */
  method Allocate(n: nat, m: nat, garbage: (nat, nat) -> Byte) returns (us: array2<Byte>)
    ensures fresh(us) && us.Length0 == n && us.Length1 == m
    ensures forall u, b :: 0 <= u < n && 0 <= b < m ==> us[u, b] == garbage(u, b)
  {
    us := new Byte[n, m];
    for u := 0 to n
      invariant forall v, b :: 0 <= v < u && 0 <= b < m ==> us[v, b] == garbage(v, b)
    {
      for b := 0 to m
        invariant forall v, c :: 0 <= v < u && 0 <= c < m ==> us[v, c] == garbage(v, c)
        invariant forall c :: 0 <= c < b ==> us[u, c] == garbage(u, c)
      {
        us[u, b] := garbage(u, b);
      }
    }
  }

  class Queue {
    var initializeState: nat
    var latestUnitIdx: nat
    var unitSize: nat
    var unitNum: nat
    var timeoutWaitTime: nat
    var units: array2?<Byte>
    /** What the units held when they were allocated, and the puts since then. */
    ghost var memory: seq<seq<Byte>>
    ghost var history: seq<Put>

    ghost predicate Valid()
      reads this, units
    {
      && initializeState < U16 && timeoutWaitTime < U32 - 1
      && (initializeState == READY ==> Built())
    }

    /** The units hold what the history says. */
    ghost predicate Built()
      reads this, units
    {
      && units != null && units.Length0 == unitNum && units.Length1 == unitSize
      && |memory| == unitNum && RingMemory(memory, unitSize) && AllFit(history, unitSize)
      && latestUnitIdx == Latest(history, unitNum)
      && forall u, b :: 0 <= u < unitNum && 0 <= b < unitSize
           ==> units[u, b] == UnitAfter(memory[u], history, unitNum, u)[b]
    }

    /** The bytes a get can see. */
    ghost function Published(): (s: seq<Byte>)
      reads this, units
      requires Built()
      ensures |s| == unitSize
    {
      Current(memory, history, unitSize)
    }

    constructor (unitSize: nat, unitNum: nat, timeoutWaitTime: nat)
      requires timeoutWaitTime < U32 - 1
      ensures Valid() && initializeState == 0 && units == null
      ensures this.unitSize == unitSize && this.unitNum == unitNum && this.timeoutWaitTime == timeoutWaitTime
    {
      initializeState, latestUnitIdx := 0, 0;
      this.unitSize, this.unitNum, this.timeoutWaitTime := unitSize, unitNum, timeoutWaitTime;
      units := null;
      memory, history := [], [];
    }

    /** `allocates` says whether the memory requests succeed and `garbage` what that memory holds. A refused argument
        resets the state even of a queue in use, and a second init moves it off READY. */
    method Init(allocates: bool, garbage: (nat, nat) -> Byte) returns (ret: nat)
      requires initializeState < U16 && timeoutWaitTime < U32 - 1
      modifies this
      ensures ret == (if unitSize == 0 || unitNum == 0 then BAD_ARGUMENT
                      else if old(initializeState) != 0 then ALREADY_INITIALIZED
                      else if !allocates then NO_MEMORY else OK)
      ensures unitSize == old(unitSize) && unitNum == old(unitNum) && timeoutWaitTime == old(timeoutWaitTime)
      ensures ret != OK ==> units == old(units) && latestUnitIdx == old(latestUnitIdx)
                            && memory == old(memory) && history == old(history)
      ensures initializeState == if ret == OK then READY
                                 else if ret == ALREADY_INITIALIZED then (old(initializeState) + 1) % U16 else 0
      ensures ret == OK ==> Built() && fresh(units) && history == [] && latestUnitIdx == 0
      ensures old(initializeState) + 1 != READY ==> Valid()
      ensures initializeState < U16
    {
      if unitSize == 0 || unitNum == 0 {
        initializeState := 0;
        return BAD_ARGUMENT;
      }
      if initializeState != 0 {
        initializeState := (initializeState + 1) % U16;
        return ALREADY_INITIALIZED;
      }
      initializeState := initializeState + 1;
      if !allocates {
        initializeState := 0;
        return NO_MEMORY;
      }
      var us := Allocate(unitNum, unitSize, garbage);
      units := us;
      initializeState := READY;
      latestUnitIdx := 0;
      memory := Snapshot(unitNum, unitSize, garbage);
      history := [];
      Modular.DivModUnique(0, 0, 0, unitNum);
      assert forall u :: 0 <= u < unitNum ==> UnitAfter(memory[u], [], unitNum, u) == memory[u];
      hide UnitAfter, Snapshot;
      assert forall u, b :: 0 <= u < unitNum && 0 <= b < unitSize ==> units[u, b] == memory[u][b];
      ret := OK;
    }

    method Deinit()
      modifies this`initializeState
      ensures initializeState == 0
    {
      initializeState := 0;
    }

    /** Copies the window [offset, offset + size) of the latest unit to `dst` from position `at` on. The
        holder readings of the polling loop are `polls`; `taken` is how many it takes. */
    method Get(dst: array<Byte>, at: nat, offset: nat, size: nat, polls: nat -> Poll) returns (ret: nat, taken: nat)
      requires Valid() && offset + size < U32 && at + size <= dst.Length
      modifies dst
      ensures offset + size > unitSize ==> ret == BAD_ARGUMENT && taken == 0
      ensures offset + size <= unitSize && initializeState != READY ==> ret == NOT_READY && taken == 0
      ensures offset + size <= unitSize && initializeState == READY
              ==> Polled(BusyForGet, polls, timeoutWaitTime, ret, taken)
      // it copies after the first reading that finds no writer and fewer than 255 readers, and gives up after
      // timeout + 1 readings without one
      ensures offset + size <= unitSize && initializeState == READY ==>
                && 1 <= taken <= timeoutWaitTime + 1
                && (forall k: nat :: k < taken - 1 ==> polls(k).read == 255 || polls(k).write != 0)
                && (ret == 0 <==> polls(taken - 1).read != 255 && polls(taken - 1).write == 0)
                && (ret == 4 <==> forall k: nat :: k <= timeoutWaitTime ==> polls(k).read == 255 || polls(k).write != 0)
      ensures ret != OK ==> dst[..] == old(dst[..])
      ensures ret == OK ==> Built() && offset + size <= unitSize
                            && dst[..] == old(dst[..at]) + Published()[offset..offset + size] + old(dst[at + size..])
    {
      taken := 0;
      if offset + size > unitSize {
        return BAD_ARGUMENT, 0;
      }
      if initializeState != READY {
        return NOT_READY, 0;
      }
      var lastUnitIdx := latestUnitIdx;
      var waitingTime := 0;
      while true
        invariant waitingTime == taken <= timeoutWaitTime
        invariant forall k: nat :: k < taken ==> BusyForGet(polls(k))
        invariant dst[..] == old(dst[..])
        decreases timeoutWaitTime - waitingTime
      {
        var p := polls(taken);
        taken := taken + 1;
        if BusyForGet(p) {
          waitingTime := waitingTime + 1;
          if waitingTime > timeoutWaitTime {
            return TIMEOUT, taken;
          }
        } else {
          CopyOut(dst, at, lastUnitIdx, offset, size);
          return OK, taken;
        }
      }
    }

    /** The copy out of a unit. */
    method CopyOut(dst: array<Byte>, at: nat, u: nat, offset: nat, size: nat)
      requires Built() && u < unitNum && offset + size <= unitSize && at + size <= dst.Length
      modifies dst
      ensures dst[..] == old(dst[..at]) + UnitAfter(memory[u], history, unitNum, u)[offset..offset + size]
                         + old(dst[at + size..])
    {
      ghost var window := UnitAfter(memory[u], history, unitNum, u)[offset..offset + size];
      for b := 0 to size
        invariant forall x :: 0 <= x < dst.Length ==>
                    dst[x] == if at <= x < at + b then window[x - at] else old(dst[x])
      {
        dst[at + b] := units[u, offset + b];
      }
    }

    /** Copies `src` into the unit after the latest one and publishes it. */
    method Put(src: seq<Byte>, offset: nat, polls: nat -> Poll) returns (ret: nat, taken: nat)
      requires Valid() && offset + |src| < U32
      modifies this`latestUnitIdx, this`history, units
      ensures Valid()
      ensures offset + |src| > unitSize ==> ret == BAD_ARGUMENT && taken == 0
      ensures offset + |src| <= unitSize && initializeState != READY ==> ret == NOT_READY && taken == 0
      ensures offset + |src| <= unitSize && initializeState == READY
              ==> Polled(BusyForPut, polls, timeoutWaitTime, ret, taken)
      // it copies after the first reading that finds neither reader nor writer, and gives up after timeout + 1
      // readings without one
      ensures offset + |src| <= unitSize && initializeState == READY ==>
                && 1 <= taken <= timeoutWaitTime + 1
                && (forall k: nat :: k < taken - 1 ==> polls(k).read != 0 || polls(k).write != 0)
                && (ret == 0 <==> polls(taken - 1).read == 0 && polls(taken - 1).write == 0)
                && (ret == 4 <==> forall k: nat :: k <= timeoutWaitTime ==> polls(k).read != 0 || polls(k).write != 0)
      ensures ret != OK ==> history == old(history) && latestUnitIdx == old(latestUnitIdx)
      ensures ret != OK && units != null ==>
                forall u, b :: 0 <= u < units.Length0 && 0 <= b < units.Length1 ==> units[u, b] == old(units[u, b])
      ensures ret == OK ==> Built() && history == old(history) + [RingSpec.Put(offset, src)]
    {
      taken := 0;
      if offset + |src| > unitSize {
        return BAD_ARGUMENT, 0;
      }
      if initializeState != READY {
        return NOT_READY, 0;
      }
      var waitingTime := 0;
      while true
        invariant waitingTime == taken <= timeoutWaitTime
        invariant forall k: nat :: k < taken ==> BusyForPut(polls(k))
        decreases timeoutWaitTime - waitingTime
      {
        var lastUnitIdx := (latestUnitIdx + 1) % unitNum;
        var p := polls(taken);
        taken := taken + 1;
        if BusyForPut(p) {
          waitingTime := waitingTime + 1;
          if waitingTime > timeoutWaitTime {
            return TIMEOUT, taken;
          }
        } else {
          CopyIn(src, offset, lastUnitIdx);
          latestUnitIdx := lastUnitIdx;
          ghost var p := RingSpec.Put(offset, src);
          ghost var before := history;
          history := before + [p];
          Modular.ModSucc(|before|, unitNum);
          assert history[..|history| - 1] == before;
          return OK, taken;
        }
      }
    }

    /** The copy into a unit. */
    method CopyIn(src: seq<Byte>, offset: nat, u: nat)
      requires units != null && u < units.Length0 && offset + |src| <= units.Length1
      modifies units
      ensures forall v, b :: 0 <= v < units.Length0 && 0 <= b < units.Length1 ==>
                units[v, b] == if v == u && offset <= b < offset + |src| then src[b - offset] else old(units[v, b])
    {
      for k := 0 to |src|
        invariant forall v, b :: 0 <= v < units.Length0 && 0 <= b < units.Length1 ==>
                    units[v, b] == if v == u && offset <= b < offset + k then src[b - offset] else old(units[v, b])
      {
        units[u, offset + k] := src[k];
      }
    }
  }
}
