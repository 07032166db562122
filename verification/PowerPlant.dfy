/** The table of photovoltaic inverters: which of them count as available, how a requested power is distributed
    over them, and the connect and lose callbacks of the drivers. */
module PowerPlant {
  import opened ConnectBitmap

  const U32: nat := 0x1_0000_0000
  /** The mode the availability test compares with. */
  const GRID_CONNECTED: nat := 2

  // ---------------------------------------------------------------- what the loops compute

  /** Available as the code has it: not in mode 2, or connected. */
  predicate Available(modes: seq<nat>, connected: seq<bool>, i: nat)
    requires i < |modes| && i < |connected|
  {
    modes[i] != GRID_CONNECTED || connected[i]
  }

  function AvailableCount(modes: seq<nat>, connected: seq<bool>, n: nat): (k: nat)
    requires n <= |modes| && n <= |connected|
    ensures k <= n
  {
    if n == 0 then 0
    else AvailableCount(modes, connected, n - 1) + if Available(modes, connected, n - 1) then 1 else 0
  }

  function ConnectedCount(connected: seq<bool>, n: nat): (k: nat)
    requires n <= |connected|
    ensures k <= n
  {
    if n == 0 then 0 else ConnectedCount(connected, n - 1) + if connected[n - 1] then 1 else 0
  }

  function Min(a: nat, b: nat): (m: nat)
    ensures m <= a && m <= b && (m == a || m == b)
  {
    if a < b then a else b
  }

  /** The power allotted to the connected devices among the first `n`. */
  function Allotted(connected: seq<bool>, maxima: seq<nat>, average: nat, n: nat): nat
    requires n <= |connected| && n <= |maxima|
  {
    if n == 0 then 0
    else Allotted(connected, maxima, average, n - 1) + if connected[n - 1] then Min(maxima[n - 1], average) else 0
  }

  /** The power that stands in the cells of the connected devices among the first `n`. */
  function Given(connected: seq<bool>, cells: seq<nat>, n: nat): nat
    requires n <= |connected| && n <= |cells|
  {
    if n == 0 then 0 else Given(connected, cells, n - 1) + if connected[n - 1] then cells[n - 1] else 0
  }

  lemma {:induction false} GivenIsAllotted(
    connected: seq<bool>, maxima: seq<nat>, cells: seq<nat>, average: nat, n: nat)
    requires n <= |connected| && n <= |maxima| && n <= |cells|
    requires forall i :: 0 <= i < n && connected[i] ==> cells[i] == Min(maxima[i], average)
    ensures Given(connected, cells, n) == Allotted(connected, maxima, average, n)
  {
    if n > 0 {
      GivenIsAllotted(connected, maxima, cells, average, n - 1);
    }
  }

  /** What the connected devices among the first `n` that are capped below the average cannot take of it. */
  function Shortfall(connected: seq<bool>, maxima: seq<nat>, average: nat, n: nat): nat
    requires n <= |connected| && n <= |maxima|
  {
    if n == 0 then 0
    else Shortfall(connected, maxima, average, n - 1)
         + if connected[n - 1] && maxima[n - 1] < average then average - maxima[n - 1] else 0
  }

  /** The devices among the first `n` that are not available: in mode 2 and not connected. */
  function OutOfService(modes: seq<nat>, connected: seq<bool>, n: nat): set<nat>
    requires n <= |modes| && n <= |connected|
  {
    set i: nat | i < n && modes[i] == 2 && !connected[i]
  }

  function OnLine(connected: seq<bool>, n: nat): set<nat>
    requires n <= |connected|
  {
    set i: nat | i < n && connected[i]
  }

  /** The request is shared by all devices but those in mode 2 that are not connected. */
  lemma {:induction false} AvailableAreAllButOutOfService(modes: seq<nat>, connected: seq<bool>, n: nat)
    requires n <= |modes| && n <= |connected|
    ensures AvailableCount(modes, connected, n) + |OutOfService(modes, connected, n)| == n
  {
    if n > 0 {
      AvailableAreAllButOutOfService(modes, connected, n - 1);
      var before := OutOfService(modes, connected, n - 1);
      assert OutOfService(modes, connected, n)
          == if modes[n - 1] == 2 && !connected[n - 1] then before + {n - 1} else before;
    }
  }

  lemma {:induction false} ConnectedCountIs(connected: seq<bool>, n: nat)
    requires n <= |connected|
    ensures ConnectedCount(connected, n) == |OnLine(connected, n)|
  {
    if n > 0 {
      ConnectedCountIs(connected, n - 1);
      var before := OnLine(connected, n - 1);
      assert OnLine(connected, n) == if connected[n - 1] then before + {n - 1} else before;
    }
  }

  /** Connected devices are available. */
  lemma {:induction false} ConnectedAreAvailable(modes: seq<nat>, connected: seq<bool>, n: nat)
    requires n <= |modes| && n <= |connected|
    ensures ConnectedCount(connected, n) <= AvailableCount(modes, connected, n)
  {
    if n > 0 {
      ConnectedAreAvailable(modes, connected, n - 1);
    }
  }

  lemma OneMore(k: nat, x: nat)
    ensures (k + 1) * x == k * x + x
  {
  }

  /** Every connected device takes the average or falls short of it. */
  lemma {:induction false} AllottedPlusShortfall(connected: seq<bool>, maxima: seq<nat>, average: nat, n: nat)
    requires n <= |connected| && n <= |maxima|
    ensures Allotted(connected, maxima, average, n) + Shortfall(connected, maxima, average, n)
         == ConnectedCount(connected, n) * average
  {
    if n > 0 {
      AllottedPlusShortfall(connected, maxima, average, n - 1);
      OneMore(ConnectedCount(connected, n - 1), average);
    }
  }

  lemma {:induction false} CountsGrow(connected: seq<bool>, n: nat, m: nat)
    requires n <= m <= |connected|
    ensures ConnectedCount(connected, n) <= ConnectedCount(connected, m)
  {
    if n < m {
      CountsGrow(connected, n, m - 1);
    }
  }

  lemma Product(a: nat, b: nat, x: nat)
    requires a <= b
    ensures a * x <= b * x && (b - a) * x == b * x - a * x
  {
  }

  /** At every point of the loop no more has been allotted than was requested, so the running subtraction
      never goes below zero. */
  lemma NeverMoreThanRequested(modes: seq<nat>, connected: seq<bool>, maxima: seq<nat>, request: nat, n: nat)
    requires |modes| == |connected| == |maxima| && n <= |modes|
    requires AvailableCount(modes, connected, |modes|) > 0
    ensures var average := request / AvailableCount(modes, connected, |modes|);
            Allotted(connected, maxima, average, n) <= request
  {
    hide AvailableCount, ConnectedCount, Allotted, Shortfall;
    var devices := AvailableCount(modes, connected, |modes|);
    AllottedPlusShortfall(connected, maxima, request / devices, n);
    CountsGrow(connected, n, |connected|);
    ConnectedAreAvailable(modes, connected, |modes|);
    Balance(request, devices, ConnectedCount(connected, n), Allotted(connected, maxima, request / devices, n),
            Shortfall(connected, maxima, request / devices, n));
    Product(ConnectedCount(connected, n), devices, request / devices);
  }

  lemma Balance(request: nat, devices: nat, linked: nat, allotted: nat, shortfall: nat)
    requires 0 < devices && linked <= devices && allotted + shortfall == linked * (request / devices)
    ensures request - allotted == request % devices + (devices - linked) * (request / devices) + shortfall
  {
    Product(linked, devices, request / devices);
    assert request == devices * (request / devices) + request % devices;
  }

  /** What remains: the remainder of the division, an average for every available device that is not
      connected, and what the connected ones cannot take. */
  lemma RemainderIs(modes: seq<nat>, connected: seq<bool>, maxima: seq<nat>, request: nat)
    requires |modes| == |connected| == |maxima|
    requires AvailableCount(modes, connected, |modes|) > 0
    ensures var devices := AvailableCount(modes, connected, |modes|);
            var average := request / devices;
            var linked := ConnectedCount(connected, |connected|);
            && linked <= devices
            && request - Allotted(connected, maxima, average, |connected|)
               == request % devices + (devices - linked) * average
                  + Shortfall(connected, maxima, average, |connected|)
  {
    var devices := AvailableCount(modes, connected, |modes|);
    var average := request / devices;
    var linked := ConnectedCount(connected, |connected|);
    hide AvailableCount, ConnectedCount, Allotted, Shortfall;
    ConnectedAreAvailable(modes, connected, |modes|);
    AllottedPlusShortfall(connected, maxima, average, |connected|);
    Balance(request, devices, linked, Allotted(connected, maxima, average, |connected|),
            Shortfall(connected, maxima, average, |connected|));
  }

  lemma {:induction false} NoShortfallIff(connected: seq<bool>, maxima: seq<nat>, average: nat, n: nat)
    requires n <= |connected| && n <= |maxima|
    ensures Shortfall(connected, maxima, average, n) == 0
       <==> forall i :: 0 <= i < n && connected[i] ==> maxima[i] >= average
  {
    if n > 0 {
      NoShortfallIff(connected, maxima, average, n - 1);
    }
  }

  lemma {:induction false} AllLinkedIff(modes: seq<nat>, connected: seq<bool>, n: nat)
    requires n <= |modes| && n <= |connected|
    ensures ConnectedCount(connected, n) == AvailableCount(modes, connected, n)
       <==> forall i :: 0 <= i < n && Available(modes, connected, i) ==> connected[i]
  {
    if n > 0 {
      ConnectedAreAvailable(modes, connected, n - 1);
      AllLinkedIff(modes, connected, n - 1);
    }
  }

  /** Every available device is connected and none of them is capped. */
  ghost predicate AllTakeTheAverage(modes: seq<nat>, connected: seq<bool>, maxima: seq<nat>, average: nat)
    requires |modes| == |connected| == |maxima|
  {
    && (forall i :: 0 <= i < |modes| && Available(modes, connected, i) ==> connected[i])
    && (forall i :: 0 <= i < |modes| && connected[i] ==> maxima[i] >= average)
  }

  /** The whole request is distributed, up to the remainder of the division, exactly when every available device
      is connected and can take the average, or the average is 0. */
  lemma FullDistributionIff(modes: seq<nat>, connected: seq<bool>, maxima: seq<nat>, request: nat)
    requires |modes| == |connected| == |maxima|
    requires AvailableCount(modes, connected, |modes|) > 0
    ensures var devices := AvailableCount(modes, connected, |modes|);
            var average := request / devices;
            && request % devices < devices
            && (request - Allotted(connected, maxima, average, |connected|) == request % devices
                <==> average == 0 || AllTakeTheAverage(modes, connected, maxima, average))
  {
    var devices := AvailableCount(modes, connected, |modes|);
    var average := request / devices;
    var linked := ConnectedCount(connected, |connected|);
    hide AvailableCount, ConnectedCount, Allotted, Shortfall;
    RemainderIs(modes, connected, maxima, request);
    AllLinkedIff(modes, connected, |modes|);
    NoShortfallIff(connected, maxima, average, |connected|);
    NoProduct(devices - linked, average);
    if average == 0 {
      NoShortfallIff(connected, maxima, 0, |connected|);
    }
  }

  lemma NoProduct(a: nat, b: nat)
    ensures a * b == 0 <==> a == 0 || b == 0
  {
    if a > 0 {
      Product(1, a, b);
    }
  }

  lemma {:induction false} AllAvailable(modes: seq<nat>, connected: seq<bool>, n: nat)
    requires n <= |modes| && n <= |connected|
    requires forall i :: 0 <= i < n ==> modes[i] != GRID_CONNECTED
    ensures AvailableCount(modes, connected, n) == n
  {
    if n > 0 {
      AllAvailable(modes, connected, n - 1);
    }
  }

  /** The code's test is not the one its comment names, "not faulty and on line". While no device reports mode
      2, as after a start with all modes 0, all 32 count as available however few are connected, and the share of
      every other device is allotted to nobody. */
  lemma AvailableWithoutConnection(modes: seq<nat>, connected: seq<bool>, maxima: seq<nat>, request: nat)
    requires |modes| == |connected| == |maxima| == DEVICES
    requires forall i :: 0 <= i < DEVICES ==> modes[i] != GRID_CONNECTED
    ensures AvailableCount(modes, connected, DEVICES) == DEVICES
    ensures request - Allotted(connected, maxima, request / DEVICES, DEVICES)
         >= (DEVICES - ConnectedCount(connected, DEVICES)) * (request / DEVICES)
  {
    AllAvailable(modes, connected, DEVICES);
    hide AvailableCount, ConnectedCount, Allotted, Shortfall;
    RemainderIs(modes, connected, maxima, request);
  }

  /** All modes 0 and device 0 connected: 31 of 32 shares are allotted to nobody. */
  lemma OneOfThirtyTwo(maxima: seq<nat>, request: nat) returns (modes: seq<nat>, connected: seq<bool>)
    requires |maxima| == DEVICES
    ensures |modes| == |connected| == DEVICES && AvailableCount(modes, connected, DEVICES) == DEVICES
    ensures request - Allotted(connected, maxima, request / DEVICES, DEVICES) >= 31 * (request / DEVICES)
  {
    modes := seq(DEVICES, _ => 0);
    connected := seq(DEVICES, i => i == 0);
    AvailableWithoutConnection(modes, connected, maxima, request);
    OnlyTheFirst(connected, DEVICES);
  }

  lemma {:induction false} OnlyTheFirst(connected: seq<bool>, n: nat)
    requires 0 < n <= |connected| && connected[0] && forall i :: 0 < i < n ==> !connected[i]
    ensures ConnectedCount(connected, n) == 1
  {
    if n > 1 {
      OnlyTheFirst(connected, n - 1);
    } else {
      assert ConnectedCount(connected, 0) == 0;
    }
  }

  // ---------------------------------------------------------------- the table

  class Plant {
    const modes: array<nat>
    const maxima: array<nat>
    const allotments: array<nat>
    const connected: array<bool>
    var status: bv32

    ghost predicate Valid()
      reads this, modes, maxima, allotments, connected
    {
      && modes.Length == maxima.Length == allotments.Length == connected.Length == DEVICES
      && modes != allotments && maxima != allotments
      && (forall i :: 0 <= i < DEVICES ==> maxima[i] < U32)
      && Mirrors(status, connected[..])
    }

    constructor ()
      ensures Valid() && fresh(modes) && fresh(maxima) && fresh(allotments) && fresh(connected)
      ensures status == 0 && forall i :: 0 <= i < DEVICES ==> !connected[i]
    {
      modes := new nat[DEVICES](i => 0);
      maxima := new nat[DEVICES](i => 0);
      allotments := new nat[DEVICES](i => 0);
      connected := new bool[DEVICES](i => false);
      status := 0;
      new;
      hide Mask, Has;
      forall i | 0 <= i < DEVICES ensures !Has(status, Mask(i)) {
        ZeroHasNone(status, Mask(i));
      }
    }

    /** A device number outside the table reads as mode 0 and not connected, and so as available. */
    method SingleIfAvailable(id: nat) returns (available: bool)
      requires Valid()
      ensures available == (id >= DEVICES || Available(modes[..], connected[..], id))
    {
      var online := id < DEVICES && connected[id];
      var mode := if id < DEVICES then modes[id] else 0;
      available := mode != GRID_CONNECTED || online;
    }

    method AvailabilityNum() returns (num: nat)
      requires Valid()
      ensures num == AvailableCount(modes[..], connected[..], DEVICES)
    {
      hide Mirrors;
      num := 0;
      for idx := 0 to DEVICES
        invariant num == AvailableCount(modes[..], connected[..], idx)
      {
        var available := SingleIfAvailable(idx);
        if available {
          num := num + 1;
        }
      }
    }

    /** Distributes `request` over the connected devices. `remaining` is the running difference, kept in 32-bit
        unsigned arithmetic; at least one device must be available, as the code divides by their number. */
    method Distribute(request: nat) returns (remaining: nat)
      requires Valid() && request < U32 && AvailableCount(modes[..], connected[..], DEVICES) > 0
      modifies allotments
      ensures Valid() && modes[..] == old(modes[..]) && maxima[..] == old(maxima[..])
      ensures var average := request / AvailableCount(modes[..], connected[..], DEVICES);
              && (forall i :: 0 <= i < DEVICES ==>
                   allotments[i] == if connected[i] then Min(maxima[i], average) else old(allotments[i]))
              && (forall i :: 0 <= i < DEVICES && connected[i] ==>
                   allotments[i] <= maxima[i] && allotments[i] <= average
                   && (allotments[i] == maxima[i] || allotments[i] == average))
              && remaining + Allotted(connected[..], maxima[..], average, DEVICES) == request
      ensures remaining + Given(connected[..], allotments[..], DEVICES) == request
    {
      hide Mirrors, AvailableCount;
      var deviceNum := AvailabilityNum();
      var average := request / deviceNum;
      remaining := request;
      for idx := 0 to DEVICES
        invariant modes[..] == old(modes[..]) && maxima[..] == old(maxima[..]) && connected[..] == old(connected[..])
        invariant forall i :: 0 <= i < DEVICES ==>
                    allotments[i] == if i < idx && connected[i] then Min(maxima[i], average) else old(allotments[i])
        invariant remaining + Allotted(connected[..], maxima[..], average, idx) == request
      {
        NeverMoreThanRequested(modes[..], connected[..], maxima[..], request, idx + 1);
        if connected[idx] {
          var maxPower := maxima[idx];
          var power := if maxPower < average then maxPower else average;
          allotments[idx] := power;
          remaining := (remaining - power) % U32;
        }
      }
      GivenIsAllotted(connected[..], maxima[..], allotments[..], average, DEVICES);
    }

    /** The lose callback of a driver. */
    method LinkLose(id: nat)
      requires Valid() && id < DEVICES
      modifies `status, connected
      ensures Valid()
      ensures status == AndNot(old(status), Mask(id)) && connected[..] == old(connected[..])[id := false]
    {
      LoseMirrors(status, connected[..], id);
      var connectStatus := AndNot(status, Mask(id));
      connected[id] := false;
      status := connectStatus;
    }

    /** The connect callback of a driver. */
    method LinkConnect(id: nat)
      requires Valid() && id < DEVICES
      modifies `status, connected
      ensures Valid()
      ensures status == Or(old(status), Mask(id)) && connected[..] == old(connected[..])[id := true]
    {
      ConnectMirrors(status, connected[..], id);
      var connectStatus := Or(status, Mask(id));
      connected[id] := true;
      status := connectStatus;
    }
  }
}
