/** The sorted table of address intervals: what makes it valid, which addresses it covers, and how a window of
    addresses is split over its intervals. */
module IntervalTable {

  type U16 = x: nat | x < 0x1_0000

  datatype Interval = Interval(start: U16, length: U16, end: U16)

  type Table = seq<Interval>

  /** start + length - 1 in 32-bit unsigned arithmetic. */
  function EndOf(iv: Interval): (e: nat) {
    (iv.start + iv.length + 0xFFFF_FFFF) % 0x1_0000_0000
  }

  function FillEnd(iv: Interval): Interval
    requires EndOf(iv) < 0x1_0000
  {
    iv.(end := EndOf(iv))
  }

  /** The configured part of interval `i` is legal, given the interval before it. */
  predicate OkAt(t: Table, i: nat)
    requires i < |t|
  {
    && t[i].length >= 1 && t[i].start + t[i].length - 1 <= 0xFFFF
    && (i > 0 ==> t[i - 1].start + t[i - 1].length - 1 < t[i].start)
  }

  ghost predicate Configured(t: Table) {
    forall i :: 0 <= i < |t| ==> OkAt(t, i)
  }

  /** A configured table whose `end` fields are filled in. */
  ghost predicate ValidTable(t: Table) {
    && (forall i :: 0 <= i < |t| ==> t[i].length >= 1 && t[i].end == t[i].start + t[i].length - 1)
    && (forall i :: 0 < i < |t| ==> t[i - 1].end < t[i].start)
  }

  // ---------------------------------------------------------------- the check, by addresses

  /** Address `a` is one of the `length` addresses from `start` on. */
  predicate Reserves(iv: Interval, a: int) {
    iv.start <= a < iv.start + iv.length
  }

  ghost predicate HasAddress(iv: Interval) {
    exists a :: Reserves(iv, a)
  }

  /** Every interval has an address, all addresses are 16-bit, and those of an earlier interval lie below those of a
      later one. */
  ghost predicate AddressesAscend(t: Table) {
    && (forall i :: 0 <= i < |t| ==> HasAddress(t[i]))
    && (forall i, a :: 0 <= i < |t| && Reserves(t[i], a) ==> a < 0x1_0000)
    && forall i, j, a, b :: 0 <= i < j < |t| && Reserves(t[i], a) && Reserves(t[j], b) ==> a < b
  }

  lemma {:induction false} ConfiguredAscends(t: Table, i: nat, j: nat)
    requires Configured(t) && i < j < |t|
    ensures t[i].start + t[i].length <= t[j].start
  {
    assert OkAt(t, j);
    if i < j - 1 {
      assert OkAt(t, j - 1);
      ConfiguredAscends(t, i, j - 1);
    }
  }

  /** The check passes exactly the tables whose addresses ascend. Intervals may touch. */
  lemma ConfiguredIff(t: Table)
    ensures Configured(t) <==> AddressesAscend(t)
  {
    hide *;
    if Configured(t) {
      ConfiguredAddressesAscend(t);
    } else if AddressesAscend(t) {
      AscendingIsConfigured(t);
    }
  }

  lemma ConfiguredAddressesAscend(t: Table)
    requires Configured(t)
    ensures AddressesAscend(t)
  {
    forall i | 0 <= i < |t| ensures HasAddress(t[i]) {
      assert OkAt(t, i);
      assert Reserves(t[i], t[i].start);
    }
    forall i, a | 0 <= i < |t| && Reserves(t[i], a) ensures a < 0x1_0000 {
      assert OkAt(t, i);
    }
    forall i, j, a, b | 0 <= i < j < |t| && Reserves(t[i], a) && Reserves(t[j], b) ensures a < b {
      ConfiguredAscends(t, i, j);
    }
  }

  lemma AscendingIsConfigured(t: Table)
    requires AddressesAscend(t)
    ensures Configured(t)
  {
    hide AddressesAscend, OkAt;
    forall i | 0 <= i < |t| ensures OkAt(t, i) {
      AscendingIsOk(t, i);
    }
  }

  lemma AscendingIsOk(t: Table, i: nat)
    requires AddressesAscend(t) && i < |t|
    ensures OkAt(t, i)
  {
    assert HasAddress(t[i]);
    var a :| Reserves(t[i], a);
    assert Reserves(t[i], t[i].start) && Reserves(t[i], t[i].start + t[i].length - 1);
    if i > 0 {
      assert HasAddress(t[i - 1]);
      var b :| Reserves(t[i - 1], b);
      assert Reserves(t[i - 1], t[i - 1].start + t[i - 1].length - 1);
    }
  }

  /** Two intervals that touch pass the check. */
  lemma TouchingPass(start: U16, m: U16, n: U16)
    requires m >= 1 && n >= 1 && start + m + n <= 0x1_0000
    ensures Configured([Interval(start, m, 0), Interval(start + m, n, 0)])
  {
    var t := [Interval(start, m, 0), Interval(start + m, n, 0)];
    assert OkAt(t, 0) && OkAt(t, 1);
  }

  /** A valid table passes the check, whatever its ends were when it was configured. */
  lemma ValidWasConfigured(before: Table, after: Table)
    requires ValidTable(after) && |before| == |after|
    requires forall i :: 0 <= i < |before| ==> before[i].start == after[i].start && before[i].length == after[i].length
    ensures Configured(before)
  {
    forall i | 0 <= i < |before| ensures OkAt(before, i) {
      assert after[i].end == after[i].start + after[i].length - 1;
      if i > 0 {
        assert after[i - 1].end < after[i].start;
      }
    }
  }

  predicate Contains(iv: Interval, a: int) {
    iv.start <= a <= iv.end
  }

  ghost predicate Covered(t: Table, a: int) {
    exists i :: 0 <= i < |t| && Contains(t[i], a)
  }

  /** The linear scan: the first interval from `i` on that contains `a`, or -1. */
  function ScanFrom(t: Table, a: int, i: nat): (r: int)
    requires i <= |t|
    ensures r == -1 || (i <= r < |t| && Contains(t[r], a))
    ensures r == -1 ==> forall k :: i <= k < |t| ==> !Contains(t[k], a)
    decreases |t| - i
  {
    if i == |t| then -1 else if Contains(t[i], a) then i else ScanFrom(t, a, i + 1)
  }

  function Scan(t: Table, a: int): (r: int)
    ensures r == -1 || (0 <= r < |t| && Contains(t[r], a))
    ensures r == -1 <==> !Covered(t, a)
  {
    ScanFrom(t, a, 0)
  }

  lemma {:induction false} Sorted(t: Table, i: nat, j: nat)
    requires ValidTable(t) && i < j < |t|
    ensures t[i].end < t[j].start
  {
    if i < j - 1 {
      Sorted(t, i, j - 1);
    }
  }

  /** At most one interval of a valid table contains an address. */
  lemma UniqueInterval(t: Table, a: int, i: nat)
    requires ValidTable(t) && i < |t| && Contains(t[i], a)
    ensures Scan(t, a) == i
  {
    var k := Scan(t, a);
    if k < i {
      Sorted(t, k, i);
    } else if i < k {
      Sorted(t, i, k);
    }
  }

  // ---------------------------------------------------------------- the binary search

  /** Where the binary search between `low` and `high` stops. */
  function SearchFrom(t: Table, a: int, low: nat, high: nat): (r: nat)
    requires low <= high <= |t|
    ensures low <= r <= high
    ensures low < r ==> t[r - 1].start <= a
    ensures r < high ==> t[r].start > a
    decreases high - low
  {
    if low == high then low
    else
      var mid := (low + high) / 2;
      if t[mid].start > a then SearchFrom(t, a, low, mid) else SearchFrom(t, a, mid + 1, high)
  }

  /** The interval the binary search returns, in any table. */
  function Search(t: Table, a: int): (r: int)
    ensures r == -1 || (0 <= r < |t| && Contains(t[r], a))
  {
    var idx := SearchFrom(t, a, 0, |t|) - 1;
    if idx >= 0 && t[idx].end >= a then idx else -1
  }

  /** In a valid table the binary search is the linear scan. */
  lemma SearchIsScan(t: Table, a: int)
    requires ValidTable(t)
    ensures Search(t, a) == Scan(t, a)
  {
    var low := SearchFrom(t, a, 0, |t|);
    var r := Scan(t, a);
    if low > 0 && t[low - 1].end >= a {
      UniqueInterval(t, a, low - 1);
    } else if r >= 0 {
      if low < r {
        Sorted(t, low, r);
      } else if 0 < low && r < low - 1 {
        Sorted(t, r, low - 1);
      }
    }
  }

  lemma SearchStep(t: Table, a: int, low: nat, high: nat)
    requires low < high <= |t|
    ensures var mid := (low + high) / 2;
            SearchFrom(t, a, low, high)
            == if t[mid].start > a then SearchFrom(t, a, low, mid) else SearchFrom(t, a, mid + 1, high)
  {
  }

  /** Even in a table that is not sorted the search goes no further left for a greater address. */
  lemma {:induction false} SearchMonotone(t: Table, a: int, b: int, low: nat, high: nat)
    requires low <= high <= |t| && a <= b
    ensures SearchFrom(t, a, low, high) <= SearchFrom(t, b, low, high)
    decreases high - low
  {
    hide SearchFrom;
    if low < high {
      var mid := (low + high) / 2;
      SearchStep(t, a, low, high);
      SearchStep(t, b, low, high);
      if t[mid].start > b {
        SearchMonotone(t, a, b, low, mid);
      } else if t[mid].start <= a {
        SearchMonotone(t, a, b, mid + 1, high);
      }
    }
  }

  // ---------------------------------------------------------------- the coverage test

  /** The intervals from `s` to `e` follow one another without a gap; nothing is asked when e <= s. */
  ghost predicate Contiguous(t: Table, s: int, e: int) {
    && 0 <= s < |t| && 0 <= e < |t|
    && forall i :: s <= i < e ==> t[i].end + 1 == t[i + 1].start
  }

  /** The last address of a window, truncated to 16 bits as the lookup truncates it. */
  function LastAddress(a: U16, length: U16): (e: U16)
    requires length >= 1
  {
    (a + length - 1) % 0x1_0000
  }

  /** The test a read makes: look up both ends, then check that there is no gap in between. */
  ghost predicate Accepts(t: Table, a: U16, length: U16)
    requires length >= 1
  {
    Contiguous(t, Search(t, a), Search(t, LastAddress(a, length)))
  }

  /** The ends of the intervals s..e are filled in. */
  ghost predicate FilledIn(t: Table, s: nat, e: nat) {
    s <= e < |t| && forall i :: s <= i <= e ==> t[i].length >= 1 && t[i].end == t[i].start + t[i].length - 1
  }

  lemma {:induction false} NoGap(t: Table, s: nat, e: nat, x: int)
    requires ValidTable(t) && Contiguous(t, s, e) && s <= e && t[s].start <= x <= t[e].end
    ensures Covered(t, x)
    decreases e
  {
    if x >= t[e].start {
      assert Contains(t[e], x);
    } else {
      assert t[e - 1].end + 1 == t[e].start;
      NoGap(t, s, e - 1, x);
    }
  }

  lemma NextCoveredIsAdjacent(t: Table, i: nat)
    requires ValidTable(t) && i + 1 < |t| && Covered(t, t[i].end + 1)
    ensures t[i].end + 1 == t[i + 1].start
  {
    var j :| 0 <= j < |t| && Contains(t[j], t[i].end + 1);
    if j < i {
      Sorted(t, j, i);
    } else if j > i + 1 {
      Sorted(t, i + 1, j);
    }
  }

  ghost predicate AllCovered(t: Table, a: int, last: int) {
    forall x :: a <= x <= last ==> Covered(t, x)
  }

  lemma ScanOrder(t: Table, a: int, b: int)
    requires ValidTable(t) && a <= b && Scan(t, a) >= 0 && Scan(t, b) >= 0
    ensures Scan(t, a) <= Scan(t, b)
  {
    if Scan(t, b) < Scan(t, a) {
      Sorted(t, Scan(t, b), Scan(t, a));
    }
  }

  lemma AcceptedIsCovered(t: Table, a: int, last: int)
    requires ValidTable(t) && a <= last && Contiguous(t, Scan(t, a), Scan(t, last))
    ensures AllCovered(t, a, last)
  {
    ScanOrder(t, a, last);
    forall x | a <= x <= last ensures Covered(t, x) {
      NoGap(t, Scan(t, a), Scan(t, last), x);
    }
  }

  lemma CoveredIsAccepted(t: Table, a: int, last: int)
    requires ValidTable(t) && a <= last && AllCovered(t, a, last)
    ensures Contiguous(t, Scan(t, a), Scan(t, last))
  {
    assert Covered(t, a) && Covered(t, last);
    var s, e := Scan(t, a), Scan(t, last);
    forall i | s <= i < e ensures t[i].end + 1 == t[i + 1].start {
      if s < i {
        Sorted(t, s, i);
      }
      Sorted(t, i, e);
      assert a <= t[i].end + 1 <= last;
      NextCoveredIsAdjacent(t, i);
    }
  }

  /** The exact outcome of the test for every window. One that ends inside the address space is accepted if and
      only if all its addresses are covered. One that runs past 0xFFFF is accepted if and only if its first
      address and its truncated last address are covered. */
  lemma AcceptsIff(t: Table, a: U16, length: U16)
    requires ValidTable(t) && length >= 1
    ensures a + length <= 0x1_0000 ==> (Accepts(t, a, length) <==> AllCovered(t, a, a + length - 1))
    ensures a + length > 0x1_0000 ==>
              (Accepts(t, a, length) <==> Covered(t, a) && Covered(t, a + length - 1 - 0x1_0000))
  {
    hide Accepts, Scan, AllCovered, Contiguous, Covered;
    AcceptsScanned(t, a, length);
    LastAddressIs(a, length);
    if a + length <= 0x1_0000 {
      InsideIff(t, a, a + length - 1);
    } else {
      WrappedIff(t, a, LastAddress(a, length));
    }
  }

  lemma LastAddressIs(a: U16, length: U16)
    requires length >= 1
    ensures LastAddress(a, length) == if a + length <= 0x1_0000 then a + length - 1 else a + length - 1 - 0x1_0000
  {
  }

  lemma AcceptsScanned(t: Table, a: U16, length: U16)
    requires ValidTable(t) && length >= 1
    ensures Accepts(t, a, length) <==> Contiguous(t, Scan(t, a), Scan(t, LastAddress(a, length)))
  {
    SearchIsScan(t, a);
    SearchIsScan(t, LastAddress(a, length));
  }

  lemma InsideIff(t: Table, a: int, last: int)
    requires ValidTable(t) && a <= last
    ensures Contiguous(t, Scan(t, a), Scan(t, last)) <==> AllCovered(t, a, last)
  {
    if Contiguous(t, Scan(t, a), Scan(t, last)) {
      AcceptedIsCovered(t, a, last);
    } else if AllCovered(t, a, last) {
      CoveredIsAccepted(t, a, last);
    }
  }

  lemma WrappedIff(t: Table, a: int, last: int)
    requires ValidTable(t) && last < a
    ensures Contiguous(t, Scan(t, a), Scan(t, last)) <==> Covered(t, a) && Covered(t, last)
  {
    if Covered(t, a) && Covered(t, last) {
      ScanOrder(t, last, a);
    }
  }

  // ---------------------------------------------------------------- the segments of a read

  /** A part of a read: `size` cells from cell `offset` of interval `idx`. */
  datatype Segment = Segment(idx: nat, offset: nat, size: nat)

  /** The segment computed for interval `idx` of a read spanning the intervals s..e, with `left` cells to go;
      the subtractions are the 32-bit and 16-bit unsigned ones. */
  function SegmentAt(t: Table, a: U16, left: U16, idx: nat, s: nat, e: nat): Segment
    requires idx < |t| && s < |t|
  {
    if idx == s then
      var offset := (a - t[s].start) % 0x1_0000_0000;
      Segment(idx, offset, (t[s].length - offset) % 0x1_0000_0000)
    else if idx == e then Segment(idx, 0, left)
    else Segment(idx, 0, t[idx].length)
  }

  function Left(left: U16, size: nat): U16 {
    (left - size) % 0x1_0000
  }

  /** The segments from interval `idx` to interval `e`. */
  function PlanFrom(t: Table, a: U16, left: U16, idx: nat, s: nat, e: nat): seq<Segment>
    requires idx <= e + 1 && e < |t| && s < |t|
    decreases e + 1 - idx
  {
    if idx > e then []
    else
      var sg := SegmentAt(t, a, left, idx, s, e);
      [sg] + PlanFrom(t, a, Left(left, sg.size), idx + 1, s, e)
  }

  /** The segments of a read of `length` cells whose ends lie in the intervals `s` and `e`. */
  function Plan(t: Table, a: U16, length: U16, s: nat, e: nat): seq<Segment>
    requires s < |t| && e < |t| && Contains(t[s], a)
  {
    if s == e then [Segment(s, a - t[s].start, length)]
    else if s < e then PlanFrom(t, a, length, s, s, e)
    else []
  }

  /** The segments lie inside their intervals and cover the addresses a .. a + length - 1 in order. */
  ghost predicate Tiles(t: Table, segs: seq<Segment>, a: int, length: int)
    decreases |segs|
  {
    if segs == [] then length == 0
    else
      var sg := segs[0];
      && sg.idx < |t| && 1 <= sg.size <= length
      && t[sg.idx].start + sg.offset == a && sg.offset + sg.size <= t[sg.idx].length
      && Tiles(t, segs[1..], a + sg.size, length - sg.size)
  }

  lemma TilesCons(t: Table, sg: Segment, rest: seq<Segment>, a: int, length: int)
    requires sg.idx < |t| && 1 <= sg.size <= length
    requires t[sg.idx].start + sg.offset == a && sg.offset + sg.size <= t[sg.idx].length
    requires Tiles(t, rest, a + sg.size, length - sg.size)
    ensures Tiles(t, [sg] + rest, a, length)
  {
    assert ([sg] + rest)[1..] == rest;
  }

  /** Intervals that follow one another without a gap are in ascending order. */
  lemma {:induction false} RunSorted(t: Table, s: nat, e: nat, i: nat)
    requires FilledIn(t, s, e) && Contiguous(t, s, e) && s <= i < e
    ensures t[i].end + 1 == t[i + 1].start && t[i].end < t[e].start
    decreases e - i
  {
    if i + 1 < e {
      RunSorted(t, s, e, i + 1);
    }
  }

  lemma PlanFromHead(t: Table, a: U16, left: U16, idx: nat, s: nat, e: nat)
    requires s < |t| && idx <= e < |t|
    ensures var sg := SegmentAt(t, a, left, idx, s, e);
            && PlanFrom(t, a, left, idx, s, e) == [sg] + PlanFrom(t, a, Left(left, sg.size), idx + 1, s, e)
            && (idx == e ==> PlanFrom(t, a, left, idx, s, e) == [sg])
  {
  }

  lemma {:induction false} PlanFromTiles(t: Table, a: U16, left: U16, idx: nat, s: nat, e: nat)
    requires FilledIn(t, s, e) && Contiguous(t, s, e) && s < idx <= e
    requires t[e].start <= t[idx].start + left - 1 <= t[e].end
    ensures Tiles(t, PlanFrom(t, a, left, idx, s, e), t[idx].start, left)
    decreases e - idx
  {
    hide Tiles, Contiguous, PlanFrom;
    var sg := SegmentAt(t, a, left, idx, s, e);
    PlanFromHead(t, a, left, idx, s, e);
    if idx < e {
      RunSorted(t, s, e, idx);
      PlanFromTiles(t, a, left - sg.size, idx + 1, s, e);
      TilesCons(t, sg, PlanFrom(t, a, left - sg.size, idx + 1, s, e), t[idx].start, left);
    } else {
      NothingTiles(t, t[idx].start + left);
      TilesCons(t, sg, [], t[idx].start, left);
    }
  }

  lemma NothingTiles(t: Table, a: int)
    ensures Tiles(t, [], a, 0)
  {
  }

  /** The ends of an accepted window inside the address space are found in ascending order, in any table. */
  lemma EndsAscend(t: Table, a: U16, length: U16)
    requires length >= 1 && a + length <= 0x1_0000 && Accepts(t, a, length)
    ensures Search(t, a) <= Search(t, LastAddress(a, length))
  {
    hide SearchFrom;
    SearchMonotone(t, a, a + length - 1, 0, |t|);
  }

  /** What a window needs of a table: the intervals between its ends have their ends filled in. A valid table
      gives it to every window. */
  ghost predicate Usable(t: Table, a: U16, length: U16)
    requires length >= 1
  {
    var s, e := Search(t, a), Search(t, LastAddress(a, length));
    Accepts(t, a, length) && s <= e ==> FilledIn(t, s, e)
  }

  lemma ValidIsUsable(t: Table, a: U16, length: U16)
    requires ValidTable(t) && length >= 1
    ensures Usable(t, a, length)
  {
  }

  /** The segments of an accepted window inside the address space tile it: no segment leaves its interval, no
      subtraction from the remaining length goes below zero, and the sizes add up to the length. */
  lemma PlanTiles(t: Table, a: U16, length: U16)
    requires length >= 1 && a + length <= 0x1_0000 && Accepts(t, a, length) && Usable(t, a, length)
    ensures Search(t, a) <= Search(t, LastAddress(a, length))
    ensures Tiles(t, Plan(t, a, length, Search(t, a), Search(t, LastAddress(a, length))), a, length)
  {
    var s, e := Search(t, a), Search(t, LastAddress(a, length));
    EndsAscend(t, a, length);
    if s == e {
      TilesCons(t, Segment(s, a - t[s].start, length), [], a, length);
    } else {
      SpanTiles(t, a, length, s, e);
    }
  }

  lemma SpanTiles(t: Table, a: U16, length: U16, s: nat, e: nat)
    requires length >= 1 && s < e && FilledIn(t, s, e) && Contiguous(t, s, e)
    requires Contains(t[s], a) && Contains(t[e], a + length - 1)
    ensures Tiles(t, Plan(t, a, length, s, e), a, length)
  {
    hide Tiles, FilledIn, PlanFrom;
    var sg := SegmentAt(t, a, length, s, s, e);
    var rest := PlanFrom(t, a, Left(length, sg.size), s + 1, s, e);
    SpanHead(t, a, length, s, e);
    PlanFromTiles(t, a, length - sg.size, s + 1, s, e);
    TilesCons(t, sg, rest, a, length);
    PlanHead(t, a, length, s, e);
  }

  lemma PlanHead(t: Table, a: U16, length: U16, s: nat, e: nat)
    requires s < e < |t| && Contains(t[s], a)
    ensures var sg := SegmentAt(t, a, length, s, s, e);
            Plan(t, a, length, s, e) == [sg] + PlanFrom(t, a, Left(length, sg.size), s + 1, s, e)
  {
  }

  lemma SpanHead(t: Table, a: U16, length: U16, s: nat, e: nat)
    requires length >= 1 && s < e && FilledIn(t, s, e) && Contiguous(t, s, e)
    requires Contains(t[s], a) && Contains(t[e], a + length - 1)
    ensures var sg := SegmentAt(t, a, length, s, s, e);
            && sg == Segment(s, a - t[s].start, t[s].end + 1 - a) && 1 <= sg.size <= length
            && Left(length, sg.size) == length - sg.size
            && sg.offset + sg.size == t[s].length && t[s + 1].start == a + sg.size
            && t[e].start <= t[s + 1].start + (length - sg.size) - 1 <= t[e].end
  {
    RunSorted(t, s, e, s);
  }

  /** All segments but the first start at the beginning of their interval. */
  lemma {:induction false} LaterSegments(t: Table, a: U16, left: U16, idx: nat, s: nat, e: nat, k: nat)
    requires s < idx <= e + 1 && e < |t| && k < |PlanFrom(t, a, left, idx, s, e)|
    ensures PlanFrom(t, a, left, idx, s, e)[k].offset == 0
    decreases k
  {
    if k > 0 {
      LaterSegments(t, a, Left(left, SegmentAt(t, a, left, idx, s, e).size), idx + 1, s, e, k - 1);
    }
  }
}
