/** The abstract meaning of a ring of buffers that is written by puts: what each unit holds, and what a
    reader should get, as a function of the puts made so far. */
module RingSpec {
  import Modular

  newtype Byte = b: int | 0 <= b < 0x100

  /** One call that copies `src` to byte position `offset` of a unit. */
  datatype Put = Put(offset: nat, src: seq<Byte>) {
    predicate Fits(unitSize: nat) {
      offset + |src| <= unitSize
    }

    predicate Covers(b: nat) {
      offset <= b < offset + |src|
    }
  }

  ghost predicate AllFit(h: seq<Put>, unitSize: nat) {
    forall j :: 0 <= j < |h| ==> h[j].Fits(unitSize)
  }

  function Overlay(buf: seq<Byte>, p: Put): (r: seq<Byte>)
    requires p.Fits(|buf|)
    ensures |r| == |buf|
    ensures forall b :: 0 <= b < |buf| ==> r[b] == if p.Covers(b) then p.src[b - p.offset] else buf[b]
  {
    buf[..p.offset] + p.src + buf[p.offset + |p.src|..]
  }

  /** The unit that put number `m` goes to, counting from 1. */
  function Slot(m: nat, n: nat): (u: nat)
    requires n > 0
    ensures u < n
  {
    m % n
  }

  /** The published unit after the puts `h`. */
  function Latest(h: seq<Put>, n: nat): (u: nat)
    requires n > 0
    ensures u < n
  {
    Slot(|h|, n)
  }

  /** The bytes of unit `u`, whose memory held `init` before the first put. */
  ghost function UnitAfter(init: seq<Byte>, h: seq<Put>, n: nat, u: nat): (r: seq<Byte>)
    requires n > 0 && AllFit(h, |init|)
    ensures |r| == |init|
  {
    if h == [] then init
    else
      var before := UnitAfter(init, h[..|h| - 1], n, u);
      if Latest(h, n) == u then Overlay(before, h[|h| - 1]) else before
  }

  /** Memory for a ring of |init| units of `unitSize` bytes. */
  ghost predicate RingMemory(init: seq<seq<Byte>>, unitSize: nat) {
    |init| > 0 && forall u :: 0 <= u < |init| ==> |init[u]| == unitSize
  }

  /** What is published after the puts `h`. */
  ghost function Current(init: seq<seq<Byte>>, h: seq<Put>, unitSize: nat): (r: seq<Byte>)
    requires RingMemory(init, unitSize) && AllFit(h, unitSize)
    ensures |r| == unitSize
  {
    var u := Latest(h, |init|);
    UnitAfter(init[u], h, |init|, u)
  }

  /** Put number j + 1 stores byte `b` of unit `u`. */
  ghost predicate Stores(h: seq<Put>, n: nat, u: nat, b: nat, j: nat)
    requires n > 0
  {
    j < |h| && Slot(j + 1, n) == u && h[j].Covers(b)
  }

  lemma LastPutByte(init: seq<Byte>, h: seq<Put>, n: nat, u: nat, b: nat)
    requires n > 0 && AllFit(h, |init|) && b < |init| && h != []
    ensures var last := h[|h| - 1];
            UnitAfter(init, h, n, u)[b]
            == if Stores(h, n, u, b, |h| - 1) then last.src[b - last.offset]
               else UnitAfter(init, h[..|h| - 1], n, u)[b]
  {
  }

  lemma StoresPrefix(h: seq<Put>, n: nat, u: nat, b: nat, j: nat)
    requires n > 0 && h != []
    ensures Stores(h[..|h| - 1], n, u, b, j) <==> j < |h| - 1 && Stores(h, n, u, b, j)
  {
  }

  /** Each byte of a unit comes from the last put of that unit whose range covers it, and is untouched
      memory when there is none. */
  lemma {:induction false} LastCoveringPut(init: seq<Byte>, h: seq<Put>, n: nat, u: nat, b: nat)
    requires n > 0 && AllFit(h, |init|) && b < |init|
    ensures (forall j: nat :: !Stores(h, n, u, b, j)) ==> UnitAfter(init, h, n, u)[b] == init[b]
    ensures forall j: nat ::
              Stores(h, n, u, b, j) && (forall k: nat :: j < k ==> !Stores(h, n, u, b, k))
              ==> UnitAfter(init, h, n, u)[b] == h[j].src[b - h[j].offset]
  {
    if h != [] {
      var h' := h[..|h| - 1];
      LastCoveringPut(init, h', n, u, b);
      LastPutByte(init, h, n, u, b);
      forall j: nat ensures Stores(h', n, u, b, j) <==> j < |h| - 1 && Stores(h, n, u, b, j) {
        StoresPrefix(h, n, u, b, j);
      }
      hide UnitAfter, Slot;
      if !Stores(h, n, u, b, |h| - 1) {
        forall j: nat | Stores(h, n, u, b, j) && (forall k: nat :: j < k ==> !Stores(h, n, u, b, k))
          ensures UnitAfter(init, h, n, u)[b] == h[j].src[b - h[j].offset]
        {
          assert Stores(h', n, u, b, j);
          assert forall k: nat :: j < k ==> !Stores(h', n, u, b, k);
        }
      }
    }
  }

  /** A window inside the range of the last put reads back that put's bytes. */
  lemma LastPutIsVisible(init: seq<seq<Byte>>, h: seq<Put>, unitSize: nat, offset: nat, size: nat)
    requires RingMemory(init, unitSize) && AllFit(h, unitSize) && h != []
    requires h[|h| - 1].offset <= offset && offset + size <= h[|h| - 1].offset + |h[|h| - 1].src|
    ensures var last := h[|h| - 1];
            Current(init, h, unitSize)[offset..offset + size]
            == last.src[offset - last.offset..offset - last.offset + size]
  {
  }

  /** Puts to the other units leave a unit alone: after fewer than n puts since `h`, none of them
      wrapping round to unit `u`, it still holds what it held. */
  lemma {:induction false} OtherUnitsUntouched(init: seq<Byte>, h: seq<Put>, more: seq<Put>, n: nat, u: nat)
    requires n > 0 && AllFit(h + more, |init|) && AllFit(h, |init|)
    requires forall m: nat :: |h| < m <= |h| + |more| ==> m % n != u
    ensures UnitAfter(init, h + more, n, u) == UnitAfter(init, h, n, u)
  {
    if more == [] {
      assert h + more == h;
    } else {
      var fewer := more[..|more| - 1];
      assert (h + more)[..|h + more| - 1] == h + fewer;
      OtherUnitsUntouched(init, h, fewer, n, u);
    }
  }

  /** A put is laid over what was published n puts earlier, not over the put before it. */
  lemma PublishesOverOldUnit(init: seq<seq<Byte>>, h: seq<Put>, unitSize: nat)
    requires RingMemory(init, unitSize) && AllFit(h, unitSize) && |h| >= |init|
    ensures AllFit(h[..|h| - |init|], unitSize)
    ensures Current(init, h, unitSize)
         == Overlay(Current(init, h[..|h| - |init|], unitSize), h[|h| - 1])
  {
    var n := |init|;
    var u := Latest(h, n);
    var earlier := h[..|h| - n];
    var between := h[|h| - n..|h| - 1];
    assert h[..|h| - 1] == earlier + between;
    Modular.ModShift(|earlier|, n);
    forall m: nat | |earlier| < m <= |earlier| + |between|
      ensures m % n != u
    {
      if m % n == u {
        Modular.SameResidue(m, |h|, n);
      }
    }
    OtherUnitsUntouched(init[u], earlier, between, n, u);
  }

  ghost predicate Merged(init: seq<seq<Byte>>, h: seq<Put>, unitSize: nat, p: Put) {
    RingMemory(init, unitSize) && AllFit(h, unitSize) && p.Fits(unitSize) && AllFit(h + [p], unitSize)
    && Current(init, h + [p], unitSize) == Overlay(Current(init, h, unitSize), p)
  }

  /** A put `p` is merged with the value published before it, whatever the memory and the history were. */
  ghost predicate AlwaysMerged(n: nat, unitSize: nat, p: Put) {
    forall init: seq<seq<Byte>>, h: seq<Put> {:trigger Merged(init, h, unitSize, p)} ::
      |init| == n && RingMemory(init, unitSize) && AllFit(h, unitSize) ==> Merged(init, h, unitSize, p)
  }

  /** Partial puts are not merged forward: exactly the puts of a whole unit, and rings of one unit, are. */
  lemma MergedForwardIff(n: nat, unitSize: nat, p: Put)
    requires n > 0 && p.Fits(unitSize)
    ensures AlwaysMerged(n, unitSize, p) <==> n == 1 || |p.src| == unitSize
  {
    if n == 1 || |p.src| == unitSize {
      forall init: seq<seq<Byte>>, h: seq<Put>
        {:trigger Merged(init, h, unitSize, p)} | |init| == n && RingMemory(init, unitSize) && AllFit(h, unitSize)
        ensures Merged(init, h, unitSize, p)
      {
        assert (h + [p])[..|h|] == h;
        assert (h + [p])[|h|] == p;
      }
    } else {
      PartialPutCounterexample(n, unitSize, p);
    }
  }

  /** The published unit 0 holds zeros and unit 1 holds ones: a first, partial put of unit 1 leaves a
      byte at one where the merged value would have a zero. */
  lemma PartialPutCounterexample(n: nat, unitSize: nat, p: Put)
    requires n > 1 && p.Fits(unitSize) && |p.src| < unitSize
    ensures exists init: seq<seq<Byte>> ::
              |init| == n && RingMemory(init, unitSize) && AllFit([], unitSize) && !Merged(init, [], unitSize, p)
  {
    var b := if p.offset > 0 then 0 else |p.src|;
    var zeros: seq<Byte> := seq(unitSize, _ => 0);
    var ones: seq<Byte> := seq(unitSize, _ => 1);
    var init := seq(n, u => if u == 0 then zeros else ones);
    assert [] + [p] == [p] && [p][..0] == [];
    assert Slot(1, n) == 1 && Slot(0, n) == 0 by {
      Modular.DivModUnique(1, 0, 1, n);
      Modular.DivModUnique(0, 0, 0, n);
    }
    hide Slot;
    assert UnitAfter(init[1], [p], n, 1) == Overlay(ones, p);
    assert Current(init, [p], unitSize)[b] == 1;
    assert Current(init, [], unitSize)[b] == 0;
    assert !Merged(init, [], unitSize, p);
  }
}
