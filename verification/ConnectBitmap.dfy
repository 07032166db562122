/** The 32-bit word that mirrors the connection state of the devices. */
module ConnectBitmap {

  const DEVICES: nat := 32

  /** 1 << i, shifted one position at a time. */
  function Mask(i: nat): bv32
    requires i < DEVICES
  {
    if i == 0 then 1 else Mask(i - 1) << 1
  }

  /** The word has a bit of the mask. */
  predicate Has(w: bv32, m: bv32) {
    w & m != 0
  }

  function Or(w: bv32, m: bv32): bv32 {
    w | m
  }

  function AndNot(w: bv32, m: bv32): bv32 {
    w & !m
  }

  // ---------------------------------------------------------------- the masks are disjoint

  predicate PowerOfTwo(m: bv32) {
    m != 0 && m & (m - 1) == 0
  }

  lemma DoublePower(m: bv32)
    requires PowerOfTwo(m) && m << 1 != 0
    ensures PowerOfTwo(m << 1) && m < m << 1
  {
  }

  predicate Disjoint(m: bv32, k: bv32) {
    m & k == 0
  }

  lemma DistinctPowersAreDisjoint(m: bv32, k: bv32)
    requires PowerOfTwo(m) && PowerOfTwo(k) && m != k
    ensures Disjoint(m, k)
  {
  }

  lemma TopMask()
    ensures Mask(31) == 0x8000_0000
  {
    assert Mask(2) == 0x4;
    assert Mask(4) == 0x10;
    assert Mask(6) == 0x40;
    assert Mask(8) == 0x100;
    assert Mask(10) == 0x400;
    assert Mask(12) == 0x1000;
    assert Mask(14) == 0x4000;
    assert Mask(16) == 0x1_0000;
    assert Mask(18) == 0x4_0000;
    assert Mask(20) == 0x10_0000;
    assert Mask(22) == 0x40_0000;
    assert Mask(24) == 0x100_0000;
    assert Mask(26) == 0x400_0000;
    assert Mask(28) == 0x1000_0000;
    assert Mask(30) == 0x4000_0000;
  }

  lemma {:induction false} ZeroStaysZero(i: nat, j: nat)
    requires i <= j < DEVICES && Mask(i) == 0
    ensures Mask(j) == 0
  {
    if i < j {
      ZeroStaysZero(i, j - 1);
    }
  }

  lemma {:induction false} MaskIsPower(i: nat)
    requires i < DEVICES
    ensures PowerOfTwo(Mask(i))
  {
    if i > 0 {
      MaskIsPower(i - 1);
      if Mask(i) == 0 {
        ZeroStaysZero(i, 31);
        TopMask();
      }
      DoublePower(Mask(i - 1));
    }
  }

  lemma {:induction false} MasksIncrease(i: nat, j: nat)
    requires i < j < DEVICES
    ensures Mask(i) < Mask(j)
  {
    MaskIsPower(j - 1);
    MaskIsPower(j);
    DoublePower(Mask(j - 1));
    if i < j - 1 {
      MasksIncrease(i, j - 1);
    }
  }

  lemma MasksDisjoint(i: nat, j: nat)
    requires i < DEVICES && j < DEVICES
    ensures i != j ==> Disjoint(Mask(i), Mask(j))
  {
    hide Mask, Disjoint, PowerOfTwo;
    MaskIsPower(i);
    MaskIsPower(j);
    if i < j {
      MasksIncrease(i, j);
    } else if j < i {
      MasksIncrease(j, i);
    }
    if i != j {
      DistinctPowersAreDisjoint(Mask(i), Mask(j));
    }
  }

  lemma OrOther(w: bv32, m: bv32, k: bv32)
    requires Disjoint(m, k)
    ensures Has(Or(w, m), k) == Has(w, k)
  {
  }

  lemma OrSame(w: bv32, m: bv32)
    requires PowerOfTwo(m)
    ensures Has(Or(w, m), m)
  {
  }

  lemma AndNotOther(w: bv32, m: bv32, k: bv32)
    requires Disjoint(m, k)
    ensures Has(AndNot(w, m), k) == Has(w, k)
  {
  }

  lemma AndNotSame(w: bv32, m: bv32)
    ensures !Has(AndNot(w, m), m)
  {
  }

  /** Setting bit i sets bit i and leaves the others alone. */
  lemma SetBitSets(w: bv32, i: nat, j: nat)
    requires i < DEVICES && j < DEVICES
    ensures Has(Or(w, Mask(i)), Mask(j)) <==> i == j || Has(w, Mask(j))
  {
    hide *;
    if i == j {
      MaskIsPower(i);
      OrSame(w, Mask(i));
    } else {
      MasksDisjoint(i, j);
      OrOther(w, Mask(i), Mask(j));
    }
  }

  /** Clearing bit i clears bit i and leaves the others alone. */
  lemma ClearBitClears(w: bv32, i: nat, j: nat)
    requires i < DEVICES && j < DEVICES
    ensures Has(AndNot(w, Mask(i)), Mask(j)) <==> i != j && Has(w, Mask(j))
  {
    hide *;
    if i == j {
      AndNotSame(w, Mask(i));
    } else {
      MasksDisjoint(i, j);
      AndNotOther(w, Mask(i), Mask(j));
    }
  }

  // ---------------------------------------------------------------- a zero word has no bit set

  function AllMasks(n: nat): bv32
    requires n <= DEVICES
  {
    if n == 0 then 0 else AllMasks(n - 1) | Mask(n - 1)
  }

  lemma AllBits()
    ensures AllMasks(32) == 0xFFFF_FFFF
  {
    assert AllMasks(2) == 0x3;
    assert AllMasks(4) == 0xf;
    assert AllMasks(6) == 0x3f;
    assert AllMasks(8) == 0xff;
    assert AllMasks(10) == 0x3ff;
    assert AllMasks(12) == 0xfff;
    assert AllMasks(14) == 0x3fff;
    assert AllMasks(16) == 0xffff;
    assert AllMasks(18) == 0x3ffff;
    assert AllMasks(20) == 0xfffff;
    assert AllMasks(22) == 0x3fffff;
    assert AllMasks(24) == 0xffffff;
    assert AllMasks(26) == 0x3ffffff;
    assert AllMasks(28) == 0xfffffff;
    assert AllMasks(30) == 0x3fffffff;
  }

  lemma NoBitInEither(w: bv32, a: bv32, b: bv32)
    requires !Has(w, a) && !Has(w, b)
    ensures !Has(w, a | b)
  {
  }

  lemma FullMask(w: bv32)
    ensures !Has(w, 0xFFFF_FFFF) ==> w == 0
    ensures !Has(w, 0)
  {
  }

  lemma ZeroHasNone(w: bv32, m: bv32)
    ensures w == 0 ==> !Has(w, m)
  {
  }

  lemma {:induction false} NoBitBelow(w: bv32, n: nat)
    requires n <= DEVICES && forall i :: 0 <= i < n ==> !Has(w, Mask(i))
    ensures !Has(w, AllMasks(n))
  {
    hide Mask, Has;
    if n > 0 {
      NoBitBelow(w, n - 1);
      NoBitInEither(w, AllMasks(n - 1), Mask(n - 1));
    } else {
      FullMask(w);
    }
  }

  lemma SomeBit(w: bv32)
    requires w != 0
    ensures exists i :: 0 <= i < DEVICES && Has(w, Mask(i))
  {
    hide Mask, AllMasks, Has;
    if forall i :: 0 <= i < DEVICES ==> !Has(w, Mask(i)) {
      NoBitBelow(w, DEVICES);
      AllBits();
      FullMask(w);
      assert false;
    }
  }

  /** The word is zero exactly when none of its bits is set. */
  lemma ZeroIffNoBit(w: bv32)
    ensures w == 0 <==> forall i :: 0 <= i < DEVICES ==> !Has(w, Mask(i))
  {
    hide Mask, AllMasks, Has;
    if w == 0 {
      forall i | 0 <= i < DEVICES ensures !Has(w, Mask(i)) {
        ZeroHasNone(w, Mask(i));
      }
    } else {
      SomeBit(w);
    }
  }

  // ---------------------------------------------------------------- the mirror

  /** Bit i of the word says whether device i is connected, for every device. */
  ghost predicate Mirrors(w: bv32, connected: seq<bool>)
    requires |connected| == DEVICES
  {
    forall i :: 0 <= i < DEVICES ==> (Has(w, Mask(i)) <==> connected[i])
  }

  lemma ConnectMirrors(w: bv32, connected: seq<bool>, d: nat)
    requires |connected| == DEVICES && Mirrors(w, connected) && d < DEVICES
    ensures Mirrors(Or(w, Mask(d)), connected[d := true])
  {
    hide Mask, Has, Or;
    forall i | 0 <= i < DEVICES ensures Has(Or(w, Mask(d)), Mask(i)) <==> connected[d := true][i] {
      SetBitSets(w, d, i);
    }
  }

  lemma LoseMirrors(w: bv32, connected: seq<bool>, d: nat)
    requires |connected| == DEVICES && Mirrors(w, connected) && d < DEVICES
    ensures Mirrors(AndNot(w, Mask(d)), connected[d := false])
  {
    hide Mask, Has, AndNot;
    forall i | 0 <= i < DEVICES ensures Has(AndNot(w, Mask(d)), Mask(i)) <==> connected[d := false][i] {
      ClearBitClears(w, d, i);
    }
  }

  /** A word that mirrors the connections is zero exactly when no device is connected: the condition on which
      the channel is reconnected. */
  lemma ZeroIffAllLost(w: bv32, connected: seq<bool>)
    requires |connected| == DEVICES && Mirrors(w, connected)
    ensures w == 0 <==> forall i :: 0 <= i < DEVICES ==> !connected[i]
  {
    hide Mask, Has;
    ZeroIffNoBit(w);
    if w != 0 {
      var i :| 0 <= i < DEVICES && Has(w, Mask(i));
      assert connected[i];
    } else {
      forall i | 0 <= i < DEVICES ensures !connected[i] {
        ZeroHasNone(w, Mask(i));
      }
    }
  }

  /** A call of a driver's connect or lose callback. */
  datatype Call = Connect(d: nat) | Lose(d: nat)

  datatype Links = Links(status: bv32, connected: seq<bool>)

  function Apply(l: Links, c: Call): (l': Links)
    requires c.d < DEVICES && |l.connected| == DEVICES
    ensures |l'.connected| == DEVICES
  {
    match c
    case Connect(d) => Links(Or(l.status, Mask(d)), l.connected[d := true])
    case Lose(d) => Links(AndNot(l.status, Mask(d)), l.connected[d := false])
  }

  function Run(l: Links, calls: seq<Call>): (l': Links)
    requires |l.connected| == DEVICES && forall k :: 0 <= k < |calls| ==> calls[k].d < DEVICES
    ensures |l'.connected| == DEVICES
  {
    if calls == [] then l else Apply(Run(l, calls[..|calls| - 1]), calls[|calls| - 1])
  }

  /** The zero state: no device is connected. */
  function NoLinks(): (l: Links)
    ensures l.status == 0 && |l.connected| == DEVICES && forall i :: 0 <= i < DEVICES ==> !l.connected[i]
  {
    Links(0, seq(DEVICES, _ => false))
  }

  /** After any run of callbacks from the zero state the word mirrors the connections. */
  lemma {:induction false} RunMirrors(calls: seq<Call>)
    requires forall k :: 0 <= k < |calls| ==> calls[k].d < DEVICES
    ensures var l := Run(NoLinks(), calls);
            && Mirrors(l.status, l.connected)
            && (l.status == 0 <==> forall i :: 0 <= i < DEVICES ==> !l.connected[i])
  {
    hide Mask, Has, Or, AndNot;
    if calls == [] {
      forall i | 0 <= i < DEVICES ensures !Has(NoLinks().status, Mask(i)) {
        ZeroHasNone(NoLinks().status, Mask(i));
      }
    } else {
      RunMirrors(calls[..|calls| - 1]);
      var l := Run(NoLinks(), calls[..|calls| - 1]);
      match calls[|calls| - 1]
      case Connect(d) => ConnectMirrors(l.status, l.connected, d);
      case Lose(d) => LoseMirrors(l.status, l.connected, d);
    }
    var l := Run(NoLinks(), calls);
    ZeroIffAllLost(l.status, l.connected);
  }
}
