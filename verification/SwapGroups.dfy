/** The reversal of register groups that converts word order on the wire. */
module SwapGroups {
  import Modular

  type Word = w: nat | w < 0x1_0000

  /** Where element `i` goes: the groups start at the multiples of `step`, and the last one ends with `num`. */
  function Mirror(i: nat, step: nat, num: nat): (m: nat)
    requires step > 0 && i < num
    ensures m < num
  {
    var lo := i - i % step;
    var hi := if lo + step - 1 < num then lo + step - 1 else num - 1;
    Between(i, step);
    lo + hi - i
  }

  lemma Between(i: nat, step: nat)
    requires step > 0
    ensures i - i % step <= i < i - i % step + step
  {
  }

  /** The guard, with the remainder truncated to 8 bits. */
  predicate Swaps(step: nat, num: nat) {
    step != 0 && num % step % 0x100 == 0
  }

  function GroupsReversed(s: seq<Word>, step: nat, num: nat): (r: seq<Word>)
    requires num <= |s|
    ensures |r| == |s|
  {
    if !Swaps(step, num) then s
    else seq(|s|, i requires 0 <= i < |s| => if i < num then s[Mirror(i, step, num)] else s[i])
  }

  // ---------------------------------------------------------------- what the reversal is

  /** For a step that divides the number of words, element g*s+i becomes element g*s+s-1-i. */
  lemma GroupElement(s: seq<Word>, step: nat, num: nat, g: nat, i: nat)
    requires num <= |s| && step > 0 && num % step == 0 && i < step && g * step + i < num
    ensures g * step + step <= num
    ensures GroupsReversed(s, step, num)[g * step + i] == s[g * step + step - 1 - i]
  {
    Modular.DivModUnique(g * step + i, g, i, step);
    WholeGroup(num, step, g);
  }

  /** The remainder is tested in 8 bits, so a step over 256 can pass that does not divide the number; the words left
      over then form a shorter last group, which is reversed too. */
  lemma AnyGroupElement(s: seq<Word>, step: nat, num: nat, g: nat, i: nat)
    requires num <= |s| && step > 0 && num % step % 0x100 == 0 && i < step && g * step + i < num
    ensures var size := if g * step + step <= num then step else num - g * step;
            i < size && GroupsReversed(s, step, num)[g * step + i] == s[g * step + size - 1 - i]
  {
    Modular.DivModUnique(g * step + i, g, i, step);
  }

  lemma WholeGroup(num: nat, step: nat, g: nat)
    requires step > 0 && num % step == 0 && g * step < num
    ensures g * step + step <= num
  {
    assert num == num / step * step;
    if num / step <= g {
      Modular.MulMono(num / step, g, step);
    } else {
      Modular.MulMono(g + 1, num / step, step);
    }
  }

  /** Words past `num` stay, and nothing moves for step 0 or a step that does not divide `num`. */
  lemma OnlyTheGroupsMove(s: seq<Word>, step: nat, num: nat)
    requires num <= |s|
    ensures GroupsReversed(s, step, num)[num..] == s[num..]
    ensures step == 0 || num % step % 0x100 != 0 ==> GroupsReversed(s, step, num) == s
    ensures step <= 0x100 && step > 0 && num % step != 0 ==> GroupsReversed(s, step, num) == s
  {
  }

  lemma Parts(i: nat, step: nat)
    requires step > 0
    ensures i - i % step == i / step * step
  {
  }

  lemma MirrorStaysInGroup(i: nat, step: nat, num: nat)
    requires step > 0 && i < num
    ensures Mirror(i, step, num) - Mirror(i, step, num) % step == i - i % step
  {
    hide Mirror;
    var q, lo := i / step, i - i % step;
    Parts(i, step);
    MirrorBounds(i, step, num);
    var m := Mirror(i, step, num);
    Modular.DivModUnique(m, q, m - lo, step);
  }

  lemma MirrorBounds(i: nat, step: nat, num: nat)
    requires step > 0 && i < num
    ensures i - i % step <= Mirror(i, step, num) < i - i % step + step
  {
    Between(i, step);
  }

  lemma MirrorTwice(i: nat, step: nat, num: nat)
    requires step > 0 && i < num
    ensures Mirror(Mirror(i, step, num), step, num) == i
  {
    MirrorStaysInGroup(i, step, num);
  }

  /** Reversing twice restores the words: the flip of a write and the flip of the read back cancel. */
  lemma ReversedTwice(s: seq<Word>, step: nat, num: nat)
    requires num <= |s|
    ensures GroupsReversed(GroupsReversed(s, step, num), step, num) == s
  {
    hide Mirror;
    var r := GroupsReversed(s, step, num);
    if Swaps(step, num) {
      forall i | 0 <= i < |s| ensures GroupsReversed(r, step, num)[i] == s[i] {
        if i < num {
          MirrorTwice(i, step, num);
        }
      }
      assert GroupsReversed(r, step, num) == s;
    }
  }

  // ---------------------------------------------------------------- in place

  lemma SwapKeepsMultiset(s: seq<Word>, i: nat, j: nat)
    requires i < |s| && j < |s|
    ensures multiset(s[i := s[j]][j := s[i]]) == multiset(s)
  {
  }

  /** The words of the groups before `group` are mirrored, the others are as they were. */
  ghost predicate DoneTo(was: seq<Word>, now: seq<Word>, step: nat, num: nat, group: nat)
    requires step > 0 && num <= |was|
  {
    && |now| == |was|
    && forall i :: 0 <= i < |was| ==> now[i] == if i < group && i < num then was[Mirror(i, step, num)] else was[i]
  }

  method SwapTwo(a: array<Word>, i: nat, j: nat)
    requires i < a.Length && j < a.Length
    modifies a
    ensures forall k :: 0 <= k < a.Length ==>
              a[k] == if k == i then old(a[j]) else if k == j then old(a[i]) else old(a[k])
    ensures multiset(a[..]) == multiset(old(a[..]))
  {
    ghost var was := a[..];
    SwapKeepsMultiset(was, i, j);
    a[i], a[j] := a[j], a[i];
    assert a[..] == was[i := was[j]][j := was[i]];
  }

  /** Reverses one group with two cursors. */
  method ReverseGroup(a: array<Word>, lo: nat, hi: nat)
    requires lo <= hi < a.Length
    modifies a
    ensures forall i :: 0 <= i < a.Length ==> a[i] == if lo <= i <= hi then old(a[lo + hi - i]) else old(a[i])
    ensures multiset(a[..]) == multiset(old(a[..]))
  {
    var start, end := lo, hi;
    while start < end
      invariant lo <= start <= hi && start + end == lo + hi
      invariant forall i :: 0 <= i < a.Length ==>
                  a[i] == if lo <= i < start || end < i <= hi then old(a[lo + hi - i]) else old(a[i])
      invariant multiset(a[..]) == multiset(old(a[..]))
    {
      SwapTwo(a, start, end);
      start, end := start + 1, end - 1;
    }
  }

  /** The reversal in place. The bound on the last group keeps the 16-bit group counter from wrapping, where
      the shipped loop would not end; it holds whenever the step divides the number of words. */
  method SwapInPlace(a: array<Word>, step: nat, num: nat)
    requires num <= a.Length && step < 0x1_0000 && num < 0x1_0000
    requires Swaps(step, num) && num % step != 0 ==> num - num % step + step < 0x1_0000
    modifies a
    ensures a[..] == GroupsReversed(old(a[..]), step, num)
    ensures multiset(a[..]) == multiset(old(a[..]))
  {
    if step == 0 {
      return;
    }
    var remainder := num % step % 0x100;
    if remainder != 0 {
      return;
    }
    SwapLoop(a, step, num);
  }

  method SwapLoop(a: array<Word>, step: nat, num: nat)
    requires num <= a.Length && step < 0x1_0000 && num < 0x1_0000 && Swaps(step, num)
    requires num % step != 0 ==> num - num % step + step < 0x1_0000
    modifies a
    ensures a[..] == GroupsReversed(old(a[..]), step, num)
    ensures multiset(a[..]) == multiset(old(a[..]))
  {
    hide *;
    SwapsStep(step, num);
    ghost var was := a[..];
    DoneStart(was, step, num);
    var group: nat := 0;
    ghost var g: nat := 0;
    while group < num
      invariant group == g * step && step > 0
      invariant |was| == a.Length && DoneTo(was, a[..], step, num, group)
      invariant multiset(a[..]) == multiset(was)
      decreases num - group
    {
      NoWrap(step, num, g);
      GroupMirrors(step, num, g, group);
      group := ReverseNext(a, step, num, group, was);
      g := g + 1;
    }
    DoneEnd(was, a[..], step, num, group);
  }

  lemma SwapsStep(step: nat, num: nat)
    requires Swaps(step, num)
    ensures step > 0
  {
  }

  /** One turn of the loop over the groups. */
  method ReverseNext(a: array<Word>, step: nat, num: nat, group: nat, ghost was: seq<Word>) returns (next: nat)
    requires step > 0 && group < num <= a.Length && group + step < 0x1_0000 && |was| == a.Length
    requires forall i :: group <= i <= GroupEnd(group, step, num) ==>
               Mirror(i, step, num) == group + GroupEnd(group, step, num) - i
    requires DoneTo(was, a[..], step, num, group)
    modifies a
    ensures next == group + step && DoneTo(was, a[..], step, num, next)
    ensures multiset(a[..]) == multiset(old(a[..]))
  {
    hide Mirror, DoneTo;
    var end := if group + step - 1 < num then group + step - 1 else num - 1;
    ghost var before := a[..];
    ReverseGroup(a, group, end);
    assert DoneTo(was, a[..], step, num, group + step) by {
      OneGroupMore(was, before, a[..], step, num, group, end);
    }
    next := (group + step) % 0x1_0000;
  }

  lemma DoneStart(was: seq<Word>, step: nat, num: nat)
    requires step > 0 && num <= |was|
    ensures DoneTo(was, was, step, num, 0)
  {
  }

  lemma DoneEnd(was: seq<Word>, now: seq<Word>, step: nat, num: nat, group: nat)
    requires Swaps(step, num) && num <= |was| && num <= group && DoneTo(was, now, step, num, group)
    ensures now == GroupsReversed(was, step, num)
  {
    hide Mirror;
  }

  lemma NoWrap(step: nat, num: nat, g: nat)
    requires step > 0 && num < 0x1_0000 && g * step < num
    requires num % step != 0 ==> num - num % step + step < 0x1_0000
    ensures g * step + step == (g + 1) * step < 0x1_0000 && (g + 1) * step < num + step
  {
    if num % step == 0 {
      WholeGroup(num, step, g);
    } else {
      assert num == num / step * step + num % step;
      if num / step < g {
        Modular.MulMono(num / step + 1, g, step);
      } else {
        Modular.MulMono(g, num / step, step);
      }
    }
  }

  function GroupEnd(lo: nat, step: nat, num: nat): int {
    if lo + step - 1 < num then lo + step - 1 else num - 1
  }

  lemma GroupMirrors(step: nat, num: nat, g: nat, lo: nat)
    requires step > 0 && lo == g * step && lo < num
    ensures forall i :: lo <= i <= GroupEnd(lo, step, num) ==> Mirror(i, step, num) == lo + GroupEnd(lo, step, num) - i
  {
    forall i | lo <= i <= GroupEnd(lo, step, num)
      ensures Mirror(i, step, num) == lo + GroupEnd(lo, step, num) - i
    {
      Modular.DivModUnique(i, g, i - lo, step);
    }
  }

  lemma OneGroupMore(was: seq<Word>, before: seq<Word>, after: seq<Word>, step: nat, num: nat, lo: nat, hi: nat)
    requires step > 0 && num <= |was| && lo < num && |after| == |was| && hi == GroupEnd(lo, step, num)
    requires forall i :: lo <= i <= hi ==> Mirror(i, step, num) == lo + hi - i
    requires DoneTo(was, before, step, num, lo)
    requires forall i :: 0 <= i < |was| ==> after[i] == if lo <= i <= hi then before[lo + hi - i] else before[i]
    ensures DoneTo(was, after, step, num, lo + step)
  {
    forall i | 0 <= i < |was|
      ensures after[i] == if i < lo + step && i < num then was[Mirror(i, step, num)] else was[i]
    {
      assert after[i] == if lo <= i <= hi then before[lo + hi - i] else before[i];
      if lo <= i <= hi {
        var k := lo + hi - i;
        assert lo <= k < |was| && Mirror(i, step, num) == k;
        assert before[k] == was[k];
      }
    }
  }
}
