/** What a send hands to the hardware, and that nothing comes back before the hardware is done with it. */
module TxOwnership {
  import opened Bytes
  import opened TxRing

  // ---------- The descriptors of a send ----------

  /** OWN. */
  predicate Handed(d: Desc) {
    d.des3 & 0x8000_0000 == 0x8000_0000
  }

  lemma {:induction false} HandedIsOwn(d: Desc)
    ensures Handed(d) <==> Own(d)
  {
  }

  lemma {:induction false} TopBitSet(x: bv32)
    ensures (x | 0x8000_0000) & 0x8000_0000 == 0x8000_0000
  {
  }

  lemma {:induction false} OwnerBit(d: Desc, x: bv32)
    requires d.des3 == x | 0x8000_0000
    ensures Handed(d)
  {
    TopBitSet(x);
  }

  /** The words of a linear frame. */
  ghost predicate LinearFilled(d: Desc, physical: bv32, size: bv32) {
    && d.des0 == physical && d.des1 == 0 && d.des2 == size | 0x8000_0000
    && d.des3 == size | 0x2000_0000 | 0x1000_0000 | 0x8000_0000
    && Handed(d)
  }

  lemma {:induction false} LinearAddress(physical: bv32, size: bv32)
    ensures LinearDesc(physical, size).des0 == physical && LinearDesc(physical, size).des1 == 0
    ensures LinearDesc(physical, size).des2 == size | 0x8000_0000
  {
  }

  lemma {:induction false} LinearBits(physical: bv32, size: bv32)
    ensures LinearDesc(physical, size).des3 == size | 0x2000_0000 | 0x1000_0000 | 0x8000_0000
  {
  }

  lemma {:induction false} LinearWords(physical: bv32, size: bv32)
    ensures LinearFilled(LinearDesc(physical, size), physical, size)
  {
    hide LinearDesc, Handed;
    LinearAddress(physical, size);
    LinearBits(physical, size);
    OwnerBit(LinearDesc(physical, size), size | 0x2000_0000 | 0x1000_0000);
  }

  /**
   A linear send succeeds exactly if there are free slots for the count it reads,
   which is the upper 16 bits of the frame address.
   It then hands the slot at cur_tx to the hardware with the mapped address, the
   length, the interrupt bit and the first, last and owner bits, remembers the
   caller's address there, and changes no other slot.
   */
  lemma {:induction false} LinearSent(s: State, frameAddr: nat, physical: bv32, size: bv32)
    requires Shaped(s)
    ensures var (t, sent) := SendLinear(s, frameAddr, physical, size);
            var count := frameAddr / 0x1_0000_0000_0000 % 0x1_0000;
            && (sent <==> 511 - |Window(s)| >= if count == 0 then 1 else count)
            && (!sent ==> t == s)
            && (sent ==>
                  && LinearFilled(t.desc[s.cur], physical, size) && t.desc == s.desc[s.cur := t.desc[s.cur]]
                  && t.mapping == s.mapping[s.cur := frameAddr]
                  && t.accepted == s.accepted + [frameAddr] && t.returned == s.returned && t.dirty == s.dirty)
  {
    hide Window, Own, LinearDesc, LinearFilled;
    LinearWords(physical, size);
    AvailPlusInFlight(s);
  }

  /** The slot `m` places after `i`. */
  function After(i: nat, m: nat): nat {
    if i + m >= 512 then i + m - 512 else i + m
  }

  lemma {:induction false} PushAllKeeps(s: State, ds: seq<Desc>, i: nat)
    requires Shaped(s) && i < N && |ds| <= Distance(s.cur, i)
    ensures PushAll(s, ds).desc[i] == s.desc[i]
    decreases |ds|
  {
    if ds != [] {
      PushAllKeeps(Push(s, ds[0], None), ds[1..], i);
    }
  }

  lemma {:induction false} PushAllAt(s: State, ds: seq<Desc>, m: nat)
    requires Shaped(s) && m < |ds| < N
    ensures PushAll(s, ds).desc[After(s.cur, m)] == ds[m]
    decreases |ds|
  {
    var t := Push(s, ds[0], None);
    if m == 0 {
      PushAllKeeps(t, ds[1..], s.cur);
    } else {
      PushAllAt(t, ds[1..], m - 1);
    }
  }

  lemma {:induction false} PushAllCounts(s: State, ds: seq<Desc>)
    requires Shaped(s)
    ensures PushAll(s, ds).mapping == s.mapping && PushAll(s, ds).dirty == s.dirty
    ensures PushAll(s, ds).returned == s.returned && |PushAll(s, ds).accepted| == |s.accepted| + |ds|
    ensures PushAll(s, ds).accepted[..|s.accepted|] == s.accepted
    decreases |ds|
  {
    if ds != [] {
      var t := Push(s, ds[0], None);
      PushAllCounts(t, ds[1..]);
      assert t.accepted[..|s.accepted|] == s.accepted;
    }
  }

  /** The words of one fragment: the interrupt bit is set for the last one, if it is not also the first. */
  ghost predicate FragmentWords(d: Desc, f: Frag, frameLen: bv32, last: bool) {
    && d.des0 == f.mapped && d.des1 == 0
    && d.des2 == (if last then f.len | 0x8000_0000 else f.len)
    && d.des3 == frameLen | 0x8000_0000
    && Handed(d)
  }

  lemma {:induction false} FragDescWords(f: Frag, frameLen: bv32, last: bool)
    ensures FragmentWords(FragDesc(f, frameLen, last), f, frameLen, last)
  {
    TopBitSet(frameLen);
  }

  /**
   A fragmented send succeeds exactly if there are free slots for all fragments.
   It then hands one slot per fragment to the hardware, in order from cur_tx on,
   each with its fragment's mapped address and length, and records no mapping.
   */
  lemma {:induction false} FragmentsSent(s: State, first: Frag, rest: seq<Frag>, frameLen: bv32, m: nat)
    requires Shaped(s) && m <= |rest|
    ensures var (t, sent) := SendFrags(s, first, rest, frameLen);
            && (sent <==> 511 - |Window(s)| >= 1 + |rest|)
            && (!sent ==> t == s)
            && (sent ==>
                  && FragmentWords(t.desc[After(s.cur, m)], ([first] + rest)[m], frameLen, m > 0 && m == |rest|)
                  && t.mapping == s.mapping && t.returned == s.returned && t.dirty == s.dirty
                  && |t.accepted| == |s.accepted| + 1 + |rest|)
  {
    hide Window, FragDesc, FragmentWords;
    AvailPlusInFlight(s);
    var ds := [FragDesc(first, frameLen, false)] + RestDescs(rest, frameLen);
    if SendFrags(s, first, rest, frameLen).1 {
      PushAllAt(s, ds, m);
      PushAllCounts(s, ds);
      FragDescWords(([first] + rest)[m], frameLen, m > 0 && m == |rest|);
    }
  }

  // ---------- Every slot by its turn ----------

  /** The slot of the k-th descriptor ever handed over. */
  function SlotOf(k: nat): (i: nat)
    ensures i < 512
  {
    k % 512
  }

  lemma {:induction false} SlotStep(k: nat)
    ensures SlotOf(k + 1) == Succ(SlotOf(k))
  {
  }

  lemma {:induction false} SlotAfter(k: nat, m: nat)
    requires m < 512
    ensures SlotOf(k + m) == After(SlotOf(k), m)
  {
  }

  /** The ring's indices count what was accepted and what was returned. */
  ghost predicate InTurn(s: State) {
    s.cur == SlotOf(|s.accepted|) && s.dirty == SlotOf(|s.returned|)
  }

  lemma {:induction false} PushAllInTurn(s: State, ds: seq<Desc>)
    requires Shaped(s) && InTurn(s)
    ensures InTurn(PushAll(s, ds))
    decreases |ds|
  {
    if ds != [] {
      hide SlotOf;
      SlotStep(|s.accepted|);
      PushAllInTurn(Push(s, ds[0], None), ds[1..]);
    }
  }

  lemma {:induction false} ReclaimInTurn(s: State, n: nat)
    requires Shaped(s) && InTurn(s)
    ensures InTurn(Reclaim(s, n))
    decreases n
  {
    if n > 0 && Reclaimable(s) {
      hide SlotOf;
      SlotStep(|s.returned|);
      ReclaimInTurn(Pop(s), n - 1);
    }
  }

  lemma {:induction false} NextInTurn(s: State, step: Step)
    requires Shaped(s) && InTurn(s)
    ensures InTurn(Next(s, step))
  {
    hide SlotOf, Avail, CountField, FragDesc, LinearDesc, PushAll, Reclaim, Own;
    match step
    case Linear(frameAddr, physical, size) => SlotStep(|s.accepted|);
    case Fragmented(first, rest, frameLen) =>
      PushAllInTurn(s, [FragDesc(first, frameLen, false)] + RestDescs(rest, frameLen));
    case Completion(i, back) =>
    case Free(n) => ReclaimInTurn(s, n);
  }

  lemma {:induction false} RunInTurn(steps: seq<Step>)
    ensures InTurn(Run(Start(), steps))
  {
    if steps != [] {
      hide InTurn, Next, Start;
      RunInTurn(steps[..|steps| - 1]);
      NextInTurn(Run(Start(), steps[..|steps| - 1]), steps[|steps| - 1]);
    }
  }

  // ---------- Nothing comes back before its completion ----------

  /** A reclaim does not get past a slot that the hardware owns. */
  lemma {:induction false} ReclaimStops(s: State, n: nat, k: nat)
    requires Shaped(s) && InTurn(s) && |s.returned| <= k && Own(s.desc[SlotOf(k)])
    ensures |Reclaim(s, n).returned| <= k
    decreases n
  {
    if n > 0 && Reclaimable(s) {
      hide SlotOf, Own;
      SlotStep(|s.returned|);
      assert s.dirty != SlotOf(k);
      ReclaimStops(Pop(s), n - 1, k);
    }
  }

  /** While the k-th descriptor was in flight, step `b` completed its slot. */
  ghost predicate CompletedAt(steps: seq<Step>, k: nat, b: int) {
    && 0 <= b < |steps|
    && steps[b].Completion? && steps[b].i == SlotOf(k)
    && var s := Run(Start(), steps[..b]);
       |s.returned| <= k < |s.accepted|
  }

  /** The k-th descriptor is still with the hardware. */
  ghost predicate Held(s: State, k: nat)
    requires Shaped(s)
  {
    |s.returned| <= k < |s.accepted| && Own(s.desc[SlotOf(k)])
  }

  lemma {:induction false} CompletedEarlier(steps: seq<Step>, k: nat, b: int)
    requires steps != [] && CompletedAt(steps[..|steps| - 1], k, b)
    ensures CompletedAt(steps, k, b)
  {
    hide Run, Start, SlotOf;
    assert steps[..|steps| - 1][..b] == steps[..b];
  }

  /** A driver step leaves what the hardware holds with it. */
  lemma {:induction false} DriverKeepsHeld(before: seq<Step>, step: Step, k: nat)
    requires !step.Completion? && Held(Run(Start(), before), k)
    ensures Held(Next(Run(Start(), before), step), k)
  {
    var s := Run(Start(), before);
    OwnedUntouched(before, step, SlotOf(k));
    RunInTurn(before);
    hide Run, Start, SlotOf, Own, Avail, CountField, FragDesc, LinearDesc, PushAll, InTurn, Reclaim;
    match step
    case Linear(frameAddr, physical, size) =>
    case Fragmented(first, rest, frameLen) =>
      PushAllCounts(s, [FragDesc(first, frameLen, false)] + RestDescs(rest, frameLen));
    case Free(n) =>
      ReclaimStops(s, n, k);
      ReclaimKeepsAccepted(s, n);
  }

  /** What a send has just accepted is with the hardware. */
  lemma {:induction false} SendHolds(s: State, step: Step, k: nat)
    requires Inv(s) && InTurn(s) && |s.accepted| <= k < |Next(s, step).accepted|
    ensures Held(Next(s, step), k)
  {
    hide Window, CountField, FragDesc, LinearDesc, PushAll, Reclaim, IdleClear, SlotOf, FragmentWords;
    match step
    case Linear(frameAddr, physical, size) =>
      LinearSent(s, frameAddr, physical, size);
      HandedIsOwn(Next(s, step).desc[s.cur]);
    case Fragmented(first, rest, frameLen) =>
      var m := k - |s.accepted|;
      if SendFrags(s, first, rest, frameLen).1 {
        FragmentsSent(s, first, rest, frameLen, 0);
        FragmentsSent(s, first, rest, frameLen, m);
        SlotAfter(|s.accepted|, m);
        FragmentHanded(Next(s, step).desc[After(s.cur, m)], ([first] + rest)[m], frameLen, m > 0 && m == |rest|);
      }
    case Completion(i, back) =>
    case Free(n) => ReclaimKeepsAccepted(s, n);
  }

  lemma {:induction false} FragmentHanded(d: Desc, f: Frag, frameLen: bv32, last: bool)
    requires FragmentWords(d, f, frameLen, last)
    ensures Own(d)
  {
    HandedIsOwn(d);
  }

  /** A completion of another slot changes nothing for this one. */
  lemma {:induction false} OtherCompletion(s: State, i: nat, back: Desc, k: nat)
    requires Shaped(s) && Held(s, k) && i != SlotOf(k)
    ensures Held(Complete(s, i, back), k)
  {
    hide SlotOf, Own;
  }

  /** Every descriptor ever accepted is still with the hardware, or was completed in its turn. */
  lemma {:induction false} HeldOrCompleted(steps: seq<Step>, k: nat)
    requires k < |Run(Start(), steps).accepted|
    ensures Held(Run(Start(), steps), k) || exists b :: CompletedAt(steps, k, b)
  {
    if steps != [] {
      var before, last := steps[..|steps| - 1], steps[|steps| - 1];
      var s := Run(Start(), before);
      FifoConservation(before);
      RunInTurn(before);
      hide Start, Next, Inv, InTurn, Held, CompletedAt;
      if k >= |s.accepted| {
        SendHolds(s, last, k);
      } else {
        HeldOrCompleted(before, k);
        if b :| CompletedAt(before, k, b) {
          CompletedEarlier(steps, k, b);
        } else if !last.Completion? {
          DriverKeepsHeld(before, last, k);
        } else {
          CompletionSettles(steps, k);
        }
      }
    }
  }

  lemma {:induction false} CompletionSettles(steps: seq<Step>, k: nat)
    requires steps != [] && steps[|steps| - 1].Completion? && Held(Run(Start(), steps[..|steps| - 1]), k)
    ensures Held(Run(Start(), steps), k) || CompletedAt(steps, k, |steps| - 1)
  {
    var last := steps[|steps| - 1];
    hide Start, SlotOf, Complete, Own;
    if last.i != SlotOf(k) {
      OtherCompletion(Run(Start(), steps[..|steps| - 1]), last.i, last.back, k);
    }
  }

  /**
   Over every run, an address comes back only after the hardware completed its
   slot, at a step when the descriptor had been handed over and not yet returned.
   */
  lemma {:induction false} ReturnedAfterCompletion(steps: seq<Step>, k: nat) returns (b: nat)
    requires k < |Run(Start(), steps).returned|
    ensures b < |steps| && steps[b].Completion? && steps[b].i == k % 512
    ensures var s := Run(Start(), steps[..b]); |s.returned| <= k < |s.accepted|
  {
    FifoConservation(steps);
    hide Run, Start;
    HeldOrCompleted(steps, k);
    b :| CompletedAt(steps, k, b);
  }
}
