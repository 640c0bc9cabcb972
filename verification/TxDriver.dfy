/** The transmit routines on the ring's arrays, each proved to be the step of the same name. */
module TxDriver {
  import opened Bytes
  import opened TxRing

  /** Pushing around the ring commutes with a write to a slot it does not reach. */
  lemma {:induction false} PushAllElsewhere(s: State, ds: seq<Desc>, e: nat, d: Desc)
    requires Shaped(s) && e < N && |ds| <= Distance(s.cur, e)
    ensures PushAll(s.(desc := s.desc[e := d]), ds) ==
            PushAll(s, ds).(desc := PushAll(s, ds).desc[e := d])
    decreases |ds|
  {
    if ds != [] {
      var t := s.(desc := s.desc[e := d]);
      var u := Push(s, ds[0], None);
      assert Push(t, ds[0], None) == u.(desc := u.desc[e := d]);
      PushAllElsewhere(u, ds[1..], e, d);
    }
  }

  class Adapter {
    const desc: array<Desc>
    const mapping: array<nat>
    var cur: nat
    var dirty: nat
    ghost var accepted: seq<nat>
    ghost var returned: seq<nat>

    ghost predicate Valid()
      reads this
    {
      desc.Length == N && mapping.Length == N && cur < N && dirty < N && desc as object != mapping
    }

    ghost function Value(): (s: State)
      reads this, desc, mapping
      requires Valid()
      ensures Shaped(s)
    {
      State(desc[..], mapping[..], cur, dirty, accepted, returned)
    }

    constructor ()
      ensures Valid() && Value() == Start() && fresh(desc) && fresh(mapping)
    {
      desc := new Desc[N](_ => CLEAR);
      mapping := new nat[N](_ => 0);
      cur, dirty := 0, 0;
      accepted, returned := [], [];
      new;
      assert desc[..] == seq(N, _ => CLEAR);
      assert mapping[..] == seq(N, _ => 0);
    }

    method Advance()
      requires Valid()
      modifies this`cur
      ensures Valid() && cur == Succ(old(cur))
    {
      cur := cur + 1;
      if cur >= N {
        cur := 0;
      }
    }

    /** IntelgbeTransmit without the fragmented flag. */
    method TransmitLinear(frameAddr: nat, physical: bv32, size: bv32) returns (success: bool)
      requires Valid()
      modifies this, desc, mapping
      ensures Valid() && (Value(), success) == SendLinear(old(Value()), frameAddr, physical, size)
    {
      hide CountField;
      var avail;
      if dirty > cur {
        avail := dirty - cur - 1;
      } else {
        avail := N - cur + dirty - 1;
      }
      var count := CountField(frameAddr);
      var needed := if count == 0 then 1 else count;
      if avail < needed {
        return false;
      }
      var entry := cur;
      Advance();
      mapping[entry] := frameAddr;
      desc[entry] := LinearDesc(physical, size);
      accepted := accepted + [frameAddr];
      success := true;
    }

    /** One fragment after the first. */
    method PushFragment(d: Desc)
      requires Valid()
      modifies this`cur, this`accepted, desc
      ensures Valid() && Value() == Push(old(Value()), d, None)
    {
      var entry := cur;
      Advance();
      desc[entry] := d;
      accepted := accepted + [0];
    }

    /** The fragment loop: everything after the first fragment, whose slot stays as it is. */
    method PushRest(rest: seq<Frag>, frameLen: bv32)
      requires Valid()
      modifies this`cur, this`accepted, desc
      ensures Valid() && Value() == PushAll(old(Value()), RestDescs(rest, frameLen))
    {
      hide Push, FragDesc;
      ghost var ds := RestDescs(rest, frameLen);
      ghost var goal := PushAll(Value(), ds);
      assert ds[0..] == ds;
      for i := 0 to |rest|
        invariant Valid() && PushAll(Value(), ds[i..]) == goal
        invariant Value().dirty == old(dirty) && Value().mapping == old(mapping[..]) && returned == old(returned)
      {
        assert ds[i..][0] == ds[i] && ds[i..][1..] == ds[i + 1..];
        PushFragment(FragDesc(rest[i], frameLen, i + 1 == |rest|));
      }
      assert ds[|rest|..] == [];
    }

    /** IntelgbeTransmit with the fragmented flag: the first slot is filled last. */
    method TransmitFragments(first: Frag, rest: seq<Frag>, frameLen: bv32) returns (success: bool)
      requires Valid()
      modifies this, desc, mapping
      ensures Valid() && (Value(), success) == SendFrags(old(Value()), first, rest, frameLen)
    {
      hide FragDesc, PushAll;
      var avail;
      if dirty > cur {
        avail := dirty - cur - 1;
      } else {
        avail := N - cur + dirty - 1;
      }
      if avail < 1 + |rest| {
        return false;
      }
      ghost var before := Value();
      var entry := cur;
      Advance();
      accepted := accepted + [0];
      ghost var reserved := Value();
      PushRest(rest, frameLen);
      ghost var filled := Value();
      desc[entry] := FragDesc(first, frameLen, false);
      ghost var ds := RestDescs(rest, frameLen);
      PushAllElsewhere(reserved, ds, entry, FragDesc(first, frameLen, false));
      assert Value() == filled.(desc := filled.desc[entry := FragDesc(first, frameLen, false)]);
      assert Push(before, FragDesc(first, frameLen, false), None) ==
             reserved.(desc := reserved.desc[entry := FragDesc(first, frameLen, false)]);
      FirstOfAll(before, FragDesc(first, frameLen, false), ds);
      success := true;
    }

    /** The ring as seen by a reclaim that has got to `entry`. */
    ghost function Upto(entry: nat): (s: State)
      reads this, desc, mapping
      requires Valid() && entry < N
      ensures Shaped(s)
    {
      Value().(dirty := entry)
    }

    /** Takes the address out of a finished slot and clears it. */
    method ReleaseSlot(entry: nat) returns (addr: nat, next: nat)
      requires Valid() && entry < N
      modifies this`returned, desc, mapping
      ensures Valid() && next < N && Upto(next) == Pop(old(Upto(entry)))
      ensures addr == old(mapping[entry]) && returned == old(returned) + [addr]
    {
      addr := mapping[entry];
      returned := returned + [addr];
      mapping[entry] := 0;
      desc[entry] := CLEAR;
      next := (entry + 1) % N;
    }

    /** IntelgbeFreeTxBuffers. */
    method FreeTxBuffers(numEntries: nat, txBuffer: array<nat>) returns (count: nat)
      requires Valid() && numEntries <= txBuffer.Length && txBuffer != mapping && txBuffer as object != desc
      modifies this, desc, mapping, txBuffer
      ensures Valid() && Value() == Reclaim(old(Value()), numEntries)
      ensures count <= numEntries && returned == old(returned) + txBuffer[..count]
    {
      hide Own, Pop, Reclaim;
      var entry: nat := dirty;
      count := 0;
      ghost var goal := Reclaim(Value(), numEntries);
      while entry != cur && count < numEntries
        invariant Valid() && entry < N && count <= numEntries
        invariant Reclaim(Upto(entry), numEntries - count) == goal
        invariant returned == old(returned) + txBuffer[..count]
        decreases numEntries - count
      {
        ReclaimStep(Upto(entry), numEntries - count);
        if Own(desc[entry]) {
          break;
        }
        if mapping[entry] == 0 {
          break;
        }
        var addr;
        addr, entry := ReleaseSlot(entry);
        txBuffer[count] := addr;
        assert txBuffer[..count + 1] == txBuffer[..count] + [addr];
        count := count + 1;
      }
      ReclaimStep(Upto(entry), numEntries - count);
      dirty := entry;
    }
  }

  lemma {:induction false} ReclaimStep(s: State, n: nat)
    requires Shaped(s)
    ensures Reclaim(s, n) == if n == 0 || !Reclaimable(s) then s else Reclaim(Pop(s), n - 1)
  {
  }

  lemma {:induction false} FirstOfAll(s: State, d: Desc, ds: seq<Desc>)
    requires Shaped(s)
    ensures PushAll(s, [d] + ds) == PushAll(Push(s, d, None), ds)
  {
    assert ([d] + ds)[1..] == ds;
  }
}
