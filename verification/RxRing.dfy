/** The receive descriptor ring: the hardware fills slots in ring order, the driver takes them in ring order. */
module RxRing {
  import opened Bytes

  const N := 512              // DEFAULT_RX_DESCRIPTORS
  const BUFFER_SIZE := 2048   // sizeof (LOCAL_RX_BUFFER)

  /**
   A descriptor by the bits that the driver looks at: OWN (31), last descriptor
   (28), any of the error bits (23 and 24 of des3, 16 and 17 of des2), and the
   packet length (the low 15 bits of des3).
   */
  datatype Desc = Desc(own: bool, last: bool, failed: bool, len: nat)

  /** The words of a descriptor. */
  datatype Words = Words(des0: bv32, des1: bv32, des2: bv32, des3: bv32)

  function View(w: Words): Desc {
    Desc(w.des3 & 0x8000_0000 != 0, w.des3 & 0x1000_0000 != 0,
         w.des3 & 0x0180_0000 != 0 || w.des2 & 0x0003_0000 != 0, (w.des3 & 0x7FFF) as nat)
  }

  /** OWN, interrupt and buffer-valid bits, with the address of the slot's buffer. */
  function ArmedWords(address: bv32): Words {
    Words(address, 0, 0, 0xC100_0000)
  }

  lemma {:induction false} ArmedView(address: bv32)
    ensures View(ArmedWords(address)) == ARMED
  {
  }

  /** A descriptor handed to the hardware: OWN, interrupt and buffer-valid bits set; the last is one of the error bits. */
  const ARMED: Desc := Desc(true, false, true, 0)

  /** One write-back by the hardware: status, and what the slot's buffer then holds. */
  datatype Wrote = Wrote(last: bool, failed: bool, len: nat, octets: seq<byte>)

  /** What one consumed slot gave. Overrun: the copy leaves the slot's buffer. */
  datatype Outcome = Dropped | Delivered(octets: seq<byte>) | Overrun

  /** The ring, the log of write-backs, and for each consumed slot the caller's buffer length and the outcome. */
  datatype State = State(desc: seq<Desc>, slots: seq<seq<byte>>, cur: nat,
                         written: seq<Wrote>, asked: seq<nat>, taken: seq<Outcome>)

  function SlotOf(k: nat): (i: nat)
    ensures i < N
  {
    k % N
  }

  // ---------- Lengths ----------

  /** The cast to INT16. */
  function Int16(n: nat): int {
    if n % 0x1_0000 >= 0x8000 then n % 0x1_0000 - 0x1_0000 else n % 0x1_0000
  }

  /** The length that is copied for a packet of `len` octets and a caller's buffer of `bufferLen`. */
  function CopyLen(len: nat, bufferLen: nat): nat {
    if len > Int16(bufferLen) then bufferLen % 0x1_0000 else len
  }

  /** The casts keep the buffer length: its low 16 bits are not negative, and are all of it or do not cut the packet. */
  predicate LengthKept(len: nat, bufferLen: nat) {
    bufferLen % 0x1_0000 < 0x8000 && (bufferLen < 0x1_0000 || len <= bufferLen % 0x1_0000)
  }

  /**
   The copied length is the shorter of packet and buffer exactly when the low 16
   bits of the buffer length do not look negative, and either are the whole of
   it or do not cut the packet. Up to 32767 they always do. Otherwise it is the
   low 16 bits, whatever the packet.
   */
  lemma {:induction false} CopyLenExact(len: nat, bufferLen: nat)
    requires len < 0x8000
    ensures CopyLen(len, bufferLen) == Min(len, bufferLen) <==> LengthKept(len, bufferLen)
    ensures !LengthKept(len, bufferLen) ==> CopyLen(len, bufferLen) == bufferLen % 0x1_0000
    ensures bufferLen < 0x8000 ==> CopyLen(len, bufferLen) == Min(len, bufferLen)
  {
    var b := bufferLen % 0x1_0000;
    assert bufferLen < 0x1_0000 ==> b == bufferLen;
    assert bufferLen >= 0x1_0000 ==> bufferLen > len;
  }

  function OutcomeOf(w: Wrote, bufferLen: nat): Outcome {
    if !w.last || w.failed then Dropped
    else
      var n := CopyLen(w.len, bufferLen);
      if n <= |w.octets| then Delivered(w.octets[..n]) else Overrun
  }

  // ---------- Steps ----------

  ghost predicate Shaped(s: State) {
    && |s.desc| == |s.slots| == N && s.cur < N
    && forall i :: 0 <= i < N ==> |s.slots[i]| == BUFFER_SIZE
  }

  /** The hardware fills the next slot, if it owns it. */
  function Write(s: State, w: Wrote): (t: State)
    requires Shaped(s)
    ensures Shaped(t)
  {
    var h := SlotOf(|s.written|);
    if s.desc[h].own && |w.octets| == BUFFER_SIZE
    then s.(desc := s.desc[h := Desc(false, w.last, w.failed, w.len)], slots := s.slots[h := w.octets],
            written := s.written + [w])
    else s
  }

  /** What slot `i` holds, as a write-back. */
  function Held(s: State, i: nat): Wrote
    requires Shaped(s) && i < N
  {
    Wrote(s.desc[i].last, s.desc[i].failed, s.desc[i].len, s.slots[i])
  }

  /** IntelgbeReceive. */
  function Receive(s: State, bufferLen: nat): (r: (State, bool))
    requires Shaped(s)
    ensures Shaped(r.0)
  {
    if s.desc[s.cur].own then (s, false)
    else
      (s.(desc := s.desc[s.cur := ARMED], cur := if s.cur + 1 >= N then 0 else s.cur + 1,
          asked := s.asked + [bufferLen], taken := s.taken + [OutcomeOf(Held(s, s.cur), bufferLen)]), true)
  }

  datatype Step = Hardware(w: Wrote) | Driver(bufferLen: nat)

  function Next(s: State, step: Step): (t: State)
    requires Shaped(s)
    ensures Shaped(t)
  {
    match step
    case Hardware(w) => Write(s, w)
    case Driver(bufferLen) => Receive(s, bufferLen).0
  }

  /** After first-time initialisation: every slot belongs to the hardware. */
  function Start(): (s: State)
    ensures Shaped(s)
  {
    State(seq(N, _ => ARMED), seq(N, _ => Zeros(BUFFER_SIZE)), 0, [], [], [])
  }

  function Run(s: State, steps: seq<Step>): (t: State)
    requires Shaped(s)
    ensures Shaped(t)
  {
    if steps == [] then s else Next(Run(s, steps[..|steps| - 1]), steps[|steps| - 1])
  }

  // ---------- The invariant ----------

  /** Slots written and not yet taken hold their write-backs. */
  ghost predicate WaitingHeld(s: State)
    requires Shaped(s)
  {
    forall k :: |s.taken| <= k < |s.written| ==> !s.desc[SlotOf(k)].own && Held(s, SlotOf(k)) == s.written[k]
  }

  /** All other slots belong to the hardware. */
  ghost predicate OthersOwned(s: State)
    requires Shaped(s)
  {
    forall k :: |s.written| <= k < |s.taken| + N ==> s.desc[SlotOf(k)].own
  }

  /** Each slot taken so far gave what the hardware wrote at that turn. */
  ghost predicate InOrder(s: State) {
    && |s.taken| == |s.asked| <= |s.written|
    && (forall k :: 0 <= k < |s.taken| ==> s.taken[k] == OutcomeOf(s.written[k], s.asked[k]))
    && (forall k :: 0 <= k < |s.written| ==> |s.written[k].octets| == BUFFER_SIZE)
  }

  ghost predicate Inv(s: State) {
    && Shaped(s) && InOrder(s)
    && |s.written| <= |s.taken| + N
    && s.cur == SlotOf(|s.taken|)
    && WaitingHeld(s) && OthersOwned(s)
  }

  /** Within one turn of the ring, different positions are different slots. */
  lemma {:induction false} SlotsDiffer(j: nat, k: nat)
    requires j < k < j + N
    ensures SlotOf(j) != SlotOf(k)
  {
  }

  lemma {:induction false} SlotStep(k: nat)
    ensures SlotOf(k + 1) == if SlotOf(k) + 1 >= N then 0 else SlotOf(k) + 1
    ensures SlotOf(k + N) == SlotOf(k)
  {
  }

  /** When all slots wait for the driver, the next one to fill is not the hardware's. */
  lemma {:induction false} FullRingWaits(s: State)
    requires Inv(s)
    ensures |s.written| == |s.taken| + N ==> !s.desc[SlotOf(|s.written|)].own
  {
    hide SlotOf, OutcomeOf;
    SlotStep(|s.taken|);
  }

  lemma {:induction false} WriteInv(s: State, w: Wrote)
    requires Inv(s)
    ensures Inv(Write(s, w))
  {
    hide SlotOf, OutcomeOf;
    var t := Write(s, w);
    if t != s {
      var n := |s.written|;
      FullRingWaits(s);
      forall k | |t.taken| <= k < |t.written|
        ensures !t.desc[SlotOf(k)].own && Held(t, SlotOf(k)) == t.written[k]
      {
        if k < n {
          SlotsDiffer(k, n);
          assert Held(s, SlotOf(k)) == s.written[k];
        }
      }
      forall k | |t.written| <= k < |t.taken| + N ensures t.desc[SlotOf(k)].own {
        SlotsDiffer(n, k);
      }
    }
  }

  lemma {:induction false} ReceiveInv(s: State, bufferLen: nat)
    requires Inv(s)
    ensures Inv(Receive(s, bufferLen).0)
  {
    hide SlotOf, OutcomeOf;
    var t := Receive(s, bufferLen).0;
    if !s.desc[s.cur].own {
      var n := |s.taken|;
      SlotStep(n);
      assert n < |s.written|;
      assert Held(s, SlotOf(n)) == s.written[n];
      forall k | |t.taken| <= k < |t.written|
        ensures !t.desc[SlotOf(k)].own && Held(t, SlotOf(k)) == t.written[k]
      {
        SlotsDiffer(n, k);
        assert Held(s, SlotOf(k)) == s.written[k];
      }
      forall k | |t.written| <= k < |t.taken| + N ensures t.desc[SlotOf(k)].own {
        if k < n + N {
          SlotsDiffer(n, k);
        } else {
          SlotStep(n);
        }
      }
    }
  }

  lemma {:induction false} StartInv()
    ensures Inv(Start())
  {
    hide SlotOf;
    var s := Start();
    assert s.cur == SlotOf(0) by {
      SlotZero();
    }
  }

  lemma {:induction false} SlotZero()
    ensures SlotOf(0) == 0
  {
  }

  /**
   Over every interleaving of write-backs and receive calls: the slots taken
   give, in the order in which the hardware filled them, the outcomes of its
   first write-backs, and what waits is held unharmed until its turn.
   */
  lemma {:induction false} ReceiveOrder(steps: seq<Step>)
    ensures Inv(Run(Start(), steps))
    ensures InOrder(Run(Start(), steps)) && WaitingHeld(Run(Start(), steps))
  {
    if steps == [] {
      StartInv();
    } else {
      ReceiveOrder(steps[..|steps| - 1]);
      hide Inv, Start, Write, Receive;
      var s, step := Run(Start(), steps[..|steps| - 1]), steps[|steps| - 1];
      match step
      case Hardware(w) => WriteInv(s, w);
      case Driver(bufferLen) => ReceiveInv(s, bufferLen);
    }
  }

  /**
   A good packet that fits its slot arrives as its own prefix, as long as packet
   and buffer allow, exactly when the casts keep the buffer length. Buffers of at
   most 32767 octets always do.
   */
  lemma {:induction false} GoodPacketDelivered(steps: seq<Step>, k: nat)
    requires var s := Run(Start(), steps);
             && k < |s.taken| && k < |s.written| && k < |s.asked|
             && s.written[k].last && !s.written[k].failed && s.written[k].len <= BUFFER_SIZE
    ensures var s := Run(Start(), steps);
            && |s.written[k].octets| == BUFFER_SIZE
            && (s.taken[k] == Delivered(s.written[k].octets[..Min(s.written[k].len, s.asked[k])]) <==>
                LengthKept(s.written[k].len, s.asked[k]))
            && (s.asked[k] < 0x8000 ==> LengthKept(s.written[k].len, s.asked[k]))
  {
    var s := Run(Start(), steps);
    ReceiveOrder(steps);
    hide Run, Start, CopyLen, WaitingHeld, OthersOwned;
    var w, n := s.written[k], s.asked[k];
    CopyLenExact(w.len, n);
    assert |w.octets[..Min(w.len, n)]| == Min(w.len, n);
    if CopyLen(w.len, n) <= |w.octets| {
      assert |w.octets[..CopyLen(w.len, n)]| == CopyLen(w.len, n);
    }
  }

  /** A packet is dropped exactly if its descriptor is not the last of a frame or reports an error. */
  lemma {:induction false} BadPacketDropped(steps: seq<Step>, k: nat)
    requires var s := Run(Start(), steps); k < |s.taken| && k < |s.written|
    ensures var s := Run(Start(), steps);
            s.taken[k] == Dropped <==> !s.written[k].last || s.written[k].failed
  {
    ReceiveOrder(steps);
    hide Run, Start, CopyLen, WaitingHeld, OthersOwned;
  }

  /** Sixty octets read into a buffer of 32768: the copy is as long as the buffer and leaves the slot. */
  lemma {:induction false} LargeBufferOverruns()
    ensures var w := Wrote(true, false, 60, Zeros(BUFFER_SIZE));
            Run(Start(), [Hardware(w), Driver(0x8000)]).taken == [Overrun]
  {
    var w := Wrote(true, false, 60, Zeros(BUFFER_SIZE));
    var steps := [Hardware(w), Driver(0x8000)];
    assert steps[..1] == [Hardware(w)] && steps[..1][..0] == [];
    assert Run(Start(), steps[..1]) == Next(Run(Start(), steps[..1][..0]), steps[..1][0]);
    SlotZero();
    var s := Write(Start(), w);
    assert Run(Start(), steps[..1]) == s;
    assert CopyLen(60, 0x8000) == 0x8000;
    assert Run(Start(), steps) == Receive(s, 0x8000).0;
  }
}
