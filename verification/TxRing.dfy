/**
 The transmit descriptor ring shared with the DMA engine through the OWN bit:
 producer, hardware and reclaimer as steps, in any interleaving.
 */
module TxRing {
  import opened Bytes

  const N := 512   // DEFAULT_TX_DESCRIPTORS

  const BIT31: bv32 := 0x8000_0000
  const BIT29: bv32 := 0x2000_0000
  const BIT28: bv32 := 0x1000_0000

  datatype Desc = Desc(des0: bv32, des1: bv32, des2: bv32, des3: bv32)

  const CLEAR: Desc := Desc(0, 0, 0, 0)

  predicate Own(d: Desc) {
    d.des3 & BIT31 != 0
  }

  /** One fragment: what its address maps to, and its length. */
  datatype Frag = Frag(mapped: bv32, len: bv32)

  /**
   The ring and two logs. `mapping` holds the caller's buffer address of each
   slot, zero when it has none. `accepted` has one address per descriptor handed
   to the hardware (zero for a fragment), `returned` the addresses given back.
   */
  datatype State = State(desc: seq<Desc>, mapping: seq<nat>, cur: nat, dirty: nat,
                         accepted: seq<nat>, returned: seq<nat>)

  function Succ(i: nat): nat {
    if i + 1 >= N then 0 else i + 1
  }

  function Avail(cur: nat, dirty: nat): int {
    if dirty > cur then dirty - cur - 1 else N - cur + dirty - 1
  }

  /** Slots from `i` forward to `e`, going around. */
  function Distance(i: nat, e: nat): int {
    if e >= i then e - i else N - i + e
  }

  // ---------- Transmit ----------

  /**
   The fragment count that the call reads. In a linear frame the same octets
   are the upper 16 bits of the frame address.
   */
  function CountField(frameAddr: nat): nat {
    frameAddr / 0x1_0000_0000_0000 % 0x1_0000
  }

  function Needed(fragCnt: nat): nat {
    if fragCnt == 0 then 1 else fragCnt
  }

  function LinearDesc(physical: bv32, size: bv32): Desc {
    Desc(physical, 0, size | BIT31, size | BIT29 | BIT28 | BIT31)
  }

  function FragDesc(f: Frag, frameLen: bv32, last: bool): Desc {
    Desc(f.mapped, 0, if last then f.len | BIT31 else f.len, frameLen | BIT31)
  }

  ghost predicate Shaped(s: State) {
    |s.desc| == |s.mapping| == N && s.cur < N && s.dirty < N
  }

  /** Uses the slot at cur_tx. A mapping of None leaves the slot's mapping alone. */
  function Push(s: State, d: Desc, addr: Option<nat>): (t: State)
    requires Shaped(s)
    ensures Shaped(t)
  {
    s.(desc := s.desc[s.cur := d],
       mapping := if addr.Some? then s.mapping[s.cur := addr.value] else s.mapping,
       cur := Succ(s.cur),
       accepted := s.accepted + [if addr.Some? then addr.value else 0])
  }

  /** A linear frame; `physical` and `size` are what mapping its buffer gives. */
  function SendLinear(s: State, frameAddr: nat, physical: bv32, size: bv32): (r: (State, bool))
    requires Shaped(s)
    ensures Shaped(r.0)
  {
    if Avail(s.cur, s.dirty) < Needed(CountField(frameAddr)) then (s, false)
    else (Push(s, LinearDesc(physical, size), Some(frameAddr)), true)
  }

  function PushAll(s: State, ds: seq<Desc>): (t: State)
    requires Shaped(s)
    ensures Shaped(t)
    decreases |ds|
  {
    if ds == [] then s else PushAll(Push(s, ds[0], None), ds[1..])
  }

  /** The descriptors after the first one. */
  function RestDescs(rest: seq<Frag>, frameLen: bv32): seq<Desc> {
    seq(|rest|, i requires 0 <= i < |rest| => FragDesc(rest[i], frameLen, i + 1 == |rest|))
  }

  /**
   A fragmented frame. `first` is FragDesc[0], which is used even when the
   fragment count is zero; `rest` are the fragments after it.
   */
  function SendFrags(s: State, first: Frag, rest: seq<Frag>, frameLen: bv32): (r: (State, bool))
    requires Shaped(s)
    ensures Shaped(r.0)
  {
    if Avail(s.cur, s.dirty) < Needed(1 + |rest|) then (s, false)
    else (PushAll(s, [FragDesc(first, frameLen, false)] + RestDescs(rest, frameLen)), true)
  }

  // ---------- Hardware and reclaim ----------

  /** The hardware finishes with a descriptor it owns and writes it back. */
  function Complete(s: State, i: nat, back: Desc): (t: State)
    requires Shaped(s)
    ensures Shaped(t)
  {
    if i < N && Own(s.desc[i]) && !Own(back) then s.(desc := s.desc[i := back]) else s
  }

  predicate Reclaimable(s: State)
    requires Shaped(s)
  {
    s.dirty != s.cur && !Own(s.desc[s.dirty]) && s.mapping[s.dirty] != 0
  }

  function Pop(s: State): (t: State)
    requires Shaped(s)
    ensures Shaped(t)
  {
    s.(desc := s.desc[s.dirty := CLEAR], mapping := s.mapping[s.dirty := 0], dirty := Succ(s.dirty),
       returned := s.returned + [s.mapping[s.dirty]])
  }

  /** IntelgbeFreeTxBuffers with room for `n` addresses. */
  function Reclaim(s: State, n: nat): (t: State)
    requires Shaped(s)
    ensures Shaped(t)
    decreases n
  {
    if n == 0 || !Reclaimable(s) then s else Reclaim(Pop(s), n - 1)
  }

  // ---------- Runs ----------

  datatype Step =
    | Linear(frameAddr: nat, physical: bv32, size: bv32)
    | Fragmented(first: Frag, rest: seq<Frag>, frameLen: bv32)
    | Completion(i: nat, back: Desc)
    | Free(n: nat)

  function Next(s: State, step: Step): (t: State)
    requires Shaped(s)
    ensures Shaped(t)
  {
    match step
    case Linear(frameAddr, physical, size) => SendLinear(s, frameAddr, physical, size).0
    case Fragmented(first, rest, frameLen) => SendFrags(s, first, rest, frameLen).0
    case Completion(i, back) => Complete(s, i, back)
    case Free(n) => Reclaim(s, n)
  }

  /** After first-time initialisation: descriptors and mappings cleared. */
  function Start(): (s: State)
    ensures Shaped(s)
  {
    State(seq(N, _ => CLEAR), seq(N, _ => 0), 0, 0, [], [])
  }

  function Run(s: State, steps: seq<Step>): (t: State)
    requires Shaped(s)
    ensures Shaped(t)
  {
    if steps == [] then s else Next(Run(s, steps[..|steps| - 1]), steps[|steps| - 1])
  }

  // ---------- The invariant ----------

  /** Slot `i` lies from dirty_tx up to cur_tx, going around. */
  predicate InFlight(s: State, i: nat) {
    if s.dirty <= s.cur then s.dirty <= i < s.cur else s.dirty <= i < N || i < s.cur
  }

  /** The addresses in flight, oldest first. */
  function Window(s: State): seq<nat>
    requires Shaped(s)
  {
    if s.dirty <= s.cur then s.mapping[s.dirty..s.cur] else s.mapping[s.dirty..] + s.mapping[..s.cur]
  }

  /** Slots that are not in flight hold nothing: they are cleared, so they belong to the driver. */
  ghost predicate IdleClear(s: State)
    requires Shaped(s)
  {
    forall i :: 0 <= i < N && !InFlight(s, i) ==> s.desc[i] == CLEAR && s.mapping[i] == 0
  }

  ghost predicate Inv(s: State) {
    && Shaped(s)
    && IdleClear(s)
    && s.accepted == s.returned + Window(s)
    && 0 !in s.returned
  }

  /** What is free and what is in flight always make up the ring less one slot. */
  lemma {:induction false} AvailPlusInFlight(s: State)
    requires Shaped(s)
    ensures Avail(s.cur, s.dirty) + |Window(s)| == N - 1
    ensures Avail(s.cur, s.dirty) > 0 <==> Succ(s.cur) != s.dirty
  {
  }

  lemma {:induction false} PushWindow(s: State, d: Desc, addr: Option<nat>)
    requires Shaped(s) && Succ(s.cur) != s.dirty
    requires addr.None? ==> s.mapping[s.cur] == 0
    ensures Window(Push(s, d, addr)) == Window(s) + [if addr.Some? then addr.value else 0]
    ensures Avail(Push(s, d, addr).cur, s.dirty) == Avail(s.cur, s.dirty) - 1
    ensures !InFlight(s, s.cur)
    ensures forall i :: 0 <= i < N ==> (InFlight(Push(s, d, addr), i) <==> InFlight(s, i) || i == s.cur)
  {
  }

  lemma {:induction false} PushInv(s: State, d: Desc, addr: Option<nat>)
    requires Inv(s) && Avail(s.cur, s.dirty) > 0
    ensures Inv(Push(s, d, addr))
  {
    hide Window, InFlight, Own;
    AvailPlusInFlight(s);
    IdleAtCur(s);
    PushWindow(s, d, addr);
    var t := Push(s, d, addr);
    assert s.returned + Window(s) + [if addr.Some? then addr.value else 0] == s.returned + Window(t);
  }

  lemma {:induction false} ClearIsIdle()
    ensures !Own(CLEAR)
  {
  }

  /** The slot about to be used is the driver's and has no mapping. */
  lemma {:induction false} IdleAtCur(s: State)
    requires Inv(s)
    ensures !Own(s.desc[s.cur]) && s.desc[s.cur] == CLEAR && s.mapping[s.cur] == 0
  {
    assert !InFlight(s, s.cur);
    ClearIsIdle();
  }

  lemma {:induction false} PushAllInv(s: State, ds: seq<Desc>)
    requires Inv(s) && |ds| <= Avail(s.cur, s.dirty)
    ensures Inv(PushAll(s, ds))
    decreases |ds|
  {
    if ds != [] {
      hide Inv;
      PushInv(s, ds[0], None);
      PushRoom(s, ds[0], None);
      PushAllInv(Push(s, ds[0], None), ds[1..]);
    }
  }

  lemma {:induction false} PushRoom(s: State, d: Desc, addr: Option<nat>)
    requires Inv(s) && Avail(s.cur, s.dirty) > 0
    ensures Avail(Push(s, d, addr).cur, Push(s, d, addr).dirty) == Avail(s.cur, s.dirty) - 1
  {
  }

  lemma {:induction false} CompleteInv(s: State, i: nat, back: Desc)
    requires Inv(s)
    ensures Inv(Complete(s, i, back))
  {
    ClearIsIdle();
    hide Own;
    var t := Complete(s, i, back);
    assert Window(t) == Window(s);
  }

  lemma {:induction false} PopWindow(s: State)
    requires Shaped(s) && s.dirty != s.cur
    ensures Window(s) == [s.mapping[s.dirty]] + Window(Pop(s))
    ensures forall i :: 0 <= i < N ==> (InFlight(Pop(s), i) <==> InFlight(s, i) && i != s.dirty)
  {
    hide Window, InFlight;
    PopHead(s);
    PopInFlight(s);
  }

  lemma {:induction false} PopInFlight(s: State)
    requires Shaped(s) && s.dirty != s.cur
    ensures forall i :: 0 <= i < N ==> (InFlight(Pop(s), i) <==> InFlight(s, i) && i != s.dirty)
  {
  }

  lemma {:induction false} PopHead(s: State)
    requires Shaped(s) && s.dirty != s.cur
    ensures Window(s) == [s.mapping[s.dirty]] + Window(Pop(s))
  {
  }

  lemma {:induction false} PopInv(s: State)
    requires Inv(s) && Reclaimable(s)
    ensures Inv(Pop(s))
  {
    hide Window, InFlight;
    PopWindow(s);
    var t := Pop(s);
    assert s.returned + ([s.mapping[s.dirty]] + Window(t)) == t.returned + Window(t);
  }

  lemma {:induction false} ReclaimInv(s: State, n: nat)
    requires Inv(s)
    ensures Inv(Reclaim(s, n))
    decreases n
  {
    hide IdleClear, Window, Pop, Reclaimable;
    if n > 0 && Reclaimable(s) {
      PopInv(s);
      ReclaimInv(Pop(s), n - 1);
    }
  }

  lemma {:induction false} NextInv(s: State, step: Step)
    requires Inv(s)
    ensures Inv(Next(s, step))
  {
    assert Shaped(s);
    hide Inv, Push, PushAll, Reclaim, Avail, Complete, CountField, FragDesc, LinearDesc;
    match step
    case Linear(frameAddr, physical, size) =>
      if SendLinear(s, frameAddr, physical, size).1 {
        PushInv(s, LinearDesc(physical, size), Some(frameAddr));
      }
    case Fragmented(first, rest, frameLen) =>
      if SendFrags(s, first, rest, frameLen).1 {
        PushAllInv(s, [FragDesc(first, frameLen, false)] + RestDescs(rest, frameLen));
      }
    case Completion(i, back) => CompleteInv(s, i, back);
    case Free(n) => ReclaimInv(s, n);
  }

  lemma {:induction false} StartInv()
    ensures Inv(Start())
  {
    var s := Start();
    assert Window(s) == [];
  }

  /**
   Conservation over every interleaving of linear and fragmented sends, hardware
   completions in any order and reclaims of any size: what was accepted is what
   was returned followed by what is in flight, in order.
   */
  lemma {:induction false} FifoConservation(steps: seq<Step>)
    ensures Inv(Run(Start(), steps))
    ensures var s := Run(Start(), steps); s.accepted == s.returned + Window(s)
  {
    if steps == [] {
      StartInv();
    } else {
      hide Inv, Next, Start;
      FifoConservation(steps[..|steps| - 1]);
      NextInv(Run(Start(), steps[..|steps| - 1]), steps[|steps| - 1]);
    }
  }

  // ---------- Ownership ----------

  lemma {:induction false} PushAllSpares(s: State, ds: seq<Desc>, i: nat)
    requires Inv(s) && |ds| <= Avail(s.cur, s.dirty) && i < N && Own(s.desc[i])
    ensures PushAll(s, ds).desc[i] == s.desc[i]
    decreases |ds|
  {
    if ds != [] {
      IdleAtCur(s);
      PushInv(s, ds[0], None);
      PushRoom(s, ds[0], None);
      assert Push(s, ds[0], None).desc[i] == s.desc[i];
      hide Inv, Own;
      PushAllSpares(Push(s, ds[0], None), ds[1..], i);
    }
  }

  lemma {:induction false} ReclaimSpares(s: State, n: nat, i: nat)
    requires Shaped(s) && i < N && Own(s.desc[i])
    ensures Reclaim(s, n).desc[i] == s.desc[i]
    decreases n
  {
    if n > 0 && Reclaimable(s) {
      ReclaimSpares(Pop(s), n - 1, i);
    }
  }

  /**
   In every reachable state the hardware owns only slots in flight, and no step
   of the driver writes a descriptor that the hardware owns.
   */
  lemma {:induction false} OwnedUntouched(steps: seq<Step>, step: Step, i: nat)
    requires i < N && Own(Run(Start(), steps).desc[i])
    ensures InFlight(Run(Start(), steps), i)
    ensures !step.Completion? ==> Next(Run(Start(), steps), step).desc[i] == Run(Start(), steps).desc[i]
  {
    var s := Run(Start(), steps);
    FifoConservation(steps);
    IdleAtCur(s);
    hide Run, Window, Own, CountField, FragDesc, LinearDesc, Start;
    match step
    case Linear(frameAddr, physical, size) =>
    case Fragmented(first, rest, frameLen) =>
      if SendFrags(s, first, rest, frameLen).1 {
        PushAllSpares(s, [FragDesc(first, frameLen, false)] + RestDescs(rest, frameLen), i);
      }
    case Completion(_, _) =>
    case Free(n) => ReclaimSpares(s, n, i);
  }

  // ---------- Reclaiming ----------

  /** A reclaim gives back the oldest addresses in order, and stops only for one of three reasons. */
  lemma {:induction false} ReclaimExact(s: State, n: nat)
    requires Shaped(s)
    ensures var t := Reclaim(s, n);
            var k := |t.returned| - |s.returned|;
            && 0 <= k <= n && k <= |Window(s)|
            && t.returned == s.returned + Window(s)[..k] && Window(t) == Window(s)[k..]
            && (k == n || t.dirty == t.cur || Own(t.desc[t.dirty]) || t.mapping[t.dirty] == 0)
    decreases n
  {
    hide Window, Own;
    if n == 0 || !Reclaimable(s) {
      assert s.returned + Window(s)[..0] == s.returned && Window(s)[0..] == Window(s);
    } else {
      var u := Pop(s);
      PopWindow(s);
      ReclaimExact(u, n - 1);
      TakeOneMore(s.returned, s.mapping[s.dirty], Window(u), |Reclaim(u, n - 1).returned| - |u.returned|);
    }
  }

  lemma {:induction false} TakeOneMore(out: seq<nat>, x: nat, rest: seq<nat>, k: nat)
    requires k <= |rest|
    ensures ([x] + rest)[..k + 1] == [x] + rest[..k] && ([x] + rest)[k + 1..] == rest[k..]
    ensures out + ([x] + rest)[..k + 1] == out + [x] + rest[..k]
  {
  }

  /** The oldest slot in flight has no mapping, as after a fragmented send or a zero frame address. */
  ghost predicate Blocked(s: State) {
    Shaped(s) && s.dirty != s.cur && s.mapping[s.dirty] == 0
  }

  lemma {:induction false} PushKeepsBlock(s: State, d: Desc, addr: Option<nat>)
    requires Blocked(s) && Avail(s.cur, s.dirty) > 0
    ensures Blocked(Push(s, d, addr)) && Push(s, d, addr).dirty == s.dirty
  {
  }

  lemma {:induction false} PushAllKeepsBlock(s: State, ds: seq<Desc>)
    requires Blocked(s) && |ds| <= Avail(s.cur, s.dirty)
    ensures Blocked(PushAll(s, ds)) && PushAll(s, ds).dirty == s.dirty && PushAll(s, ds).returned == s.returned
    decreases |ds|
  {
    if ds != [] {
      PushKeepsBlock(s, ds[0], None);
      PushWindowSize(s, ds[0]);
      hide Avail, Blocked;
      PushAllKeepsBlock(Push(s, ds[0], None), ds[1..]);
    }
  }

  lemma {:induction false} PushWindowSize(s: State, d: Desc)
    requires Blocked(s) && Avail(s.cur, s.dirty) > 0
    ensures Avail(Push(s, d, None).cur, Push(s, d, None).dirty) == Avail(s.cur, s.dirty) - 1
  {
  }

  lemma {:induction false} NextKeepsBlock(s: State, step: Step)
    requires Blocked(s)
    ensures Blocked(Next(s, step))
    ensures Next(s, step).dirty == s.dirty && Next(s, step).returned == s.returned
  {
    match step
    case Linear(frameAddr, physical, size) =>
      if SendLinear(s, frameAddr, physical, size).1 {
        PushKeepsBlock(s, LinearDesc(physical, size), Some(frameAddr));
      }
    case Fragmented(first, rest, frameLen) =>
      if SendFrags(s, first, rest, frameLen).1 {
        hide Avail, FragDesc;
        PushAllKeepsBlock(s, [FragDesc(first, frameLen, false)] + RestDescs(rest, frameLen));
      }
    case Completion(i, back) =>
    case Free(n) =>
  }

  lemma {:induction false} BlockedForever(s: State, steps: seq<Step>)
    requires Blocked(s)
    ensures Blocked(Run(s, steps))
    ensures Run(s, steps).dirty == s.dirty && Run(s, steps).returned == s.returned
  {
    if steps != [] {
      BlockedForever(s, steps[..|steps| - 1]);
      hide Blocked, Next;
      NextKeepsBlock(Run(s, steps[..|steps| - 1]), steps[|steps| - 1]);
    }
  }

  /** No continuation ever gives another address back. */
  ghost predicate Stuck(s: State)
    requires Shaped(s)
  {
    forall steps :: Run(s, steps).returned == s.returned
  }

  /**
   With a slot in flight, the ring is stuck for good exactly when its oldest slot
   has no mapping: the reclaimer stops there whatever the hardware does.
   */
  lemma {:induction false} StuckIffBlocked(s: State)
    requires Inv(s) && s.dirty != s.cur
    ensures Stuck(s) <==> s.mapping[s.dirty] == 0
  {
    if s.mapping[s.dirty] == 0 {
      forall steps ensures Run(s, steps).returned == s.returned {
        BlockedForever(s, steps);
      }
    } else {
      FreesOldest(s);
      var steps := [Completion(s.dirty, CLEAR), Free(1)];
      assert Run(s, steps).returned != s.returned;
    }
  }

  lemma {:induction false} FreesOldest(s: State)
    requires Inv(s) && s.dirty != s.cur && s.mapping[s.dirty] != 0
    ensures Run(s, [Completion(s.dirty, CLEAR), Free(1)]).returned == s.returned + [s.mapping[s.dirty]]
  {
    var steps := [Completion(s.dirty, CLEAR), Free(1)];
    var u := Complete(s, s.dirty, CLEAR);
    assert steps[..1] == [Completion(s.dirty, CLEAR)] && steps[..1][..0] == [];
    assert Run(s, steps[..1]) == Next(Run(s, steps[..1][..0]), steps[..1][0]);
    assert Run(s, steps[..1]) == u;
    assert !Own(CLEAR);
    assert Reclaimable(u);
    assert Reclaim(u, 1) == Reclaim(Pop(u), 0);
  }

  // ---------- Linear traffic ----------

  ghost predicate AllLinear(steps: seq<Step>) {
    forall k :: 0 <= k < |steps| ==>
      !steps[k].Fragmented? && (steps[k].Linear? ==> steps[k].frameAddr != 0)
  }

  lemma {:induction false} ReclaimKeepsAccepted(s: State, n: nat)
    requires Shaped(s)
    ensures Reclaim(s, n).accepted == s.accepted
    decreases n
  {
    if n > 0 && Reclaimable(s) {
      ReclaimKeepsAccepted(Pop(s), n - 1);
    }
  }

  lemma {:induction false} LinearNeverZero(steps: seq<Step>)
    requires AllLinear(steps)
    ensures 0 !in Run(Start(), steps).accepted
  {
    if steps != [] {
      var before, last := steps[..|steps| - 1], steps[|steps| - 1];
      LinearNeverZero(before);
      hide Start, Reclaim, Avail, CountField;
      if last.Free? {
        ReclaimKeepsAccepted(Run(Start(), before), last.n);
      }
    }
  }

  /**
   With linear frames at non-zero addresses only, the ring is never blocked, and
   once the hardware is done one call with enough room returns everything that
   was ever accepted, in the order of acceptance, without loss or duplicate.
   */
  lemma {:induction false} LinearFifo(steps: seq<Step>, n: nat)
    requires AllLinear(steps)
    requires forall i :: 0 <= i < N ==> !Own(Run(Start(), steps).desc[i])
    requires n >= |Window(Run(Start(), steps))|
    ensures !Blocked(Run(Start(), steps))
    ensures Reclaim(Run(Start(), steps), n).returned == Run(Start(), steps).accepted
  {
    var s := Run(Start(), steps);
    FifoConservation(steps);
    LinearNeverZero(steps);
    hide Run, Start, Own, Reclaim;
    HeadMapped(s);
    ReclaimExact(s, n);
    ReclaimInv(s, n);
    ReclaimKeepsAccepted(s, n);
    NoneOwnedAfter(s, n);
    HeadMapped(Reclaim(s, n));
    var k := |Reclaim(s, n).returned| - |s.returned|;
    assert Window(s)[..k] == Window(s);
  }

  /** If no zero address was accepted, the oldest slot in flight has a mapping. */
  lemma {:induction false} HeadMapped(s: State)
    requires Inv(s) && 0 !in s.accepted
    ensures s.dirty != s.cur ==> s.mapping[s.dirty] != 0
  {
    if s.dirty != s.cur {
      hide IdleClear;
      PopWindow(s);
      var i := |s.returned|;
      assert s.accepted[i] == Window(s)[0] == s.mapping[s.dirty];
      assert s.accepted[i] in s.accepted;
    }
  }

  lemma {:induction false} NoneOwnedAfter(s: State, n: nat)
    requires Shaped(s) && forall i :: 0 <= i < N ==> !Own(s.desc[i])
    ensures forall i :: 0 <= i < N ==> !Own(Reclaim(s, n).desc[i])
    decreases n
  {
    if n > 0 && Reclaimable(s) {
      assert !Own(CLEAR);
      NoneOwnedAfter(Pop(s), n - 1);
    }
  }

  // ---------- What a run gets back ----------

  lemma {:induction false} RunAppend(s: State, a: seq<Step>, b: seq<Step>)
    requires Shaped(s)
    ensures Run(s, a + b) == Run(Run(s, a), b)
  {
    if b == [] {
      assert a + b == a;
    } else {
      hide Next;
      assert (a + b)[..|a + b| - 1] == a + b[..|b| - 1];
      RunAppend(s, a, b[..|b| - 1]);
    }
  }

  lemma {:induction false} RunInv(s: State, steps: seq<Step>)
    requires Inv(s)
    ensures Inv(Run(s, steps))
  {
    if steps != [] {
      hide Inv, Next;
      RunInv(s, steps[..|steps| - 1]);
      NextInv(Run(s, steps[..|steps| - 1]), steps[|steps| - 1]);
    }
  }

  /** Freeing the oldest slot accepts nothing new. */
  lemma {:induction false} FreeingKeepsAccepted(s: State)
    requires Shaped(s)
    ensures Run(s, [Completion(s.dirty, CLEAR), Free(1)]).accepted == s.accepted
  {
    hide Reclaim;
    var steps := [Completion(s.dirty, CLEAR), Free(1)];
    var u := Complete(s, s.dirty, CLEAR);
    assert steps[..1] == [Completion(s.dirty, CLEAR)] && steps[..1][..0] == [];
    assert Run(s, steps[..1]) == Next(Run(s, steps[..1][..0]), steps[..1][0]);
    ReclaimKeepsAccepted(u, 1);
  }

  /** Completing and reclaiming the slots one by one, oldest first. */
  lemma {:induction false} Drain(s: State) returns (steps: seq<Step>)
    requires Inv(s) && 0 !in s.accepted
    ensures Run(s, steps).returned == s.accepted
    decreases |Window(s)|
  {
    if s.dirty == s.cur {
      steps := [];
    } else {
      var free := [Completion(s.dirty, CLEAR), Free(1)];
      HeadMapped(s);
      FreesOldest(s);
      FreeingKeepsAccepted(s);
      RunInv(s, free);
      hide Run, Next, Window, IdleClear, Shaped;
      var more := Drain(Run(s, free));
      RunAppend(s, free, more);
      steps := free + more;
    }
  }

  /** Some continuation gives back everything accepted so far. */
  ghost predicate Drainable(s: State)
    requires Shaped(s)
  {
    exists steps :: s.accepted <= Run(s, steps).returned
  }

  /** Everything accepted so far can still come back exactly when no slot was ever used without a mapping. */
  lemma {:induction false} DrainableIffMapped(s: State)
    requires Inv(s)
    ensures Drainable(s) <==> 0 !in s.accepted
  {
    hide Run, IdleClear, Window;
    if 0 !in s.accepted {
      var steps := Drain(s);
      assert s.accepted <= Run(s, steps).returned;
    }
    if steps :| s.accepted <= Run(s, steps).returned {
      RunInv(s, steps);
    }
  }

  /** A single fragment, or a linear frame at address zero, blocks a fresh ring. */
  lemma {:induction false} BlockedAtOnce(first: Frag, frameLen: bv32, physical: bv32, size: bv32)
    ensures Blocked(Run(Start(), [Fragmented(first, [], frameLen)]))
    ensures Blocked(Run(Start(), [Linear(0, physical, size)]))
  {
    OneStep(Start(), Fragmented(first, [], frameLen));
    OneStep(Start(), Linear(0, physical, size));
    hide Run, FragDesc, LinearDesc;
    var d := FragDesc(first, frameLen, false);
    var ds := [d] + RestDescs([], frameLen);
    assert ds == [d] && ds[1..] == [];
    assert PushAll(Start(), ds) == PushAll(Push(Start(), d, None), []);
  }

  lemma {:induction false} OneStep(s: State, step: Step)
    requires Shaped(s)
    ensures Run(s, [step]) == Next(s, step)
  {
    assert [step][..0] == [];
  }
}
