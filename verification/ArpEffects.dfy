/**
 What each call does to the tables, said by the entries and the octets involved:
 received frames (the packet reception of RFC 826), ArpAdd, ArpRequest and
 ArpConfigure.
 */
module ArpEffects {
  import opened Bytes
  import opened ArpTypes
  import opened ArpFrame
  import opened ArpSteps
  import opened ArpTables
  import opened ArpInvariant
  import opened ArpProperties
  import opened ArpTimer
  import opened ArpCalls

  // ---------- First matches ----------

  ghost predicate First(table: seq<Entry>, p: Entry -> bool, i: int) {
    0 <= i < |table| && p(table[i]) && forall j :: 0 <= j < i ==> !p(table[j])
  }

  ghost predicate Absent(table: seq<Entry>, p: Entry -> bool) {
    forall j :: 0 <= j < |table| ==> !p(table[j])
  }

  /** Entries for a protocol address. */
  function For(a: Address): Entry -> bool {
    (e: Entry) => e.proto == a
  }

  /** Entries with a hardware address. */
  function With(h: Address): Entry -> bool {
    (e: Entry) => e.hw == h
  }

  /** The search by protocol address finds the first entry for it. */
  lemma {:induction false} FindsProto(table: seq<Entry>, k: Key)
    requires k.Valid() && k.bytes.Some?
    ensures var i := FindNext(table, 0, Some(k), None);
            if i < |table| then First(table, For(k.Stored()), i) else Absent(table, For(k.Stored()))
  {
    hide FindNext;
    FindNextIsFirst(table, 0, Some(k), None);
    forall j | 0 <= j < |table| ensures Meets(table[j], Some(k), None) <==> table[j].proto == k.Stored() {
      MatchIsEquality(k, table[j].proto);
    }
  }

  lemma {:induction false} FindsHw(table: seq<Entry>, k: Key)
    requires k.Valid() && k.bytes.Some?
    ensures var i := FindNext(table, 0, None, Some(k));
            if i < |table| then First(table, With(k.Stored()), i) else Absent(table, With(k.Stored()))
  {
    hide FindNext;
    FindNextIsFirst(table, 0, None, Some(k));
    forall j | 0 <= j < |table| ensures Meets(table[j], None, Some(k)) <==> table[j].hw == k.Stored() {
      MatchIsEquality(k, table[j].hw);
    }
  }

  /** There is one first match at most. */
  lemma {:induction false} OneFirst(table: seq<Entry>, p: Entry -> bool, i: int, j: int)
    requires First(table, p, i)
    ensures First(table, p, j) <==> i == j
    ensures !Absent(table, p)
  {
  }

  /** Completions of `reqs`, in order. */
  function Completed(reqs: seq<Request>, a: Address, hw: seq<byte>): seq<Signal> {
    seq(|reqs|, k requires 0 <= k < |reqs| => Signal(reqs[k], a, hw))
  }

  lemma {:induction false} DeliverCompletes(reqs: seq<Request>, e: Entry)
    ensures Deliver(reqs, e) == Completed(reqs, e.proto, e.hw.bytes)
  {
    if reqs != [] {
      DeliverCompletes(reqs[1..], e);
      assert Completed(reqs, e.proto, e.hw.bytes) ==
             [Signal(reqs[0], e.proto, e.hw.bytes)] + Completed(reqs[1..], e.proto, e.hw.bytes);
    }
  }

  // ---------- Received frames ----------

  function Sender(f: Frame): Address {
    Address(f.protoType, f.senderProto)
  }

  function Card(f: Frame): Address {
    Address(f.hwType, f.senderHw)
  }

  /** A configured child of the frame's protocol. */
  predicate Listens(c: Instance, f: Frame) {
    c.configured && c.config.swType == f.protoType && c.config.swLen == |f.senderProto|
  }

  /** The first child whose station address the frame asks for. */
  ghost predicate Addressed(children: seq<Instance>, f: Frame, i: int) {
    && 0 <= i < |children| && Listens(children[i], f) && children[i].config.station == f.targetProto
    && forall j :: 0 <= j < i ==> !(Listens(children[j], f) && children[j].config.station == f.targetProto)
  }

  ghost predicate NotAddressed(children: seq<Instance>, f: Frame) {
    forall j :: 0 <= j < |children| ==> !(Listens(children[j], f) && children[j].config.station == f.targetProto)
  }

  /** The frame must not touch the tables. */
  ghost predicate Ignored(s: State, f: Frame, protocolType: nat) {
    || f.hwType != s.link.ifType || |f.senderHw| != s.link.hwSize || protocolType != 0x0806
    || (exists e :: e in s.denied && (e.proto == Sender(f) || e.hw == Card(f)))
    || (forall c :: c in s.children ==> !Listens(c, f))
  }

  lemma {:induction false} SpokenMeans(children: seq<Instance>, f: Frame)
    ensures Spoken(children, f) <==> exists c :: c in children && Listens(c, f)
  {
    if children != [] {
      SpokenMeans(children[1..], f);
      assert children[0] in children;
      if c :| c in children[1..] && Listens(c, f) {
        assert c in children;
      }
    }
  }

  lemma {:induction false} TargetMeans(children: seq<Instance>, f: Frame)
    ensures TargetOf(children, f).None? <==> NotAddressed(children, f)
    ensures forall i :: Addressed(children, f, i) ==> TargetOf(children, f) == Some(children[i])
  {
    if children != [] {
      TargetMeans(children[1..], f);
      if !(Listens(children[0], f) && children[0].config.station == f.targetProto) {
        forall j | 0 < j < |children| ensures children[j] == children[1..][j - 1] {
        }
        forall i | Addressed(children, f, i) ensures Addressed(children[1..], f, i - 1) {
        }
      }
    }
  }

  lemma {:induction false} AcceptedMeans(s: State, f: Frame, protocolType: nat)
    ensures Accepted(s, f, protocolType) <==> !Ignored(s, f, protocolType)
  {
    hide FindNext, Spoken, Listens;
    SpokenMeans(s.children, f);
    FindsProto(s.denied, SenderProto(f));
    FindsHw(s.denied, SenderHw(f));
    var d := FindDenied(s.denied, Some(SenderProto(f)), Some(SenderHw(f)));
    if d < |s.denied| {
      assert s.denied[d] in s.denied;
    }
  }

  /**
   A payload that does not decode, a frame of another hardware type or address
   size, another ethertype, a denied sender, and a protocol that no child
   speaks: all leave the service as it was.
   */
  lemma {:induction false} FrameIgnored(s: State, payload: seq<byte>, protocolType: nat, granted: bool)
    requires Decode(payload).None? || Ignored(s, Decode(payload).value, protocolType)
    ensures Receive(s, payload, protocolType, granted) == s
  {
    hide Decode, Accepted, Ignored, ReceiveFrame;
    if Decode(payload).Some? {
      AcceptedMeans(s, Decode(payload).value, protocolType);
    }
  }

  /** The frame that a child sends back to the sender. */
  ghost function Replies(s: State, f: Frame): seq<Sent> {
    var target := TargetOf(s.children, f);
    if target.Some? && f.opcode == 1 then [Sent(2, target.value.id, Sender(f), Card(f))] else []
  }

  /** Exactly one reply, from the first child addressed, for a request; none for anything else. */
  lemma {:induction false} RepliesMeans(s: State, f: Frame)
    ensures NotAddressed(s.children, f) || f.opcode != 1 ==> Replies(s, f) == []
    ensures forall i :: Addressed(s.children, f, i) && f.opcode == 1 ==>
              Replies(s, f) == [Sent(2, s.children[i].id, Sender(f), Card(f))]
  {
    hide TargetOf, Addressed, NotAddressed;
    TargetMeans(s.children, f);
  }

  /**
   A frame from a sender already resolved gives its entry the new hardware
   address and its whole life time again, and is answered if it asks for a child.
   */
  lemma {:induction false} FrameMerges(s: State, payload: seq<byte>, protocolType: nat, granted: bool, i: int)
    requires Decode(payload).Some? && !Ignored(s, Decode(payload).value, protocolType)
    requires First(s.resolved, For(Sender(Decode(payload).value)), i)
    ensures var f := Decode(payload).value;
            var e := s.resolved[i];
            Receive(s, payload, protocolType, granted) ==
            s.(resolved := s.resolved[i := e.(hw := Card(f), decay := e.defaultDecay)], sent := s.sent + Replies(s, f))
  {
    hide Decode, Accepted, Ignored, FindNext, TargetOf;
    var f := Decode(payload).value;
    AcceptedMeans(s, f, protocolType);
    FindsProto(s.resolved, SenderProto(f));
    OneFirst(s.resolved, For(Sender(f)), i, FindNext(s.resolved, 0, Some(SenderProto(f)), None));
    assert s.sent + [] == s.sent;
  }

  /** A frame from a sender not yet resolved that asks for no child changes nothing. */
  lemma {:induction false} FramePasses(s: State, payload: seq<byte>, protocolType: nat, granted: bool)
    requires Decode(payload).Some? && !Ignored(s, Decode(payload).value, protocolType)
    requires Absent(s.resolved, For(Sender(Decode(payload).value))) && NotAddressed(s.children, Decode(payload).value)
    ensures Receive(s, payload, protocolType, granted) == s
  {
    hide Decode, Accepted, Ignored, FindNext, TargetOf, NotAddressed;
    var f := Decode(payload).value;
    AcceptedMeans(s, f, protocolType);
    TargetMeans(s.children, f);
    FindsProto(s.resolved, SenderProto(f));
  }

  /**
   A frame that asks for a child, from a sender not yet resolved but waited for:
   the pending entry becomes the newest resolved one with the sender's hardware
   address, and its requests complete in order.
   */
  lemma {:induction false} FrameAnswers(s: State, payload: seq<byte>, protocolType: nat, granted: bool, i: int)
    requires Decode(payload).Some? && !Ignored(s, Decode(payload).value, protocolType)
    requires Absent(s.resolved, For(Sender(Decode(payload).value))) && !NotAddressed(s.children, Decode(payload).value)
    requires First(s.pending, For(Sender(Decode(payload).value)), i)
    ensures var f := Decode(payload).value;
            var e := s.pending[i];
            Receive(s, payload, protocolType, granted) ==
            s.(pending := s.pending[..i] + s.pending[i + 1..],
               resolved := [e.(hw := Card(f), requests := [])] + s.resolved,
               signals := s.signals + Completed(e.requests, Sender(f), f.senderHw),
               sent := s.sent + Replies(s, f))
  {
    hide Decode, Accepted, Ignored, FindNext, TargetOf, NotAddressed, Deliver;
    var f := Decode(payload).value;
    AcceptedMeans(s, f, protocolType);
    TargetMeans(s.children, f);
    FindsProto(s.resolved, SenderProto(f));
    FindsProto(s.pending, SenderProto(f));
    OneFirst(s.pending, For(Sender(f)), i, FindNext(s.pending, 0, Some(SenderProto(f)), None));
    var e := s.pending[i].(proto := SenderProto(f).Stored(), hw := SenderHw(f).Stored());
    DeliverCompletes(e.requests, e);
    assert s.sent + [] == s.sent;
  }

  /**
   The same from a sender that nobody waits for: a new entry with the default
   times becomes the newest resolved one. Without memory for it nothing happens,
   and nobody replies.
   */
  lemma {:induction false} FrameLearns(s: State, payload: seq<byte>, protocolType: nat, granted: bool)
    requires Decode(payload).Some? && !Ignored(s, Decode(payload).value, protocolType)
    requires Absent(s.resolved, For(Sender(Decode(payload).value))) && !NotAddressed(s.children, Decode(payload).value)
    requires Absent(s.pending, For(Sender(Decode(payload).value)))
    ensures var f := Decode(payload).value;
            Receive(s, payload, protocolType, granted) ==
            if !granted then s
            else s.(resolved := [Entry(Sender(f), Card(f), 2, 50_000, 4_000_000_000, 4_000_000_000, [])] + s.resolved,
                    sent := s.sent + Replies(s, f))
  {
    hide Decode, Accepted, Ignored, FindNext, TargetOf, NotAddressed;
    var f := Decode(payload).value;
    AcceptedMeans(s, f, protocolType);
    TargetMeans(s.children, f);
    FindsProto(s.resolved, SenderProto(f));
    FindsProto(s.pending, SenderProto(f));
    assert s.sent + [] == s.sent && s.signals + [] == s.signals;
  }

  // ---------- Add ----------

  /** The protocol address that a call stores; none given is all zero. */
  function ProtoOf(c: Config, sw: Option<seq<byte>>): Address {
    Address(c.swType, if sw.Some? then Read(sw.value, c.swLen) else Zeros(c.swLen))
  }

  function HwOf(link: Link, hw: Option<seq<byte>>): Address {
    Address(link.ifType, if hw.Some? then Read(hw.value, link.hwSize) else Zeros(link.hwSize))
  }

  /** Resolved entries that a call would take over: both addresses agree, one not given by kind and length only. */
  function Agreeing(c: Config, link: Link, sw: Option<seq<byte>>, hw: Option<seq<byte>>): Entry -> bool {
    (e: Entry) =>
      && e.proto.kind == c.swType && |e.proto.bytes| == c.swLen && (sw.Some? ==> e.proto == ProtoOf(c, sw))
      && e.hw.kind == link.ifType && |e.hw.bytes| == link.hwSize && (hw.Some? ==> e.hw == HwOf(link, hw))
  }

  lemma {:induction false} FindsBoth(table: seq<Entry>, c: Config, link: Link, sw: Option<seq<byte>>, hw: Option<seq<byte>>)
    ensures var i := FindNext(table, 0, Some(ProtoKey(c, sw)), Some(HwKey(link, hw)));
            if i < |table| then First(table, Agreeing(c, link, sw, hw), i) else Absent(table, Agreeing(c, link, sw, hw))
  {
    hide FindNext;
    FindNextIsFirst(table, 0, Some(ProtoKey(c, sw)), Some(HwKey(link, hw)));
  }

  /** The table and the entry that ArpAdd takes over. */
  ghost predicate TakesOver(s: State, c: Config, sw: Option<seq<byte>>, hw: Option<seq<byte>>, p: Place) {
    var denyProto := sw.Some? && !Absent(s.denied, For(ProtoOf(c, sw)));
    var denyHw := hw.Some? && !Absent(s.denied, With(HwOf(s.link, hw)));
    var both := Agreeing(c, s.link, sw, hw);
    if denyProto then p.InDenied? && First(s.denied, For(ProtoOf(c, sw)), p.i)
    else if denyHw then p.InDenied? && First(s.denied, With(HwOf(s.link, hw)), p.i)
    else if !Absent(s.resolved, both) then p.InResolved? && First(s.resolved, both, p.i)
    else if sw.Some? && !Absent(s.pending, For(ProtoOf(c, sw))) then
      p.InPending? && First(s.pending, For(ProtoOf(c, sw)), p.i)
    else p.Nowhere?
  }

  lemma {:induction false} AddPlaceMeans(s: State, c: Config, sw: Option<seq<byte>>, hw: Option<seq<byte>>)
    ensures TakesOver(s, c, sw, hw, AddPlace(s, ProtoKey(c, sw), HwKey(s.link, hw)))
    ensures CachedPlace(s, ProtoKey(c, sw), HwKey(s.link, hw)).Nowhere? <==>
            var p := AddPlace(s, ProtoKey(c, sw), HwKey(s.link, hw)); p.InPending? || p.Nowhere?
  {
    hide FindNext, First, Absent, Agreeing;
    var pk, hk := ProtoKey(c, sw), HwKey(s.link, hw);
    if sw.Some? {
      FindsProto(s.denied, pk);
      FindsProto(s.pending, pk);
    }
    if hw.Some? {
      FindsHw(s.denied, hk);
    }
    FindsBoth(s.resolved, c, s.link, sw, hw);
    AtMostOne(s.denied, For(ProtoOf(c, sw)));
    AtMostOne(s.denied, With(HwOf(s.link, hw)));
    AtMostOne(s.resolved, Agreeing(c, s.link, sw, hw));
    AtMostOne(s.pending, For(ProtoOf(c, sw)));
  }

  lemma {:induction false} AtMostOne(table: seq<Entry>, p: Entry -> bool)
    ensures forall i :: First(table, p, i) ==> !Absent(table, p)
  {
  }

  /** What the caller of ArpAdd may not do. */
  predicate Misused(deny: bool, sw: Option<seq<byte>>, hw: Option<seq<byte>>) {
    if deny then sw.Some? == hw.Some? else sw.None? || hw.None?
  }

  /**
   The status of ArpAdd: an entry already cached is only replaced on request, and
   only an entry that takes over nothing needs memory.
   */
  lemma {:induction false} AddStatus(s: State, id: nat, deny: bool, sw: Option<seq<byte>>, hw: Option<seq<byte>>,
                                     timeout: nat, overwrite: bool, granted: bool)
    ensures var status := Add(s, id, deny, sw, hw, timeout, overwrite, granted).1;
            var c := Lookup(s.children, id);
            if c.None? || Misused(deny, sw, hw) then status == InvalidParameter
            else if !c.value.configured then status == NotStarted
            else
              exists p :: TakesOver(s, c.value.config, sw, hw, p) &&
                status == if (p.InDenied? || p.InResolved?) && !overwrite then AccessDenied
                          else if p.Nowhere? && !granted then OutOfResources
                          else Success
    ensures Add(s, id, deny, sw, hw, timeout, overwrite, granted).1 != Success ==>
              Add(s, id, deny, sw, hw, timeout, overwrite, granted).0 == s
  {
    hide Lookup, CachedPlace, AddPlace, TakesOver, Settle, TakeOut, Taken;
    var c := Lookup(s.children, id);
    if c.Some? {
      AddPlaceMeans(s, c.value.config, sw, hw);
    }
  }

  /** `t` is `s` after the entry at `p` is gone and its requests completed for `a` and `h`. */
  ghost predicate TookOut(s: State, t: State, p: Place, a: Address, h: Address) {
    match p
    case InDenied(i) =>
      i < |s.denied| && t == s.(denied := s.denied[..i] + s.denied[i + 1..])
    case InResolved(i) =>
      i < |s.resolved| && t == s.(resolved := s.resolved[..i] + s.resolved[i + 1..])
    case InPending(i) =>
      && i < |s.pending|
      && t == s.(pending := s.pending[..i] + s.pending[i + 1..],
                 signals := s.signals + Completed(s.pending[i].requests, a, h.bytes))
    case Nowhere => t == s
  }

  /**
   A successful ArpAdd takes over one entry or none, completes the requests that
   waited in it with the added hardware address, and puts an entry with the two
   addresses and the given life time at the head of the table asked for.
   */
  lemma {:induction false} AddEffect(s: State, id: nat, deny: bool, sw: Option<seq<byte>>, hw: Option<seq<byte>>,
                                     timeout: nat, overwrite: bool, granted: bool) returns (p: Place)
    requires Inv(s) && Add(s, id, deny, sw, hw, timeout, overwrite, granted).1 == Success
    ensures Lookup(s.children, id).Some?
    ensures var t := Add(s, id, deny, sw, hw, timeout, overwrite, granted).0;
            var c := Lookup(s.children, id).value.config;
            var a, h := ProtoOf(c, sw), HwOf(s.link, hw);
            var table := if deny then t.denied else t.resolved;
            && TakesOver(s, c, sw, hw, p)
            && table != [] && IsAdded(table[0], a, h, timeout)
            && TookOut(s, if deny then t.(denied := table[1..]) else t.(resolved := table[1..]), p, a, h)
  {
    hide Lookup, CachedPlace, AddPlace, TakesOver, TookOut, Inv, Settle, TakeOut, Taken, Renewed, Completed;
    var c := Lookup(s.children, id).value.config;
    var pk, hk := ProtoKey(c, sw), HwKey(s.link, hw);
    AddPlaceMeans(s, c, sw, hw);
    p := AddPlace(s, pk, hk);
    var e := Renewed(Taken(s, p, NewEntry(c, pk, hk)), pk, hk, timeout);
    SettleEffect(TakeOut(s, p), e, deny);
    TakeOutEffect(s, p, NewEntry(c, pk, hk), pk, hk, timeout);
  }

  lemma {:induction false} SettleEffect(s: State, e: Entry, deny: bool)
    ensures var t := Settle(s, e, deny);
            var table := if deny then t.denied else t.resolved;
            && table != [] && table[0] == e.(requests := [])
            && (if deny then t.(denied := table[1..]) else t.(resolved := table[1..])) ==
               s.(signals := s.signals + Completed(e.requests, e.proto, e.hw.bytes))
  {
    hide Deliver, Completed;
    DeliverCompletes(e.requests, e);
    var t := Settle(s, e, deny);
    if deny {
      assert t.denied[1..] == s.denied;
    } else {
      assert t.resolved[1..] == s.resolved;
    }
  }

  lemma {:induction false} TakeOutEffect(s: State, p: Place, blank: Entry, pk: Key, hk: Key, timeout: nat)
    requires Inv(s) && blank.requests == []
    requires p.InDenied? ==> p.i < |s.denied|
    requires p.InResolved? ==> p.i < |s.resolved|
    requires p.InPending? ==> p.i < |s.pending|
    ensures var e := Renewed(Taken(s, p, blank), pk, hk, timeout);
            var t := TakeOut(s, p);
            && IsAdded(e.(requests := []), pk.Stored(), hk.Stored(), timeout)
            && TookOut(s, t.(signals := t.signals + Completed(e.requests, e.proto, e.hw.bytes)), p, pk.Stored(), hk.Stored())
  {
    hide Inv, Completed;
    CachedHaveNoRequests(s);
    var e := Renewed(Taken(s, p, blank), pk, hk, timeout);
    assert e.requests == [] ==> s.signals + Completed(e.requests, e.proto, e.hw.bytes) == s.signals by {
      NothingCompleted(e.proto, e.hw.bytes);
    }
  }

  lemma {:induction false} NothingCompleted(a: Address, hw: seq<byte>)
    ensures Completed([], a, hw) == []
  {
  }

  /** An entry as ArpAdd stores it. */
  predicate IsAdded(e: Entry, a: Address, h: Address, timeout: nat) {
    e.proto == a && e.hw == h && e.defaultDecay == timeout && e.decay == timeout && e.requests == []
  }

  lemma {:induction false} CachedHaveNoRequests(s: State)
    requires Inv(s)
    ensures forall i :: 0 <= i < |s.denied| ==> s.denied[i].requests == []
    ensures forall i :: 0 <= i < |s.resolved| ==> s.resolved[i].requests == []
  {
    hide Distinct, SoleDeny, Conserved, PendingOk, ChildrenOk;
    forall i | 0 <= i < |s.denied| ensures s.denied[i].requests == [] {
      assert Settled(s.link, s.denied[i]);
    }
    forall i | 0 <= i < |s.resolved| ensures s.resolved[i].requests == [] {
      assert Settled(s.link, s.resolved[i]);
    }
  }

  /**
   What a successful ArpAdd stored stays at the head of its table through n ticks
   exactly if it is static (time-out zero) or its time-out is longer than n timer
   intervals of 500 ms; otherwise it is gone. The entries below age on their own.
   */
  lemma {:induction false} AddedLives(s: State, id: nat, deny: bool, sw: Option<seq<byte>>, hw: Option<seq<byte>>,
                                      timeout: nat, overwrite: bool, granted: bool, n: nat)
    requires Inv(s) && Add(s, id, deny, sw, hw, timeout, overwrite, granted).1 == Success && n > 0
    ensures Lookup(s.children, id).Some?
    ensures var t := Add(s, id, deny, sw, hw, timeout, overwrite, granted).0;
            var u := Ticks(t, n);
            var before, after := if deny then t.denied else t.resolved, if deny then u.denied else u.resolved;
            && before != []
            && (if timeout == 0 || timeout > n * 5_000_000 then
                  && after != [] && after[1..] == Survivors(before[1..], n)
                  && after[0].proto == ProtoOf(Lookup(s.children, id).value.config, sw) && after[0].hw == HwOf(s.link, hw)
                  && after[0].decay == (if timeout == 0 then 0 else timeout - n * 5_000_000)
                else after == Survivors(before[1..], n))
  {
    hide Lookup, Inv, Ticks, TakesOver, TookOut, Add;
    var p := AddEffect(s, id, deny, sw, hw, timeout, overwrite, granted);
    var t := Add(s, id, deny, sw, hw, timeout, overwrite, granted).0;
    Ageing(t, n);
  }

  // ---------- Request ----------

  /** 255.255.255.255, or no address at all. */
  predicate AsksEveryone(c: Config, sw: Option<seq<byte>>) {
    sw.None? || (c.swType == 0x0800 && forall k :: 0 <= k < 4 ==> Read(sw.value, 4)[k] == 255)
  }

  /** 224.0.0.0 to 239.255.255.255. */
  predicate AsksGroup(c: Config, sw: Option<seq<byte>>) {
    sw.Some? && c.swType == 0x0800 && 224 <= Read(sw.value, 4)[0] <= 239
  }

  lemma {:induction false} KindsOfAddress(c: Config, sw: seq<byte>)
    ensures Broadcast(c, sw) <==> AsksEveryone(c, Some(sw))
    ensures Multicast(c, sw) <==> AsksGroup(c, Some(sw))
  {
    var ip := Read(sw, 4);
    if AsksEveryone(c, Some(sw)) {
      assert ip == [255, 255, 255, 255];
    }
    assert ip[0] / 16 == 14 <==> 224 <= ip[0] <= 239;
  }

  /**
   ArpRequest that is answered at once: everyone has the broadcast address, a
   group what the driver below maps it to. The event is signalled on success.
   */
  lemma {:induction false} RequestMapped(s: State, id: nat, sw: Option<seq<byte>>, event: Option<nat>, bufferGiven: bool,
                                         mapped: (Status, Option<seq<byte>>), contextGranted: bool, entryGranted: bool)
    ensures var c := Lookup(s.children, id);
            var (t, answer) := AskFor(s, id, sw, event, bufferGiven, mapped, contextGranted, entryGranted);
            if c.None? || !bufferGiven then t == s && answer == Answer(InvalidParameter, None, false)
            else if !c.value.configured then t == s && answer == Answer(NotStarted, None, false)
            else if AsksEveryone(c.value.config, sw) then
              t == s && answer == Answer(Success, Some(Read(s.link.broadcast, s.link.hwSize)), event.Some?)
            else if AsksGroup(c.value.config, sw) then
              t == s && answer == Answer(mapped.0, mapped.1, event.Some? && mapped.0 == Success)
            else true
  {
    hide Lookup, FindNext, FindDenied, Enqueue, AsksEveryone, AsksGroup, Broadcast, Multicast;
    var c := Lookup(s.children, id);
    if c.Some? && sw.Some? {
      KindsOfAddress(c.value.config, sw.value);
    } else if c.Some? {
      NobodyIsEveryone(c.value.config);
    }
  }

  lemma {:induction false} NobodyIsEveryone(c: Config)
    ensures AsksEveryone(c, None)
  {
  }

  /** What one host's address gets: refused if denied, the newest resolved entry, or a place in the queue. */
  lemma {:induction false} RequestLooksUp(s: State, id: nat, sw: seq<byte>, event: Option<nat>,
                                          mapped: (Status, Option<seq<byte>>), contextGranted: bool, entryGranted: bool)
    requires Inv(s) && Lookup(s.children, id).Some? && Lookup(s.children, id).value.configured
    requires var c := Lookup(s.children, id).value.config; !AsksEveryone(c, Some(sw)) && !AsksGroup(c, Some(sw))
    ensures var inst := Lookup(s.children, id).value;
            var a, zero := ProtoOf(inst.config, Some(sw)), Zeros(s.link.hwSize);
            var (t, answer) := AskFor(s, id, Some(sw), event, true, mapped, contextGranted, entryGranted);
            var full := !contextGranted || (Absent(s.pending, For(a)) && !entryGranted);
            if !Absent(s.denied, For(a)) then t == s && answer == Answer(AccessDenied, Some(zero), false)
            else if !Absent(s.resolved, For(a)) then
              t == s && exists i :: First(s.resolved, For(a), i)
                                    && answer == Answer(Success, Some(s.resolved[i].hw.bytes), event.Some?)
            else if event.None? then t == s && answer == Answer(NotReady, Some(zero), false)
            else if full then t == s && answer == Answer(OutOfResources, Some(zero), false)
            else answer == Answer(NotReady, Some(zero), false) && Queued(s, t, inst, a, event.value)
  {
    hide Lookup, FindNext, AsksEveryone, AsksGroup, Broadcast, Multicast, Inv, First, Absent, Enqueue, Queued;
    var inst := Lookup(s.children, id).value;
    var pk := ProtoKey(inst.config, Some(sw));
    KindsOfAddress(inst.config, sw);
    FindsProto(s.denied, pk);
    FindsProto(s.resolved, pk);
    FindsProto(s.pending, pk);
    AtMostOne(s.denied, For(pk.Stored()));
    AtMostOne(s.resolved, For(pk.Stored()));
    AtMostOne(s.pending, For(pk.Stored()));
    if event.Some? {
      LookupId(s.children, id);
      EnqueueQueues(s, inst, pk, event.value);
    }
  }

  /**
   A request with a new identity waits for `a`: at the front of the entry for
   `a`, whose retries start again, or in a new last entry. One request frame is sent.
   */
  ghost predicate Queued(s: State, t: State, inst: Instance, a: Address, event: nat) {
    var r := Request(s.nextRequest, inst.id, event, a);
    var c, zero := inst.config, Address(s.link.ifType, Zeros(s.link.hwSize));
    && t == s.(pending := t.pending, nextRequest := s.nextRequest + 1, sent := s.sent + [Sent(1, inst.id, a, zero)])
    && (Absent(s.pending, For(a)) ==>
          t.pending == s.pending + [Entry(a, zero, c.retryCount, c.retryTimeOut, c.entryTimeOut, c.entryTimeOut, [r])])
    && (forall i :: First(s.pending, For(a), i) ==>
          var e := s.pending[i];
          t.pending == s.pending[i := e.(retryCount := c.retryCount, nextRetry := c.retryTimeOut, requests := [r] + e.requests)])
  }

  lemma {:induction false} EnqueueQueues(s: State, inst: Instance, pk: Key, event: nat)
    requires Inv(s) && pk.Valid() && pk.bytes.Some?
    ensures Queued(s, Enqueue(s, inst, pk, event), inst, pk.Stored(), event)
  {
    hide FindNext, Inv;
    FindsProto(s.pending, pk);
    var i := FindNext(s.pending, 0, Some(pk), None);
    if i < |s.pending| {
      PendingZero(s, i);
      forall j | First(s.pending, For(pk.Stored()), j) ensures i == j {
        OneFirst(s.pending, For(pk.Stored()), i, j);
      }
    }
    assert forall r: Request :: [r] + [] == [r];
  }

  lemma {:induction false} PendingZero(s: State, i: nat)
    requires Inv(s) && i < |s.pending|
    ensures s.pending[i].hw == Address(s.link.ifType, Zeros(s.link.hwSize))
  {
    hide Distinct, SoleDeny, Conserved, Serves;
    assert Waiting(s.link, s.children, s.pending[i]);
  }

  // ---------- Configure ----------

  /** A child with the times that were given, or 400 s, 2 retries and 5 ms where none were. */
  predicate HasTimes(c: Config, given: Config) {
    && c.entryTimeOut == (if given.entryTimeOut == 0 then 4_000_000_000 else given.entryTimeOut)
    && c.retryCount == (if given.retryCount == 0 then 2 else given.retryCount)
    && c.retryTimeOut == (if given.retryTimeOut == 0 then 50_000 else given.retryTimeOut)
  }

  predicate HasAddress(c: Config, given: Config) {
    c.swType == given.swType && c.swLen == given.swLen && c.station == Read(given.station, given.swLen)
  }

  /** 0.0.0.0 or 255.255.255.255. */
  predicate NoStation(given: Config) {
    given.swType == 0x0800 &&
    var ip := Read(given.station, 4);
    (forall k :: 0 <= k < 4 ==> ip[k] == 0) || (forall k :: 0 <= k < 4 ==> ip[k] == 255)
  }

  lemma {:induction false} UnusableMeans(given: Config)
    ensures NoStation(given) <==> given.swType == IPV4_ETHER_PROTO_TYPE && Unusable(given.station)
  {
    var ip := Read(given.station, 4);
    if forall k :: 0 <= k < 4 ==> ip[k] == 0 {
      assert ip == [0, 0, 0, 0];
    }
    if forall k :: 0 <= k < 4 ==> ip[k] == 255 {
      assert ip == [255, 255, 255, 255];
    }
  }

  /**
   ArpConfigure with configuration data: a configured child keeps its address for
   good and may change its times; an unconfigured one takes a usable address. No
   other child and nothing else changes.
   */
  lemma {:induction false} ConfigureEffect(s: State, id: nat, given: Config, stationGiven: bool, granted: bool)
    ensures var (t, status) := Configure(s, id, Some(given), stationGiven, granted);
            var was, now := Lookup(s.children, id), Lookup(t.children, id);
            && t == s.(children := t.children)
            && (forall j :: j != id ==> Lookup(t.children, j) == Lookup(s.children, j))
            && (if was.None? || given.swLen == 0 || !stationGiven || given.swType <= 1500 then
                  t == s && status == InvalidParameter
                else if was.value.configured then
                  if !HasAddress(was.value.config, given) then t == s && status == AccessDenied
                  else
                    && status == Success && now.Some? && now.value.configured
                    && HasAddress(now.value.config, given) && HasTimes(now.value.config, given)
                else if NoStation(given) then t == s && status == InvalidParameter
                else if !granted then status == OutOfResources && now.Some? && !now.value.configured
                else
                  && status == Success && now.Some? && now.value.configured
                  && HasAddress(now.value.config, given) && HasTimes(now.value.config, given))
  {
    hide Lookup, Update, Unusable, NoStation;
    UnusableMeans(given);
    LookupId(s.children, id);
    if Lookup(s.children, id).Some? {
      var inst := ConfigureInstance(Lookup(s.children, id).value, given, granted).0;
      UpdateSame(s.children, id);
      forall j ensures Lookup(Update(s.children, id, inst), j) == if j == id then Some(inst) else Lookup(s.children, j) {
        LookupUpdate(s.children, id, inst, j);
      }
    }
  }

  lemma {:induction false} UpdateSame(children: seq<Instance>, id: nat)
    requires Lookup(children, id).Some?
    ensures Update(children, id, Lookup(children, id).value) == children
  {
    if children[0].id == id {
      assert children == [children[0]] + children[1..];
    } else {
      UpdateSame(children[1..], id);
      assert children == [children[0]] + children[1..];
    }
  }

  /**
   ArpConfigure without data: the child is unconfigured, all its requests complete
   with zeros, and the requests of others and the caches stay.
   */
  lemma {:induction false} ResetEffect(s: State, id: nat)
    requires Inv(s) && Lookup(s.children, id).Some?
    ensures var (t, status) := Configure(s, id, None, true, true);
            && status == Success && t.denied == s.denied && t.resolved == s.resolved && t.sent == s.sent
            && Lookup(t.children, id) == Some(Lookup(s.children, id).value.(configured := false))
            && (forall j :: j != id ==> Lookup(t.children, j) == Lookup(s.children, j))
            && (forall a, r :: Linked(t.pending, a, r) <==> Linked(s.pending, a, r) && r.owner != id)
            && s.signals <= t.signals
            && (forall g :: g in t.signals[|s.signals|..] <==>
                  g.hw == Zeros(s.link.hwSize) && Linked(s.pending, g.target, g.request) && g.request.owner == id)
  {
    hide Inv, Lookup, Update, CancelPending, CancelSignals, Linked;
    var inst := Lookup(s.children, id).value;
    LookupId(s.children, id);
    forall j ensures Lookup(Update(s.children, id, inst.(configured := false)), j) ==
                     if j == id then Some(inst.(configured := false)) else Lookup(s.children, j) {
      LookupUpdate(s.children, id, inst.(configured := false), j);
    }
    OwnRequestsEnd(s, id);
    if !inst.configured {
      IdleHasNone(s, inst);
    } else {
      var t := Configure(s, id, None, true, true).0;
      assert t.signals[|s.signals|..] == CancelSignals(s.pending, None, Some(id), None);
    }
  }

  lemma {:induction false} IdleHasNone(s: State, inst: Instance)
    requires Inv(s) && Lookup(s.children, inst.id) == Some(inst) && !inst.configured
    ensures forall a, r :: Linked(s.pending, a, r) ==> r.owner != inst.id
  {
    hide Inv, Lookup, Linked;
    IdleOwnsNothing(s, inst);
    forall a, r | Linked(s.pending, a, r) ensures r.owner != inst.id {
      var i := LinkedEntry(s.pending, a, r);
      assert s.pending[i] in s.pending;
    }
  }

  lemma {:induction false} LinkedEntry(table: seq<Entry>, a: Address, r: Request) returns (i: nat)
    requires Linked(table, a, r)
    ensures i < |table| && table[i].proto == a && r in table[i].requests
  {
    if table[0].proto == a && r in table[0].requests {
      i := 0;
    } else {
      i := LinkedEntry(table[1..], a, r);
      i := i + 1;
    }
  }

  // ---------- Children ----------

  /** A new child is the last one, not configured, under an identity never used before. */
  lemma {:induction false} CreateEffect(s: State, granted: bool)
    requires Inv(s)
    ensures var (t, status) := CreateChild(s, granted);
            if !granted then t == s && status == OutOfResources
            else
              && status == Success && |t.children| == |s.children| + 1 && t.children[..|s.children|] == s.children
              && var c := t.children[|s.children|];
                 && !c.configured && (forall d :: d in s.children ==> d.id != c.id) && c.id < t.nextChild
                 && t == s.(children := t.children, nextChild := t.nextChild)
  {
    hide Distinct, SoleDeny, Conserved, PendingOk, CacheOk;
    assert ChildrenOk(s.children, s.nextChild);
  }

  /**
   A child goes only if its protocol can be taken off its handle. A configured one
   takes both caches and its own requests with it, which complete with zeros.
   */
  lemma {:induction false} DestroyEffect(s: State, id: nat, uninstalled: bool)
    requires Inv(s)
    ensures var (t, status) := DestroyChild(s, id, uninstalled);
            var was := Lookup(s.children, id);
            if was.None? then t == s && status == Unsupported
            else if !uninstalled then t == s && status == DeviceError
            else
              && status == Success && (forall j :: j != id ==> Lookup(t.children, j) == Lookup(s.children, j))
              && (if was.value.configured then t.denied == [] && t.resolved == []
                  else t == s.(children := t.children))
              && (forall a, r :: Linked(t.pending, a, r) <==> Linked(s.pending, a, r) && r.owner != id)
              && s.signals <= t.signals
              && (forall g :: g in t.signals[|s.signals|..] <==>
                    g.hw == Zeros(s.link.hwSize) && Linked(s.pending, g.target, g.request) && g.request.owner == id)
  {
    hide Inv, Lookup, Update, Remove, CancelPending, CancelSignals, Linked, DeleteFrom;
    var was := Lookup(s.children, id);
    LookupId(s.children, id);
    if was.Some? && uninstalled {
      var inst := was.value;
      DeleteEverything(s.denied, inst.config.swType);
      DeleteEverything(s.resolved, inst.config.swType);
      var off := Update(s.children, id, inst.(configured := false));
      forall j | j != id
        ensures Lookup(Remove(s.children, id), j) == Lookup(s.children, j)
        ensures Lookup(Remove(off, id), j) == Lookup(s.children, j)
      {
        LookupRemove(s.children, id, j);
        LookupRemove(off, id, j);
        LookupUpdate(s.children, id, inst.(configured := false), j);
      }
      OwnRequestsEnd(s, id);
      if !inst.configured {
        IdleHasNone(s, inst);
      } else {
        var t := DestroyChild(s, id, uninstalled).0;
        assert t.signals[|s.signals|..] == CancelSignals(s.pending, None, Some(id), None);
      }
    }
  }

  /** Cancelling everything of one owner. */
  lemma {:induction false} OwnRequestsEnd(s: State, id: nat)
    requires Inv(s)
    ensures forall a, r :: Linked(CancelPending(s.pending, None, Some(id), None), a, r) <==>
                           Linked(s.pending, a, r) && r.owner != id
    ensures forall g :: g in CancelSignals(s.pending, None, Some(id), None) <==>
                        g.hw == Zeros(s.link.hwSize) && Linked(s.pending, g.target, g.request) && g.request.owner == id
  {
    hide Inv, CancelPending, CancelSignals, Linked;
    InvPending(s);
    forall a, r
      ensures Linked(CancelPending(s.pending, None, Some(id), None), a, r) <==> Linked(s.pending, a, r) && r.owner != id
    {
      CancelLinks(s.pending, None, id, None, a, r);
    }
    forall g
      ensures g in CancelSignals(s.pending, None, Some(id), None) <==>
              g.hw == Zeros(s.link.hwSize) && Linked(s.pending, g.target, g.request) && g.request.owner == id
    {
      CancelSends(s.pending, None, id, None, Zeros(s.link.hwSize), g);
    }
  }

  /** Calls on a child that does not exist or is not configured, and calls with arguments at odds, do nothing. */
  lemma {:induction false} Refusals(s: State, id: nat, bySw: bool, addr: Option<seq<byte>>, event: Option<nat>,
                                    refresh: bool, counted: bool, sized: bool, listed: bool, granted: bool)
    ensures var c := Lookup(s.children, id);
            var refused := if c.None? then InvalidParameter else NotStarted;
            && (c.None? || !c.value.configured ==>
                  Delete(s, id, bySw, addr) == (s, refused) && Flush(s, id) == (s, refused))
            && (c.None? || (addr.Some? && event.None?) || (addr.None? && event.Some?) ==>
                  Cancel(s, id, addr, event) == (s, InvalidParameter))
            && (c.Some? && !c.value.configured && (addr.Some? <==> event.Some?) ==>
                  Cancel(s, id, addr, event) == (s, NotStarted))
            && var wants := (refresh || counted || sized) && (listed ==> counted && sized);
               var found := Find(s, id, bySw, addr, refresh, counted, sized, listed, granted);
               && (c.None? || !wants ==> found == (s, InvalidParameter, []))
               && (c.Some? && !c.value.configured && wants ==> found == (s, NotStarted, []))
  {
    hide Lookup;
  }
}
