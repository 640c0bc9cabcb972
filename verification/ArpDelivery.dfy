/** What callers get: addresses after a frame or an addition, and truthful completions over whole runs. */
module ArpDelivery {
  import opened Bytes
  import opened ArpTypes
  import opened ArpFrame
  import opened ArpSteps
  import opened ArpTables
  import opened ArpInvariant
  import opened ArpProperties

  // ---------- A frame resolves its sender ----------

  /** The first resolved entry for `k`, if any, has hardware address `hw`. */
  ghost predicate ResolvesTo(s: State, k: Key, hw: seq<byte>) {
    var i := FindNext(s.resolved, 0, Some(k), None);
    i < |s.resolved| && s.resolved[i].hw.bytes == hw
  }

  lemma {:induction false} HeadFirst(e: Entry, rest: seq<Entry>, k: Key)
    requires k.Valid() && k.bytes.Some? && e.proto == k.Stored()
    ensures FindNext([e] + rest, 0, Some(k), None) == 0
  {
    MatchIsEquality(k, e.proto);
  }

  /** Replacing the first match by an entry with the same address leaves it the first match. */
  lemma {:induction false} SameFirst(table: seq<Entry>, from: nat, k: Key, i: nat, e: Entry)
    requires from <= |table| && i == FindNext(table, from, Some(k), None) < |table|
    requires e.proto == table[i].proto
    ensures FindNext(table[i := e], from, Some(k), None) == i
    decreases |table| - from
  {
    FindNextIsFirst(table, from, Some(k), None);
    if from < i {
      SameFirst(table, from + 1, k, i, e);
    }
  }

  lemma {:induction false} MergeResolves(s: State, f: Frame)
    requires FindNext(s.resolved, 0, Some(SenderProto(f)), None) < |s.resolved|
    ensures ResolvesTo(Merge(s, f), SenderProto(f), f.senderHw)
  {
    hide FindNext;
    var i := FindNext(s.resolved, 0, Some(SenderProto(f)), None);
    SameFirst(s.resolved, 0, SenderProto(f), i, Merge(s, f).resolved[i]);
  }

  lemma {:induction false} LearnResolves(s: State, f: Frame)
    ensures ResolvesTo(Learn(s, f), SenderProto(f), f.senderHw)
  {
    hide FindNext, Deliver;
    var t := Learn(s, f);
    HeadFirst(t.resolved[0], s.resolved, SenderProto(f));
  }

  /**
   A frame that is accepted and addressed to a child makes its sender resolve to
   the hardware address it gave. It leaves nothing pending for the sender exactly
   when the sender was not pending and resolved at once before.
   */
  lemma {:induction false} FrameResolves(s: State, payload: seq<byte>, protocolType: nat)
    requires Inv(s)
    requires Decode(payload).Some? && Accepted(s, Decode(payload).value, protocolType)
    requires TargetOf(s.children, Decode(payload).value).Some?
    ensures var f := Decode(payload).value;
            var t := Receive(s, payload, protocolType, true);
            var x := SenderProto(f).Stored();
            && ResolvesTo(t, SenderProto(f), f.senderHw)
            && (x !in Protos(t.pending) <==> !(x in Protos(s.pending) && x in Protos(s.resolved)))
  {
    hide Decode, Accepted, TargetOf, FindNext, Protos, Learn, Merge, SoleDeny, Conserved, Distinct, PendingOk;
    var f := Decode(payload).value;
    var known := FindNext(s.resolved, 0, Some(SenderProto(f)), None) < |s.resolved|;
    FindByProto(s.resolved, SenderProto(f));
    MergeProtos(s, f);
    LearnProtos(s, f);
    if known {
      MergeResolves(s, f);
    } else {
      LearnResolves(s, f);
    }
  }

  // ---------- Add then request ----------

  lemma {:induction false} AddStores(s: State, pk: Key, hk: Key, e: Entry)
    requires pk.Valid() && pk.bytes.Some? && e.proto == pk.Stored()
    ensures var t := Settle(TakeOut(s, AddPlace(s, pk, hk)), e, false);
            && t.denied == TakeOut(s, AddPlace(s, pk, hk)).denied && t.children == s.children && t.link == s.link
            && ResolvesTo(t, pk, e.hw.bytes)
  {
    hide FindNext, AddPlace, Deliver;
    var t := Settle(TakeOut(s, AddPlace(s, pk, hk)), e, false);
    HeadFirst(t.resolved[0], t.resolved[1..], pk);
    assert t.resolved == [t.resolved[0]] + t.resolved[1..];
  }

  /**
   After a successful non-deny ArpAdd, a request for the same address by the
   same child is answered at once with the added hardware address, exactly when
   no deny entry for that address is left. None is left for an address that is
   not all zero.
   */
  lemma {:induction false} AddThenRequest(s: State, id: nat, sw: seq<byte>, hw: seq<byte>, timeout: nat, overwrite: bool,
                         granted: bool, event: Option<nat>, mapped: (Status, Option<seq<byte>>),
                         contextGranted: bool, entryGranted: bool)
    requires Inv(s)
    requires Add(s, id, false, Some(sw), Some(hw), timeout, overwrite, granted).1 == Success
    requires var c := Lookup(s.children, id).value.config; !Broadcast(c, sw) && !Multicast(c, sw)
    ensures var t := Add(s, id, false, Some(sw), Some(hw), timeout, overwrite, granted).0;
            var x := ProtoKey(Lookup(s.children, id).value.config, Some(sw)).Stored();
            && (AskFor(t, id, Some(sw), event, true, mapped, contextGranted, entryGranted) ==
                (t, Answer(Success, Some(Read(hw, s.link.hwSize)), event.Some?))
                <==> x !in Protos(t.denied))
            && (!AllZero(x.bytes) ==> x !in Protos(t.denied))
  {
    hide Lookup, FindNext, AddPlace, CachedPlace, TakeOut, Settle, Protos, SoleDeny, Conserved, Distinct, AllZero, PendingOk,
         CacheOk, ChildrenOk, Taken;
    var inst := Lookup(s.children, id).value;
    var pk, hk := ProtoKey(inst.config, Some(sw)), HwKey(s.link, Some(hw));
    var p := AddPlace(s, pk, hk);
    var e := Renewed(Taken(s, p, NewEntry(inst.config, pk, hk)), pk, hk, timeout);
    AddStores(s, pk, hk, e);
    AddDenyAlone(s, pk, hk);
    var t := Settle(TakeOut(s, p), e, false);
    DeniedByProto(t.denied, pk);
  }

  lemma {:induction false} DeniedByProto(denied: seq<Entry>, pk: Key)
    requires pk.Valid() && pk.bytes.Some?
    ensures FindDenied(denied, Some(pk), None) < |denied| <==> pk.Stored() in Protos(denied)
  {
    hide FindNext, Protos;
    FindByProto(denied, pk);
  }

  // ---------- Truthful delivery ----------

  /**
   A completion is for the address that was asked for, and delivers zeros or what
   this step learned about that address.
   */
  ghost predicate Explained(s: State, step: Step, g: Signal) {
    g.target == g.request.target && Source(s, step, g)
  }

  ghost predicate Source(s: State, step: Step, g: Signal) {
    || g.hw == Zeros(s.link.hwSize)
    || (&& step.AddStep? && !step.deny && step.sw.Some? && step.hw.Some? && Lookup(s.children, step.id).Some?
        && g.request.target == ProtoKey(Lookup(s.children, step.id).value.config, step.sw).Stored()
        && g.hw == Read(step.hw.value, s.link.hwSize))
    || (&& step.ReceiveStep? && Decode(step.payload).Some?
        && var f := Decode(step.payload).value;
           && Accepted(s, f, step.protocolType)
           && g.request.target == SenderProto(f).Stored() && g.hw == f.senderHw)
  }

  lemma {:induction false} DeliverContent(reqs: seq<Request>, e: Entry, g: Signal)
    requires g in Deliver(reqs, e)
    ensures g.target == e.proto && g.hw == e.hw.bytes && g.request in reqs
  {
    if g in Deliver(reqs[1..], e) {
      DeliverContent(reqs[1..], e, g);
    }
  }

  /** No hardware address yet, and requests for this address only. */
  ghost predicate AsksZero(link: Link, e: Entry) {
    e.hw.bytes == Zeros(link.hwSize) && forall r :: r in e.requests ==> r.target == e.proto
  }

  lemma {:induction false} ReleasedFrom(reqs: seq<Request>, owner: Option<nat>, event: Option<nat>, r: Request)
    requires r in Released(reqs, owner, event)
    ensures r in reqs
  {
    if r in Released(reqs[1..], owner, event) {
      ReleasedFrom(reqs[1..], owner, event, r);
    }
  }

  lemma {:induction false} TickDeliversZeros(link: Link, table: seq<Entry>, g: Signal)
    requires forall e :: e in table ==> AsksZero(link, e)
    requires g in TickSignals(table)
    ensures g.hw == Zeros(link.hwSize) && g.target == g.request.target
  {
    TickSignalsStep(table);
    if g in TickSignals(table[1..]) {
      TickDeliversZeros(link, table[1..], g);
    } else {
      DeliverContent(table[0].requests, table[0], g);
      assert AsksZero(link, table[0]);
    }
  }

  lemma {:induction false} CancelDeliversZeros(link: Link, table: seq<Entry>, sw: Option<seq<byte>>, owner: Option<nat>,
                                               event: Option<nat>, g: Signal)
    requires forall e :: e in table ==> AsksZero(link, e)
    requires g in CancelSignals(table, sw, owner, event)
    ensures g.hw == Zeros(link.hwSize) && g.target == g.request.target
  {
    if g in CancelSignals(table[1..], sw, owner, event) {
      CancelDeliversZeros(link, table[1..], sw, owner, event, g);
    } else {
      DeliverContent(Released(table[0].requests, owner, event), table[0], g);
      ReleasedFrom(table[0].requests, owner, event, g.request);
      assert AsksZero(link, table[0]);
    }
  }

  /** `t` has the completions of `s` and then `more`. */
  ghost predicate Extends(s: State, t: State, more: seq<Signal>) {
    t.signals == s.signals + more
  }

  /** What a step adds to the log. */
  function Emitted(s: State, step: Step): seq<Signal> {
    match step
    case DestroyStep(id, uninstalled) =>
      var found := Lookup(s.children, id);
      if found.Some? && uninstalled && found.value.configured then CancelSignals(s.pending, None, Some(id), None) else []
    case ConfigureStep(id, c, stationGiven, granted) =>
      var found := Lookup(s.children, id);
      if found.Some? && c.None? && found.value.configured then CancelSignals(s.pending, None, Some(id), None) else []
    case AddStep(id, deny, sw, hw, timeout, overwrite, granted) =>
      if Add(s, id, deny, sw, hw, timeout, overwrite, granted).1 != Success then []
      else
        var found := Lookup(s.children, id);
        if found.None? then []
        else
          var c := found.value.config;
          var pk, hk := ProtoKey(c, sw), HwKey(s.link, hw);
          var e := Renewed(Taken(s, AddPlace(s, pk, hk), NewEntry(c, pk, hk)), pk, hk, timeout);
          Deliver(e.requests, e)
    case CancelStep(id, sw, event) =>
      if Cancel(s, id, sw, event).1 == Success then CancelSignals(s.pending, sw, Some(id), event) else []
    case ReceiveStep(payload, protocolType, granted) =>
      var d := Decode(payload);
      if d.None? || !Accepted(s, d.value, protocolType) || TargetOf(s.children, d.value).None?
         || FindNext(s.resolved, 0, Some(SenderProto(d.value)), None) < |s.resolved| then []
      else
        var i := FindNext(s.pending, 0, Some(SenderProto(d.value)), None);
        if i == |s.pending| then []
        else
          var e := s.pending[i].(proto := SenderProto(d.value).Stored(), hw := SenderHw(d.value).Stored());
          Deliver(e.requests, e)
    case TickStep => TickSignals(s.pending)
    case _ => []
  }

  lemma {:induction false} EmittedByCalls(s: State, step: Step)
    requires !step.AddStep? && !step.ReceiveStep?
    ensures Extends(s, Next(s, step), Emitted(s, step))
  {
    hide CancelPending, CancelSignals, TickPending, TickCache, TickSignals, TickSent, DeleteFrom, RefreshFrom, Report, Matching,
         Lookup, Update, Remove, FindNext, FindDenied, ConfigureInstance;
    assert s.signals + [] == s.signals;
    match step
    case DestroyStep(id, uninstalled) => LookupId(s.children, id);
    case ConfigureStep(id, c, stationGiven, granted) => LookupId(s.children, id);
    case CancelStep(id, sw, event) =>
      if |CancelSignals(s.pending, sw, Some(id), event)| == 0 {
        assert CancelSignals(s.pending, sw, Some(id), event) == [];
      }
    case _ =>
  }

  lemma {:induction false} EmittedByAdd(s: State, step: Step)
    requires step.AddStep?
    ensures Extends(s, Next(s, step), Emitted(s, step))
  {
    hide Lookup, AddPlace, CachedPlace, Taken, Deliver;
    assert s.signals + [] == s.signals;
  }

  lemma {:induction false} EmittedByReceive(s: State, step: Step)
    requires step.ReceiveStep?
    ensures Extends(s, Next(s, step), Emitted(s, step))
  {
    hide Decode, Accepted, TargetOf, FindNext, Deliver;
    assert s.signals + [] == s.signals;
    assert Deliver([], NewDefaultEntry(Key(0, 0, None), Key(0, 0, None))) == [] by {
      DeliverNothing();
    }
    DeliverNothing();
  }

  lemma {:induction false} DeliverNothing()
    ensures forall e: Entry :: Deliver([], e) == []
  {
  }

  lemma {:induction false} LogGrows(s: State, step: Step)
    ensures Extends(s, Next(s, step), Emitted(s, step))
  {
    hide Next, Emitted, Extends;
    if step.AddStep? {
      EmittedByAdd(s, step);
    } else if step.ReceiveStep? {
      EmittedByReceive(s, step);
    } else {
      EmittedByCalls(s, step);
    }
  }

  lemma {:induction false} PendingAsksZero(s: State)
    requires Inv(s)
    ensures forall e :: e in s.pending ==> AsksZero(s.link, e)
  {
    forall e | e in s.pending ensures AsksZero(s.link, e) {
      assert Waiting(s.link, s.children, e);
    }
  }

  lemma {:induction false} EmittedExplained(s: State, step: Step, g: Signal)
    requires Inv(s) && g in Emitted(s, step)
    ensures Explained(s, step, g)
  {
    hide Inv, CancelSignals, TickSignals, Lookup, FindNext, AddPlace, CachedPlace, Taken, Deliver, Decode, Accepted, TargetOf;
    PendingAsksZero(s);
    match step
    case DestroyStep(id, uninstalled) => CancelDeliversZeros(s.link, s.pending, None, Some(id), None, g);
    case ConfigureStep(id, c, stationGiven, granted) => CancelDeliversZeros(s.link, s.pending, None, Some(id), None, g);
    case CancelStep(id, sw, event) => CancelDeliversZeros(s.link, s.pending, sw, Some(id), event, g);
    case TickStep => TickDeliversZeros(s.link, s.pending, g);
    case AddStep(id, deny, sw, hw, timeout, overwrite, granted) =>
      var c := Lookup(s.children, id).value.config;
      var pk, hk := ProtoKey(c, sw), HwKey(s.link, hw);
      var e := Renewed(Taken(s, AddPlace(s, pk, hk), NewEntry(c, pk, hk)), pk, hk, timeout);
      DeliverContent(e.requests, e, g);
      TakenAskedFor(s, pk, hk, NewEntry(c, pk, hk), g.request);
    case ReceiveStep(payload, protocolType, granted) =>
      var f := Decode(payload).value;
      var i := FindNext(s.pending, 0, Some(SenderProto(f)), None);
      var e := s.pending[i].(proto := SenderProto(f).Stored(), hw := SenderHw(f).Stored());
      DeliverContent(e.requests, e, g);
      FoundAskedFor(s, SenderProto(f), g.request);
    case _ =>
  }

  /** Every request of the pending entry that a search finds asked for the address searched. */
  lemma {:induction false} FoundAskedFor(s: State, k: Key, r: Request)
    requires Inv(s) && k.Valid() && k.bytes.Some?
    requires var i := FindNext(s.pending, 0, Some(k), None); i < |s.pending| && r in s.pending[i].requests
    ensures r.target == k.Stored()
  {
    hide FindNext, Distinct, SoleDeny, Conserved, Serves;
    var i := FindNext(s.pending, 0, Some(k), None);
    FindByProto(s.pending, k);
    assert Waiting(s.link, s.children, s.pending[i]);
  }

  /** Only a pending entry has requests to take over. */
  lemma {:induction false} CachedTakesNone(s: State, pk: Key, hk: Key, blank: Entry)
    requires Inv(s) && blank.requests == []
    ensures !AddPlace(s, pk, hk).InPending? ==> Taken(s, AddPlace(s, pk, hk), blank).requests == []
  {
    hide AddPlace, Distinct, SoleDeny, Conserved, PendingOk, ChildrenOk;
    match AddPlace(s, pk, hk)
    case InDenied(i) => assert Settled(s.link, s.denied[i]);
    case InResolved(i) => assert Settled(s.link, s.resolved[i]);
    case InPending(i) =>
    case Nowhere =>
  }

  /** Every request of the entry that ArpAdd takes over asked for the address added; with none there are no requests. */
  lemma {:induction false} TakenAskedFor(s: State, pk: Key, hk: Key, blank: Entry, r: Request)
    requires Inv(s) && pk.Valid() && blank.requests == []
    requires r in Taken(s, AddPlace(s, pk, hk), blank).requests
    ensures pk.bytes.Some? && r.target == pk.Stored()
  {
    hide Inv, CachedPlace, FindNext;
    CachedTakesNone(s, pk, hk, blank);
    if AddPlace(s, pk, hk).InPending? {
      FoundAskedFor(s, pk, r);
    }
  }

  /**
   Every completion that any run ever delivers was emitted by one step of that
   run, and is explained by it: zeros from timeouts, cancellations and denials,
   otherwise the address that a matching accepted frame or a non-deny ArpAdd gave.
   */
  lemma {:induction false} TruthfulDelivery(link: Link, steps: seq<Step>, i: nat) returns (k: nat)
    requires i < |Run(Start(link), steps).signals|
    ensures k < |steps|
    ensures var s := Run(Start(link), steps[..k]);
            && |s.signals| <= i < |Next(s, steps[k]).signals|
            && Explained(s, steps[k], Run(Start(link), steps).signals[i])
  {
    hide Next, Inv, Emitted, Explained;
    var before := steps[..|steps| - 1];
    var s, last := Run(Start(link), before), steps[|steps| - 1];
    LogGrows(s, last);
    if i < |s.signals| {
      k := TruthfulDelivery(link, before, i);
      assert before[..k] == steps[..k];
    } else {
      k := |steps| - 1;
      ReachableInv(link, before);
      var g := Emitted(s, last)[i - |s.signals|];
      assert g in Emitted(s, last);
      EmittedExplained(s, last, g);
    }
  }
}
