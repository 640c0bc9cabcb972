/**
 The service itself: its tables updated in place by the loops of the driver,
 each call proved to be the step of the same name.
 */
module ArpService {
  import opened Bytes
  import opened ArpTypes
  import opened ArpFrame
  import opened ArpSteps
  import opened ArpTables

  method FindNextEntry(table: seq<Entry>, from: nat, proto: Option<Key>, hw: Option<Key>) returns (i: nat)
    requires from <= |table|
    ensures i == FindNext(table, from, proto, hw)
  {
    i := from;
    while i < |table|
      invariant from <= i <= |table|
      invariant FindNext(table, from, proto, hw) == FindNext(table, i, proto, hw)
    {
      if (proto.None? || MatchAddress(proto.value, table[i].proto)) && (hw.None? || MatchAddress(hw.value, table[i].hw)) {
        return;
      }
      i := i + 1;
    }
  }

  method FindDeniedEntry(denied: seq<Entry>, proto: Option<Key>, hw: Option<Key>) returns (i: nat)
    ensures i == FindDenied(denied, proto, hw)
  {
    i := |denied|;
    if proto.Some? && proto.value.bytes.Some? {
      i := FindNextEntry(denied, 0, proto, None);
      if i < |denied| {
        return;
      }
    }
    if hw.Some? && hw.value.bytes.Some? {
      i := FindNextEntry(denied, 0, None, hw);
    }
  }

  /** The children loop of the receive path: who is addressed, and whether anyone speaks the protocol. */
  method FindTarget(children: seq<Instance>, f: Frame) returns (target: Option<Instance>, protoMatched: bool)
    ensures target == TargetOf(children, f)
    ensures protoMatched == Spoken(children, f)
  {
    target, protoMatched := None, false;
    var i := 0;
    assert children[0..] == children;
    while i < |children|
      invariant 0 <= i <= |children|
      invariant TargetOf(children, f) == TargetOf(children[i..], f)
      invariant Spoken(children, f) == (protoMatched || Spoken(children[i..], f))
    {
      var inst := children[i];
      assert children[i..][1..] == children[i + 1..];
      if inst.configured && f.protoType == inst.config.swType && |f.senderProto| == inst.config.swLen {
        protoMatched := true;
        if f.targetProto == inst.config.station {
          target := Some(inst);
          return;
        }
      }
      i := i + 1;
    }
  }

  class Service {
    const link: Link
    var children: seq<Instance>
    var pending: seq<Entry>
    var denied: seq<Entry>
    var resolved: seq<Entry>
    var nextRequest: nat
    var nextChild: nat
    ghost var signals: seq<Signal>
    ghost var sent: seq<Sent>

    ghost function Value(): State
      reads this
    {
      State(link, children, pending, denied, resolved, nextRequest, nextChild, signals, sent)
    }

    constructor (l: Link)
      ensures Value() == Start(l)
    {
      link := l;
      children, pending, denied, resolved := [], [], [], [];
      nextRequest, nextChild := 0, 0;
      signals, sent := [], [];
    }

    // ---------- Helpers ----------

    /** ArpAddressResolved: completes the matching requests of an entry, and returns the others. */
    method AddressResolved(e: Entry, owner: Option<nat>, event: Option<nat>) returns (kept: seq<Request>, count: nat)
      modifies this`signals
      ensures kept == Kept(e.requests, owner, event)
      ensures signals == old(signals) + Deliver(Released(e.requests, owner, event), e)
      ensures count == |Released(e.requests, owner, event)|
    {
      hide Kept, Released, Deliver;
      kept, count := [], 0;
      var i := 0;
      ghost var all := Released(e.requests, owner, event);
      ghost var goal := signals + Deliver(all, e);
      assert e.requests[0..] == e.requests;
      while i < |e.requests|
        invariant 0 <= i <= |e.requests|
        invariant kept + Kept(e.requests[i..], owner, event) == Kept(e.requests, owner, event)
        invariant signals + Deliver(Released(e.requests[i..], owner, event), e) == goal
        invariant count + |Released(e.requests[i..], owner, event)| == |all|
      {
        var r := e.requests[i];
        ghost var more := Released(e.requests[i + 1..], owner, event);
        ReleaseRound(e.requests, i, owner, event);
        if Notified(r, owner, event) {
          DeliverStep(r, more, e);
          Reassociate(signals, [Signal(r, e.proto, e.hw.bytes)], Deliver(more, e));
          signals := signals + [Signal(r, e.proto, e.hw.bytes)];
          count := count + 1;
        } else {
          Reassociate(kept, [r], Kept(e.requests[i + 1..], owner, event));
          kept := kept + [r];
        }
        i := i + 1;
      }
      NoneLeft(owner, event, e);
      assert e.requests[i..] == [];
    }

    /** ArpDeleteCacheEntryInTable. */
    method DeleteInTable(table: seq<Entry>, bySw: bool, swType: nat, addr: Option<seq<byte>>, force: bool)
      returns (left: seq<Entry>, count: nat)
      ensures left == DeleteFrom(table, bySw, swType, addr, force)
      ensures count == |table| - |left|
    {
      left, count := table, 0;
      var i := 0;
      assert left[0..] == table;
      while i < |left|
        invariant 0 <= i <= |left| && count == |table| - |left|
        invariant left[..i] + DeleteFrom(left[i..], bySw, swType, addr, force) == DeleteFrom(table, bySw, swType, addr, force)
        decreases |left| - i
      {
        var e := left[i];
        DeleteRound(left, i, bySw, swType, addr, force);
        if e.defaultDecay == 0 && !force {
          i := i + 1;
          continue;
        }
        var matched;
        if bySw {
          matched := swType == e.proto.kind && MatchBuffer(addr, e.proto);
        } else {
          matched := MatchBuffer(addr, e.hw);
        }
        if matched {
          left := left[..i] + left[i + 1..];
          count := count + 1;
        } else {
          i := i + 1;
        }
      }
    }

    method DeleteCacheEntry(bySw: bool, swType: nat, addr: Option<seq<byte>>, force: bool) returns (count: nat)
      modifies this`denied, this`resolved
      ensures Value() == DeleteCache(old(Value()), bySw, swType, addr, force)
      ensures count == CacheSize(old(Value())) - CacheSize(Value())
    {
      denied, count := DeleteInTable(denied, bySw, swType, addr, force);
      var more;
      resolved, more := DeleteInTable(resolved, bySw, swType, addr, force);
      count := count + more;
    }

    /** Cancels the matching requests of one pending entry; an entry without requests goes. */
    method CancelIn(e: Entry, owner: nat, sw: Option<seq<byte>>, event: Option<nat>) returns (left: seq<Entry>, count: nat)
      modifies this`signals
      ensures left == CancelEntry(e, sw, Some(owner), event)
      ensures signals == old(signals) + CancelOne(e, sw, Some(owner), event)
      ensures count == |CancelOne(e, sw, Some(owner), event)|
    {
      hide Kept, Released, Deliver;
      left, count := [e], 0;
      if MatchBuffer(sw, e.proto) {
        var kept;
        kept, count := AddressResolved(e, Some(owner), event);
        DeliverSize(Released(e.requests, Some(owner), event), e);
        left := if kept == [] then [] else [e.(requests := kept)];
      }
    }

    /** ArpCancelRequest: removal while iterating. */
    method CancelRequests(owner: nat, sw: Option<seq<byte>>, event: Option<nat>) returns (count: nat)
      modifies this`pending, this`signals
      ensures Value() == CancelRequest(old(Value()), owner, sw, event)
      ensures count == |signals| - |old(signals)|
    {
      hide CancelPending, CancelSignals, CancelEntry, CancelOne;
      count := 0;
      var i := 0;
      ghost var goal := CancelPending(pending, sw, Some(owner), event);
      ghost var log := signals + CancelSignals(pending, sw, Some(owner), event);
      assert pending[0..] == pending;
      while i < |pending|
        invariant 0 <= i <= |pending| && count == |signals| - |old(signals)|
        invariant pending[..i] + CancelPending(pending[i..], sw, Some(owner), event) == goal
        invariant signals + CancelSignals(pending[i..], sw, Some(owner), event) == log
        decreases |pending| - i
      {
        ghost var rest := pending[i + 1..];
        CancelRound(pending, i, sw, Some(owner), event);
        Reassociate(signals, CancelOne(pending[i], sw, Some(owner), event), CancelSignals(rest, sw, Some(owner), event));
        var left, n := CancelIn(pending[i], owner, sw, event);
        Splice(pending, i, left);
        pending := pending[..i] + left + pending[i + 1..];
        i := i + |left|;
        count := count + n;
      }
      NothingToCancel(sw, Some(owner), event);
      assert pending[i..] == [] && pending[..i] == pending;
    }

    // ---------- The timer ----------

    /** One pending entry at a tick: count down, resend, or abort. */
    method TimeOut(e: Entry) returns (left: seq<Entry>)
      modifies this`signals, this`sent
      ensures left == if Expired(e) then [] else [TickEntry(children, e)]
      ensures signals == old(signals) + if Expired(e) then Deliver(e.requests, e) else []
      ensures sent == old(sent) + TickFrames(e)
    {
      hide Deliver, Kept, Released, RetryTimeOutOf;
      if e.nextRetry <= TIMER_INTERVAL {
        if e.retryCount == 0 {
          var kept, n := AddressResolved(e, None, None);
          ReleaseAll(e.requests);
          left := [];
        } else {
          if e.requests != [] {
            sent := sent + [Sent(OPCODE_REQUEST, e.requests[0].owner, e.proto, e.hw)];
          }
          left := [e.(retryCount := e.retryCount - 1, nextRetry := RetryTimeOutOf(children, e.requests))];
        }
      } else {
        left := [e.(nextRetry := e.nextRetry - TIMER_INTERVAL)];
      }
    }

    method AgePending()
      modifies this`pending, this`signals, this`sent
      ensures pending == TickPending(children, old(pending))
      ensures signals == old(signals) + TickSignals(old(pending))
      ensures sent == old(sent) + TickSent(old(pending))
    {
      hide TickPending, TickSignals, TickSent, TickEntry, Expired, Deliver, TickFrames;
      var i := 0;
      ghost var goal, log, frames :=
        TickPending(children, pending), signals + TickSignals(pending), sent + TickSent(pending);
      assert pending[0..] == pending;
      while i < |pending|
        invariant 0 <= i <= |pending|
        invariant pending[..i] + TickPending(children, pending[i..]) == goal
        invariant signals + TickSignals(pending[i..]) == log
        invariant sent + TickSent(pending[i..]) == frames
        decreases |pending| - i
      {
        ghost var e, rest := pending[i], pending[i + 1..];
        TimerRound(children, pending, i);
        Reassociate(signals, if Expired(e) then Deliver(e.requests, e) else [], TickSignals(rest));
        Reassociate(sent, TickFrames(e), TickSent(rest));
        var left := TimeOut(pending[i]);
        Splice(pending, i, left);
        pending := pending[..i] + left + pending[i + 1..];
        i := i + |left|;
      }
      NothingToAge(children);
      assert pending[i..] == [] && pending[..i] == pending;
    }

    method AgeTable(table: seq<Entry>) returns (left: seq<Entry>)
      ensures left == TickCache(table)
    {
      hide TickCache;
      left := table;
      var i := 0;
      assert left[0..] == table;
      while i < |left|
        invariant 0 <= i <= |left|
        invariant left[..i] + TickCache(left[i..]) == TickCache(table)
        decreases |left| - i
      {
        var e := left[i];
        AgeRound(left, i);
        if e.defaultDecay == 0 {
          assert left[i := e] == left;
          i := i + 1;
        } else if e.decay <= TIMER_INTERVAL {
          left := left[..i] + left[i + 1..];
        } else {
          left := left[i := e.(decay := e.decay - TIMER_INTERVAL)];
          i := i + 1;
        }
      }
      NothingToAge([]);
      assert left[i..] == [] && left[..i] == left;
    }

    method TimerHandler()
      modifies this
      ensures Value() == Tick(old(Value()))
    {
      AgePending();
      denied := AgeTable(denied);
      resolved := AgeTable(resolved);
    }

    // ---------- Service binding and configuration ----------

    method CreateChildCall(granted: bool) returns (status: Status)
      modifies this
      ensures (Value(), status) == CreateChild(old(Value()), granted)
    {
      if !granted {
        return OutOfResources;
      }
      children := children + [Instance(nextChild, false, Config(0, 0, [], 0, 0, 0))];
      nextChild := nextChild + 1;
      status := Success;
    }

    /** ArpConfigureInstance without configuration data. */
    method ResetInstance(inst: Instance)
      modifies this
      ensures Value() == Reset(old(Value()), inst)
    {
      if inst.configured {
        var n := CancelRequests(inst.id, None, None);
      }
      children := Update(children, inst.id, inst.(configured := false));
    }

    method DestroyChildCall(id: nat, uninstalled: bool) returns (status: Status)
      modifies this
      ensures (Value(), status) == DestroyChild(old(Value()), id, uninstalled)
    {
      hide Lookup, Update, Remove, CancelRequest, DeleteFrom;
      var found := Lookup(children, id);
      if found.None? {
        return Unsupported;
      }
      if !uninstalled {
        return DeviceError;
      }
      if found.value.configured {
        var n := DeleteCacheEntry(false, found.value.config.swType, None, true);
        ResetInstance(found.value);
      }
      children := Remove(children, id);
      status := Success;
    }

    method ConfigureCall(id: nat, c: Option<Config>, stationGiven: bool, granted: bool) returns (status: Status)
      modifies this
      ensures (Value(), status) == Configure(old(Value()), id, c, stationGiven, granted)
    {
      hide Lookup, Update, CancelRequest;
      var found := Lookup(children, id);
      if found.None? {
        return InvalidParameter;
      }
      if c.Some? && (c.value.swLen == 0 || !stationGiven || c.value.swType <= 1500) {
        return InvalidParameter;
      }
      if c.None? {
        ResetInstance(found.value);
        return Success;
      }
      var after := ConfigureInstance(found.value, c.value, granted);
      children := Update(children, id, after.0);
      status := after.1;
    }

    // ---------- The cache ----------

    /** Completes an entry's requests and puts it at the head of a cache table. */
    method SettleEntry(e: Entry, deny: bool)
      modifies this`signals, this`denied, this`resolved
      ensures Value() == Settle(old(Value()), e, deny)
    {
      hide Deliver, Released, Kept;
      var kept, n := AddressResolved(e, None, None);
      ReleaseAll(e.requests);
      if deny {
        denied := [e.(requests := kept)] + denied;
      } else {
        resolved := [e.(requests := kept)] + resolved;
      }
    }

    method FindCached(pk: Key, hk: Key) returns (place: Place)
      ensures place == CachedPlace(Value(), pk, hk)
    {
      hide FindNext, FindDenied;
      var d := FindDeniedEntry(denied, Some(pk), Some(hk));
      if d < |denied| {
        return InDenied(d);
      }
      var r := FindNextEntry(resolved, 0, Some(pk), Some(hk));
      place := if r < |resolved| then InResolved(r) else Nowhere;
    }

    /** Takes the entry out of the table it was found in, or uses the new one. */
    method TakeEntry(place: Place, blank: Entry) returns (e: Entry)
      requires place.InDenied? ==> place.i < |denied|
      requires place.InResolved? ==> place.i < |resolved|
      requires place.InPending? ==> place.i < |pending|
      modifies this`pending, this`denied, this`resolved
      ensures e == Taken(old(Value()), place, blank)
      ensures Value() == TakeOut(old(Value()), place)
    {
      match place
      case InDenied(i) =>
        e := denied[i];
        denied := denied[..i] + denied[i + 1..];
      case InResolved(i) =>
        e := resolved[i];
        resolved := resolved[..i] + resolved[i + 1..];
      case InPending(i) =>
        e := pending[i];
        pending := pending[..i] + pending[i + 1..];
      case Nowhere =>
        e := blank;
    }

    method AddCall(id: nat, deny: bool, sw: Option<seq<byte>>, hw: Option<seq<byte>>,
                   timeout: nat, overwrite: bool, granted: bool) returns (status: Status)
      modifies this
      ensures (Value(), status) == Add(old(Value()), id, deny, sw, hw, timeout, overwrite, granted)
    {
      hide Lookup, FindNext, CachedPlace, Settle, Taken, TakeOut;
      var found := Lookup(children, id);
      if found.None? || (!deny && (hw.None? || sw.None?)) || (deny && hw.Some? && sw.Some?) || (hw.None? && sw.None?) {
        return InvalidParameter;
      }
      if !found.value.configured {
        return NotStarted;
      }
      var c := found.value.config;
      var pk, hk := ProtoKey(c, sw), HwKey(link, hw);
      var place := FindCached(pk, hk);
      if !place.Nowhere? && !overwrite {
        return AccessDenied;
      }
      if place.Nowhere? && sw.Some? {
        var p := FindNextEntry(pending, 0, Some(pk), None);
        if p < |pending| {
          place := InPending(p);
        }
      }
      if place.Nowhere? && !granted {
        return OutOfResources;
      }
      var e := TakeEntry(place, NewEntry(c, pk, hk));
      e := e.(defaultDecay := timeout, decay := timeout, hw := hk.Stored(), proto := pk.Stored());
      SettleEntry(e, deny);
      status := Success;
    }

    /** One table's part of ArpFindCacheEntry: collect the matches, refreshing them on the way if asked. */
    method CollectFrom(table: seq<Entry>, proto: Option<Key>, hw: Option<Key>, refresh: bool)
      returns (left: seq<Entry>, found: seq<Entry>)
      ensures left == if refresh then RefreshFrom(table, proto, hw) else table
      ensures found == Matching(table, proto, hw)
    {
      hide FindNext, RefreshIf, Matching;
      left, found := [], [];
      var at := 0;
      assert table[0..] == table;
      while at < |table|
        invariant 0 <= at <= |table|
        invariant left + RefreshIf(table[at..], proto, hw, refresh) == RefreshIf(table, proto, hw, refresh)
        invariant found + Matching(table[at..], proto, hw) == Matching(table, proto, hw)
      {
        var i := FindNextEntry(table, at, proto, hw);
        FindNextIsFirst(table, at, proto, hw);
        SkipRefresh(table, at, i, proto, hw, refresh);
        SkipMatching(table, at, i, proto, hw);
        Reassociate(left, table[at..i], RefreshIf(table[i..], proto, hw, refresh));
        left := left + table[at..i];
        at := i;
        if i < |table| {
          var e := if refresh then table[i].(decay := table[i].defaultDecay) else table[i];
          CollectOne(table, i, proto, hw, refresh);
          Reassociate(left, [e], RefreshIf(table[i + 1..], proto, hw, refresh));
          Reassociate(found, [table[i]], Matching(table[i + 1..], proto, hw));
          left, found := left + [e], found + [table[i]];
          at := i + 1;
        }
      }
      CollectNothing(proto, hw, refresh);
      assert table[at..] == [];
      RefreshIfMeans(table, proto, hw, refresh);
    }

    method DeleteCall(id: nat, bySw: bool, addr: Option<seq<byte>>) returns (status: Status)
      modifies this
      ensures (Value(), status) == Delete(old(Value()), id, bySw, addr)
    {
      hide Lookup, DeleteCache;
      var found := Lookup(children, id);
      if found.None? {
        return InvalidParameter;
      }
      if !found.value.configured {
        return NotStarted;
      }
      var count := DeleteCacheEntry(bySw, found.value.config.swType, addr, true);
      status := if count == 0 then NotFound else Success;
    }

    method FlushCall(id: nat) returns (status: Status)
      modifies this
      ensures (Value(), status) == Flush(old(Value()), id)
    {
      hide Lookup, DeleteCache;
      var found := Lookup(children, id);
      if found.None? {
        return InvalidParameter;
      }
      if !found.value.configured {
        return NotStarted;
      }
      var count := DeleteCacheEntry(false, found.value.config.swType, None, false);
      status := if count == 0 then NotFound else Success;
    }

    // ---------- Requests ----------

    /** The queueing part of ArpRequest, once a context could be allocated. */
    method QueueRequest(inst: Instance, pk: Key, event: nat, entryGranted: bool) returns (status: Status)
      modifies this`pending, this`nextRequest, this`sent
      ensures var full := FindNext(old(pending), 0, Some(pk), None) == |old(pending)| && !entryGranted;
              && status == (if full then OutOfResources else NotReady)
              && Value() == (if full then old(Value()) else Enqueue(old(Value()), inst, pk, event))
    {
      hide FindNext;
      var r := Request(nextRequest, inst.id, event, pk.Stored());
      var i := FindNextEntry(pending, 0, Some(pk), None);
      if i < |pending| {
        var e := pending[i].(nextRetry := inst.config.retryTimeOut, retryCount := inst.config.retryCount);
        pending := pending[i := e.(requests := [r] + e.requests)];
      } else {
        if !entryGranted {
          return OutOfResources;
        }
        var e := NewEntry(inst.config, pk, HwKey(link, None));
        pending := pending + [e.(requests := [r] + e.requests)];
      }
      nextRequest := nextRequest + 1;
      sent := sent + [Sent(OPCODE_REQUEST, inst.id, pending[i].proto, pending[i].hw)];
      status := NotReady;
    }

    method RequestCall(id: nat, sw: Option<seq<byte>>, event: Option<nat>, bufferGiven: bool,
                       mapped: (Status, Option<seq<byte>>), contextGranted: bool, entryGranted: bool)
      returns (answer: Answer)
      modifies this
      ensures (Value(), answer) == AskFor(old(Value()), id, sw, event, bufferGiven, mapped, contextGranted, entryGranted)
    {
      hide Lookup, FindNext, FindDenied, Enqueue;
      var found := Lookup(children, id);
      if found.None? || !bufferGiven {
        return Answer(InvalidParameter, None, false);
      }
      if !found.value.configured {
        return Answer(NotStarted, None, false);
      }
      var c := found.value.config;
      if sw.None? || Broadcast(c, sw.value) {
        return Immediate(Success, Some(Read(link.broadcast, link.hwSize)), event);
      }
      if Multicast(c, sw.value) {
        return Immediate(mapped.0, mapped.1, event);
      }
      var pk := ProtoKey(c, sw);
      var zero := Some(Zeros(link.hwSize));
      var d := FindDeniedEntry(denied, Some(pk), None);
      if d < |denied| {
        return Answer(AccessDenied, zero, false);
      }
      var r := FindNextEntry(resolved, 0, Some(pk), None);
      if r < |resolved| {
        return Immediate(Success, Some(resolved[r].hw.bytes), event);
      }
      if event.None? {
        return Answer(NotReady, zero, false);
      }
      if !contextGranted {
        return Answer(OutOfResources, zero, false);
      }
      var status := QueueRequest(found.value, pk, event.value, entryGranted);
      answer := Answer(status, zero, false);
    }

    method CancelCall(id: nat, sw: Option<seq<byte>>, event: Option<nat>) returns (status: Status)
      modifies this
      ensures (Value(), status) == Cancel(old(Value()), id, sw, event)
    {
      hide Lookup, CancelRequest;
      var found := Lookup(children, id);
      if found.None? || (sw.Some? && event.None?) || (sw.None? && event.Some?) {
        return InvalidParameter;
      }
      if !found.value.configured {
        return NotStarted;
      }
      var count := CancelRequests(id, sw, event);
      status := if count == 0 then NotFound else Success;
    }

    // ---------- Frames ----------

    /** The part of the receive path after the checks: merge, or enter the sender, and reply. */
    method UseFrame(f: Frame, target: Option<Instance>, granted: bool)
      requires target == TargetOf(children, f)
      modifies this
      ensures Value() == ReceiveFrame(old(Value()), f, granted)
    {
      hide FindNext, TargetOf, Settle;
      var pk, hk := SenderProto(f), SenderHw(f);
      var i := FindNextEntry(resolved, 0, Some(pk), None);
      var mergeFlag := i < |resolved|;
      if mergeFlag {
        resolved := resolved[i := resolved[i].(hw := hk.Stored(), decay := resolved[i].defaultDecay)];
      }
      if target.None? {
        return;
      }
      if !mergeFlag {
        var p := FindNextEntry(pending, 0, Some(pk), None);
        var e;
        if p < |pending| {
          e := pending[p].(hw := hk.Stored(), proto := pk.Stored());
          pending := pending[..p] + pending[p + 1..];
        } else {
          if !granted {
            return;
          }
          e := NewDefaultEntry(pk, hk);
        }
        SettleEntry(e, false);
      }
      if f.opcode == OPCODE_REQUEST {
        sent := sent + [Sent(OPCODE_REPLY, target.value.id, pk.Stored(), hk.Stored())];
      }
    }

    method FrameReceived(payload: seq<byte>, protocolType: nat, granted: bool)
      modifies this
      ensures Value() == Receive(old(Value()), payload, protocolType, granted)
    {
      hide ReceiveFrame, Decode, FindDenied, Spoken, TargetOf;
      var d := Decode(payload);
      if d.None? {
        return;
      }
      var f := d.value;
      if f.hwType != link.ifType || |f.senderHw| != link.hwSize || protocolType != ARP_ETHER_PROTO_TYPE {
        return;
      }
      var i := FindDeniedEntry(denied, Some(SenderProto(f)), Some(SenderHw(f)));
      if i < |denied| {
        return;
      }
      var target, protoMatched := FindTarget(children, f);
      if !protoMatched {
        return;
      }
      UseFrame(f, target, granted);
    }

    method FindCall(id: nat, bySw: bool, addr: Option<seq<byte>>, refresh: bool,
                    counted: bool, sized: bool, listed: bool, granted: bool)
      returns (status: Status, report: seq<Found>)
      modifies this
      ensures (Value(), status, report) ==
              Find(old(Value()), id, bySw, addr, refresh, counted, sized, listed, granted)
    {
      hide Lookup, RefreshFrom, Matching, Report;
      var found := Lookup(children, id);
      if found.None? || (!refresh && !counted && !sized) || (listed && (!sized || !counted)) {
        return InvalidParameter, [];
      }
      if !found.value.configured {
        return NotStarted, [];
      }
      var c := found.value.config;
      var pk := if bySw then Some(ProtoKey(c, addr)) else None;
      var hk := if bySw then None else Some(HwKey(link, addr));
      var fromDenied, fromResolved;
      denied, fromDenied := CollectFrom(denied, pk, hk, refresh);
      resolved, fromResolved := CollectFrom(resolved, pk, hk, refresh);
      report := Report(fromDenied, true, c, link) + Report(fromResolved, false, c, link);
      if report == [] {
        return NotFound, [];
      }
      if listed && !granted {
        return OutOfResources, [];
      }
      status := Success;
    }
  }

  // ---------- One round of each loop ----------

  lemma {:induction false} ReleaseRound(reqs: seq<Request>, i: nat, owner: Option<nat>, event: Option<nat>)
    requires i < |reqs|
    ensures Kept(reqs[i..], owner, event) ==
            if Notified(reqs[i], owner, event) then Kept(reqs[i + 1..], owner, event)
            else [reqs[i]] + Kept(reqs[i + 1..], owner, event)
    ensures Released(reqs[i..], owner, event) ==
            if Notified(reqs[i], owner, event) then [reqs[i]] + Released(reqs[i + 1..], owner, event)
            else Released(reqs[i + 1..], owner, event)
  {
    hide Kept, Released;
    assert reqs[i..][1..] == reqs[i + 1..];
    SplitStep(reqs[i..], owner, event);
  }

  lemma {:induction false} DeliverStep(r: Request, rest: seq<Request>, e: Entry)
    ensures Deliver([r] + rest, e) == [Signal(r, e.proto, e.hw.bytes)] + Deliver(rest, e)
  {
    assert ([r] + rest)[1..] == rest;
  }

  lemma {:induction false} DeliverSize(reqs: seq<Request>, e: Entry)
    ensures |Deliver(reqs, e)| == |reqs|
  {
    if reqs != [] {
      DeliverSize(reqs[1..], e);
    }
  }

  lemma {:induction false} NoneLeft(owner: Option<nat>, event: Option<nat>, e: Entry)
    ensures Kept([], owner, event) == [] && Released([], owner, event) == [] && Deliver([], e) == []
  {
  }

  lemma {:induction false} NothingToCancel(sw: Option<seq<byte>>, owner: Option<nat>, event: Option<nat>)
    ensures CancelPending([], sw, owner, event) == [] && CancelSignals([], sw, owner, event) == []
  {
  }

  lemma {:induction false} ReleaseAll(reqs: seq<Request>)
    ensures Released(reqs, None, None) == reqs && Kept(reqs, None, None) == []
  {
    if reqs != [] {
      ReleaseAll(reqs[1..]);
    }
  }

  /** Cutting entry `i` out, or replacing it, leaves the same work after it. */
  lemma {:induction false} CutOrReplace(table: seq<Entry>, i: nat, e: Entry)
    requires i < |table|
    ensures var cut := table[..i] + table[i + 1..]; cut[..i] == table[..i] && cut[i..] == table[i + 1..]
    ensures table[i := e][..i + 1] == table[..i] + [e] && table[i := e][i + 1..] == table[i + 1..]
    ensures table[..i + 1] == table[..i] + [table[i]]
    ensures table[i..][1..] == table[i + 1..]
  {
  }

  lemma {:induction false} Reassociate<T>(a: seq<T>, b: seq<T>, c: seq<T>)
    ensures a + (b + c) == a + b + c
  {
  }

  lemma {:induction false} NothingToAge(children: seq<Instance>)
    ensures TickPending(children, []) == [] && TickSignals([]) == [] && TickSent([]) == [] && TickCache([]) == []
  {
  }

  lemma {:induction false} DeleteRound(left: seq<Entry>, i: nat, bySw: bool, swType: nat, addr: Option<seq<byte>>, force: bool)
    requires i < |left|
    ensures var cut := left[..i] + left[i + 1..];
            && cut[..i] == left[..i] && cut[i..] == left[i + 1..]
            && left[..i] + DeleteFrom(left[i..], bySw, swType, addr, force)
               == (if Doomed(left[i], bySw, swType, addr, force) then left[..i] else left[..i + 1])
                  + DeleteFrom(left[i + 1..], bySw, swType, addr, force)
  {
    CutOrReplace(left, i, left[i]);
    DeleteFromStep(left[i..], bySw, swType, addr, force);
    hide DeleteFrom;
    Reassociate(left[..i], [left[i]], DeleteFrom(left[i + 1..], bySw, swType, addr, force));
  }

  lemma {:induction false} DeleteFromStep(table: seq<Entry>, bySw: bool, swType: nat, addr: Option<seq<byte>>, force: bool)
    requires table != []
    ensures DeleteFrom(table, bySw, swType, addr, force) ==
            if Doomed(table[0], bySw, swType, addr, force) then DeleteFrom(table[1..], bySw, swType, addr, force)
            else [table[0]] + DeleteFrom(table[1..], bySw, swType, addr, force)
  {
  }

  lemma {:induction false} AgeRound(left: seq<Entry>, i: nat)
    requires i < |left|
    ensures var cut := left[..i] + left[i + 1..];
            var aged := left[i := Age(left[i])];
            && cut[..i] == left[..i] && cut[i..] == left[i + 1..] && aged[i + 1..] == left[i + 1..]
            && left[..i] + TickCache(left[i..])
               == (if Aged(left[i]) then left[..i] else aged[..i + 1]) + TickCache(left[i + 1..])
  {
    CutOrReplace(left, i, Age(left[i]));
    AgeFromStep(left[i..]);
    hide TickCache, Age;
    Reassociate(left[..i], [Age(left[i])], TickCache(left[i + 1..]));
  }

  lemma {:induction false} AgeFromStep(table: seq<Entry>)
    requires table != []
    ensures TickCache(table) ==
            if Aged(table[0]) then TickCache(table[1..]) else [Age(table[0])] + TickCache(table[1..])
  {
  }

  /** The frame that a tick sends for one pending entry. */
  function TickFrames(e: Entry): seq<Sent> {
    if Resent(e) && e.requests != [] then [Sent(OPCODE_REQUEST, e.requests[0].owner, e.proto, e.hw)] else []
  }

  /** Replacing entry `i` by the entries `left` puts the work after it right behind them. */
  lemma {:induction false} Splice(table: seq<Entry>, i: nat, left: seq<Entry>)
    requires i < |table|
    ensures var t := table[..i] + left + table[i + 1..];
            t[..i + |left|] == table[..i] + left && t[i + |left|..] == table[i + 1..]
  {
  }

  lemma {:induction false} TimerRound(children: seq<Instance>, table: seq<Entry>, i: nat)
    requires i < |table|
    ensures table[..i] + TickPending(children, table[i..]) ==
            table[..i] + (if Expired(table[i]) then [] else [TickEntry(children, table[i])])
            + TickPending(children, table[i + 1..])
    ensures TickSignals(table[i..]) ==
            (if Expired(table[i]) then Deliver(table[i].requests, table[i]) else []) + TickSignals(table[i + 1..])
    ensures TickSent(table[i..]) == TickFrames(table[i]) + TickSent(table[i + 1..])
  {
    var left := if Expired(table[i]) then [] else [TickEntry(children, table[i])];
    assert table[i..][1..] == table[i + 1..];
    TickUnfold(children, table[i..]);
    hide TickPending, TickSignals, TickSent, TickEntry, Deliver, Expired;
    Reassociate(table[..i], left, TickPending(children, table[i + 1..]));
  }

  lemma {:induction false} TickUnfold(children: seq<Instance>, table: seq<Entry>)
    requires table != []
    ensures TickPending(children, table) ==
            (if Expired(table[0]) then [] else [TickEntry(children, table[0])]) + TickPending(children, table[1..])
    ensures TickSignals(table) ==
            (if Expired(table[0]) then Deliver(table[0].requests, table[0]) else []) + TickSignals(table[1..])
    ensures TickSent(table) == TickFrames(table[0]) + TickSent(table[1..])
  {
    hide Deliver, TickEntry;
  }

  lemma {:induction false} CancelRound(table: seq<Entry>, i: nat, sw: Option<seq<byte>>, owner: Option<nat>, event: Option<nat>)
    requires i < |table|
    ensures table[..i] + CancelPending(table[i..], sw, owner, event) ==
            table[..i] + CancelEntry(table[i], sw, owner, event) + CancelPending(table[i + 1..], sw, owner, event)
    ensures CancelSignals(table[i..], sw, owner, event) ==
            CancelOne(table[i], sw, owner, event) + CancelSignals(table[i + 1..], sw, owner, event)
  {
    hide CancelEntry, CancelOne;
    assert table[i..][1..] == table[i + 1..];
    Reassociate(table[..i], CancelEntry(table[i], sw, owner, event), CancelPending(table[i + 1..], sw, owner, event));
  }

  function RefreshIf(table: seq<Entry>, proto: Option<Key>, hw: Option<Key>, refresh: bool): seq<Entry> {
    if refresh then RefreshFrom(table, proto, hw) else table
  }

  lemma {:induction false} RefreshIfMeans(table: seq<Entry>, proto: Option<Key>, hw: Option<Key>, refresh: bool)
    ensures RefreshIf(table, proto, hw, refresh) == if refresh then RefreshFrom(table, proto, hw) else table
  {
  }

  lemma {:induction false} CollectNothing(proto: Option<Key>, hw: Option<Key>, refresh: bool)
    ensures RefreshIf([], proto, hw, refresh) == [] && Matching([], proto, hw) == []
  {
  }

  /** The entries that a search skips are not refreshed. */
  lemma {:induction false} SkipRefresh(table: seq<Entry>, at: nat, i: nat, proto: Option<Key>, hw: Option<Key>, refresh: bool)
    requires at <= i <= |table| && forall j :: at <= j < i ==> !Meets(table[j], proto, hw)
    ensures RefreshIf(table[at..], proto, hw, refresh) == table[at..i] + RefreshIf(table[i..], proto, hw, refresh)
    decreases i - at
  {
    if at == i {
      assert table[at..i] == [];
    } else {
      hide RefreshFrom;
      SkipRefresh(table, at + 1, i, proto, hw, refresh);
      assert table[at..][1..] == table[at + 1..] && table[at..i] == [table[at]] + table[at + 1..i];
      assert table[at..] == [table[at]] + table[at + 1..];
      RefreshStep(table[at..], proto, hw);
      Reassociate([table[at]], table[at + 1..i], RefreshIf(table[i..], proto, hw, refresh));
    }
  }

  lemma {:induction false} RefreshStep(table: seq<Entry>, proto: Option<Key>, hw: Option<Key>)
    requires table != []
    ensures RefreshFrom(table, proto, hw) ==
            [if Meets(table[0], proto, hw) then table[0].(decay := table[0].defaultDecay) else table[0]]
            + RefreshFrom(table[1..], proto, hw)
  {
  }

  /** The entries that a search skips are not collected. */
  lemma {:induction false} SkipMatching(table: seq<Entry>, at: nat, i: nat, proto: Option<Key>, hw: Option<Key>)
    requires at <= i <= |table| && forall j :: at <= j < i ==> !Meets(table[j], proto, hw)
    ensures Matching(table[at..], proto, hw) == Matching(table[i..], proto, hw)
    decreases i - at
  {
    if at < i {
      SkipMatching(table, at + 1, i, proto, hw);
      assert table[at..][1..] == table[at + 1..];
    }
  }

  lemma {:induction false} CollectOne(table: seq<Entry>, i: nat, proto: Option<Key>, hw: Option<Key>, refresh: bool)
    requires i < |table| && Meets(table[i], proto, hw)
    ensures RefreshIf(table[i..], proto, hw, refresh) ==
            [if refresh then table[i].(decay := table[i].defaultDecay) else table[i]]
            + RefreshIf(table[i + 1..], proto, hw, refresh)
    ensures Matching(table[i..], proto, hw) == [table[i]] + Matching(table[i + 1..], proto, hw)
  {
    hide RefreshFrom;
    assert table[i..][1..] == table[i + 1..];
    assert table[i..] == [table[i]] + table[i + 1..];
    RefreshStep(table[i..], proto, hw);
  }
}
