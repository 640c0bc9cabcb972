/** What every step of the service keeps, and so what holds in every reachable state. */
module ArpInvariant {
  import opened Bytes
  import opened ArpTypes
  import opened ArpFrame
  import opened ArpSteps
  import opened ArpTables

  // ---------- The invariant ----------

  /** The identities 0 .. n-1, once each. */
  ghost function UpTo(n: nat): multiset<nat> {
    if n == 0 then multiset{} else multiset{n - 1} + UpTo(n - 1)
  }

  ghost predicate ConfigOk(inst: Instance) {
    inst.configured ==>
      && inst.config.swLen > 0 && |inst.config.station| == inst.config.swLen
      && inst.config.entryTimeOut > 0 && inst.config.retryCount > 0 && inst.config.retryTimeOut > 0
  }

  ghost predicate ChildrenOk(children: seq<Instance>, nextChild: nat) {
    forall c :: c in children ==> c.id < nextChild && ConfigOk(c)
  }

  /** `owner` is a configured child that uses addresses of this kind. */
  ghost predicate Serves(children: seq<Instance>, owner: nat, proto: Address) {
    var c := Lookup(children, owner);
    c.Some? && c.value.configured && c.value.config.swType == proto.kind && c.value.config.swLen == |proto.bytes|
  }

  /** A pending entry has requests, all for its address and from living configured children, and no hardware address yet. */
  ghost predicate Waiting(link: Link, children: seq<Instance>, e: Entry) {
    && e.requests != []
    && e.hw == Address(link.ifType, Zeros(link.hwSize))
    && forall r :: r in e.requests ==> r.target == e.proto && Serves(children, r.owner, e.proto)
  }

  ghost predicate PendingOk(link: Link, children: seq<Instance>, pending: seq<Entry>) {
    forall e :: e in pending ==> Waiting(link, children, e)
  }

  /** A denied or resolved entry has no requests and a hardware address of the link. */
  ghost predicate Settled(link: Link, e: Entry) {
    e.requests == [] && e.hw.kind == link.ifType && |e.hw.bytes| == link.hwSize
  }

  ghost predicate CacheOk(link: Link, table: seq<Entry>) {
    forall e :: e in table ==> Settled(link, e)
  }

  /** Every request queued so far is pending or signalled, once. */
  ghost predicate Conserved(s: State) {
    Ids(s.pending) + SignalIds(s.signals) == UpTo(s.nextRequest)
  }

  ghost predicate TablesOk(s: State) {
    && ChildrenOk(s.children, s.nextChild)
    && PendingOk(s.link, s.children, s.pending)
    && Distinct(s.pending)
    && CacheOk(s.link, s.denied) && CacheOk(s.link, s.resolved)
    && SoleDeny(s.denied)
  }

  ghost predicate Inv(s: State) {
    TablesOk(s) && Conserved(s)
  }

  // ---------- Children ----------

  lemma {:induction false} LookupUpdate(children: seq<Instance>, id: nat, x: Instance, j: nat)
    requires x.id == id && Lookup(children, id).Some?
    ensures Lookup(Update(children, id, x), j) == if j == id then Some(x) else Lookup(children, j)
  {
    if children[0].id != id {
      LookupUpdate(children[1..], id, x, j);
      assert Update(children, id, x)[1..] == Update(children[1..], id, x);
    }
  }

  lemma {:induction false} LookupRemove(children: seq<Instance>, id: nat, j: nat)
    requires j != id
    ensures Lookup(Remove(children, id), j) == Lookup(children, j)
  {
    if children != [] && children[0].id != id {
      LookupRemove(children[1..], id, j);
      assert Remove(children, id)[1..] == Remove(children[1..], id);
    }
  }

  lemma {:induction false} LookupAppend(children: seq<Instance>, x: Instance, j: nat)
    ensures Lookup(children, j).Some? ==> Lookup(children + [x], j) == Lookup(children, j)
  {
    if children != [] {
      assert (children + [x])[1..] == children[1..] + [x];
      LookupAppend(children[1..], x, j);
    }
  }

  lemma {:induction false} LookupMember(children: seq<Instance>, id: nat)
    requires Lookup(children, id).Some?
    ensures Lookup(children, id).value in children && Lookup(children, id).value.id == id
  {
    if children[0].id != id {
      LookupMember(children[1..], id);
    }
  }

  lemma {:induction false} UpdateMember(children: seq<Instance>, id: nat, x: Instance, c: Instance)
    requires c in Update(children, id, x)
    ensures c == x || c in children
  {
    if children != [] && children[0].id != id && c != children[0] {
      UpdateMember(children[1..], id, x, c);
    }
  }

  lemma {:induction false} RemoveMember(children: seq<Instance>, id: nat, c: Instance)
    requires c in Remove(children, id)
    ensures c in children
  {
    if children[0].id != id && c != children[0] {
      RemoveMember(children[1..], id, c);
    }
  }

  lemma {:induction false} UpdateChildrenOk(children: seq<Instance>, nextChild: nat, id: nat, x: Instance)
    requires ChildrenOk(children, nextChild) && x.id < nextChild && ConfigOk(x)
    ensures ChildrenOk(Update(children, id, x), nextChild)
  {
    forall c | c in Update(children, id, x) ensures c.id < nextChild && ConfigOk(c) {
      UpdateMember(children, id, x, c);
    }
  }

  /** A change of children that leaves every owner of a pending request in service. */
  lemma {:induction false} OwnersKept(link: Link, children: seq<Instance>, pending: seq<Entry>, children': seq<Instance>)
    requires PendingOk(link, children, pending)
    requires forall e, r :: e in pending && r in e.requests ==>
               (Serves(children, r.owner, e.proto) ==> Serves(children', r.owner, e.proto))
    ensures PendingOk(link, children', pending)
  {
    hide Serves;
    forall e | e in pending ensures Waiting(link, children', e) {
      assert Waiting(link, children, e);
    }
  }

  // ---------- Tables ----------

  lemma {:induction false} ThinsPendingOk(link: Link, children: seq<Instance>, table: seq<Entry>, result: seq<Entry>)
    requires PendingOk(link, children, table) && Thins(result, table)
    requires forall e :: e in result ==> e.requests != []
    ensures PendingOk(link, children, result)
  {
    hide Serves, Thins;
    forall r | r in result ensures Waiting(link, children, r) {
      var e := ThinsOrigin(result, table, r);
      assert Waiting(link, children, e);
    }
  }

  lemma {:induction false} SomeMember(reqs: seq<Request>)
    ensures reqs != [] ==> exists q :: q in reqs
  {
    if reqs != [] {
      assert reqs[0] in reqs;
    }
  }

  lemma {:induction false} ThinsCacheOk(link: Link, table: seq<Entry>, result: seq<Entry>)
    requires CacheOk(link, table) && Thins(result, table)
    ensures CacheOk(link, result)
  {
    hide Thins;
    forall r | r in result ensures Settled(link, r) {
      var e := ThinsOrigin(result, table, r);
      assert Settled(link, e);
      SomeMember(r.requests);
    }
  }

  lemma {:induction false} WithoutMembers(table: seq<Entry>, i: nat)
    requires i < |table|
    ensures forall e :: e in Without(table, i) ==> e in table
  {
  }

  /** An entry whose requests are accounted for but no longer pending may be settled. */
  lemma {:induction false} SettleInv(s: State, e: Entry, deny: bool)
    requires TablesOk(s)
    requires Ids(s.pending) + (RequestIds(e.requests) + SignalIds(s.signals)) == UpTo(s.nextRequest)
    requires e.hw.kind == s.link.ifType && |e.hw.bytes| == s.link.hwSize
    requires deny ==> AllZero(e.proto.bytes) || e.proto !in Protos(s.denied)
    ensures Inv(Settle(s, e, deny))
  {
    hide Ids, SignalIds, RequestIds, Deliver, PendingOk, Distinct, AllZero;
    var t := Settle(s, e, deny);
    SignalIdsAppend(s.signals, Deliver(e.requests, e));
    DeliverIds(e.requests, e);
    var done := e.(requests := []);
    assert Settled(s.link, done);
    if deny {
      assert t.denied[1..] == s.denied;
    }
  }

  // ---------- The steps ----------

  lemma {:induction false} CreateInv(s: State, granted: bool)
    requires Inv(s)
    ensures Inv(CreateChild(s, granted).0)
  {
    if granted {
      hide Lookup, Conserved, Distinct, SoleDeny;
      var t := CreateChild(s, granted).0;
      forall e, r | e in s.pending && r in e.requests && Serves(s.children, r.owner, e.proto)
        ensures Serves(t.children, r.owner, e.proto)
      {
        LookupAppend(s.children, Instance(s.nextChild, false, Config(0, 0, [], 0, 0, 0)), r.owner);
      }
      OwnersKept(s.link, s.children, s.pending, t.children);
    }
  }

  lemma {:induction false} TickNonEmpty(children: seq<Instance>, table: seq<Entry>)
    requires forall e :: e in table ==> e.requests != []
    ensures forall e :: e in TickPending(children, table) ==> e.requests != []
  {
    if table != [] {
      TickNonEmpty(children, table[1..]);
      TickPendingStep(children, table);
      TickKeepsAddresses(children, table[0]);
    }
  }

  lemma {:induction false} TickInv(s: State)
    requires Inv(s)
    ensures Inv(Tick(s))
  {
    hide Thins, Ids, SignalIds, Distinct, SoleDeny, Protos, TickPending, TickSignals, TickCache, TickSent, Serves;
    assert forall e :: e in s.pending ==> Waiting(s.link, s.children, e);
    TickNonEmpty(s.children, s.pending);
    TickThins(s.children, s.pending);
    ThinsPendingOk(s.link, s.children, s.pending, TickPending(s.children, s.pending));
    ThinsProtos(TickPending(s.children, s.pending), s.pending);
    AgeThins(s.denied);
    ThinsCacheOk(s.link, s.denied, TickCache(s.denied));
    ThinsProtos(TickCache(s.denied), s.denied);
    AgeThins(s.resolved);
    ThinsCacheOk(s.link, s.resolved, TickCache(s.resolved));
    TickIds(s.children, s.pending);
    SignalIdsAppend(s.signals, TickSignals(s.pending));
  }

  lemma {:induction false} CancelNonEmpty(table: seq<Entry>, sw: Option<seq<byte>>, owner: Option<nat>, event: Option<nat>)
    requires forall e :: e in table ==> e.requests != []
    ensures forall e :: e in CancelPending(table, sw, owner, event) ==> e.requests != []
  {
    if table != [] {
      CancelNonEmpty(table[1..], sw, owner, event);
    }
  }

  lemma {:induction false} CancelInv(s: State, owner: nat, sw: Option<seq<byte>>, event: Option<nat>)
    requires Inv(s)
    ensures Inv(CancelRequest(s, owner, sw, event))
  {
    hide Thins, Ids, SignalIds, Distinct, SoleDeny, Protos, CancelPending, CancelSignals, Serves;
    var result := CancelPending(s.pending, sw, Some(owner), event);
    assert forall e :: e in s.pending ==> Waiting(s.link, s.children, e);
    CancelNonEmpty(s.pending, sw, Some(owner), event);
    CancelThins(s.pending, sw, Some(owner), event);
    ThinsPendingOk(s.link, s.children, s.pending, result);
    ThinsProtos(result, s.pending);
    CancelIds(s.pending, sw, Some(owner), event);
    SignalIdsAppend(s.signals, CancelSignals(s.pending, sw, Some(owner), event));
  }

  /** Cancelling everything of one child leaves none of its requests pending. */
  lemma {:induction false} CancelAllOf(table: seq<Entry>, owner: nat)
    ensures forall e, r :: e in CancelPending(table, None, Some(owner), None) && r in e.requests ==> r.owner != owner
  {
    if table != [] {
      CancelAllOf(table[1..], owner);
      var e := table[0];
      forall r | r in Kept(e.requests, Some(owner), None) ensures r.owner != owner {
        KeptFrom(e.requests, Some(owner), None, r);
      }
    }
  }

  lemma {:induction false} ResetInv(s: State, inst: Instance)
    requires Inv(s) && Lookup(s.children, inst.id) == Some(inst)
    ensures Inv(Reset(s, inst))
    ensures inst.configured ==> forall e, r :: e in Reset(s, inst).pending && r in e.requests ==> r.owner != inst.id
  {
    hide CancelPending, CancelSignals, Distinct, SoleDeny, Conserved, Lookup, Update;
    var t := if inst.configured then CancelRequest(s, inst.id, None, None) else s;
    CancelInv(s, inst.id, None, None);
    CancelAllOf(s.pending, inst.id);
    LookupMember(s.children, inst.id);
    var off := inst.(configured := false);
    UpdateChildrenOk(s.children, s.nextChild, inst.id, off);
    var after := Update(s.children, inst.id, off);
    forall e, r | e in t.pending && r in e.requests && Serves(s.children, r.owner, e.proto)
      ensures Serves(after, r.owner, e.proto)
    {
      LookupUpdate(s.children, inst.id, off, r.owner);
    }
    OwnersKept(s.link, s.children, t.pending, after);
    SameConserved(t, Reset(s, inst));
  }

  lemma {:induction false} SameConserved(s: State, t: State)
    requires t.pending == s.pending && t.signals == s.signals && t.nextRequest == s.nextRequest
    ensures Conserved(s) <==> Conserved(t)
  {
  }

  lemma {:induction false} DeleteInv(s: State, bySw: bool, swType: nat, addr: Option<seq<byte>>, force: bool)
    requires Inv(s)
    ensures Inv(DeleteCache(s, bySw, swType, addr, force))
  {
    hide Thins, Distinct, SoleDeny, Protos, DeleteFrom, PendingOk;
    DeleteThins(s.denied, bySw, swType, addr, force);
    DeleteThins(s.resolved, bySw, swType, addr, force);
    ThinsCacheOk(s.link, s.denied, DeleteFrom(s.denied, bySw, swType, addr, force));
    ThinsCacheOk(s.link, s.resolved, DeleteFrom(s.resolved, bySw, swType, addr, force));
    ThinsProtos(DeleteFrom(s.denied, bySw, swType, addr, force), s.denied);
  }

  /** Dropping a child that owns no pending request. */
  lemma {:induction false} RemoveInv(s: State, id: nat)
    requires Inv(s)
    requires forall e, r :: e in s.pending && r in e.requests ==> r.owner != id
    ensures Inv(s.(children := Remove(s.children, id)))
  {
    hide Distinct, SoleDeny, Conserved, Lookup, Remove;
    var t := s.(children := Remove(s.children, id));
    forall c | c in t.children ensures c in s.children {
      RemoveMember(s.children, id, c);
    }
    forall e, r | e in s.pending && r in e.requests && Serves(s.children, r.owner, e.proto)
      ensures Serves(t.children, r.owner, e.proto)
    {
      LookupRemove(s.children, id, r.owner);
    }
    OwnersKept(s.link, s.children, s.pending, t.children);
    SameConserved(s, t);
  }

  /** An unconfigured child owns no pending request. */
  lemma {:induction false} IdleOwnsNothing(s: State, inst: Instance)
    requires Inv(s) && Lookup(s.children, inst.id) == Some(inst) && !inst.configured
    ensures forall e, r :: e in s.pending && r in e.requests ==> r.owner != inst.id
  {
    hide Lookup;
    forall e, r | e in s.pending && r in e.requests ensures r.owner != inst.id {
      assert Waiting(s.link, s.children, e);
      assert Serves(s.children, r.owner, e.proto);
    }
  }

  lemma {:induction false} DestroyInv(s: State, id: nat, uninstalled: bool)
    requires Inv(s)
    ensures Inv(DestroyChild(s, id, uninstalled).0)
  {
    hide Inv, Reset, DeleteCache, Remove;
    var found := Lookup(s.children, id);
    if found.Some? && uninstalled {
      var inst := found.value;
      LookupMember(s.children, id);
      if inst.configured {
        var d := DeleteCache(s, false, inst.config.swType, None, true);
        DeleteInv(s, false, inst.config.swType, None, true);
        DeleteKeepsChildren(s, false, inst.config.swType, None, true);
        ResetInv(d, inst);
        RemoveInv(Reset(d, inst), id);
      } else {
        IdleOwnsNothing(s, inst);
        RemoveInv(s, id);
      }
    }
  }

  lemma {:induction false} DeleteKeepsChildren(s: State, bySw: bool, swType: nat, addr: Option<seq<byte>>, force: bool)
    ensures DeleteCache(s, bySw, swType, addr, force).children == s.children
  {
  }

  lemma {:induction false} ConfigureInv(s: State, id: nat, c: Option<Config>, stationGiven: bool, granted: bool)
    requires Inv(s)
    ensures Inv(Configure(s, id, c, stationGiven, granted).0)
  {
    hide Distinct, SoleDeny, Conserved, Lookup, Update, Reset;
    var found := Lookup(s.children, id);
    if found.Some? {
      LookupMember(s.children, id);
      if c.None? {
        ResetInv(s, found.value);
      } else if c.value.swLen != 0 && stationGiven && c.value.swType > 1500 {
        var inst := ConfigureInstance(found.value, c.value, granted).0;
        ConfigureKeeps(found.value, c.value, granted);
        UpdateChildrenOk(s.children, s.nextChild, id, inst);
        var t := s.(children := Update(s.children, id, inst));
        forall e, r | e in s.pending && r in e.requests && Serves(s.children, r.owner, e.proto)
          ensures Serves(t.children, r.owner, e.proto)
        {
          LookupUpdate(s.children, id, inst, r.owner);
        }
        OwnersKept(s.link, s.children, s.pending, t.children);
        SameConserved(s, t);
      }
    }
  }

  lemma {:induction false} ConfigureKeeps(inst: Instance, c: Config, granted: bool)
    requires ConfigOk(inst) && c.swLen > 0
    ensures var after := ConfigureInstance(inst, c, granted).0;
            && ConfigOk(after) && after.id == inst.id
            && (inst.configured ==> after.configured && after.config.swType == inst.config.swType
                                    && after.config.swLen == inst.config.swLen && after.config.station == inst.config.station)
  {
  }

  lemma {:induction false} FindInv(s: State, id: nat, bySw: bool, addr: Option<seq<byte>>, refresh: bool,
                counted: bool, sized: bool, listed: bool, granted: bool)
    requires Inv(s)
    ensures Inv(Find(s, id, bySw, addr, refresh, counted, sized, listed, granted).0)
  {
    hide Thins, Distinct, SoleDeny, Protos, RefreshFrom, PendingOk, ChildrenOk, Conserved, Report, Matching;
    var t := Find(s, id, bySw, addr, refresh, counted, sized, listed, granted).0;
    if t != s {
      var c := Lookup(s.children, id).value.config;
      var pk := if bySw then Some(ProtoKey(c, addr)) else None;
      var hk := if bySw then None else Some(HwKey(s.link, addr));
      RefreshThins(s.denied, pk, hk);
      RefreshThins(s.resolved, pk, hk);
      ThinsCacheOk(s.link, s.denied, RefreshFrom(s.denied, pk, hk));
      ThinsCacheOk(s.link, s.resolved, RefreshFrom(s.resolved, pk, hk));
      ThinsProtos(RefreshFrom(s.denied, pk, hk), s.denied);
      SameConserved(s, t);
    }
  }

  // ---------- Request ----------

  lemma {:induction false} UpToStep(n: nat)
    ensures UpTo(n + 1) == multiset{n} + UpTo(n)
  {
  }

  /** The pending entry that a new request ends up in is well formed. */
  lemma {:induction false} EnqueuedWaiting(s: State, inst: Instance, pk: Key, e: Entry, r: Request)
    requires Lookup(s.children, inst.id) == Some(inst) && inst.configured
    requires e.proto == pk.Stored() && pk.Valid() && pk.kind == inst.config.swType && pk.len == inst.config.swLen
    requires e.hw == Address(s.link.ifType, Zeros(s.link.hwSize))
    requires forall q :: q in e.requests ==> q.target == e.proto && Serves(s.children, q.owner, e.proto)
    requires r.owner == inst.id && r.target == pk.Stored()
    ensures Waiting(s.link, s.children, e.(requests := [r] + e.requests))
  {
    assert Serves(s.children, r.owner, e.proto);
  }

  lemma {:induction false} EnqueueNewInv(s: State, inst: Instance, pk: Key, event: nat)
    requires Inv(s) && Lookup(s.children, inst.id) == Some(inst) && inst.configured
    requires pk.Valid() && pk.bytes.Some? && pk.kind == inst.config.swType && pk.len == inst.config.swLen
    requires FindNext(s.pending, 0, Some(pk), None) == |s.pending|
    ensures Inv(Enqueue(s, inst, pk, event))
  {
    hide Lookup, FindNext, Distinct, SoleDeny, Ids, SignalIds, RequestIds, Protos, Serves, UpTo;
    var e := NewEntry(inst.config, pk, HwKey(s.link, None));
    var r := Request(s.nextRequest, inst.id, event, pk.Stored());
    var e' := e.(requests := [r] + e.requests);
    EnqueuedWaiting(s, inst, pk, e, r);
    FindByProto(s.pending, pk);
    DistinctAppend(s.pending, [e']);
    SingleProto(e');
    IdsAppend(s.pending, [e']);
    OneEntry(e');
    NewRequestIds(r);
    assert e'.requests == [r];
    UpToStep(s.nextRequest);
  }

  lemma {:induction false} NewRequestIds(r: Request)
    ensures RequestIds([r]) == multiset{r.id}
  {
    assert [r] == [r] + [];
    RequestIdsStep(r, []);
  }

  lemma {:induction false} EnqueueMoreInv(s: State, inst: Instance, pk: Key, event: nat)
    requires Inv(s) && Lookup(s.children, inst.id) == Some(inst) && inst.configured
    requires pk.Valid() && pk.bytes.Some? && pk.kind == inst.config.swType && pk.len == inst.config.swLen
    requires FindNext(s.pending, 0, Some(pk), None) < |s.pending|
    ensures Inv(Enqueue(s, inst, pk, event))
  {
    hide Lookup, FindNext, Distinct, SoleDeny, Ids, SignalIds, RequestIds, Protos, Serves, UpTo;
    var i := FindNext(s.pending, 0, Some(pk), None);
    FindByProto(s.pending, pk);
    var e := s.pending[i].(nextRetry := inst.config.retryTimeOut, retryCount := inst.config.retryCount);
    assert Waiting(s.link, s.children, s.pending[i]);
    var r := Request(s.nextRequest, inst.id, event, pk.Stored());
    var e' := e.(requests := [r] + e.requests);
    EnqueuedWaiting(s, inst, pk, e, r);
    ReplaceDistinct(s.pending, i, e');
    WithoutIds(s.pending, i);
    ReplaceIds(s.pending, i, e');
    RequestIdsStep(r, e.requests);
    UpToStep(s.nextRequest);
    var rest, own, sig := Ids(Without(s.pending, i)), RequestIds(e.requests), SignalIds(s.signals);
    assert (rest + (multiset{r.id} + own)) + sig == multiset{r.id} + ((rest + own) + sig);
  }

  lemma {:induction false} RequestInv(s: State, id: nat, sw: Option<seq<byte>>, event: Option<nat>, bufferGiven: bool,
                   mapped: (Status, Option<seq<byte>>), contextGranted: bool, entryGranted: bool)
    requires Inv(s)
    ensures Inv(AskFor(s, id, sw, event, bufferGiven, mapped, contextGranted, entryGranted).0)
  {
    hide Inv, Enqueue, FindNext, FindDenied;
    var t := AskFor(s, id, sw, event, bufferGiven, mapped, contextGranted, entryGranted).0;
    if t != s {
      var inst := Lookup(s.children, id).value;
      LookupMember(s.children, id);
      var pk := ProtoKey(inst.config, sw);
      if FindNext(s.pending, 0, Some(pk), None) < |s.pending| {
        EnqueueMoreInv(s, inst, pk, event.value);
      } else {
        EnqueueNewInv(s, inst, pk, event.value);
      }
    }
  }

  // ---------- Add ----------

  /** Taking an entry out keeps the tables in order and accounts for its requests. */
  lemma {:induction false} TakeOutOk(s: State, p: Place, blank: Entry)
    requires Inv(s) && blank.requests == []
    requires p.InDenied? ==> p.i < |s.denied|
    requires p.InResolved? ==> p.i < |s.resolved|
    requires p.InPending? ==> p.i < |s.pending|
    ensures var t := TakeOut(s, p);
            && TablesOk(t) && t.link == s.link && t.nextRequest == s.nextRequest
            && Ids(t.pending) + (RequestIds(Taken(s, p, blank).requests) + SignalIds(t.signals)) == UpTo(t.nextRequest)
  {
    hide Distinct, SoleDeny, Ids, SignalIds, Protos, Serves, UpTo;
    match p
    case InDenied(i) =>
      WithoutSoleDeny(s.denied, i);
      WithoutMembers(s.denied, i);
      assert Settled(s.link, s.denied[i]);
    case InResolved(i) =>
      WithoutMembers(s.resolved, i);
      assert Settled(s.link, s.resolved[i]);
    case InPending(i) =>
      WithoutIds(s.pending, i);
      WithoutMembers(s.pending, i);
      WithoutDistinct(s.pending, i);
    case Nowhere =>
  }

  /** A deny entry stored by ArpAdd is the only one for its address, unless the address is all zero. */
  lemma {:induction false} AddDenyAlone(s: State, pk: Key, hk: Key)
    requires SoleDeny(s.denied) && pk.Valid() && hk.Valid()
    ensures AllZero(pk.Stored().bytes) || pk.Stored() !in Protos(TakeOut(s, AddPlace(s, pk, hk)).denied)
  {
    hide SoleDeny, Protos, FindNext, AllZero;
    if pk.bytes.None? {
      ZerosAreZero(pk.len);
    } else {
      var p := AddPlace(s, pk, hk);
      FindByProto(s.denied, pk);
      if p.InDenied? {
        WithoutSoleDeny(s.denied, p.i);
      }
    }
  }

  lemma {:induction false} ZerosAreZero(n: nat)
    ensures AllZero(Zeros(n))
  {
  }

  lemma {:induction false} StoredSize(k: Key)
    requires k.Valid()
    ensures k.Stored().kind == k.kind && |k.Stored().bytes| == k.len
  {
  }

  lemma {:induction false} AddInv(s: State, id: nat, deny: bool, sw: Option<seq<byte>>, hw: Option<seq<byte>>,
               timeout: nat, overwrite: bool, granted: bool)
    requires Inv(s)
    ensures Inv(Add(s, id, deny, sw, hw, timeout, overwrite, granted).0)
  {
    hide Lookup, CachedPlace, AddPlace, TakeOut, Settle, Taken, Inv, TablesOk, AllZero, Ids, SignalIds, RequestIds, Protos, UpTo;
    var (t, status) := Add(s, id, deny, sw, hw, timeout, overwrite, granted);
    if status == Success {
      var c := Lookup(s.children, id).value.config;
      var pk, hk := ProtoKey(c, sw), HwKey(s.link, hw);
      var p := AddPlace(s, pk, hk);
      var blank := NewEntry(c, pk, hk);
      TakeOutOk(s, p, blank);
      InvSoleDeny(s);
      AddDenyAlone(s, pk, hk);
      StoredSize(hk);
      SettleInv(TakeOut(s, p), Renewed(Taken(s, p, blank), pk, hk, timeout), deny);
    }
  }

  lemma {:induction false} InvSoleDeny(s: State)
    requires Inv(s)
    ensures SoleDeny(s.denied)
  {
  }

  // ---------- Receive ----------

  lemma {:induction false} MergeInv(s: State, f: Frame)
    requires Inv(s) && f.hwType == s.link.ifType && |f.senderHw| == s.link.hwSize
    ensures Inv(Merge(s, f))
  {
    hide Distinct, SoleDeny, Conserved, FindNext, Serves;
    var i := FindNext(s.resolved, 0, Some(SenderProto(f)), None);
    if i < |s.resolved| {
      assert Settled(s.link, s.resolved[i]);
      SameConserved(s, Merge(s, f));
    }
  }

  lemma {:induction false} LearnInv(s: State, f: Frame)
    requires Inv(s) && f.hwType == s.link.ifType && |f.senderHw| == s.link.hwSize
    ensures Inv(Learn(s, f))
  {
    hide Inv, TablesOk, FindNext, Settle, TakeOut, Taken, Ids, SignalIds, RequestIds, Protos, UpTo;
    var i := FindNext(s.pending, 0, Some(SenderProto(f)), None);
    var blank := NewDefaultEntry(SenderProto(f), SenderHw(f));
    var p := if i < |s.pending| then InPending(i) else Nowhere;
    TakeOutOk(s, p, blank);
    TakenHere(s, p, blank);
    var e := Taken(s, p, blank).(proto := SenderProto(f).Stored(), hw := SenderHw(f).Stored());
    SettleInv(TakeOut(s, p), e, false);
  }

  lemma {:induction false} TakenHere(s: State, p: Place, blank: Entry)
    requires p.Nowhere? || (p.InPending? && p.i < |s.pending|)
    ensures p.Nowhere? ==> Taken(s, p, blank) == blank && TakeOut(s, p) == s
    ensures p.InPending? ==>
              Taken(s, p, blank) == s.pending[p.i] && TakeOut(s, p) == s.(pending := Without(s.pending, p.i))
  {
  }

  lemma {:induction false} RepliedInv(s: State, f: Frame, target: Instance)
    requires Inv(s)
    ensures Inv(Replied(s, f, target))
  {
    hide Distinct, SoleDeny, Conserved, PendingOk, CacheOk;
    SameConserved(s, Replied(s, f, target));
  }

  lemma {:induction false} ReceiveInv(s: State, payload: seq<byte>, protocolType: nat, granted: bool)
    requires Inv(s)
    ensures Inv(Receive(s, payload, protocolType, granted))
  {
    hide Inv, Merge, Learn, Replied, FindNext, FindDenied, TargetOf, Spoken, Decode;
    var d := Decode(payload);
    if d.Some? && Accepted(s, d.value, protocolType) {
      var f := d.value;
      var target := TargetOf(s.children, f);
      MergeInv(s, f);
      LearnInv(s, f);
      if target.Some? {
        RepliedInv(Merge(s, f), f, target.value);
        RepliedInv(Learn(s, f), f, target.value);
      }
    }
  }

  // ---------- Every reachable state ----------

  lemma {:induction false} NextInv(s: State, step: Step)
    requires Inv(s)
    ensures Inv(Next(s, step))
  {
    hide Inv, CreateChild, DestroyChild, Configure, Add, Find, DeleteCache, AskFor, Receive, Tick, CancelRequest;
    match step
    case CreateStep(granted) => CreateInv(s, granted);
    case DestroyStep(id, uninstalled) => DestroyInv(s, id, uninstalled);
    case ConfigureStep(id, c, stationGiven, granted) => ConfigureInv(s, id, c, stationGiven, granted);
    case AddStep(id, deny, sw, hw, timeout, overwrite, granted) =>
      AddInv(s, id, deny, sw, hw, timeout, overwrite, granted);
    case FindStep(id, bySw, addr, refresh, counted, sized, listed, granted) =>
      FindInv(s, id, bySw, addr, refresh, counted, sized, listed, granted);
    case DeleteStep(id, bySw, addr) =>
      var found := Lookup(s.children, id);
      if found.Some? {
        DeleteInv(s, bySw, found.value.config.swType, addr, true);
      }
    case FlushStep(id) =>
      var found := Lookup(s.children, id);
      if found.Some? {
        DeleteInv(s, false, found.value.config.swType, None, false);
      }
    case RequestStep(id, sw, event, bufferGiven, mapped, contextGranted, entryGranted) =>
      RequestInv(s, id, sw, event, bufferGiven, mapped, contextGranted, entryGranted);
    case CancelStep(id, sw, event) => CancelInv(s, id, sw, event);
    case ReceiveStep(payload, protocolType, granted) => ReceiveInv(s, payload, protocolType, granted);
    case TickStep => TickInv(s);
  }

  lemma {:induction false} StartInv(link: Link)
    ensures Inv(Start(link))
  {
  }

  /** The invariant holds after every run of every mix of steps. */
  lemma {:induction false} ReachableInv(link: Link, steps: seq<Step>)
    ensures Inv(Run(Start(link), steps))
  {
    if steps == [] {
      StartInv(link);
    } else {
      hide Inv, Next;
      ReachableInv(link, steps[..|steps| - 1]);
      NextInv(Run(Start(link), steps[..|steps| - 1]), steps[|steps| - 1]);
    }
  }
}
