/** The calls that search the tables: what ArpDelete, ArpFind and ArpCancel hit, miss and report. */
module ArpCalls {
  import opened Bytes
  import opened Filters
  import opened ArpTypes
  import opened ArpSteps
  import opened ArpTables
  import opened ArpInvariant
  import opened ArpTimer

  // ---------- Delete ----------

  /** The entry is what the caller of ArpDelete named; no address names all of them. */
  predicate Named(e: Entry, bySw: bool, swType: nat, addr: Option<seq<byte>>) {
    if bySw then e.proto.kind == swType && (addr.Some? ==> Read(addr.value, |e.proto.bytes|) == e.proto.bytes)
    else addr.Some? ==> Read(addr.value, |e.hw.bytes|) == e.hw.bytes
  }

  function Spared(bySw: bool, swType: nat, addr: Option<seq<byte>>): Entry -> bool {
    (e: Entry) => !Named(e, bySw, swType, addr)
  }

  lemma {:induction false} DeleteTable(table: seq<Entry>, bySw: bool, swType: nat, addr: Option<seq<byte>>)
    ensures var kept := DeleteFrom(table, bySw, swType, addr, true);
            && kept == Filter(Spared(bySw, swType, addr), table)
            && |kept| <= |table|
            && (|kept| < |table| <==> exists e :: e in table && Named(e, bySw, swType, addr))
  {
    if table != [] {
      assert Doomed(table[0], bySw, swType, addr, true) <==> Named(table[0], bySw, swType, addr);
      hide Doomed, Named;
      DeleteTable(table[1..], bySw, swType, addr);
      assert table == [table[0]] + table[1..];
      assert table[0] in table;
      if e :| e in table[1..] && Named(e, bySw, swType, addr) {
        assert e in table;
      }
    }
  }

  /** ArpDelete keeps, in order, exactly the entries not named, static or not; it succeeds exactly when one was. */
  lemma {:induction false} DeleteExact(s: State, id: nat, bySw: bool, addr: Option<seq<byte>>)
    requires Lookup(s.children, id).Some? && Lookup(s.children, id).value.configured
    ensures var (t, status) := Delete(s, id, bySw, addr);
            var swType := Lookup(s.children, id).value.config.swType;
            && t.denied == Filter(Spared(bySw, swType, addr), s.denied)
            && t.resolved == Filter(Spared(bySw, swType, addr), s.resolved)
            && (status == Success <==> exists e :: (e in s.denied || e in s.resolved) && Named(e, bySw, swType, addr))
            && t.pending == s.pending && t.signals == s.signals
  {
    hide Lookup, DeleteFrom, Named;
    var swType := Lookup(s.children, id).value.config.swType;
    DeleteTable(s.denied, bySw, swType, addr);
    DeleteTable(s.resolved, bySw, swType, addr);
  }

  // ---------- Cancel ----------

  /** Request `r` waits for address `a`. */
  predicate Linked(table: seq<Entry>, a: Address, r: Request) {
    table != [] && ((table[0].proto == a && r in table[0].requests) || Linked(table[1..], a, r))
  }

  /** What a cancel by `owner` is aimed at: its own requests, for the address and with the event, where given. */
  predicate Hit(a: Address, r: Request, owner: nat, sw: Option<seq<byte>>, event: Option<nat>) {
    && r.owner == owner
    && (sw.Some? ==> Read(sw.value, |a.bytes|) == a.bytes)
    && (event.Some? ==> r.event == event.value)
  }

  lemma {:induction false} HitMeans(a: Address, r: Request, owner: nat, sw: Option<seq<byte>>, event: Option<nat>)
    ensures Hit(a, r, owner, sw, event) <==> MatchBuffer(sw, a) && Notified(r, Some(owner), event)
  {
  }

  lemma {:induction false} LinkedAppend(x: seq<Entry>, y: seq<Entry>, a: Address, r: Request)
    ensures Linked(x + y, a, r) <==> Linked(x, a, r) || Linked(y, a, r)
  {
    if x == [] {
      assert x + y == y;
    } else {
      assert (x + y)[1..] == x[1..] + y;
      LinkedAppend(x[1..], y, a, r);
    }
  }

  lemma {:induction false} LinkedOne(e: Entry, a: Address, r: Request)
    ensures Linked([e], a, r) <==> e.proto == a && r in e.requests
  {
    assert [e][1..] == [];
  }

  lemma {:induction false} KeptMembers(reqs: seq<Request>, owner: Option<nat>, event: Option<nat>, r: Request)
    ensures r in Kept(reqs, owner, event) <==> r in reqs && !Notified(r, owner, event)
    ensures r in Released(reqs, owner, event) <==> r in reqs && Notified(r, owner, event)
  {
    if reqs != [] {
      KeptMembers(reqs[1..], owner, event, r);
      assert reqs == [reqs[0]] + reqs[1..];
    }
  }

  lemma {:induction false} CancelEntryLinks(e: Entry, sw: Option<seq<byte>>, owner: nat, event: Option<nat>,
                                            a: Address, r: Request)
    ensures Linked(CancelEntry(e, sw, Some(owner), event), a, r) <==>
            Linked([e], a, r) && !Hit(a, r, owner, sw, event)
  {
    hide Linked, Kept, MatchBuffer, Notified, Hit;
    HitMeans(a, r, owner, sw, event);
    KeptMembers(e.requests, Some(owner), event, r);
    LinkedOne(e, a, r);
    var kept := Kept(e.requests, Some(owner), event);
    LinkedOne(e.(requests := kept), a, r);
    NoLinks(a, r);
  }

  lemma {:induction false} NoLinks(a: Address, r: Request)
    ensures !Linked([], a, r)
  {
  }

  lemma {:induction false} CancelUnfold(table: seq<Entry>, sw: Option<seq<byte>>, owner: nat, event: Option<nat>)
    ensures CancelPending(table, sw, Some(owner), event) ==
            if table == [] then []
            else CancelEntry(table[0], sw, Some(owner), event) + CancelPending(table[1..], sw, Some(owner), event)
  {
  }

  lemma {:induction false} CancelLinks(table: seq<Entry>, sw: Option<seq<byte>>, owner: nat, event: Option<nat>,
                                       a: Address, r: Request)
    ensures Linked(CancelPending(table, sw, Some(owner), event), a, r) <==>
            Linked(table, a, r) && !Hit(a, r, owner, sw, event)
  {
    hide Linked, CancelEntry, Hit, CancelPending;
    CancelUnfold(table, sw, owner, event);
    NoLinks(a, r);
    if table != [] {
      CancelLinks(table[1..], sw, owner, event, a, r);
      CancelEntryLinks(table[0], sw, owner, event, a, r);
      assert table == [table[0]] + table[1..];
      LinkedAppend([table[0]], table[1..], a, r);
      LinkedAppend(CancelEntry(table[0], sw, Some(owner), event),
                   CancelPending(table[1..], sw, Some(owner), event), a, r);
    }
  }

  lemma {:induction false} DeliverMembers(reqs: seq<Request>, e: Entry, g: Signal)
    ensures g in Deliver(reqs, e) <==> g.request in reqs && g.target == e.proto && g.hw == e.hw.bytes
  {
    if reqs != [] {
      DeliverMembers(reqs[1..], e, g);
      assert reqs == [reqs[0]] + reqs[1..];
    }
  }

  lemma {:induction false} CancelSends(table: seq<Entry>, sw: Option<seq<byte>>, owner: nat, event: Option<nat>,
                                       zero: seq<byte>, g: Signal)
    requires forall e :: e in table ==> e.hw.bytes == zero
    ensures g in CancelSignals(table, sw, Some(owner), event) <==>
            g.hw == zero && Linked(table, g.target, g.request) && Hit(g.target, g.request, owner, sw, event)
  {
    if table != [] {
      hide Kept, Released, MatchBuffer, Notified, Deliver, Hit;
      HitMeans(g.target, g.request, owner, sw, event);
      CancelSends(table[1..], sw, owner, event, zero, g);
      KeptMembers(table[0].requests, Some(owner), event, g.request);
      DeliverMembers(Released(table[0].requests, Some(owner), event), table[0], g);
    }
  }

  /**
   ArpCancel completes, with a zero address, exactly the requests of this child
   that match the address and the event, leaves every other request where it
   waits, and succeeds exactly when there was one to complete.
   */
  lemma {:induction false} CancelExact(s: State, id: nat, sw: Option<seq<byte>>, event: Option<nat>)
    requires Inv(s) && Lookup(s.children, id).Some? && Lookup(s.children, id).value.configured
    requires sw.Some? == event.Some?
    ensures var (t, status) := Cancel(s, id, sw, event);
            && (forall a, r :: Linked(t.pending, a, r) <==> Linked(s.pending, a, r) && !Hit(a, r, id, sw, event))
            && s.signals <= t.signals
            && (forall g :: g in t.signals[|s.signals|..] <==>
                  g.hw == Zeros(s.link.hwSize) && Linked(s.pending, g.target, g.request)
                  && Hit(g.target, g.request, id, sw, event))
            && (status == Success <==> exists a, r :: Linked(s.pending, a, r) && Hit(a, r, id, sw, event))
            && t.denied == s.denied && t.resolved == s.resolved
  {
    hide Inv, Lookup, CancelPending, CancelSignals, Linked, Hit;
    var (t, status) := Cancel(s, id, sw, event);
    InvPending(s);
    var zero := Zeros(s.link.hwSize);
    var done := CancelSignals(s.pending, sw, Some(id), event);
    forall a, r ensures Linked(t.pending, a, r) <==> Linked(s.pending, a, r) && !Hit(a, r, id, sw, event) {
      CancelLinks(s.pending, sw, id, event, a, r);
    }
    assert t.signals[|s.signals|..] == done;
    forall g
      ensures g in done <==>
              g.hw == zero && Linked(s.pending, g.target, g.request) && Hit(g.target, g.request, id, sw, event)
    {
      CancelSends(s.pending, sw, id, event, zero, g);
    }
    if a, r :| Linked(s.pending, a, r) && Hit(a, r, id, sw, event) {
      assert Signal(r, a, zero) in done;
    }
    if done != [] {
      assert done[0] in done;
    }
  }

  // ---------- Find ----------

  function Shown(e: Entry, deny: bool, c: Config, link: Link): Found {
    Found(deny, e.defaultDecay == 0, Read(e.proto.bytes, c.swLen), Read(e.hw.bytes, link.hwSize))
  }

  function ShownAll(entries: seq<Entry>, deny: bool, c: Config, link: Link): seq<Found> {
    seq(|entries|, i requires 0 <= i < |entries| => Shown(entries[i], deny, c, link))
  }

  function Meeting(proto: Option<Key>, hw: Option<Key>): Entry -> bool {
    (e: Entry) => Meets(e, proto, hw)
  }

  lemma {:induction false} MatchingFilters(table: seq<Entry>, proto: Option<Key>, hw: Option<Key>)
    ensures Matching(table, proto, hw) == Filter(Meeting(proto, hw), table)
  {
    if table != [] {
      hide Meets;
      MatchingFilters(table[1..], proto, hw);
    }
  }

  lemma {:induction false} ReportShowsAll(entries: seq<Entry>, deny: bool, c: Config, link: Link)
    ensures Report(entries, deny, c, link) == ShownAll(entries, deny, c, link)
  {
    if entries != [] {
      hide Read;
      ReportShowsAll(entries[1..], deny, c, link);
      assert ShownAll(entries, deny, c, link) == [Shown(entries[0], deny, c, link)] + ShownAll(entries[1..], deny, c, link);
    }
  }

  lemma {:induction false} RefreshSize(table: seq<Entry>, proto: Option<Key>, hw: Option<Key>)
    ensures |RefreshFrom(table, proto, hw)| == |table|
  {
    if table != [] {
      RefreshSize(table[1..], proto, hw);
    }
  }

  lemma {:induction false} RefreshAt(table: seq<Entry>, proto: Option<Key>, hw: Option<Key>, i: nat)
    requires i < |table|
    ensures |RefreshFrom(table, proto, hw)| == |table|
    ensures RefreshFrom(table, proto, hw)[i] ==
            if Meets(table[i], proto, hw) then table[i].(decay := table[i].defaultDecay) else table[i]
  {
    hide Meets;
    RefreshSize(table, proto, hw);
    if i > 0 {
      RefreshAt(table[1..], proto, hw, i - 1);
    }
  }

  /** `after` is `before` with the life time of the entries that meet the search started again. */
  ghost predicate Refreshed(before: seq<Entry>, after: seq<Entry>, proto: Option<Key>, hw: Option<Key>) {
    && |after| == |before|
    && forall i :: 0 <= i < |before| ==>
         after[i] == if Meets(before[i], proto, hw) then before[i].(decay := before[i].defaultDecay) else before[i]
  }

  lemma {:induction false} RefreshFromRefreshes(table: seq<Entry>, proto: Option<Key>, hw: Option<Key>)
    ensures Refreshed(table, RefreshFrom(table, proto, hw), proto, hw)
  {
    hide Meets, RefreshFrom;
    RefreshSize(table, proto, hw);
    forall i | 0 <= i < |table|
      ensures RefreshFrom(table, proto, hw)[i] ==
              if Meets(table[i], proto, hw) then table[i].(decay := table[i].defaultDecay) else table[i]
    {
      RefreshAt(table, proto, hw, i);
    }
  }

  /**
   ArpFind reports exactly the entries that meet the search, the denied ones
   first, each table in order; it says not found exactly when there are none, and
   restarts the life time of exactly those if asked to, changing nothing otherwise.
   */
  lemma {:induction false} FindExact(s: State, id: nat, bySw: bool, addr: Option<seq<byte>>, refresh: bool,
                                     counted: bool, sized: bool, listed: bool, granted: bool)
    requires Lookup(s.children, id).Some? && Lookup(s.children, id).value.configured
    requires refresh || counted || sized
    requires listed ==> counted && sized
    ensures var (t, status, report) := Find(s, id, bySw, addr, refresh, counted, sized, listed, granted);
            var c := Lookup(s.children, id).value.config;
            var pk := if bySw then Some(ProtoKey(c, addr)) else None;
            var hk := if bySw then None else Some(HwKey(s.link, addr));
            var denied, resolved := Filter(Meeting(pk, hk), s.denied), Filter(Meeting(pk, hk), s.resolved);
            && (status == NotFound <==> denied == [] && resolved == [])
            && (status == OutOfResources <==> (denied != [] || resolved != []) && listed && !granted)
            && (status == NotFound || status == OutOfResources || status == Success)
            && (status == Success ==>
                  report == ShownAll(denied, true, c, s.link) + ShownAll(resolved, false, c, s.link))
            && (if refresh then Refreshed(s.denied, t.denied, pk, hk) && Refreshed(s.resolved, t.resolved, pk, hk)
                else t == s)
  {
    hide Lookup, Refreshed, Report, Matching, RefreshFrom, Filter;
    var c := Lookup(s.children, id).value.config;
    var pk := if bySw then Some(ProtoKey(c, addr)) else None;
    var hk := if bySw then None else Some(HwKey(s.link, addr));
    RefreshFromRefreshes(s.denied, pk, hk);
    RefreshFromRefreshes(s.resolved, pk, hk);
    MatchingFilters(s.denied, pk, hk);
    MatchingFilters(s.resolved, pk, hk);
    ReportShowsAll(Matching(s.denied, pk, hk), true, c, s.link);
    ReportShowsAll(Matching(s.resolved, pk, hk), false, c, s.link);
  }

  /**
   What ArpFind shows of a cached entry is what the entry holds: the hardware
   address always, the protocol address whenever it is as long as the caller's,
   as in every search by protocol address.
   */
  lemma {:induction false} ShownIsStored(s: State, c: Config, addr: Option<seq<byte>>, e: Entry, deny: bool)
    requires Inv(s) && (e in s.denied || e in s.resolved)
    ensures Shown(e, deny, c, s.link).hw == e.hw.bytes
    ensures |e.proto.bytes| == c.swLen ==> Shown(e, deny, c, s.link).sw == e.proto.bytes
    ensures Meets(e, Some(ProtoKey(c, addr)), None) ==> |e.proto.bytes| == c.swLen
  {
    hide Distinct, SoleDeny, Conserved, PendingOk, ChildrenOk;
    assert Settled(s.link, e);
  }
}
