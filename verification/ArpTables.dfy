/** How the service's list operations act on request identities and on addresses. */
module ArpTables {
  import opened Bytes
  import opened ArpTypes
  import opened ArpSteps

  // ---------- Request identities, with multiplicity ----------

  ghost function RequestIds(reqs: seq<Request>): multiset<nat> {
    if reqs == [] then multiset{} else multiset{reqs[0].id} + RequestIds(reqs[1..])
  }

  ghost function Ids(table: seq<Entry>): multiset<nat> {
    if table == [] then multiset{} else RequestIds(table[0].requests) + Ids(table[1..])
  }

  ghost function SignalIds(signals: seq<Signal>): multiset<nat> {
    if signals == [] then multiset{} else multiset{signals[0].request.id} + SignalIds(signals[1..])
  }

  lemma {:induction false} IdsAppend(a: seq<Entry>, b: seq<Entry>)
    ensures Ids(a + b) == Ids(a) + Ids(b)
  {
    if a == [] {
      assert a + b == b;
    } else {
      assert (a + b)[1..] == a[1..] + b;
      IdsAppend(a[1..], b);
    }
  }

  lemma {:induction false} SignalIdsAppend(a: seq<Signal>, b: seq<Signal>)
    ensures SignalIds(a + b) == SignalIds(a) + SignalIds(b)
  {
    if a == [] {
      assert a + b == b;
    } else {
      assert (a + b)[1..] == a[1..] + b;
      SignalIdsAppend(a[1..], b);
    }
  }

  lemma {:induction false} OneEntry(e: Entry)
    ensures Ids([e]) == RequestIds(e.requests)
  {
    assert [e][1..] == [];
  }

  lemma {:induction false} WithoutIds(table: seq<Entry>, i: nat)
    requires i < |table|
    ensures Ids(table) == Ids(Without(table, i)) + RequestIds(table[i].requests)
  {
    hide Ids;
    assert table == table[..i] + ([table[i]] + table[i + 1..]);
    IdsAppend(table[..i], [table[i]] + table[i + 1..]);
    IdsAppend([table[i]], table[i + 1..]);
    IdsAppend(table[..i], table[i + 1..]);
    OneEntry(table[i]);
  }

  lemma {:induction false} ReplaceIds(table: seq<Entry>, i: nat, e: Entry)
    requires i < |table|
    ensures Ids(table[i := e]) == Ids(Without(table, i)) + RequestIds(e.requests)
  {
    hide Ids;
    assert table[i := e] == table[..i] + ([e] + table[i + 1..]);
    IdsAppend(table[..i], [e] + table[i + 1..]);
    IdsAppend([e], table[i + 1..]);
    IdsAppend(table[..i], table[i + 1..]);
    OneEntry(e);
  }

  lemma {:induction false} DeliverIds(reqs: seq<Request>, e: Entry)
    ensures SignalIds(Deliver(reqs, e)) == RequestIds(reqs)
  {
    if reqs != [] {
      DeliverIds(reqs[1..], e);
      assert Deliver(reqs, e)[1..] == Deliver(reqs[1..], e);
    }
  }

  lemma {:induction false} SplitIds(reqs: seq<Request>, owner: Option<nat>, event: Option<nat>)
    ensures RequestIds(Kept(reqs, owner, event)) + RequestIds(Released(reqs, owner, event)) == RequestIds(reqs)
  {
    hide RequestIds, Kept, Released, Notified;
    if reqs == [] {
      NoIds(owner, event);
    } else {
      var r, rest := reqs[0], reqs[1..];
      SplitIds(rest, owner, event);
      SplitStep(reqs, owner, event);
      assert reqs == [r] + rest;
      RequestIdsStep(r, rest);
      var kept, released := Kept(rest, owner, event), Released(rest, owner, event);
      RequestIdsStep(r, released);
      RequestIdsStep(r, kept);
      Shuffle(RequestIds(kept), multiset{r.id}, RequestIds(released));
    }
  }

  lemma {:induction false} NoIds(owner: Option<nat>, event: Option<nat>)
    ensures RequestIds(Kept([], owner, event)) + RequestIds(Released([], owner, event)) == RequestIds([])
  {
  }

  lemma {:induction false} Shuffle(a: multiset<nat>, x: multiset<nat>, b: multiset<nat>)
    ensures a + (x + b) == x + (a + b) == (x + a) + b
  {
  }

  lemma {:induction false} SplitStep(reqs: seq<Request>, owner: Option<nat>, event: Option<nat>)
    requires reqs != []
    ensures Kept(reqs, owner, event) ==
            if Notified(reqs[0], owner, event) then Kept(reqs[1..], owner, event)
            else [reqs[0]] + Kept(reqs[1..], owner, event)
    ensures Released(reqs, owner, event) ==
            if Notified(reqs[0], owner, event) then [reqs[0]] + Released(reqs[1..], owner, event)
            else Released(reqs[1..], owner, event)
  {
  }

  lemma {:induction false} RequestIdsStep(r: Request, rest: seq<Request>)
    ensures RequestIds([r] + rest) == multiset{r.id} + RequestIds(rest)
  {
    assert ([r] + rest)[1..] == rest;
  }

  /** A tick moves the requests of expired entries from the table to the log, and no others. */
  lemma {:induction false} TickIds(children: seq<Instance>, table: seq<Entry>)
    ensures Ids(TickPending(children, table)) + SignalIds(TickSignals(table)) == Ids(table)
  {
    if table != [] {
      var e, rest := table[0], table[1..];
      TickIds(children, rest);
      hide RequestIds, Ids, SignalIds, Deliver, TickEntry;
      IdsStep(table);
      TickPendingStep(children, table);
      TickSignalsStep(table);
      DeliverIds(e.requests, e);
      SignalIdsAppend(Deliver(e.requests, e), TickSignals(rest));
      IdsAppend([TickEntry(children, e)], TickPending(children, rest));
      OneEntry(TickEntry(children, e));
      TickKeepsAddresses(children, e);
    }
  }

  lemma {:induction false} IdsStep(table: seq<Entry>)
    requires table != []
    ensures Ids(table) == RequestIds(table[0].requests) + Ids(table[1..])
  {
  }

  lemma {:induction false} TickPendingStep(children: seq<Instance>, table: seq<Entry>)
    requires table != []
    ensures TickPending(children, table) ==
            if Expired(table[0]) then TickPending(children, table[1..])
            else [TickEntry(children, table[0])] + TickPending(children, table[1..])
  {
  }

  lemma {:induction false} TickSignalsStep(table: seq<Entry>)
    requires table != []
    ensures TickSignals(table) ==
            if Expired(table[0]) then Deliver(table[0].requests, table[0]) + TickSignals(table[1..])
            else TickSignals(table[1..])
  {
  }

  lemma {:induction false} TickKeepsAddresses(children: seq<Instance>, e: Entry)
    ensures var t := TickEntry(children, e);
            t.proto == e.proto && t.hw == e.hw && t.requests == e.requests
  {
  }

  /** Cancelling moves the matching requests from the table to the log, and no others. */
  lemma {:induction false} CancelIds(table: seq<Entry>, sw: Option<seq<byte>>, owner: Option<nat>, event: Option<nat>)
    ensures Ids(CancelPending(table, sw, owner, event)) + SignalIds(CancelSignals(table, sw, owner, event)) == Ids(table)
  {
    if table != [] {
      var e, rest := table[0], table[1..];
      CancelIds(rest, sw, owner, event);
      CancelEntryIds(e, sw, owner, event);
      IdsAppend(CancelEntry(e, sw, owner, event), CancelPending(rest, sw, owner, event));
      SignalIdsAppend(CancelOne(e, sw, owner, event), CancelSignals(rest, sw, owner, event));
    }
  }

  lemma {:induction false} CancelEntryIds(e: Entry, sw: Option<seq<byte>>, owner: Option<nat>, event: Option<nat>)
    ensures Ids(CancelEntry(e, sw, owner, event)) + SignalIds(CancelOne(e, sw, owner, event)) == RequestIds(e.requests)
  {
    hide Kept, Released, Deliver;
    if MatchBuffer(sw, e.proto) {
      var kept, released := Kept(e.requests, owner, event), Released(e.requests, owner, event);
      SplitIds(e.requests, owner, event);
      DeliverIds(released, e);
      OneEntry(e.(requests := kept));
      assert kept == [] ==> RequestIds(kept) == multiset{};
    } else {
      OneEntry(e);
    }
  }

  // ---------- Protocol addresses ----------

  ghost function Protos(table: seq<Entry>): set<Address> {
    if table == [] then {} else {table[0].proto} + Protos(table[1..])
  }

  /** At most one entry per protocol address. */
  ghost predicate Distinct(table: seq<Entry>) {
    table != [] ==> table[0].proto !in Protos(table[1..]) && Distinct(table[1..])
  }

  ghost predicate AllZero(bytes: seq<byte>) {
    bytes == Zeros(|bytes|)
  }

  /** At most one entry per protocol address that is not all zero. */
  ghost predicate SoleDeny(table: seq<Entry>) {
    table != [] ==>
      && (AllZero(table[0].proto.bytes) || table[0].proto !in Protos(table[1..]))
      && SoleDeny(table[1..])
  }

  lemma {:induction false} ProtosAppend(a: seq<Entry>, b: seq<Entry>)
    ensures Protos(a + b) == Protos(a) + Protos(b)
  {
    if a == [] {
      assert a + b == b;
    } else {
      assert (a + b)[1..] == a[1..] + b;
      ProtosAppend(a[1..], b);
    }
  }

  lemma {:induction false} ProtosMember(table: seq<Entry>, e: Entry)
    requires e in table
    ensures e.proto in Protos(table)
  {
    if e != table[0] {
      ProtosMember(table[1..], e);
    }
  }

  lemma {:induction false} ProtosWitness(table: seq<Entry>, a: Address) returns (i: nat)
    requires a in Protos(table)
    ensures i < |table| && table[i].proto == a
  {
    if table[0].proto == a {
      i := 0;
    } else {
      i := ProtosWitness(table[1..], a);
      i := i + 1;
    }
  }

  lemma {:induction false} DistinctAppend(a: seq<Entry>, b: seq<Entry>)
    ensures Distinct(a + b) <==> Distinct(a) && Distinct(b) && Protos(a) !! Protos(b)
  {
    if a == [] {
      assert a + b == b;
    } else {
      assert (a + b)[1..] == a[1..] + b;
      DistinctAppend(a[1..], b);
      ProtosAppend(a[1..], b);
    }
  }

  lemma {:induction false} SingleProto(e: Entry)
    ensures Protos([e]) == {e.proto} && Distinct([e]) && SoleDeny([e])
  {
    assert [e][1..] == [];
  }

  /** Taking an entry out of a table with distinct addresses takes its address out. */
  lemma {:induction false} WithoutDistinct(table: seq<Entry>, i: nat)
    requires i < |table| && Distinct(table)
    ensures Distinct(Without(table, i))
    ensures Protos(Without(table, i)) == Protos(table) - {table[i].proto}
  {
    hide Distinct, Protos;
    var a, e, b := table[..i], table[i], table[i + 1..];
    assert table == a + ([e] + b);
    DistinctAppend(a, [e] + b);
    DistinctAppend([e], b);
    DistinctAppend(a, b);
    ProtosAppend(a, [e] + b);
    ProtosAppend([e], b);
    ProtosAppend(a, b);
    SingleProto(e);
  }

  lemma {:induction false} ReplaceDistinct(table: seq<Entry>, i: nat, e: Entry)
    requires i < |table| && e.proto == table[i].proto
    ensures Distinct(table) ==> Distinct(table[i := e])
    ensures Protos(table[i := e]) == Protos(table)
  {
    hide Distinct, Protos;
    var a, b := table[..i], table[i + 1..];
    assert table == a + ([table[i]] + b);
    assert table[i := e] == a + ([e] + b);
    DistinctAppend(a, [table[i]] + b);
    DistinctAppend(a, [e] + b);
    DistinctAppend([table[i]], b);
    DistinctAppend([e], b);
    ProtosAppend(a, [table[i]] + b);
    ProtosAppend(a, [e] + b);
    ProtosAppend([table[i]], b);
    ProtosAppend([e], b);
    SingleProto(table[i]);
    SingleProto(e);
  }

  lemma {:induction false} WithoutSoleDeny(table: seq<Entry>, i: nat)
    requires i < |table| && SoleDeny(table)
    ensures SoleDeny(Without(table, i))
    ensures Protos(Without(table, i)) <= Protos(table)
    ensures !AllZero(table[i].proto.bytes) ==> table[i].proto !in Protos(Without(table, i))
  {
    if i == 0 {
      assert Without(table, 0) == table[1..];
    } else {
      WithoutSoleDeny(table[1..], i - 1);
      assert Without(table, i) == [table[0]] + Without(table[1..], i - 1);
      ProtosMember(table[1..], table[i]);
    }
  }

  // ---------- Searches ----------

  /** A key with octets matches one address only. */
  lemma {:induction false} MatchIsEquality(k: Key, a: Address)
    requires k.Valid() && k.bytes.Some?
    ensures MatchAddress(k, a) <==> a == k.Stored()
  {
  }

  /** A search returns the first match, and the length of the table only if there is none. */
  lemma {:induction false} FindNextIsFirst(table: seq<Entry>, from: nat, proto: Option<Key>, hw: Option<Key>)
    requires from <= |table|
    ensures var i := FindNext(table, from, proto, hw);
            && (i < |table| ==> Meets(table[i], proto, hw))
            && forall j :: from <= j < i ==> !Meets(table[j], proto, hw)
    decreases |table| - from
  {
    if from < |table| && !Meets(table[from], proto, hw) {
      FindNextIsFirst(table, from + 1, proto, hw);
    }
  }

  /** A search by protocol address finds the address exactly when the table has it. */
  lemma {:induction false} FindByProto(table: seq<Entry>, k: Key)
    requires k.Valid() && k.bytes.Some?
    ensures var i := FindNext(table, 0, Some(k), None);
            && (i < |table| <==> k.Stored() in Protos(table))
            && (i < |table| ==> table[i].proto == k.Stored())
  {
    hide Protos, FindNext;
    var i := FindNext(table, 0, Some(k), None);
    FindNextIsFirst(table, 0, Some(k), None);
    if i < |table| {
      MatchIsEquality(k, table[i].proto);
      ProtosMember(table, table[i]);
    } else if k.Stored() in Protos(table) {
      var j := ProtosWitness(table, k.Stored());
      MatchIsEquality(k, table[j].proto);
      assert false;
    }
  }

  // ---------- Operations that drop entries or shorten their lists ----------

  /** `r` has the addresses of `e`, and requests only from `e`. */
  ghost predicate Shrinks(r: Entry, e: Entry) {
    r.proto == e.proto && r.hw == e.hw && forall q :: q in r.requests ==> q in e.requests
  }

  /** `result` is `table` with entries left out and others shrunk in place. */
  ghost predicate Thins(result: seq<Entry>, table: seq<Entry>)
    decreases |table|
  {
    if table == [] then result == []
    else
      || Thins(result, table[1..])
      || (result != [] && Shrinks(result[0], table[0]) && Thins(result[1..], table[1..]))
  }

  lemma {:induction false} ThinsProtos(result: seq<Entry>, table: seq<Entry>)
    requires Thins(result, table)
    ensures Protos(result) <= Protos(table)
    ensures Distinct(table) ==> Distinct(result)
    ensures SoleDeny(table) ==> SoleDeny(result)
    decreases |table|
  {
    if table != [] {
      if Thins(result, table[1..]) {
        ThinsProtos(result, table[1..]);
      } else {
        ThinsProtos(result[1..], table[1..]);
      }
    }
  }

  lemma {:induction false} ThinsOrigin(result: seq<Entry>, table: seq<Entry>, r: Entry) returns (e: Entry)
    requires Thins(result, table) && r in result
    ensures e in table && Shrinks(r, e)
    decreases |table|
  {
    if Thins(result, table[1..]) {
      e := ThinsOrigin(result, table[1..], r);
    } else if r == result[0] {
      e := table[0];
    } else {
      e := ThinsOrigin(result[1..], table[1..], r);
    }
  }

  lemma {:induction false} ThinsDrop(result: seq<Entry>, table: seq<Entry>)
    requires table != [] && Thins(result, table[1..])
    ensures Thins(result, table)
  {
  }

  lemma {:induction false} ThinsKeep(r: Entry, result: seq<Entry>, table: seq<Entry>)
    requires table != [] && Thins(result, table[1..]) && Shrinks(r, table[0])
    ensures Thins([r] + result, table)
  {
    assert ([r] + result)[1..] == result;
  }

  lemma {:induction false} TickThins(children: seq<Instance>, table: seq<Entry>)
    ensures Thins(TickPending(children, table), table)
  {
    if table != [] {
      var e, rest := table[0], TickPending(children, table[1..]);
      TickThins(children, table[1..]);
      TickPendingStep(children, table);
      hide Thins, TickPending;
      if Expired(e) {
        ThinsDrop(rest, table);
      } else {
        TickKeepsAddresses(children, e);
        ThinsKeep(TickEntry(children, e), rest, table);
      }
    }
  }

  lemma {:induction false} KeptFrom(reqs: seq<Request>, owner: Option<nat>, event: Option<nat>, r: Request)
    requires r in Kept(reqs, owner, event)
    ensures r in reqs && !Notified(r, owner, event)
  {
    if r in Kept(reqs[1..], owner, event) {
      KeptFrom(reqs[1..], owner, event, r);
    }
  }

  lemma {:induction false} CancelThins(table: seq<Entry>, sw: Option<seq<byte>>, owner: Option<nat>, event: Option<nat>)
    ensures Thins(CancelPending(table, sw, owner, event), table)
  {
    if table != [] {
      var e, rest := table[0], CancelPending(table[1..], sw, owner, event);
      CancelThins(table[1..], sw, owner, event);
      var kept := Kept(e.requests, owner, event);
      forall q | q in kept ensures q in e.requests {
        KeptFrom(e.requests, owner, event, q);
      }
      if MatchBuffer(sw, e.proto) && kept == [] {
        assert [] + rest == rest;
        ThinsDrop(rest, table);
      } else {
        ThinsKeep(CancelEntry(e, sw, owner, event)[0], rest, table);
      }
    }
  }

  lemma {:induction false} AgeThins(table: seq<Entry>)
    ensures Thins(TickCache(table), table)
  {
    if table != [] {
      var rest := TickCache(table[1..]);
      AgeThins(table[1..]);
      if Aged(table[0]) {
        assert [] + rest == rest;
        ThinsDrop(rest, table);
      } else {
        ThinsKeep(Age(table[0]), rest, table);
      }
    }
  }

  lemma {:induction false} RefreshThins(table: seq<Entry>, proto: Option<Key>, hw: Option<Key>)
    ensures Thins(RefreshFrom(table, proto, hw), table)
  {
    if table != [] {
      RefreshThins(table[1..], proto, hw);
      ThinsKeep(RefreshFrom(table, proto, hw)[0], RefreshFrom(table[1..], proto, hw), table);
    }
  }

  lemma {:induction false} DeleteThins(table: seq<Entry>, bySw: bool, swType: nat, addr: Option<seq<byte>>, force: bool)
    ensures Thins(DeleteFrom(table, bySw, swType, addr, force), table)
  {
    if table != [] {
      var rest := DeleteFrom(table[1..], bySw, swType, addr, force);
      DeleteThins(table[1..], bySw, swType, addr, force);
      if Doomed(table[0], bySw, swType, addr, force) {
        assert [] + rest == rest;
        ThinsDrop(rest, table);
      } else {
        ThinsKeep(table[0], rest, table);
      }
    }
  }
}
