/** What the invariant and the steps give: completion, liveness of owners, the end of the service, exclusion. */
module ArpProperties {
  import opened Bytes
  import opened ArpTypes
  import opened ArpFrame
  import opened ArpSteps
  import opened ArpTables
  import opened ArpInvariant

  // ---------- Exactly-once completion ----------

  lemma {:induction false} UpToOnce(n: nat, id: nat)
    ensures UpTo(n)[id] == if id < n then 1 else 0
  {
    if n > 0 {
      UpToOnce(n - 1, id);
    }
  }

  /**
   After every run, each request queued so far is in exactly one place: once in
   the list of one pending entry, or once in the log of completions.
   */
  lemma {:induction false} ExactlyOnce(link: Link, steps: seq<Step>, id: nat)
    ensures var s := Run(Start(link), steps);
            Ids(s.pending)[id] + SignalIds(s.signals)[id] == if id < s.nextRequest then 1 else 0
  {
    hide Run, Ids, SignalIds, UpTo;
    ReachableInv(link, steps);
    UpToOnce(Run(Start(link), steps).nextRequest, id);
  }

  // ---------- The list assertions of the service ----------

  /**
   After every run: a pending entry always has a request to resend for, its
   owner is a configured child, and no cached entry has requests. Without
   children nothing is pending.
   */
  lemma {:induction false} ListAssertions(link: Link, steps: seq<Step>)
    ensures var s := Run(Start(link), steps);
            && (forall e :: e in s.pending ==> e.requests != [])
            && (forall e, r :: e in s.pending && r in e.requests ==> Serves(s.children, r.owner, e.proto))
            && (forall e :: e in s.denied || e in s.resolved ==> e.requests == [])
            && (s.children == [] ==> s.pending == [])
  {
    hide Run, Distinct, SoleDeny, Conserved, Serves;
    ReachableInv(link, steps);
    var s := Run(Start(link), steps);
    assert forall e :: e in s.pending ==> Waiting(s.link, s.children, e);
    assert forall e :: e in s.denied || e in s.resolved ==> Settled(s.link, e);
    if s.children == [] {
      NoChildrenNothingPending(s);
    }
  }

  lemma {:induction false} NoChildrenNothingPending(s: State)
    requires Inv(s) && s.children == []
    ensures s.pending == []
  {
    hide Distinct, SoleDeny, Conserved;
    if s.pending != [] {
      var e := s.pending[0];
      assert Waiting(s.link, s.children, e);
      SomeMember(e.requests);
      assert false;
    }
  }

  // ---------- Stopping the driver ----------

  /** ArpDriverBindingStop on a service with children: each in turn is destroyed. */
  function DestroyAll(s: State): State
    decreases |s.children|
  {
    if s.children == [] then s
    else
      DestroyFirst(s);
      DestroyAll(DestroyChild(s, s.children[0].id, true).0)
  }

  lemma {:induction false} DestroyFirst(s: State)
    requires s.children != []
    ensures var t := DestroyChild(s, s.children[0].id, true).0;
            && t.children == s.children[1..]
            && if s.children[0].configured then t.denied == [] && t.resolved == []
               else t.denied == s.denied && t.resolved == s.resolved
  {
    var inst := s.children[0];
    if inst.configured {
      DeleteEverything(s.denied, inst.config.swType);
      DeleteEverything(s.resolved, inst.config.swType);
    }
  }

  lemma {:induction false} DeleteEverything(table: seq<Entry>, swType: nat)
    ensures DeleteFrom(table, false, swType, None, true) == []
  {
    if table != [] {
      DeleteEverything(table[1..], swType);
    }
  }

  ghost predicate SomeConfigured(children: seq<Instance>) {
    exists c :: c in children && c.configured
  }

  /**
   Stopping leaves nothing pending. The two cache tables, which the driver
   asserts to be empty as well, are so exactly when they were empty before or
   some child is still configured.
   */
  lemma {:induction false} StopAssertions(s: State)
    requires Inv(s)
    ensures var t := DestroyAll(s);
            && t.children == [] && t.pending == []
            && (t.denied == [] && t.resolved == [] <==>
                (s.denied == [] && s.resolved == []) || SomeConfigured(s.children))
    decreases |s.children|
  {
    hide Inv, DestroyChild;
    if s.children == [] {
      NoChildrenNothingPending(s);
    } else {
      var c := s.children[0];
      var t := DestroyChild(s, c.id, true).0;
      DestroyFirst(s);
      DestroyInv(s, c.id, true);
      StopAssertions(t);
      assert SomeConfigured(s.children) <==> c.configured || SomeConfigured(s.children[1..]) by {
        assert s.children == [c] + s.children[1..];
      }
    }
  }

  // ---------- Pending and resolved exclude each other ----------

  ghost predicate Apart(s: State) {
    Protos(s.pending) !! Protos(s.resolved)
  }

  /** The call overwrites a deny entry with an address that still has pending requests. */
  ghost predicate RevivesDenied(s: State, step: Step) {
    && step.AddStep? && !step.deny && step.sw.Some? && step.hw.Some? && step.overwrite
    && Lookup(s.children, step.id).Some? && Lookup(s.children, step.id).value.configured
    && var c := Lookup(s.children, step.id).value.config;
       var pk, hk := ProtoKey(c, step.sw), HwKey(s.link, step.hw);
       CachedPlace(s, pk, hk).InDenied? && pk.Stored() in Protos(s.pending)
  }

  lemma {:induction false} ThinsApart(s: State, t: State)
    requires Apart(s) && Thins(t.pending, s.pending) && Thins(t.resolved, s.resolved)
    ensures Apart(t)
  {
    hide Protos, Thins;
    ThinsProtos(t.pending, s.pending);
    ThinsProtos(t.resolved, s.resolved);
  }

  lemma {:induction false} ThinsSelf(table: seq<Entry>)
    ensures Thins(table, table)
  {
    if table != [] {
      ThinsSelf(table[1..]);
    }
  }

  lemma {:induction false} PrependProtos(e: Entry, table: seq<Entry>)
    ensures Protos([e] + table) == {e.proto} + Protos(table)
  {
    assert ([e] + table)[1..] == table;
  }

  lemma {:induction false} WithoutProtos(table: seq<Entry>, i: nat)
    requires i < |table|
    ensures Protos(Without(table, i)) <= Protos(table)
    ensures Protos(table) == Protos(Without(table, i)) + {table[i].proto}
  {
    hide Protos;
    assert table == table[..i] + ([table[i]] + table[i + 1..]);
    ProtosAppend(table[..i], [table[i]] + table[i + 1..]);
    ProtosAppend([table[i]], table[i + 1..]);
    ProtosAppend(table[..i], table[i + 1..]);
    SingleProto(table[i]);
  }

  /** The addresses in the tables after ArpAdd stored an entry. */
  lemma {:induction false} AddProtos(s: State, pk: Key, hk: Key, e: Entry, deny: bool)
    requires Distinct(s.pending) && e.proto == pk.Stored() && pk.Valid() && (!deny ==> pk.bytes.Some?)
    ensures var p := AddPlace(s, pk, hk);
            var t := Settle(TakeOut(s, p), e, deny);
            && Protos(t.pending) == Protos(s.pending) - (if p.InPending? then {pk.Stored()} else {})
            && Protos(t.resolved) <= Protos(s.resolved) + (if deny then {} else {pk.Stored()})
            && (!deny ==> pk.Stored() in Protos(t.resolved))
            && (p.InResolved? && !deny ==> pk.Stored() in Protos(s.resolved))
            && (p.Nowhere? && !deny ==> pk.Stored() !in Protos(s.pending))
  {
    hide Protos, Distinct, FindNext, FindDenied, Deliver;
    var p := AddPlace(s, pk, hk);
    var t := TakeOut(s, p);
    if pk.bytes.Some? {
      FindByProto(s.pending, pk);
    }
    PrependProtos(e.(requests := []), t.resolved);
    match p
    case InDenied(i) =>
    case InResolved(i) =>
      WithoutProtos(s.resolved, i);
      FindNextIsFirst(s.resolved, 0, Some(pk), Some(hk));
      if !deny {
        MatchIsEquality(pk, s.resolved[i].proto);
      }
    case InPending(i) =>
      WithoutDistinct(s.pending, i);
    case Nowhere =>
  }

  lemma {:induction false} AddApart(s: State, step: Step)
    requires Inv(s) && Apart(s) && step.AddStep?
    ensures Apart(Next(s, step)) <==> !RevivesDenied(s, step)
  {
    hide Lookup, Protos, Distinct, FindNext, FindDenied, TakeOut, Settle, AddPlace, CachedPlace, SoleDeny, Conserved, Taken;
    var AddStep(id, deny, sw, hw, timeout, overwrite, granted) := step;
    var (t, status) := Add(s, id, deny, sw, hw, timeout, overwrite, granted);
    if Lookup(s.children, id).Some? {
      var c := Lookup(s.children, id).value.config;
      PlaceOrigin(s, ProtoKey(c, sw), HwKey(s.link, hw));
    }
    if status == Success {
      var c := Lookup(s.children, id).value.config;
      var pk, hk := ProtoKey(c, sw), HwKey(s.link, hw);
      var p := AddPlace(s, pk, hk);
      var e := Renewed(Taken(s, p, NewEntry(c, pk, hk)), pk, hk, timeout);
      AddProtos(s, pk, hk, e, deny);
    }
  }

  lemma {:induction false} PlaceOrigin(s: State, pk: Key, hk: Key)
    ensures AddPlace(s, pk, hk).InDenied? <==> CachedPlace(s, pk, hk).InDenied?
  {
  }

  lemma {:induction false} EnqueueApart(s: State, inst: Instance, pk: Key, event: nat)
    requires Apart(s) && pk.Valid() && pk.bytes.Some?
    requires FindNext(s.resolved, 0, Some(pk), None) == |s.resolved|
    ensures Apart(Enqueue(s, inst, pk, event))
  {
    hide Protos, FindNext;
    FindByProto(s.resolved, pk);
    FindByProto(s.pending, pk);
    var t := Enqueue(s, inst, pk, event);
    var i := FindNext(s.pending, 0, Some(pk), None);
    if i < |s.pending| {
      ReplaceDistinct(s.pending, i, t.pending[i]);
    } else {
      ProtosAppend(s.pending, [t.pending[i]]);
      SingleProto(t.pending[i]);
    }
  }

  lemma {:induction false} RequestApart(s: State, step: Step)
    requires Apart(s) && step.RequestStep?
    ensures Apart(Next(s, step))
  {
    hide Apart, Enqueue, FindNext, FindDenied, Lookup;
    var RequestStep(id, sw, event, bufferGiven, mapped, contextGranted, entryGranted) := step;
    var t := AskFor(s, id, sw, event, bufferGiven, mapped, contextGranted, entryGranted).0;
    if t != s {
      var inst := Lookup(s.children, id).value;
      EnqueueApart(s, inst, ProtoKey(inst.config, sw), event.value);
    }
  }

  lemma {:induction false} MergeProtos(s: State, f: Frame)
    ensures Merge(s, f).pending == s.pending && Protos(Merge(s, f).resolved) == Protos(s.resolved)
  {
    hide Protos, FindNext;
    var i := FindNext(s.resolved, 0, Some(SenderProto(f)), None);
    if i < |s.resolved| {
      ReplaceDistinct(s.resolved, i, Merge(s, f).resolved[i]);
    }
  }

  lemma {:induction false} LearnProtos(s: State, f: Frame)
    requires Distinct(s.pending)
    ensures Protos(Learn(s, f).pending) == Protos(s.pending) - {SenderProto(f).Stored()}
    ensures Protos(Learn(s, f).resolved) == Protos(s.resolved) + {SenderProto(f).Stored()}
  {
    hide Protos, Distinct, FindNext, Deliver;
    var i := FindNext(s.pending, 0, Some(SenderProto(f)), None);
    FindByProto(s.pending, SenderProto(f));
    PrependProtos(Learn(s, f).resolved[0], s.resolved);
    if i < |s.pending| {
      WithoutDistinct(s.pending, i);
    }
  }

  lemma {:induction false} ReceiveApart(s: State, step: Step)
    requires Inv(s) && Apart(s) && step.ReceiveStep?
    ensures Apart(Next(s, step))
  {
    hide Protos, Distinct, SoleDeny, Conserved, FindNext, Learn, Merge, Accepted, Decode, TargetOf, PendingOk;
    var ReceiveStep(payload, protocolType, granted) := step;
    var d := Decode(payload);
    if d.Some? && Accepted(s, d.value, protocolType) {
      MergeProtos(s, d.value);
      LearnProtos(s, d.value);
    }
  }

  lemma {:induction false} QuietStepThins(s: State, step: Step)
    requires !step.AddStep? && !step.RequestStep? && !step.ReceiveStep?
    ensures Thins(Next(s, step).pending, s.pending) && Thins(Next(s, step).resolved, s.resolved)
  {
    hide Thins, Lookup, Update, Remove, CancelPending, DeleteFrom, RefreshFrom, TickPending, TickCache, TickSignals,
         TickSent, CancelSignals, Report, Matching, ConfigureInstance;
    ThinsSelf(s.pending);
    ThinsSelf(s.resolved);
    match step
    case DestroyStep(id, uninstalled) =>
      CancelThins(s.pending, None, Some(id), None);
      LookupId(s.children, id);
      var found := Lookup(s.children, id);
      if found.Some? {
        DeleteThins(s.resolved, false, found.value.config.swType, None, true);
      }
    case ConfigureStep(id, c, stationGiven, granted) =>
      CancelThins(s.pending, None, Some(id), None);
      LookupId(s.children, id);
    case FindStep(id, bySw, addr, refresh, counted, sized, listed, granted) =>
      var found := Lookup(s.children, id);
      if found.Some? {
        RefreshThins(s.resolved, if bySw then Some(ProtoKey(found.value.config, addr)) else None,
                     if bySw then None else Some(HwKey(s.link, addr)));
      }
    case DeleteStep(id, bySw, addr) =>
      var found := Lookup(s.children, id);
      if found.Some? {
        DeleteThins(s.resolved, bySw, found.value.config.swType, addr, true);
      }
    case FlushStep(id) =>
      var found := Lookup(s.children, id);
      if found.Some? {
        DeleteThins(s.resolved, false, found.value.config.swType, None, false);
      }
    case CancelStep(id, sw, event) =>
      CancelThins(s.pending, sw, Some(id), event);
    case TickStep =>
      TickThins(s.children, s.pending);
      AgeThins(s.resolved);
    case _ =>
  }

  lemma {:induction false} LookupId(children: seq<Instance>, id: nat)
    ensures Lookup(children, id).Some? ==> Lookup(children, id).value.id == id
  {
    if Lookup(children, id).Some? {
      LookupMember(children, id);
    }
  }

  /** Where no address is both pending and resolved, a step breaks this exactly when it revives a denied entry. */
  lemma {:induction false} NextApart(s: State, step: Step)
    requires Inv(s) && Apart(s)
    ensures Apart(Next(s, step)) <==> !RevivesDenied(s, step)
  {
    hide Next, Inv, Apart;
    if step.AddStep? {
      AddApart(s, step);
    } else if step.RequestStep? {
      RequestApart(s, step);
    } else if step.ReceiveStep? {
      ReceiveApart(s, step);
    } else {
      QuietStepThins(s, step);
      ThinsApart(s, Next(s, step));
    }
  }

  ghost predicate NeverRevives(link: Link, steps: seq<Step>) {
    forall k :: 0 <= k < |steps| ==> !RevivesDenied(Run(Start(link), steps[..k]), steps[k])
  }

  lemma {:induction false} RunApart(link: Link, steps: seq<Step>)
    requires NeverRevives(link, steps)
    ensures Apart(Run(Start(link), steps))
  {
    if steps != [] {
      hide Next, Inv, Apart, RevivesDenied;
      var before := steps[..|steps| - 1];
      forall k | 0 <= k < |before| ensures !RevivesDenied(Run(Start(link), before[..k]), before[k]) {
        assert before[..k] == steps[..k];
      }
      RunApart(link, before);
      ReachableInv(link, before);
      NextApart(Run(Start(link), before), steps[|steps| - 1]);
    }
  }
}
