/** The timer over many ticks: ageing in closed form, the exact retry bound, and the end of all waiting. */
module ArpTimer {
  import opened Bytes
  import opened Filters
  import opened ArpTypes
  import opened ArpSteps
  import opened ArpTables
  import opened ArpInvariant
  import opened ArpProperties

  /** `n` timer ticks and nothing in between. */
  function Ticks(s: State, n: nat): State {
    if n == 0 then s else Tick(Ticks(s, n - 1))
  }

  lemma {:induction false} TicksInv(s: State, n: nat)
    requires Inv(s)
    ensures Inv(Ticks(s, n))
    ensures Ticks(s, n).children == s.children && Ticks(s, n).link == s.link && Ticks(s, n).nextRequest == s.nextRequest
  {
    if n > 0 {
      hide Inv, TickPending, TickCache, TickSignals, TickSent;
      TicksInv(s, n - 1);
      TickInv(Ticks(s, n - 1));
    }
  }

  // ---------- Ageing ----------

  predicate Survives(e: Entry, n: nat) {
    e.defaultDecay == 0 || e.decay > n * TIMER_INTERVAL
  }

  /** The static entries, and the dynamic ones with more life left than `n` ticks, in order. */
  function Survivors(table: seq<Entry>, n: nat): seq<Entry> {
    if table == [] then []
    else if !Survives(table[0], n) then Survivors(table[1..], n)
    else
      var e := table[0];
      [if e.defaultDecay == 0 then e else e.(decay := e.decay - n * TIMER_INTERVAL)] + Survivors(table[1..], n)
  }

  lemma {:induction false} TickCacheStep(e: Entry, rest: seq<Entry>)
    ensures TickCache([e] + rest) == (if Aged(e) then [] else [Age(e)]) + TickCache(rest)
  {
    assert ([e] + rest)[1..] == rest;
  }

  lemma {:induction false} SurvivorsStep(table: seq<Entry>, n: nat)
    ensures TickCache(Survivors(table, n)) == Survivors(table, n + 1)
  {
    if table != [] {
      SurvivorsStep(table[1..], n);
      if Survives(table[0], n) {
        TickCacheStep(Survivors(table, n)[0], Survivors(table[1..], n));
      }
    }
  }

  /**
   After one or more ticks both cache tables hold exactly the survivors. (Before
   the first tick an entry with no life left is still there.)
   */
  lemma {:induction false} Ageing(s: State, n: nat)
    requires n > 0
    ensures Ticks(s, n).denied == Survivors(s.denied, n)
    ensures Ticks(s, n).resolved == Survivors(s.resolved, n)
  {
    if n == 1 {
      FirstTick(s.denied);
      FirstTick(s.resolved);
    } else {
      Ageing(s, n - 1);
      SurvivorsStep(s.denied, n - 1);
      SurvivorsStep(s.resolved, n - 1);
    }
  }

  lemma {:induction false} FirstTick(table: seq<Entry>)
    ensures TickCache(table) == Survivors(table, 1)
  {
    if table != [] {
      var e, rest := table[0], table[1..];
      FirstTick(rest);
      hide TickCache, Survivors;
      assert table == [e] + rest;
      TickCacheStep(e, rest);
      SurvivorsHead(e, rest, 1);
    }
  }

  lemma {:induction false} SurvivorsHead(e: Entry, rest: seq<Entry>, n: nat)
    ensures Survivors([e] + rest, n) ==
            (if !Survives(e, n) then []
             else [if e.defaultDecay == 0 then e else e.(decay := e.decay - n * TIMER_INTERVAL)]) + Survivors(rest, n)
  {
    assert ([e] + rest)[1..] == rest;
  }

  function Static(): Entry -> bool {
    (e: Entry) => e.defaultDecay == 0
  }

  /** ArpFlush keeps exactly the static entries, in order and of any protocol type, and says whether it removed any. */
  lemma {:induction false} FlushExact(s: State, id: nat)
    requires Lookup(s.children, id).Some? && Lookup(s.children, id).value.configured
    ensures var (t, status) := Flush(s, id);
            && t.denied == Filter(Static(), s.denied) && t.resolved == Filter(Static(), s.resolved)
            && (status == Success <==> exists e :: (e in s.denied || e in s.resolved) && e.defaultDecay != 0)
            && t.pending == s.pending
  {
    hide Lookup, DeleteFrom;
    var swType := Lookup(s.children, id).value.config.swType;
    FlushTable(s.denied, swType);
    FlushTable(s.resolved, swType);
  }

  lemma {:induction false} FlushTable(table: seq<Entry>, swType: nat)
    ensures var kept := DeleteFrom(table, false, swType, None, false);
            && kept == Filter(Static(), table)
            && |kept| <= |table|
            && (|kept| < |table| <==> exists e :: e in table && e.defaultDecay != 0)
  {
    if table != [] {
      FlushTable(table[1..], swType);
      assert table == [table[0]] + table[1..];
    }
  }

  // ---------- One pending entry over many ticks ----------

  /** What is left of one pending entry after `n` ticks. */
  function EntryAfter(children: seq<Instance>, e: Entry, n: nat): Option<Entry> {
    if n == 0 then Some(e)
    else
      var x := EntryAfter(children, e, n - 1);
      if x.None? || Expired(x.value) then None else Some(TickEntry(children, x.value))
  }

  function AllAfter(children: seq<Instance>, table: seq<Entry>, n: nat): seq<Entry> {
    if table == [] then []
    else
      var x := EntryAfter(children, table[0], n);
      (if x.Some? then [x.value] else []) + AllAfter(children, table[1..], n)
  }

  lemma {:induction false} AllAfterStep(children: seq<Instance>, table: seq<Entry>, n: nat)
    ensures TickPending(children, AllAfter(children, table, n)) == AllAfter(children, table, n + 1)
  {
    if table != [] {
      var x, rest := EntryAfter(children, table[0], n), AllAfter(children, table[1..], n);
      AllAfterStep(children, table[1..], n);
      hide EntryAfter, TickPending, TickEntry;
      EntryAfterStep(children, table[0], n);
      if x.Some? {
        assert AllAfter(children, table, n) == [x.value] + rest;
        assert ([x.value] + rest)[1..] == rest;
        TickPendingStep(children, [x.value] + rest);
      } else {
        assert AllAfter(children, table, n) == rest;
      }
    }
  }

  lemma {:induction false} EntryAfterStep(children: seq<Instance>, e: Entry, n: nat)
    ensures var x := EntryAfter(children, e, n);
            EntryAfter(children, e, n + 1) ==
            if x.None? || Expired(x.value) then None else Some(TickEntry(children, x.value))
  {
  }

  lemma {:induction false} AllAfterNow(children: seq<Instance>, table: seq<Entry>)
    ensures AllAfter(children, table, 0) == table
  {
    if table != [] {
      AllAfterNow(children, table[1..]);
    }
  }

  /** The pending entries evolve independently of each other. */
  lemma {:induction false} PendingAfter(s: State, n: nat)
    ensures Ticks(s, n).pending == AllAfter(s.children, s.pending, n)
    ensures Ticks(s, n).children == s.children
  {
    if n == 0 {
      AllAfterNow(s.children, s.pending);
    } else {
      PendingAfter(s, n - 1);
      hide AllAfter, TickPending, TickCache, TickSignals, TickSent;
      AllAfterStep(s.children, s.pending, n - 1);
    }
  }

  lemma {:induction false} EntryAfterKeeps(children: seq<Instance>, e: Entry, n: nat)
    ensures var x := EntryAfter(children, e, n);
            x.Some? ==> x.value.proto == e.proto && x.value.hw == e.hw && x.value.requests == e.requests
  {
    if n > 0 {
      EntryAfterKeeps(children, e, n - 1);
      var x := EntryAfter(children, e, n - 1);
      if x.Some? {
        TickKeepsAddresses(children, x.value);
      }
    }
  }

  /** Ticks from one `EntryAfter` to a later one. */
  lemma {:induction false} EntryAfterSum(children: seq<Instance>, e: Entry, m: nat, n: nat)
    requires EntryAfter(children, e, m).Some?
    ensures EntryAfter(children, e, m + n) == EntryAfter(children, EntryAfter(children, e, m).value, n)
  {
    if n > 0 {
      EntryAfterSum(children, e, m, n - 1);
      EntryAfterStep(children, e, m + n - 1);
    }
  }

  lemma {:induction false} GoneStaysGone(children: seq<Instance>, e: Entry, m: nat, n: nat)
    requires EntryAfter(children, e, m).None? && m <= n
    ensures EntryAfter(children, e, n).None?
    decreases n
  {
    if m < n {
      GoneStaysGone(children, e, m, n - 1);
    }
  }

  // ---------- The retry bound ----------

  /** Ticks until a time-out of `r` is noticed. */
  function RoundLength(r: nat): (k: nat)
    ensures k > 0
  {
    if r <= TIMER_INTERVAL then 1 else 1 + RoundLength(r - TIMER_INTERVAL)
  }

  /** It is the time-out divided by the timer interval, rounded up. */
  lemma {:induction false} RoundLengthIsCeiling(r: nat)
    requires r > 0
    ensures (RoundLength(r) - 1) * TIMER_INTERVAL < r <= RoundLength(r) * TIMER_INTERVAL
  {
    if r > TIMER_INTERVAL {
      RoundLengthIsCeiling(r - TIMER_INTERVAL);
    }
  }

  /** What `j` ticks leave of a time-out of `r`, before the round ends. */
  function Left(r: nat, j: nat): nat {
    if j == 0 || r <= TIMER_INTERVAL then r else Left(r - TIMER_INTERVAL, j - 1)
  }

  lemma {:induction false} LeftStep(r: nat, j: nat)
    requires 0 < j < RoundLength(r)
    ensures Left(r, j - 1) > TIMER_INTERVAL && Left(r, j) == Left(r, j - 1) - TIMER_INTERVAL
  {
    if j > 1 {
      LeftStep(r - TIMER_INTERVAL, j - 1);
    }
  }

  lemma {:induction false} LeftAtEnd(r: nat)
    ensures Left(r, RoundLength(r) - 1) <= TIMER_INTERVAL
  {
    if r > TIMER_INTERVAL {
      LeftAtEnd(r - TIMER_INTERVAL);
    }
  }

  /** An entry whose retry timer has just been set, and will be set to the same time-out again. */
  ghost predicate Armed(children: seq<Instance>, e: Entry, r: nat) {
    e.nextRetry == r && RetryTimeOutOf(children, e.requests) == r
  }

  /** Within one round the entry only counts down. */
  lemma {:induction false} WithinRound(children: seq<Instance>, e: Entry, r: nat, j: nat)
    requires Armed(children, e, r) && j < RoundLength(r)
    ensures EntryAfter(children, e, j) == Some(e.(nextRetry := Left(r, j)))
  {
    if j > 0 {
      hide Left, RoundLength, RetryTimeOutOf;
      WithinRound(children, e, r, j - 1);
      LeftStep(r, j);
    }
  }

  /** At the end of a round the entry is resent and armed again, or aborted. */
  lemma {:induction false} EndOfRound(children: seq<Instance>, e: Entry, r: nat)
    requires Armed(children, e, r)
    ensures EntryAfter(children, e, RoundLength(r)) ==
            if e.retryCount == 0 then None else Some(e.(retryCount := e.retryCount - 1, nextRetry := r))
  {
    hide EntryAfter, Left, RoundLength, RetryTimeOutOf;
    var k := RoundLength(r);
    WithinRound(children, e, r, k - 1);
    LeftAtEnd(r);
    EntryAfterStep(children, e, k - 1);
  }

  /** The number of ticks in `q` full rounds of `k` ticks, and `j` more. */
  function InRound(q: nat, k: nat, j: nat): nat {
    q * k + j
  }

  lemma {:induction false} OneMoreRound(q: nat, k: nat, j: nat)
    ensures InRound(0, k, j) == j
    ensures k + InRound(q, k, j) == InRound(q + 1, k, j)
    ensures InRound(q, k, 0) + k == InRound(q + 1, k, 0)
    ensures k > 0 ==> InRound(q, k, k - 1) + 1 == InRound(q + 1, k, 0)
  {
  }

  /** After `q` full rounds and `j` more ticks. */
  lemma {:induction false} AfterRounds(children: seq<Instance>, e: Entry, r: nat, q: nat, j: nat)
    requires Armed(children, e, r) && q <= e.retryCount && j < RoundLength(r)
    ensures EntryAfter(children, e, InRound(q, RoundLength(r), j)) ==
            Some(e.(retryCount := e.retryCount - q, nextRetry := Left(r, j)))
    decreases q
  {
    hide RoundLength, EntryAfter, Left, InRound, RetryTimeOutOf;
    var k := RoundLength(r);
    if q == 0 {
      WithinRound(children, e, r, j);
      OneMoreRound(q, k, j);
    } else {
      EndOfRound(children, e, r);
      AfterRounds(children, e.(retryCount := e.retryCount - 1, nextRetry := r), r, q - 1, j);
      EntryAfterSum(children, e, k, InRound(q - 1, k, j));
      OneMoreRound(q - 1, k, j);
    }
  }

  lemma {:induction false} LeftAtStart(r: nat)
    ensures Left(r, 0) == r
  {
  }

  lemma {:induction false} Aborted(children: seq<Instance>, e: Entry, r: nat)
    requires Armed(children, e, r)
    ensures EntryAfter(children, e, InRound(e.retryCount + 1, RoundLength(r), 0)).None?
  {
    hide RoundLength, EntryAfter, Left, InRound, RetryTimeOutOf;
    var c, k := e.retryCount, RoundLength(r);
    AfterRounds(children, e, r, c, 0);
    LeftAtStart(r);
    EndOfRound(children, e.(retryCount := 0, nextRetry := r), r);
    EntryAfterSum(children, e, InRound(c, k, 0), k);
    OneMoreRound(c, k, 0);
  }

  // ---------- Seen from the whole service ----------

  lemma {:induction false} AllAfterFinds(children: seq<Instance>, table: seq<Entry>, e: Entry, n: nat)
    requires Distinct(table) && e in table
    ensures var x := EntryAfter(children, e, n);
            && (x.Some? ==> x.value in AllAfter(children, table, n))
            && (x.None? ==> e.proto !in Protos(AllAfter(children, table, n)))
  {
    hide EntryAfter;
    var rest := AllAfter(children, table[1..], n);
    EntryAfterKeeps(children, table[0], n);
    AllAfterProtos(children, table[1..], n);
    var head := EntryAfter(children, table[0], n);
    if head.Some? {
      PrependProtos(head.value, rest);
    } else {
      assert AllAfter(children, table, n) == rest;
    }
    if e != table[0] {
      AllAfterFinds(children, table[1..], e, n);
      ProtosMember(table[1..], e);
    }
  }

  lemma {:induction false} AllAfterProtos(children: seq<Instance>, table: seq<Entry>, n: nat)
    ensures Protos(AllAfter(children, table, n)) <= Protos(table)
  {
    if table != [] {
      hide EntryAfter;
      AllAfterProtos(children, table[1..], n);
      EntryAfterKeeps(children, table[0], n);
      var head := EntryAfter(children, table[0], n);
      if head.Some? {
        PrependProtos(head.value, AllAfter(children, table[1..], n));
      } else {
        assert AllAfter(children, table, n) == AllAfter(children, table[1..], n);
      }
    }
  }

  /** Frames sent to resolve `a`. */
  function RequestsFor(sent: seq<Sent>, a: Address): nat {
    if sent == [] then 0
    else RequestsFor(sent[..|sent| - 1], a)
         + if sent[|sent| - 1].opcode == OPCODE_REQUEST && sent[|sent| - 1].target == a then 1 else 0
  }

  lemma {:induction false} RequestsForAppend(a: seq<Sent>, b: seq<Sent>, x: Address)
    ensures RequestsFor(a + b, x) == RequestsFor(a, x) + RequestsFor(b, x)
  {
    if b == [] {
      assert a + b == a;
    } else {
      assert (a + b)[..|a + b| - 1] == a + b[..|b| - 1];
      RequestsForAppend(a, b[..|b| - 1], x);
    }
  }

  /** A tick resends for one address at most once, and only if its entry is due. */
  lemma {:induction false} TickResends(table: seq<Entry>, a: Address)
    requires Distinct(table)
    ensures a !in Protos(table) ==> RequestsFor(TickSent(table), a) == 0
    ensures forall e :: e in table && e.proto == a && e.requests != [] ==>
              RequestsFor(TickSent(table), a) == if Resent(e) then 1 else 0
  {
    if table != [] {
      var e := table[0];
      TickResends(table[1..], a);
      var here := if Resent(e) && e.requests != []
                  then [Sent(OPCODE_REQUEST, e.requests[0].owner, e.proto, e.hw)] else [];
      RequestsForAppend(here, TickSent(table[1..]), a);
      assert here != [] ==> here[..0] == [];
      forall x | x in table && x.proto == a && x.requests != []
        ensures RequestsFor(TickSent(table), a) == if Resent(x) then 1 else 0
      {
        if x != e {
          ProtosMember(table[1..], x);
        }
      }
    }
  }

  /** Resends of one entry during `n` ticks. */
  function Resends(children: seq<Instance>, e: Entry, n: nat): nat {
    if n == 0 then 0
    else
      var x := EntryAfter(children, e, n - 1);
      Resends(children, e, n - 1) + if x.Some? && Resent(x.value) then 1 else 0
  }

  /** One tick adds to the log what is due now. */
  lemma {:induction false} TicksStep(s: State, n: nat)
    ensures Ticks(s, n + 1).sent == Ticks(s, n).sent + TickSent(Ticks(s, n).pending)
    ensures Ticks(s, n + 1).signals == Ticks(s, n).signals + TickSignals(Ticks(s, n).pending)
  {
  }

  /** What one more tick sends for the address of `e`. */
  lemma {:induction false} TickSends(s: State, e: Entry, n: nat)
    requires Inv(s) && e in s.pending
    ensures var x := EntryAfter(s.children, e, n);
            RequestsFor(TickSent(Ticks(s, n).pending), e.proto) == if x.Some? && Resent(x.value) then 1 else 0
  {
    hide Inv, AllAfter, EntryAfter, RequestsFor, TickSent, Protos, Ticks, Distinct;
    TicksInv(s, n);
    PendingAfter(s, n);
    InvPending(s);
    InvPending(Ticks(s, n));
    AllAfterFinds(s.children, s.pending, e, n);
    EntryAfterKeeps(s.children, e, n);
    TickResends(Ticks(s, n).pending, e.proto);
  }

  /** The frames that the service sends for a pending address are the resends of its entry. */
  lemma {:induction false} ResendsAreSent(s: State, e: Entry, n: nat)
    requires Inv(s) && e in s.pending
    ensures RequestsFor(Ticks(s, n).sent, e.proto) == RequestsFor(s.sent, e.proto) + Resends(s.children, e, n)
  {
    hide Inv, EntryAfter, RequestsFor, TickSent, Tick;
    if n > 0 {
      hide Ticks;
      ResendsAreSent(s, e, n - 1);
      TicksStep(s, n - 1);
      TickSends(s, e, n - 1);
      RequestsForAppend(Ticks(s, n - 1).sent, TickSent(Ticks(s, n - 1).pending), e.proto);
    }
  }

  lemma {:induction false} InvPending(s: State)
    requires Inv(s)
    ensures Distinct(s.pending)
    ensures forall e :: e in s.pending ==> e.requests != [] && e.hw.bytes == Zeros(s.link.hwSize)
  {
    forall e | e in s.pending ensures e.requests != [] && e.hw.bytes == Zeros(s.link.hwSize) {
      assert Waiting(s.link, s.children, e);
    }
  }

  lemma {:induction false} ResendsSum(children: seq<Instance>, e: Entry, m: nat, n: nat)
    requires EntryAfter(children, e, m).Some?
    ensures Resends(children, e, m + n) == Resends(children, e, m) + Resends(children, EntryAfter(children, e, m).value, n)
  {
    if n > 0 {
      ResendsSum(children, e, m, n - 1);
      EntryAfterSum(children, e, m, n - 1);
    }
  }

  lemma {:induction false} NoResendWithinRound(children: seq<Instance>, e: Entry, r: nat, j: nat)
    requires Armed(children, e, r) && j < RoundLength(r)
    ensures Resends(children, e, j) == 0
  {
    if j > 0 {
      hide Left, RoundLength, EntryAfter, RetryTimeOutOf;
      NoResendWithinRound(children, e, r, j - 1);
      WithinRound(children, e, r, j - 1);
      LeftStep(r, j);
    }
  }

  lemma {:induction false} ResendAtRoundEnd(children: seq<Instance>, e: Entry, r: nat)
    requires Armed(children, e, r)
    ensures Resends(children, e, RoundLength(r)) == if e.retryCount == 0 then 0 else 1
  {
    hide Left, RoundLength, EntryAfter, RetryTimeOutOf;
    var k := RoundLength(r);
    NoResendWithinRound(children, e, r, k - 1);
    WithinRound(children, e, r, k - 1);
    LeftAtEnd(r);
  }

  lemma {:induction false} ResendsAfterRounds(children: seq<Instance>, e: Entry, r: nat, q: nat, j: nat)
    requires Armed(children, e, r) && q <= e.retryCount && j < RoundLength(r)
    ensures Resends(children, e, InRound(q, RoundLength(r), j)) == q
    decreases q
  {
    hide RoundLength, EntryAfter, Resends, InRound, RetryTimeOutOf;
    var k := RoundLength(r);
    if q == 0 {
      NoResendWithinRound(children, e, r, j);
      OneMoreRound(q, k, j);
    } else {
      EndOfRound(children, e, r);
      ResendAtRoundEnd(children, e, r);
      ResendsAfterRounds(children, e.(retryCount := e.retryCount - 1, nextRetry := r), r, q - 1, j);
      ResendsSum(children, e, k, InRound(q - 1, k, j));
      OneMoreRound(q - 1, k, j);
    }
  }

  lemma {:induction false} ResendsInAll(children: seq<Instance>, e: Entry, r: nat)
    requires Armed(children, e, r)
    ensures Resends(children, e, InRound(e.retryCount + 1, RoundLength(r), 0)) == e.retryCount
  {
    hide RoundLength, EntryAfter, Resends, InRound, Left, RetryTimeOutOf;
    var c, k := e.retryCount, RoundLength(r);
    AfterRounds(children, e, r, c, 0);
    LeftAtStart(r);
    ResendsAfterRounds(children, e, r, c, 0);
    ResendAtRoundEnd(children, e.(retryCount := 0, nextRetry := r), r);
    ResendsSum(children, e, InRound(c, k, 0), k);
    OneMoreRound(c, k, 0);
  }

  /** An expired entry's requests are all completed by the tick, with the address it holds. */
  lemma {:induction false} ExpiredSignals(table: seq<Entry>, x: Entry, q: Request)
    requires x in table && Expired(x) && q in x.requests
    ensures Signal(q, x.proto, x.hw.bytes) in TickSignals(table)
  {
    TickSignalsStep(table);
    if x == table[0] {
      DeliverAll(x.requests, x, q);
    } else {
      ExpiredSignals(table[1..], x, q);
    }
  }

  lemma {:induction false} DeliverAll(reqs: seq<Request>, e: Entry, q: Request)
    requires q in reqs
    ensures Signal(q, e.proto, e.hw.bytes) in Deliver(reqs, e)
  {
    if q != reqs[0] {
      DeliverAll(reqs[1..], e, q);
    }
  }

  /** The tick that finds an entry expired completes its requests with zeros. */
  lemma {:induction false} AbortAt(s: State, e: Entry, n: nat, x: Entry, q: Request)
    requires Inv(s) && e in s.pending && q in e.requests
    requires EntryAfter(s.children, e, n) == Some(x) && Expired(x)
    ensures Signal(q, e.proto, Zeros(s.link.hwSize)) in Ticks(s, n + 1).signals
  {
    hide EntryAfter, Inv, AllAfter, TickSignals, TickSent, Protos, Ticks, Distinct;
    InvPending(s);
    PendingAfter(s, n);
    AllAfterFinds(s.children, s.pending, e, n);
    EntryAfterKeeps(s.children, e, n);
    ExpiredSignals(Ticks(s, n).pending, x, q);
    TicksStep(s, n);
  }

  lemma {:induction false} AbortSignals(s: State, e: Entry, r: nat, q: Request)
    requires Inv(s) && e in s.pending && Armed(s.children, e, r) && q in e.requests
    ensures Signal(q, e.proto, Zeros(s.link.hwSize)) in Ticks(s, InRound(e.retryCount + 1, RoundLength(r), 0)).signals
  {
    hide RoundLength, EntryAfter, Inv, Ticks, InRound, Armed, Left;
    var c, k := e.retryCount, RoundLength(r);
    AfterRounds(s.children, e, r, c, k - 1);
    OneMoreRound(c, k, 0);
    LeftAtEnd(r);
    AbortAt(s, e, InRound(c, k, k - 1), e.(retryCount := 0, nextRetry := Left(r, k - 1)), q);
  }

  /** The pending entry that a queued request leaves behind. */
  lemma {:induction false} EnqueuedEntry(s: State, inst: Instance, pk: Key, event: nat) returns (e: Entry)
    requires Inv(s) && Lookup(s.children, inst.id) == Some(inst) && inst.configured
    requires pk.Valid() && pk.bytes.Some?
    ensures var t := Enqueue(s, inst, pk, event);
            && t.children == s.children && t.link == s.link
            && e in t.pending && e.proto == pk.Stored()
            && e.retryCount == inst.config.retryCount && e.requests != []
            && e.requests[0] == Request(s.nextRequest, inst.id, event, pk.Stored())
            && Armed(t.children, e, inst.config.retryTimeOut)
  {
    hide FindNext, Distinct, SoleDeny, Conserved, PendingOk;
    LookupMember(s.children, inst.id);
    FindByProto(s.pending, pk);
    var i := FindNext(s.pending, 0, Some(pk), None);
    e := Enqueue(s, inst, pk, event).pending[i];
  }

  /** From `t` to `u`, `x` stayed pending and was asked for `n` more times. */
  ghost predicate StillPending(t: State, u: State, x: Address, n: nat) {
    x in Protos(u.pending) && RequestsFor(u.sent, x) == RequestsFor(t.sent, x) + n
  }

  /** From `t` to `u`, `x` was asked for `n` more times and is no longer pending. */
  ghost predicate GivenUp(t: State, u: State, x: Address, n: nat) {
    x !in Protos(u.pending) && RequestsFor(u.sent, x) == RequestsFor(t.sent, x) + n
  }

  lemma {:induction false} StillWaiting(t: State, e: Entry, r: nat, q: nat, j: nat)
    requires Inv(t) && e in t.pending && Armed(t.children, e, r) && q <= e.retryCount && j < RoundLength(r)
    ensures StillPending(t, Ticks(t, InRound(q, RoundLength(r), j)), e.proto, q)
  {
    var n := InRound(q, RoundLength(r), j);
    hide InRound, Left, RoundLength, EntryAfter, Inv, AllAfter, Resends, Tick, RequestsFor, Protos, Armed, Ticks, Distinct;
    AfterRounds(t.children, e, r, q, j);
    InvPending(t);
    PendingAfter(t, n);
    AllAfterFinds(t.children, t.pending, e, n);
    ProtosMember(Ticks(t, n).pending, EntryAfter(t.children, e, n).value);
    ResendsAreSent(t, e, n);
    ResendsAfterRounds(t.children, e, r, q, j);
  }

  lemma {:induction false} GivesUp(t: State, e: Entry, r: nat)
    requires Inv(t) && e in t.pending && Armed(t.children, e, r)
    ensures var n := InRound(e.retryCount + 1, RoundLength(r), 0);
            GivenUp(t, Ticks(t, n), e.proto, e.retryCount)
  {
    var n := InRound(e.retryCount + 1, RoundLength(r), 0);
    hide InRound, Left, RoundLength, EntryAfter, Inv, AllAfter, Resends, Tick, RequestsFor, Protos, Armed, Ticks, Distinct;
    Aborted(t.children, e, r);
    InvPending(t);
    PendingAfter(t, n);
    AllAfterFinds(t.children, t.pending, e, n);
    ResendsAreSent(t, e, n);
    ResendsInAll(t.children, e, r);
  }

  lemma {:induction false} EnqueueInv(s: State, inst: Instance, pk: Key, event: nat)
    requires Inv(s) && Lookup(s.children, inst.id) == Some(inst) && inst.configured
    requires pk.Valid() && pk.bytes.Some? && pk.kind == inst.config.swType && pk.len == inst.config.swLen
    ensures Inv(Enqueue(s, inst, pk, event))
  {
    hide Inv, Enqueue;
    if FindNext(s.pending, 0, Some(pk), None) < |s.pending| {
      EnqueueMoreInv(s, inst, pk, event);
    } else {
      EnqueueNewInv(s, inst, pk, event);
    }
  }

  /**
   The exact life of a request that ArpRequest queued, when only timer ticks
   follow. With retry count c, time-out r and k = ceil(r / interval): after
   q k + j ticks, q <= c and j < k, it still waits and was resent q times; at
   tick (c + 1) k it is aborted, after c resends, and completes with a zero
   hardware address.
   */
  lemma {:induction false} RetryBound(s: State, inst: Instance, pk: Key, event: nat, q: nat, j: nat)
    requires Inv(s) && Lookup(s.children, inst.id) == Some(inst) && inst.configured
    requires pk.Valid() && pk.bytes.Some? && pk.kind == inst.config.swType && pk.len == inst.config.swLen
    ensures var t := Enqueue(s, inst, pk, event);
            var c, k, x := inst.config.retryCount, RoundLength(inst.config.retryTimeOut), pk.Stored();
            && (q <= c && j < k ==> StillPending(t, Ticks(t, InRound(q, k, j)), x, q))
            && var u := Ticks(t, InRound(c + 1, k, 0));
               && GivenUp(t, u, x, c)
               && Signal(Request(s.nextRequest, inst.id, event, pk.Stored()), x, Zeros(s.link.hwSize)) in u.signals
  {
    hide RoundLength, Inv, Enqueue, StillPending, GivenUp, Ticks, Lookup, Armed, InRound;
    var e := EnqueuedEntry(s, inst, pk, event);
    var t := Enqueue(s, inst, pk, event);
    var c, r := inst.config.retryCount, inst.config.retryTimeOut;
    EnqueueInv(s, inst, pk, event);
    if q <= c && j < RoundLength(r) {
      StillWaiting(t, e, r, q, j);
    }
    GivesUp(t, e, r);
    AbortSignals(t, e, r, e.requests[0]);
  }

  /** The same for every call of ArpRequest that queued something. */
  lemma {:induction false} RequestLife(s: State, id: nat, sw: Option<seq<byte>>, event: Option<nat>, bufferGiven: bool,
                                       mapped: (Status, Option<seq<byte>>), contextGranted: bool, entryGranted: bool,
                                       q: nat, j: nat)
    requires Inv(s)
    requires AskFor(s, id, sw, event, bufferGiven, mapped, contextGranted, entryGranted).0 != s
    ensures Lookup(s.children, id).Some? && event.Some?
    ensures var t := AskFor(s, id, sw, event, bufferGiven, mapped, contextGranted, entryGranted).0;
            var config := Lookup(s.children, id).value.config;
            var c, k, x := config.retryCount, RoundLength(config.retryTimeOut), ProtoKey(config, sw).Stored();
            && (q <= c && j < k ==> StillPending(t, Ticks(t, InRound(q, k, j)), x, q))
            && var u := Ticks(t, InRound(c + 1, k, 0));
               && GivenUp(t, u, x, c)
               && Signal(Request(s.nextRequest, id, event.value, x), x, Zeros(s.link.hwSize)) in u.signals
  {
    hide Inv, Enqueue, FindNext, FindDenied, Lookup, Ticks, InRound, RoundLength, StillPending, GivenUp;
    var inst := Lookup(s.children, id).value;
    LookupId(s.children, id);
    RetryBound(s, inst, ProtoKey(inst.config, sw), event.value, q, j);
  }

  // ---------- Without new calls all waiting ends ----------

  /** From any timer values an entry is gone after finitely many ticks: (retryCount, nextRetry) decreases. */
  lemma {:induction false} EntryExpires(children: seq<Instance>, e: Entry) returns (n: nat)
    ensures EntryAfter(children, e, n).None?
    decreases e.retryCount, e.nextRetry
  {
    if Expired(e) {
      n := 1;
      assert EntryAfter(children, e, 0) == Some(e);
      EntryAfterStep(children, e, 0);
    } else {
      var m := EntryExpires(children, TickEntry(children, e));
      assert EntryAfter(children, e, 0) == Some(e);
      EntryAfterStep(children, e, 0);
      EntryAfterSum(children, e, 1, m);
      n := 1 + m;
    }
  }

  lemma {:induction false} TableExpires(children: seq<Instance>, table: seq<Entry>) returns (n: nat)
    ensures forall m :: m >= n ==> AllAfter(children, table, m) == []
  {
    if table == [] {
      n := 0;
    } else {
      var rest := TableExpires(children, table[1..]);
      var head := EntryExpires(children, table[0]);
      n := if head < rest then rest else head;
      forall m | m >= n ensures AllAfter(children, table, m) == [] {
        GoneStaysGone(children, table[0], head, m);
      }
    }
  }

  /** From every reachable state, enough ticks complete every request ever queued, each exactly once. */
  lemma {:induction false} AllWaitingEnds(s: State) returns (n: nat)
    requires Inv(s)
    ensures Ticks(s, n).pending == []
    ensures SignalIds(Ticks(s, n).signals) == UpTo(s.nextRequest)
  {
    hide AllAfter, SignalIds, UpTo, Ticks;
    n := TableExpires(s.children, s.pending);
    PendingAfter(s, n);
    TicksInv(s, n);
  }
}
