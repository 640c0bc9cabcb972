/** Short runs that show why the exact conditions on stopping, on exclusion and on added addresses are needed. */
module ArpExamples {
  import opened Bytes
  import opened ArpTypes
  import opened ArpSteps
  import opened ArpTables
  import opened ArpInvariant
  import opened ArpProperties

  const LINK := Link(1, 6, [255, 255, 255, 255, 255, 255])
  const CONFIG := Config(IPV4_ETHER_PROTO_TYPE, 4, [10, 0, 0, 1], 0, 1, 1)
  const PEER: seq<byte> := [10, 0, 0, 2]
  const CARD: seq<byte> := [2, 0, 0, 0, 0, 7]

  const CREATE := CreateStep(true)
  const CONFIGURE := ConfigureStep(0, Some(CONFIG), true, true)
  const RESET := ConfigureStep(0, None, true, true)
  const ADD := AddStep(0, false, Some(PEER), Some(CARD), 0, true, true)
  const DENY_CARD := AddStep(0, true, None, Some(CARD), 0, false, true)
  const ASK := RequestStep(0, Some(PEER), Some(9), true, (Success, None), true, true)

  /** A service with one child, configured for IPv4. */
  const READY := Start(LINK).(children := [Instance(0, true, CONFIG.(entryTimeOut := DEFAULT_TIMEOUT))], nextChild := 1)

  lemma {:induction false} RunSnoc(s: State, before: seq<Step>, step: Step)
    ensures Run(s, before + [step]) == Next(Run(s, before), step)
  {
    assert (before + [step])[..|before|] == before;
  }

  lemma {:induction false} GetReady()
    ensures Run(Start(LINK), [CREATE] + [CONFIGURE]) == READY
  {
    hide Run, Next;
    RunSnoc(Start(LINK), [], CREATE);
    RunSnoc(Start(LINK), [CREATE], CONFIGURE);
    assert [] + [CREATE] == [CREATE];
    NothingRun();
    Created();
    Configured();
  }

  lemma {:induction false} NothingRun()
    ensures Run(Start(LINK), []) == Start(LINK)
  {
  }

  const IDLE := Start(LINK).(children := [Instance(0, false, Config(0, 0, [], 0, 0, 0))], nextChild := 1)

  lemma {:induction false} Created()
    ensures Next(Start(LINK), CREATE) == IDLE
  {
  }

  lemma {:induction false} Configured()
    ensures Next(IDLE, CONFIGURE) == READY
  {
    assert Read(CONFIG.station, 4) == [10, 0, 0, 1];
    assert [10, 0, 0, 1][0] == 10;
    assert !Unusable(CONFIG.station);
    var inst := IDLE.children[0];
    assert Lookup(IDLE.children, 0) == Some(inst);
    var c := Timers(CONFIG, CONFIG);
    assert ConfigureInstance(inst, CONFIG, true) == (Instance(0, true, c), Success);
    assert IDLE.children[1..] == [];
    assert Update(IDLE.children, 0, Instance(0, true, c)) == [Instance(0, true, c)];
  }

  // ---------- Stopping with nobody configured ----------

  lemma {:induction false} AddOnReady()
    ensures var t := Next(READY, ADD);
            t.children == READY.children && t.resolved != []
  {
    assert Lookup(READY.children, 0) == Some(READY.children[0]);
  }

  lemma {:induction false} ResetOnly(s: State)
    requires s.children == READY.children
    ensures var t := Next(s, RESET);
            t.resolved == s.resolved && !SomeConfigured(t.children)
  {
    var inst := s.children[0];
    assert Lookup(s.children, 0) == Some(inst);
    assert s.children[1..] == [];
    assert Update(s.children, 0, inst.(configured := false)) == [inst.(configured := false)];
  }

  /** The driver's assertion that the cache is empty after a stop fails here: the only child was reset before. */
  lemma {:induction false} StopLeavesEntry()
    ensures DestroyAll(Run(Start(LINK), [CREATE] + [CONFIGURE] + [ADD] + [RESET])).resolved != []
            || DestroyAll(Run(Start(LINK), [CREATE] + [CONFIGURE] + [ADD] + [RESET])).denied != []
  {
    hide Run, Next, DestroyAll, Inv, SomeConfigured;
    GetReady();
    RunSnoc(Start(LINK), [CREATE] + [CONFIGURE], ADD);
    RunSnoc(Start(LINK), [CREATE] + [CONFIGURE] + [ADD], RESET);
    AddOnReady();
    ResetOnly(Next(READY, ADD));
    ReachableInv(LINK, [CREATE] + [CONFIGURE] + [ADD] + [RESET]);
    StopAssertions(Run(Start(LINK), [CREATE] + [CONFIGURE] + [ADD] + [RESET]));
  }

  // ---------- An address both pending and resolved ----------

  lemma {:induction false} AskOnReady()
    ensures var t := Next(READY, ASK);
            && t.children == READY.children && t.link == LINK && t.denied == [] && t.resolved == []
            && |t.pending| == 1 && t.pending[0].proto == Address(IPV4_ETHER_PROTO_TYPE, PEER)
  {
    assert Lookup(READY.children, 0) == Some(READY.children[0]);
    assert Read(PEER, 4) == PEER;
    assert PEER[0] == 10;
  }

  lemma {:induction false} DenyCard(s: State)
    requires s.children == READY.children && s.link == LINK && s.denied == [] && s.resolved == []
    ensures var t := Next(s, DENY_CARD);
            && t.children == READY.children && t.link == LINK && t.pending == s.pending && t.resolved == []
            && |t.denied| == 1 && t.denied[0].hw == Address(LINK.ifType, CARD)
  {
    assert Lookup(s.children, 0) == Some(s.children[0]);
    assert Read(CARD, 6) == CARD;
  }

  lemma {:induction false} ReviveHere(s: State)
    requires s.children == READY.children && s.link == LINK && s.resolved == []
    requires |s.denied| == 1 && s.denied[0].hw == Address(LINK.ifType, CARD)
    requires |s.pending| == 1 && s.pending[0].proto == Address(IPV4_ETHER_PROTO_TYPE, PEER)
    ensures Apart(s) && RevivesDenied(s, ADD)
  {
    assert Lookup(s.children, 0) == Some(s.children[0]);
    assert Read(PEER, 4) == PEER;
    assert Read(CARD, 6) == CARD;
  }

  /** Overwriting a deny entry for a hardware address can leave an address pending and resolved at once. */
  lemma {:induction false} BothPendingAndResolved()
    ensures !Apart(Run(Start(LINK), [CREATE] + [CONFIGURE] + [ASK] + [DENY_CARD] + [ADD]))
  {
    hide Run, Next, Inv, Apart, RevivesDenied;
    GetReady();
    var asked := [CREATE] + [CONFIGURE] + [ASK];
    RunSnoc(Start(LINK), [CREATE] + [CONFIGURE], ASK);
    RunSnoc(Start(LINK), asked, DENY_CARD);
    RunSnoc(Start(LINK), asked + [DENY_CARD], ADD);
    AskOnReady();
    DenyCard(Run(Start(LINK), asked));
    ReviveHere(Run(Start(LINK), asked + [DENY_CARD]));
    ReachableInv(LINK, asked + [DENY_CARD]);
    NextApart(Run(Start(LINK), asked + [DENY_CARD]), ADD);
  }

  // ---------- An added address that is still denied ----------

  const OTHER: seq<byte> := [2, 0, 0, 0, 0, 8]
  const THIRD: seq<byte> := [2, 0, 0, 0, 0, 9]
  const ZERO: seq<byte> := [0, 0, 0, 0]
  const DENY_OTHER := AddStep(0, true, None, Some(OTHER), 0, false, true)

  /** The entry that denying a card leaves has an all-zero protocol address. */
  predicate Denies(e: Entry, card: seq<byte>) {
    e.proto == Address(IPV4_ETHER_PROTO_TYPE, ZERO) && e.hw == Address(LINK.ifType, card)
  }

  lemma {:induction false} DenyFirst()
    ensures var t := Next(READY, DENY_CARD);
            && t.children == READY.children && t.link == LINK && t.resolved == [] && t.pending == []
            && |t.denied| == 1 && Denies(t.denied[0], CARD)
  {
    DenyCard(READY);
    assert Lookup(READY.children, 0) == Some(READY.children[0]);
    assert Zeros(4) == ZERO;
  }

  lemma {:induction false} DenySecond(s: State)
    requires s.children == READY.children && s.link == LINK && s.resolved == [] && s.pending == []
    requires |s.denied| == 1 && Denies(s.denied[0], CARD)
    ensures var t := Next(s, DENY_OTHER);
            && t.children == READY.children && t.link == LINK && t.resolved == [] && t.pending == []
            && |t.denied| == 2 && Denies(t.denied[0], OTHER) && Denies(t.denied[1], CARD)
  {
    assert Lookup(s.children, 0) == Some(s.children[0]);
    assert Read(OTHER, 6) == OTHER;
    assert OTHER[5] != CARD[5];
    assert Zeros(4) == ZERO;
  }

  /** Adding 0.0.0.0 takes over one of the two deny entries and leaves the other. */
  lemma {:induction false} AddZero(s: State)
    requires s.children == READY.children && s.link == LINK && s.resolved == [] && s.pending == []
    requires |s.denied| == 2 && Denies(s.denied[0], OTHER) && Denies(s.denied[1], CARD)
    ensures var (t, status) := Add(s, 0, false, Some(ZERO), Some(THIRD), 0, true, true);
            && status == Success && t.children == READY.children && t.link == LINK
            && |t.denied| == 1 && Denies(t.denied[0], CARD)
  {
    assert Lookup(s.children, 0) == Some(s.children[0]);
    assert Read(ZERO, 4) == ZERO && Read(THIRD, 6) == THIRD;
  }

  lemma {:induction false} AskZero(s: State)
    requires s.children == READY.children && s.link == LINK && |s.denied| == 1 && Denies(s.denied[0], CARD)
    ensures AskFor(s, 0, Some(ZERO), None, true, (Success, None), true, true).1.status == AccessDenied
  {
    assert Lookup(s.children, 0) == Some(s.children[0]);
    assert Read(ZERO, 4) == ZERO;
    assert ZERO[0] == 0;
  }

  /** After two cards are denied, 0.0.0.0 can be added with success and a request for it is still refused. */
  lemma {:induction false} AddedZeroStaysDenied()
    ensures var s := Run(Start(LINK), [CREATE] + [CONFIGURE] + [DENY_CARD] + [DENY_OTHER]);
            var (t, status) := Add(s, 0, false, Some(ZERO), Some(THIRD), 0, true, true);
            && status == Success
            && AskFor(t, 0, Some(ZERO), None, true, (Success, None), true, true).1.status == AccessDenied
  {
    hide Run, Next, Add, AskFor, Denies;
    GetReady();
    RunSnoc(Start(LINK), [CREATE] + [CONFIGURE], DENY_CARD);
    RunSnoc(Start(LINK), [CREATE] + [CONFIGURE] + [DENY_CARD], DENY_OTHER);
    DenyFirst();
    DenySecond(Next(READY, DENY_CARD));
    var s := Run(Start(LINK), [CREATE] + [CONFIGURE] + [DENY_CARD] + [DENY_OTHER]);
    AddZero(s);
    AskZero(Add(s, 0, false, Some(ZERO), Some(THIRD), 0, true, true).0);
  }
}
