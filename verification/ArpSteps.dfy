/**
 Every call into the ARP service as a function from state to state. Each call
 runs at TPL_CALLBACK, so it is one atomic step; whether an allocation or a
 call into another driver succeeds is an argument of the step.
 */
module ArpSteps {
  import opened Bytes
  import opened ArpTypes
  import opened ArpFrame

  // ---------- Children ----------

  function Lookup(children: seq<Instance>, id: nat): Option<Instance> {
    if children == [] then None
    else if children[0].id == id then Some(children[0])
    else Lookup(children[1..], id)
  }

  function Update(children: seq<Instance>, id: nat, x: Instance): seq<Instance> {
    if children == [] then []
    else if children[0].id == id then [x] + children[1..]
    else [children[0]] + Update(children[1..], id, x)
  }

  function Remove(children: seq<Instance>, id: nat): seq<Instance> {
    if children == [] then []
    else if children[0].id == id then children[1..]
    else [children[0]] + Remove(children[1..], id)
  }

  // ---------- Searching the tables ----------

  /** The entry meets the parts of the search that are present. */
  predicate Meets(e: Entry, proto: Option<Key>, hw: Option<Key>) {
    && (proto.Some? ==> MatchAddress(proto.value, e.proto))
    && (hw.Some? ==> MatchAddress(hw.value, e.hw))
  }

  /** ArpFindNextCacheEntryInTable: the first match at or after `from`, or the length of the table. */
  function FindNext(table: seq<Entry>, from: nat, proto: Option<Key>, hw: Option<Key>): (i: nat)
    requires from <= |table|
    ensures from <= i <= |table|
    decreases |table| - from
  {
    if from == |table| || Meets(table[from], proto, hw) then from else FindNext(table, from + 1, proto, hw)
  }

  /** ArpFindDeniedCacheEntry: by protocol address first, then by hardware address; null pointers are skipped. */
  function FindDenied(denied: seq<Entry>, proto: Option<Key>, hw: Option<Key>): (i: nat)
    ensures i <= |denied|
  {
    var p := if proto.Some? && proto.value.bytes.Some? then FindNext(denied, 0, proto, None) else |denied|;
    if p < |denied| then p
    else if hw.Some? && hw.value.bytes.Some? then FindNext(denied, 0, None, hw)
    else |denied|
  }

  function Without(table: seq<Entry>, i: nat): seq<Entry>
    requires i < |table|
  {
    table[..i] + table[i + 1..]
  }

  // ---------- Requests ----------

  predicate Notified(r: Request, owner: Option<nat>, event: Option<nat>) {
    (owner.Some? ==> r.owner == owner.value) && (event.Some? ==> r.event == event.value)
  }

  function Released(reqs: seq<Request>, owner: Option<nat>, event: Option<nat>): seq<Request> {
    if reqs == [] then []
    else (if Notified(reqs[0], owner, event) then [reqs[0]] else []) + Released(reqs[1..], owner, event)
  }

  function Kept(reqs: seq<Request>, owner: Option<nat>, event: Option<nat>): seq<Request> {
    if reqs == [] then []
    else (if Notified(reqs[0], owner, event) then [] else [reqs[0]]) + Kept(reqs[1..], owner, event)
  }

  /** The completions of `reqs` with the hardware address that `e` holds. */
  function Deliver(reqs: seq<Request>, e: Entry): seq<Signal> {
    if reqs == [] then [] else [Signal(reqs[0], e.proto, e.hw.bytes)] + Deliver(reqs[1..], e)
  }

  // ---------- Configuration ----------

  /** ArpAllocCacheEntry for an instance: timers from its configuration. */
  function NewEntry(c: Config, proto: Key, hw: Key): Entry {
    Entry(proto.Stored(), hw.Stored(), c.retryCount, c.retryTimeOut, c.entryTimeOut, c.entryTimeOut, [])
  }

  /** ArpAllocCacheEntry without an instance: the default timers. */
  function NewDefaultEntry(proto: Key, hw: Key): Entry {
    Entry(proto.Stored(), hw.Stored(), DEFAULT_RETRY_COUNT, DEFAULT_RETRY_INTERVAL, DEFAULT_TIMEOUT, DEFAULT_TIMEOUT, [])
  }

  function OrDefault(n: nat, default: nat): nat {
    if n == 0 then default else n
  }

  function Timers(c: Config, from: Config): Config {
    c.(entryTimeOut := OrDefault(from.entryTimeOut, DEFAULT_TIMEOUT),
       retryCount := OrDefault(from.retryCount, DEFAULT_RETRY_COUNT),
       retryTimeOut := OrDefault(from.retryTimeOut, DEFAULT_RETRY_INTERVAL))
  }

  predicate Unusable(station: seq<byte>) {
    var ip := Read(station, 4);
    ip == [0, 0, 0, 0] || ip == [255, 255, 255, 255]
  }

  /** ArpConfigureInstance with configuration data. */
  function ConfigureInstance(inst: Instance, c: Config, granted: bool): (Instance, Status) {
    var station := Read(c.station, c.swLen);
    if inst.configured then
      if inst.config.swType != c.swType || inst.config.swLen != c.swLen || inst.config.station != station then
        (inst, AccessDenied)
      else
        (inst.(config := Timers(inst.config, c)), Success)
    else if c.swType == IPV4_ETHER_PROTO_TYPE && Unusable(c.station) then
      (inst, InvalidParameter)
    else if !granted then
      (inst.(config := c.(station := [])), OutOfResources)
    else
      (inst.(configured := true, config := Timers(c.(station := station), c)), Success)
  }

  // ---------- Cancelling ----------

  function CancelEntry(e: Entry, sw: Option<seq<byte>>, owner: Option<nat>, event: Option<nat>): seq<Entry> {
    if !MatchBuffer(sw, e.proto) then [e]
    else
      var kept := Kept(e.requests, owner, event);
      if kept == [] then [] else [e.(requests := kept)]
  }

  function CancelPending(table: seq<Entry>, sw: Option<seq<byte>>, owner: Option<nat>, event: Option<nat>): seq<Entry> {
    if table == [] then []
    else CancelEntry(table[0], sw, owner, event) + CancelPending(table[1..], sw, owner, event)
  }

  function CancelOne(e: Entry, sw: Option<seq<byte>>, owner: Option<nat>, event: Option<nat>): seq<Signal> {
    if MatchBuffer(sw, e.proto) then Deliver(Released(e.requests, owner, event), e) else []
  }

  function CancelSignals(table: seq<Entry>, sw: Option<seq<byte>>, owner: Option<nat>, event: Option<nat>): seq<Signal> {
    if table == [] then []
    else CancelOne(table[0], sw, owner, event) + CancelSignals(table[1..], sw, owner, event)
  }

  /** ArpCancelRequest. */
  function CancelRequest(s: State, owner: nat, sw: Option<seq<byte>>, event: Option<nat>): State {
    s.(pending := CancelPending(s.pending, sw, Some(owner), event),
       signals := s.signals + CancelSignals(s.pending, sw, Some(owner), event))
  }

  // ---------- Deleting ----------

  predicate Doomed(e: Entry, bySw: bool, swType: nat, addr: Option<seq<byte>>, force: bool) {
    && (e.defaultDecay != 0 || force)
    && if bySw then swType == e.proto.kind && MatchBuffer(addr, e.proto) else MatchBuffer(addr, e.hw)
  }

  /** ArpDeleteCacheEntryInTable. */
  function DeleteFrom(table: seq<Entry>, bySw: bool, swType: nat, addr: Option<seq<byte>>, force: bool): seq<Entry> {
    if table == [] then []
    else (if Doomed(table[0], bySw, swType, addr, force) then [] else [table[0]])
         + DeleteFrom(table[1..], bySw, swType, addr, force)
  }

  /** ArpDeleteCacheEntry. */
  function DeleteCache(s: State, bySw: bool, swType: nat, addr: Option<seq<byte>>, force: bool): State {
    s.(denied := DeleteFrom(s.denied, bySw, swType, addr, force),
       resolved := DeleteFrom(s.resolved, bySw, swType, addr, force))
  }

  function CacheSize(s: State): nat {
    |s.denied| + |s.resolved|
  }

  // ---------- The timer ----------

  function RetryTimeOutOf(children: seq<Instance>, reqs: seq<Request>): nat {
    if reqs == [] then 0
    else
      var owner := Lookup(children, reqs[0].owner);
      if owner.Some? then owner.value.config.retryTimeOut else 0
  }

  predicate Expired(e: Entry) {
    e.nextRetry <= TIMER_INTERVAL && e.retryCount == 0
  }

  predicate Resent(e: Entry) {
    e.nextRetry <= TIMER_INTERVAL && e.retryCount > 0
  }

  function TickEntry(children: seq<Instance>, e: Entry): Entry {
    if Resent(e) then e.(retryCount := e.retryCount - 1, nextRetry := RetryTimeOutOf(children, e.requests))
    else if e.nextRetry > TIMER_INTERVAL then e.(nextRetry := e.nextRetry - TIMER_INTERVAL)
    else e
  }

  function TickPending(children: seq<Instance>, table: seq<Entry>): seq<Entry> {
    if table == [] then []
    else (if Expired(table[0]) then [] else [TickEntry(children, table[0])]) + TickPending(children, table[1..])
  }

  function TickSignals(table: seq<Entry>): seq<Signal> {
    if table == [] then []
    else (if Expired(table[0]) then Deliver(table[0].requests, table[0]) else []) + TickSignals(table[1..])
  }

  function TickSent(table: seq<Entry>): seq<Sent> {
    if table == [] then []
    else (if Resent(table[0]) && table[0].requests != []
          then [Sent(OPCODE_REQUEST, table[0].requests[0].owner, table[0].proto, table[0].hw)] else [])
         + TickSent(table[1..])
  }

  predicate Aged(e: Entry) {
    e.defaultDecay != 0 && e.decay <= TIMER_INTERVAL
  }

  function Age(e: Entry): Entry {
    if e.defaultDecay != 0 && e.decay > TIMER_INTERVAL then e.(decay := e.decay - TIMER_INTERVAL) else e
  }

  function TickCache(table: seq<Entry>): seq<Entry> {
    if table == [] then []
    else (if Aged(table[0]) then [] else [Age(table[0])]) + TickCache(table[1..])
  }

  /** ArpTimerHandler. */
  function Tick(s: State): State {
    s.(pending := TickPending(s.children, s.pending),
       signals := s.signals + TickSignals(s.pending),
       sent := s.sent + TickSent(s.pending),
       denied := TickCache(s.denied),
       resolved := TickCache(s.resolved))
  }

  // ---------- Create, destroy, configure ----------

  function CreateChild(s: State, granted: bool): (State, Status) {
    if !granted then (s, OutOfResources)
    else
      (s.(children := s.children + [Instance(s.nextChild, false, Config(0, 0, [], 0, 0, 0))],
          nextChild := s.nextChild + 1), Success)
  }

  /** ArpConfigureInstance without configuration data. */
  function Reset(s: State, inst: Instance): State {
    var t := if inst.configured then CancelRequest(s, inst.id, None, None) else s;
    t.(children := Update(t.children, inst.id, inst.(configured := false)))
  }

  /** `uninstalled` says whether the protocol could be taken off the handle. */
  function DestroyChild(s: State, id: nat, uninstalled: bool): (State, Status) {
    var found := Lookup(s.children, id);
    if found.None? then (s, Unsupported)
    else if !uninstalled then (s, DeviceError)
    else
      var inst := found.value;
      var t := if inst.configured then Reset(DeleteCache(s, false, inst.config.swType, None, true), inst) else s;
      (t.(children := Remove(t.children, id)), Success)
  }

  function Configure(s: State, id: nat, c: Option<Config>, stationGiven: bool, granted: bool): (State, Status) {
    var found := Lookup(s.children, id);
    if found.None? then (s, InvalidParameter)
    else if c.None? then (Reset(s, found.value), Success)
    else if c.value.swLen == 0 || !stationGiven || c.value.swType <= 1500 then (s, InvalidParameter)
    else
      var (inst, status) := ConfigureInstance(found.value, c.value, granted);
      (s.(children := Update(s.children, id, inst)), status)
  }

  // ---------- Add ----------

  datatype Place = InDenied(i: nat) | InResolved(i: nat) | InPending(i: nat) | Nowhere

  /** Where ArpAdd finds the entry to take over, before it looks at the pending requests. */
  function CachedPlace(s: State, pk: Key, hk: Key): (p: Place)
    ensures p.InDenied? ==> p.i < |s.denied|
    ensures p.InResolved? ==> p.i < |s.resolved|
    ensures !p.InPending?
  {
    var d := FindDenied(s.denied, Some(pk), Some(hk));
    if d < |s.denied| then InDenied(d)
    else
      var r := FindNext(s.resolved, 0, Some(pk), Some(hk));
      if r < |s.resolved| then InResolved(r) else Nowhere
  }

  function AddPlace(s: State, pk: Key, hk: Key): (p: Place)
    ensures p.InDenied? ==> p.i < |s.denied|
    ensures p.InResolved? ==> p.i < |s.resolved|
    ensures p.InPending? ==> p.i < |s.pending|
  {
    var c := CachedPlace(s, pk, hk);
    if !c.Nowhere? || pk.bytes.None? then c
    else
      var p := FindNext(s.pending, 0, Some(pk), None);
      if p < |s.pending| then InPending(p) else Nowhere
  }

  function Taken(s: State, p: Place, blank: Entry): Entry
    requires p.InDenied? ==> p.i < |s.denied|
    requires p.InResolved? ==> p.i < |s.resolved|
    requires p.InPending? ==> p.i < |s.pending|
  {
    match p
    case InDenied(i) => s.denied[i]
    case InResolved(i) => s.resolved[i]
    case InPending(i) => s.pending[i]
    case Nowhere => blank
  }

  function TakeOut(s: State, p: Place): State
    requires p.InDenied? ==> p.i < |s.denied|
    requires p.InResolved? ==> p.i < |s.resolved|
    requires p.InPending? ==> p.i < |s.pending|
  {
    match p
    case InDenied(i) => s.(denied := Without(s.denied, i))
    case InResolved(i) => s.(resolved := Without(s.resolved, i))
    case InPending(i) => s.(pending := Without(s.pending, i))
    case Nowhere => s
  }

  /** The entry that ArpAdd stores: the one taken over, with new addresses and life time. */
  function Renewed(e: Entry, pk: Key, hk: Key, timeout: nat): Entry {
    e.(proto := pk.Stored(), hw := hk.Stored(), defaultDecay := timeout, decay := timeout)
  }

  /** Completes all requests of `e` and stores it at the head of a cache table. */
  function Settle(s: State, e: Entry, deny: bool): State {
    var t := s.(signals := s.signals + Deliver(e.requests, e));
    var done := e.(requests := []);
    if deny then t.(denied := [done] + t.denied) else t.(resolved := [done] + t.resolved)
  }

  function ProtoKey(c: Config, sw: Option<seq<byte>>): (k: Key)
    ensures k.Valid()
  {
    KeyAt(c.swType, c.swLen, sw)
  }

  function HwKey(link: Link, hw: Option<seq<byte>>): (k: Key)
    ensures k.Valid()
  {
    KeyAt(link.ifType, link.hwSize, hw)
  }

  function Add(s: State, id: nat, deny: bool, sw: Option<seq<byte>>, hw: Option<seq<byte>>,
               timeout: nat, overwrite: bool, granted: bool): (State, Status)
  {
    var found := Lookup(s.children, id);
    if found.None? || (!deny && (sw.None? || hw.None?)) || (deny && sw.Some? && hw.Some?) || (sw.None? && hw.None?) then
      (s, InvalidParameter)
    else if !found.value.configured then (s, NotStarted)
    else
      var c := found.value.config;
      var pk, hk := ProtoKey(c, sw), HwKey(s.link, hw);
      if !CachedPlace(s, pk, hk).Nowhere? && !overwrite then (s, AccessDenied)
      else
        var p := AddPlace(s, pk, hk);
        if p.Nowhere? && !granted then (s, OutOfResources)
        else (Settle(TakeOut(s, p), Renewed(Taken(s, p, NewEntry(c, pk, hk)), pk, hk, timeout), deny), Success)
  }

  // ---------- Find, delete, flush ----------

  function RefreshFrom(table: seq<Entry>, proto: Option<Key>, hw: Option<Key>): seq<Entry> {
    if table == [] then []
    else [if Meets(table[0], proto, hw) then table[0].(decay := table[0].defaultDecay) else table[0]]
         + RefreshFrom(table[1..], proto, hw)
  }

  function Matching(table: seq<Entry>, proto: Option<Key>, hw: Option<Key>): seq<Entry> {
    if table == [] then []
    else (if Meets(table[0], proto, hw) then [table[0]] else []) + Matching(table[1..], proto, hw)
  }

  /** What ArpFind copies out per entry. */
  datatype Found = Found(deny: bool, fixed: bool, sw: seq<byte>, hw: seq<byte>)

  function Report(entries: seq<Entry>, deny: bool, c: Config, link: Link): seq<Found> {
    if entries == [] then []
    else [Found(deny, entries[0].defaultDecay == 0,
                Read(entries[0].proto.bytes, c.swLen), Read(entries[0].hw.bytes, link.hwSize))]
         + Report(entries[1..], deny, c, link)
  }

  /** `counted`, `sized` and `listed` say which of the three results the caller asks for. */
  function Find(s: State, id: nat, bySw: bool, addr: Option<seq<byte>>, refresh: bool,
                counted: bool, sized: bool, listed: bool, granted: bool): (State, Status, seq<Found>)
  {
    var found := Lookup(s.children, id);
    if found.None? || (!refresh && !counted && !sized) || (listed && (!counted || !sized)) then
      (s, InvalidParameter, [])
    else if !found.value.configured then (s, NotStarted, [])
    else
      var c := found.value.config;
      var pk := if bySw then Some(ProtoKey(c, addr)) else None;
      var hk := if bySw then None else Some(HwKey(s.link, addr));
      var t := if refresh
               then s.(denied := RefreshFrom(s.denied, pk, hk), resolved := RefreshFrom(s.resolved, pk, hk)) else s;
      var report := Report(Matching(s.denied, pk, hk), true, c, s.link)
                    + Report(Matching(s.resolved, pk, hk), false, c, s.link);
      if report == [] then (t, NotFound, [])
      else if listed && !granted then (t, OutOfResources, [])
      else (t, Success, report)
  }

  function Delete(s: State, id: nat, bySw: bool, addr: Option<seq<byte>>): (State, Status) {
    var found := Lookup(s.children, id);
    if found.None? then (s, InvalidParameter)
    else if !found.value.configured then (s, NotStarted)
    else
      var t := DeleteCache(s, bySw, found.value.config.swType, addr, true);
      (t, if CacheSize(t) == CacheSize(s) then NotFound else Success)
  }

  function Flush(s: State, id: nat): (State, Status) {
    var found := Lookup(s.children, id);
    if found.None? then (s, InvalidParameter)
    else if !found.value.configured then (s, NotStarted)
    else
      var t := DeleteCache(s, false, found.value.config.swType, None, false);
      (t, if CacheSize(t) == CacheSize(s) then NotFound else Success)
  }

  // ---------- Request and cancel ----------

  predicate Broadcast(c: Config, sw: seq<byte>) {
    c.swType == IPV4_ETHER_PROTO_TYPE && Read(sw, 4) == [255, 255, 255, 255]
  }

  predicate Multicast(c: Config, sw: seq<byte>) {
    c.swType == IPV4_ETHER_PROTO_TYPE && Read(sw, 4)[0] / 16 == 14
  }

  /** What a call of ArpRequest hands back: the caller's hardware address buffer, if it was written. */
  datatype Answer = Answer(status: Status, hw: Option<seq<byte>>, signalled: bool)

  function Immediate(status: Status, hw: Option<seq<byte>>, event: Option<nat>): Answer {
    Answer(status, hw, event.Some? && status == Success)
  }

  /** Links a new request to the pending entry for `pk`, creating the entry if there is none. */
  function Enqueue(s: State, inst: Instance, pk: Key, event: nat): State {
    var r := Request(s.nextRequest, inst.id, event, pk.Stored());
    var i := FindNext(s.pending, 0, Some(pk), None);
    var e := if i < |s.pending|
             then s.pending[i].(nextRetry := inst.config.retryTimeOut, retryCount := inst.config.retryCount)
             else NewEntry(inst.config, pk, HwKey(s.link, None));
    var e' := e.(requests := [r] + e.requests);
    s.(pending := if i < |s.pending| then s.pending[i := e'] else s.pending + [e'],
       nextRequest := s.nextRequest + 1,
       sent := s.sent + [Sent(OPCODE_REQUEST, inst.id, e'.proto, e'.hw)])
  }

  /** `mapped` is the outcome of the multicast mapping by the driver below. */
  function AskFor(s: State, id: nat, sw: Option<seq<byte>>, event: Option<nat>, bufferGiven: bool,
                  mapped: (Status, Option<seq<byte>>), contextGranted: bool, entryGranted: bool): (State, Answer)
  {
    var found := Lookup(s.children, id);
    if found.None? || !bufferGiven then (s, Answer(InvalidParameter, None, false))
    else if !found.value.configured then (s, Answer(NotStarted, None, false))
    else
      var c := found.value.config;
      if sw.None? || Broadcast(c, sw.value) then
        (s, Immediate(Success, Some(Read(s.link.broadcast, s.link.hwSize)), event))
      else if Multicast(c, sw.value) then
        (s, Immediate(mapped.0, mapped.1, event))
      else
        var pk := ProtoKey(c, sw);
        var zero := Some(Zeros(s.link.hwSize));
        var r := FindNext(s.resolved, 0, Some(pk), None);
        if FindDenied(s.denied, Some(pk), None) < |s.denied| then (s, Answer(AccessDenied, zero, false))
        else if r < |s.resolved| then (s, Immediate(Success, Some(s.resolved[r].hw.bytes), event))
        else if event.None? then (s, Answer(NotReady, zero, false))
        else if !contextGranted
             || (FindNext(s.pending, 0, Some(pk), None) == |s.pending| && !entryGranted)
        then (s, Answer(OutOfResources, zero, false))
        else (Enqueue(s, found.value, pk, event.value), Answer(NotReady, zero, false))
  }

  function Cancel(s: State, id: nat, sw: Option<seq<byte>>, event: Option<nat>): (State, Status) {
    var found := Lookup(s.children, id);
    if found.None? || sw.Some? != event.Some? then (s, InvalidParameter)
    else if !found.value.configured then (s, NotStarted)
    else
      var t := CancelRequest(s, id, sw, event);
      (t, if |t.signals| == |s.signals| then NotFound else Success)
  }

  // ---------- A received frame ----------

  predicate Speaks(inst: Instance, f: Frame) {
    inst.configured && f.protoType == inst.config.swType && |f.senderProto| == inst.config.swLen
  }

  predicate Targets(inst: Instance, f: Frame) {
    Speaks(inst, f) && f.targetProto == inst.config.station
  }

  /** The first child that the frame is addressed to. */
  function TargetOf(children: seq<Instance>, f: Frame): Option<Instance> {
    if children == [] then None
    else if Targets(children[0], f) then Some(children[0])
    else TargetOf(children[1..], f)
  }

  predicate Spoken(children: seq<Instance>, f: Frame) {
    children != [] && (Speaks(children[0], f) || Spoken(children[1..], f))
  }

  function SenderProto(f: Frame): (k: Key)
    ensures k.Valid()
  {
    Key(f.protoType, |f.senderProto|, Some(f.senderProto))
  }

  function SenderHw(f: Frame): (k: Key)
    ensures k.Valid()
  {
    Key(f.hwType, |f.senderHw|, Some(f.senderHw))
  }

  /** The frame passes the checks before the translation table is touched. */
  predicate Accepted(s: State, f: Frame, protocolType: nat) {
    && f.hwType == s.link.ifType && |f.senderHw| == s.link.hwSize && protocolType == ARP_ETHER_PROTO_TYPE
    && FindDenied(s.denied, Some(SenderProto(f)), Some(SenderHw(f))) == |s.denied|
    && Spoken(s.children, f)
  }

  /** Refreshes the sender's entry if it is already resolved. */
  function Merge(s: State, f: Frame): State {
    var i := FindNext(s.resolved, 0, Some(SenderProto(f)), None);
    if i == |s.resolved| then s
    else s.(resolved := s.resolved[i := s.resolved[i].(hw := SenderHw(f).Stored(), decay := s.resolved[i].defaultDecay)])
  }

  /** Enters an unknown sender, taking over its pending entry if there is one. */
  function Learn(s: State, f: Frame): State {
    var i := FindNext(s.pending, 0, Some(SenderProto(f)), None);
    if i == |s.pending| then Settle(s, NewDefaultEntry(SenderProto(f), SenderHw(f)), false)
    else
      Settle(s.(pending := Without(s.pending, i)),
             s.pending[i].(proto := SenderProto(f).Stored(), hw := SenderHw(f).Stored()), false)
  }

  function Replied(s: State, f: Frame, target: Instance): State {
    if f.opcode != OPCODE_REQUEST then s
    else s.(sent := s.sent + [Sent(OPCODE_REPLY, target.id, SenderProto(f).Stored(), SenderHw(f).Stored())])
  }

  function ReceiveFrame(s: State, f: Frame, granted: bool): State {
    var target := TargetOf(s.children, f);
    var known := FindNext(s.resolved, 0, Some(SenderProto(f)), None) < |s.resolved|;
    var waiting := FindNext(s.pending, 0, Some(SenderProto(f)), None) < |s.pending|;
    if target.None? then Merge(s, f)
    else if known then Replied(Merge(s, f), f, target.value)
    else if !waiting && !granted then s
    else Replied(Learn(s, f), f, target.value)
  }

  /** ArpOnFrameRcvdDpc on a frame that arrived without error. */
  function Receive(s: State, payload: seq<byte>, protocolType: nat, granted: bool): State {
    var f := Decode(payload);
    if f.None? || !Accepted(s, f.value, protocolType) then s else ReceiveFrame(s, f.value, granted)
  }

  // ---------- Runs ----------

  datatype Step =
    | CreateStep(granted: bool)
    | DestroyStep(id: nat, uninstalled: bool)
    | ConfigureStep(id: nat, config: Option<Config>, stationGiven: bool, granted: bool)
    | AddStep(id: nat, deny: bool, sw: Option<seq<byte>>, hw: Option<seq<byte>>,
              timeout: nat, overwrite: bool, granted: bool)
    | FindStep(id: nat, bySw: bool, addr: Option<seq<byte>>, refresh: bool,
               counted: bool, sized: bool, listed: bool, granted: bool)
    | DeleteStep(id: nat, bySw: bool, addr: Option<seq<byte>>)
    | FlushStep(id: nat)
    | RequestStep(id: nat, sw: Option<seq<byte>>, event: Option<nat>, bufferGiven: bool,
                  mapped: (Status, Option<seq<byte>>), contextGranted: bool, entryGranted: bool)
    | CancelStep(id: nat, sw: Option<seq<byte>>, event: Option<nat>)
    | ReceiveStep(payload: seq<byte>, protocolType: nat, granted: bool)
    | TickStep

  function Next(s: State, step: Step): State {
    match step
    case CreateStep(granted) => CreateChild(s, granted).0
    case DestroyStep(id, uninstalled) => DestroyChild(s, id, uninstalled).0
    case ConfigureStep(id, c, stationGiven, granted) => Configure(s, id, c, stationGiven, granted).0
    case AddStep(id, deny, sw, hw, timeout, overwrite, granted) =>
      Add(s, id, deny, sw, hw, timeout, overwrite, granted).0
    case FindStep(id, bySw, addr, refresh, counted, sized, listed, granted) =>
      Find(s, id, bySw, addr, refresh, counted, sized, listed, granted).0
    case DeleteStep(id, bySw, addr) => Delete(s, id, bySw, addr).0
    case FlushStep(id) => Flush(s, id).0
    case RequestStep(id, sw, event, bufferGiven, mapped, contextGranted, entryGranted) =>
      AskFor(s, id, sw, event, bufferGiven, mapped, contextGranted, entryGranted).0
    case CancelStep(id, sw, event) => Cancel(s, id, sw, event).0
    case ReceiveStep(payload, protocolType, granted) => Receive(s, payload, protocolType, granted)
    case TickStep => Tick(s)
  }

  function Start(link: Link): State {
    State(link, [], [], [], [], 0, 0, [], [])
  }

  function Run(s: State, steps: seq<Step>): State {
    if steps == [] then s else Next(Run(s, steps[..|steps| - 1]), steps[|steps| - 1])
  }
}
