/**
 The option parser: a cursor loop over each buffer, two callbacks that update the
 counting table in place, and the prefix-sum loop between the two passes.
 */
module DhcpParse {
  import opened Bytes
  import opened DhcpOption
  import opened DhcpMerge

  datatype Status = Success | InvalidParameter | OutOfResources

  /** The callback that an iteration applies to every option. */
  datatype Check = CountLength | FillData

  /** An entry of the result with its data pointer followed. */
  function Entry(tb: Table, r: nat): Opt
    requires r < |tb.slots|
  {
    var s := tb.slots[r];
    Opt(s.tag, if s.data.Some? && s.data.value + s.len <= |tb.buf| then tb.buf[s.data.value..s.data.value + s.len] else [])
  }

  function Entries(tb: Table): seq<Opt> {
    seq(|tb.slots|, r requires 0 <= r < |tb.slots| => Entry(tb, r))
  }

  /** What the table satisfies once a pass has handled `done`. */
  ghost predicate Holds(check: Check, all: seq<Opt>, done: seq<Opt>, tb: Table) {
    match check
    case CountLength => Counted(done, tb)
    case FillData => Filled(all, done, tb) && |tb.slots| > 0
  }

  /** The pass may go on to handle `more`. The filling pass follows the counting pass over the same options. */
  ghost predicate Expected(check: Check, all: seq<Opt>, done: seq<Opt>, more: Scan) {
    check.FillData? ==> more.Scanned? && done + more.opts <= all
  }

  class Context {
    var index: array<byte>
    var offset: array<nat>
    var slots: array<Slot>
    var buf: array<byte>

    ghost predicate Valid()
      reads this
    {
      && index.Length == MAX_OPTIONS && offset.Length == MAX_OPTIONS
      && index != buf && offset as object != index && offset as object != buf
    }

    function Value(): Table
      reads this, index, offset, slots, buf
    {
      Table(index[..], offset[..], slots[..], buf[..])
    }

    /** The zeroed counters of a fresh parse. */
    constructor ()
      ensures Valid() && fresh(index) && fresh(offset) && fresh(slots) && fresh(buf)
      ensures Counted([], Value())
      ensures forall t :: 0 <= t < MAX_OPTIONS ==> index[t] == 0
    {
      index := new byte[MAX_OPTIONS](_ => 0);
      offset := new nat[MAX_OPTIONS](_ => 0);
      slots := new Slot[0];
      buf := new byte[0];
    }

    method GetOptionLen(tag: byte, data: seq<byte>)
      requires Valid()
      modifies offset
      ensures Value() == CountOne(old(Value()), Opt(tag, data))
    {
      offset[tag] := Low16(offset[tag] + |data|);
    }

    method FillOption(tag: byte, data: seq<byte>)
      requires Valid() && FillSafe(Value(), Opt(tag, data))
      modifies offset, slots, buf
      ensures Value() == FillOne(old(Value()), Opt(tag, data))
    {
      var i := index[tag];
      if slots[i].data.None? {
        slots[i] := Slot(tag, slots[i].len, Some(offset[tag]));
      }
      forall k | 0 <= k < |data| {
        buf[offset[tag] + k] := data[k];
      }
      offset[tag] := Low16(offset[tag] + |data|);
      slots[i] := slots[i].(len := Low16(slots[i].len + |data|));
      assert buf[..] == Overwrite(old(buf[..]), old(offset[tag]), data);
    }

    /** Runs the callback on one option. */
    method Apply(check: Check, tag: byte, data: seq<byte>, ghost all: seq<Opt>, ghost done: seq<Opt>)
      requires Valid() && Holds(check, all, done, Value())
      requires check.FillData? ==> done + [Opt(tag, data)] <= all
      modifies offset, slots, buf
      ensures Holds(check, all, done + [Opt(tag, data)], Value())
    {
      if check.CountLength? {
        CountStep(done, Opt(tag, data), Value());
        GetOptionLen(tag, data);
      } else {
        FillStep(all, done, Opt(tag, data), Value());
        FillOption(tag, data);
      }
    }

    method IterateBufferOptions(b: seq<byte>, check: Check, track: bool, start: byte,
                                ghost all: seq<Opt>, ghost done: seq<Opt>)
      returns (status: Status, overload: byte)
      requires Valid() && Holds(check, all, done, Value())
      requires Expected(check, all, done, ScanBuffer(b, track, start))
      modifies offset, slots, buf
      ensures status == if ScanBuffer(b, track, start).Scanned? then Success else InvalidParameter
      ensures status.Success? ==>
                var s := ScanBuffer(b, track, start);
                overload == s.overload && Holds(check, all, done + s.opts, Value())
    {
      hide Holds, ScanBuffer;
      var cur := 0;
      ghost var seen: seq<Opt> := [];
      overload := start;
      assert b[0..] == b && done + seen == done;
      while cur < |b|
        invariant cur <= |b|
        invariant ScanBuffer(b, track, start) == ScanBuffer(b[cur..], track, overload).After(seen)
        invariant Holds(check, all, done + seen, Value())
      {
        ScanAt(b, cur, track, overload);
        var tag := b[cur];
        if tag == TAG_PAD {
          cur := cur + 1;
          continue;
        } else if tag == TAG_EOP {
          assert done + (seen + []) == done + seen;
          return Success, overload;
        }
        if cur + 1 == |b| {
          return InvalidParameter, overload;
        }
        var len := b[cur + 1];
        if cur + 2 + len > |b| {
          return InvalidParameter, overload;
        }
        if tag == TAG_OVERLOAD && track {
          if len != 1 {
            return InvalidParameter, overload;
          }
          overload := b[cur + 2];
        }
        var data := b[cur + 2..cur + 2 + len];
        ghost var o := Opt(tag, data);
        ghost var tail := ScanBuffer(b[cur + 2 + len..], track, overload);
        assert ScanBuffer(b, track, start) == tail.After([o]).After(seen);
        AfterTwice(tail, [o], seen);
        NextExpected(check, all, done, seen, o, tail);
        Apply(check, tag, data, all, done + seen);
        assert done + seen + [o] == done + (seen + [o]);
        seen := seen + [o];
        cur := cur + 2 + len;
      }
      ScanAt(b, cur, track, overload);
      status := InvalidParameter;
    }

    method IterateOptions(p: Packet, check: Check, ghost all: seq<Opt>)
      returns (status: Status)
      requires p.Valid() && Valid() && Holds(check, all, [], Value())
      requires check.FillData? ==> PacketOptions(p) == Some(all)
      modifies offset, slots, buf
      ensures status == if PacketOptions(p).Some? then Success else InvalidParameter
      ensures status.Success? ==> Holds(check, all, PacketOptions(p).value, Value())
    {
      hide Holds, ScanBuffer;
      ghost var s := ScanBuffer(p.OptionField(), true, 0);
      ghost var f := ScanField(s.Scanned? && UsesFile(s.overload), p.File());
      ghost var n := ScanField(s.Scanned? && UsesSname(s.overload), p.Sname());
      assert s.Scanned? ==> [] + s.opts == s.opts;
      var overload: byte, ignored: byte;
      status, overload := IterateBufferOptions(p.OptionField(), check, true, 0, all, []);
      if status != Success {
        return;
      }
      if UsesFile(overload) {
        status, ignored := IterateBufferOptions(p.File(), check, false, 0, all, s.opts);
        if status != Success {
          return;
        }
      } else {
        assert s.opts + f.opts == s.opts;
      }
      if UsesSname(overload) {
        status, ignored := IterateBufferOptions(p.Sname(), check, false, 0, all, s.opts + f.opts);
        if status != Success {
          return;
        }
      } else {
        assert s.opts + f.opts + n.opts == s.opts + f.opts;
      }
    }

    /** Turns per-tag lengths into entry indices and buffer offsets, in place. */
    method AssignOffsets(ghost all: seq<Opt>) returns (optNum: nat, totalLen: nat)
      requires Valid() && Counted(all, Value())
      requires forall t :: 0 <= t < MAX_OPTIONS ==> index[t] == 0
      modifies index, offset
      ensures Laid(all, Value())
      ensures optNum == CountedTags(all, MAX_OPTIONS) && totalLen == Low16(Start(all, MAX_OPTIONS))
    {
      hide TagData, Low16, CountedTags, Start, LaidIndex, LaidOffset;
      totalLen, optNum := 0, 0;
      LayoutStart(all);
      forall t: byte ensures offset[t] == Low16(|TagData(all, t)|) {
        assert Value().offset[t] == Low16(|TagData(all, t)|);
      }
      for k := 0 to MAX_OPTIONS
        invariant optNum == CountedTags(all, k) && totalLen == Low16(Start(all, k))
        invariant forall t: byte :: t < k ==> index[t] == LaidIndex(all, t) && offset[t] == LaidOffset(all, t)
        invariant forall t: byte :: k <= t ==> index[t] == 0 && offset[t] == Low16(|TagData(all, t)|)
      {
        LayoutStep(all, k);
        if offset[k] != 0 {
          index[k] := optNum % 256;
          totalLen := Low16(totalLen + offset[k]);
          offset[k] := Low16(totalLen - offset[k]);
          optNum := optNum + 1;
        }
      }
    }
  }

  lemma {:induction false} LayoutStart(all: seq<Opt>)
    ensures CountedTags(all, 0) == 0 && Low16(Start(all, 0)) == 0
  {
  }

  /** One round of the prefix-sum loop, whatever wraps. */
  lemma {:induction false} LayoutStep(all: seq<Opt>, k: byte)
    ensures var len, total := Low16(|TagData(all, k)|), Low16(Low16(Start(all, k)) + Low16(|TagData(all, k)|));
            && CountedTags(all, k) <= k
            && CountedTags(all, k + 1) == CountedTags(all, k) + (if len == 0 then 0 else 1)
            && Low16(Start(all, k + 1)) == total
            && LaidIndex(all, k) == (if len == 0 then 0 else CountedTags(all, k))
            && LaidOffset(all, k) == (if len == 0 then 0 else Low16(total - len))
            && (len == 0 ==> total == Low16(Start(all, k)))
  {
    hide TagData, Low16;
    var s, n := Start(all, k), |TagData(all, k)|;
    CountedAtMost(all, k);
    Low16Add(s, n);
    Low16Add(n, Low16(s));
    Low16Add(s + n, -(Low16(n) as int));
    Low16Cancel(s, n);
    Low16Add(s, 0);
  }

  lemma {:induction false} Low16Cancel(s: int, n: int)
    ensures Low16(s + n - Low16(n)) == Low16(s)
  {
    assert n - n % 0x1_0000 == 0x1_0000 * (n / 0x1_0000);
    assert (s + 0x1_0000 * (n / 0x1_0000)) % 0x1_0000 == s % 0x1_0000;
  }

  /** One round of the cursor loop. */
  lemma {:induction false} ScanAt(b: seq<byte>, cur: nat, track: bool, overload: byte)
    requires cur <= |b|
    ensures var here := ScanBuffer(b[cur..], track, overload);
            if cur == |b| then here == Malformed
            else if b[cur] == TAG_PAD then here == ScanBuffer(b[cur + 1..], track, overload)
            else if b[cur] == TAG_EOP then here == Scanned([], overload)
            else if cur + 1 == |b| || cur + 2 + b[cur + 1] > |b| then here == Malformed
            else if b[cur] == TAG_OVERLOAD && track && b[cur + 1] != 1 then here == Malformed
            else here == ScanBuffer(b[cur + 2 + b[cur + 1]..], track,
                                    if b[cur] == TAG_OVERLOAD && track then b[cur + 2] else overload)
                         .After([Opt(b[cur], b[cur + 2..cur + 2 + b[cur + 1]])])
  {
    var rest := b[cur..];
    if rest != [] {
      assert rest[1..] == b[cur + 1..];
      if |rest| > 1 && 2 + rest[1] <= |rest| {
        assert rest[2 + rest[1]..] == b[cur + 2 + b[cur + 1]..];
        assert rest[2..2 + rest[1]] == b[cur + 2..cur + 2 + b[cur + 1]];
      }
    }
  }

  lemma {:induction false} AfterTwice(s: Scan, a: seq<Opt>, b: seq<Opt>)
    ensures s.After(a).After(b) == s.After(b + a)
  {
    if s.Scanned? {
      assert b + (a + s.opts) == b + a + s.opts;
    }
  }

  lemma {:induction false} NextExpected(check: Check, all: seq<Opt>, done: seq<Opt>, seen: seq<Opt>, o: Opt, tail: Scan)
    requires Expected(check, all, done, tail.After(seen + [o]))
    ensures check.FillData? ==> done + seen + [o] <= all
  {
    if check.FillData? {
      assert done + (seen + [o] + tail.opts) == done + seen + [o] + tail.opts;
    }
  }

  lemma {:induction false} NothingSeen()
    ensures forall t: byte :: TagData([], t) == []
  {
  }

  // ---------- The whole parse ----------

  /** The zeroed entries and buffer that the second pass starts from. */
  lemma {:induction false} FillStart(all: seq<Opt>, tb: Table)
    requires Counters(tb) && Placed(all, [], tb) && DataSize(all) < 0x1_0000
    requires |tb.slots| == Rank(all, MAX_OPTIONS) && |tb.buf| == Start(all, MAX_OPTIONS)
    requires forall r :: 0 <= r < |tb.slots| ==> tb.slots[r] == Slot(0, 0, None)
    ensures Filled(all, [], tb)
  {
    hide Start, Rank;
    NothingSeen();
    forall t: byte
      ensures TagData(all, t) != [] ==> Rank(all, t) < |tb.slots| && tb.slots[Rank(all, t)] == SlotFor(all, [], t)
      ensures SegmentFilled(all, [], tb.buf, t)
    {
      RankMonotone(all, t, MAX_OPTIONS);
    }
  }

  /** The option that gives an entry its data also claims it, unless an empty option did so before. */
  lemma {:induction false} Claimed(all: seq<Opt>, done: seq<Opt>, t: byte)
    requires TagData(all, t) != []
    requires TagData(done, t) != []
    ensures var c := Claimant(all, done, Rank(all, t));
            c.Some? && (c.value == t || (Rank(all, t) == 0 && TagData(all, c.value) == []))
  {
    var before, o := done[..|done| - 1], done[|done| - 1];
    var c := Claimant(all, before, Rank(all, t));
    if c.Some? {
      ClaimantIsOneOf(all, before, Rank(all, t));
      if TagData(all, c.value) != [] {
        RankSeparates(all, c.value, t);
      }
    } else {
      UnclaimedUnseen(all, before, t);
      assert o.tag == t;
    }
  }

  lemma {:induction false} ClaimantIsOneOf(all: seq<Opt>, done: seq<Opt>, r: nat)
    ensures var c := Claimant(all, done, r);
            c.Some? ==> IndexOf(all, c.value) == r && exists i :: 0 <= i < |done| && done[i].tag == c.value
  {
    if done != [] {
      var before := done[..|done| - 1];
      ClaimantIsOneOf(all, before, r);
      var c := Claimant(all, before, r);
      if c.Some? {
        var i :| 0 <= i < |before| && before[i].tag == c.value;
        assert done[i].tag == c.value;
      } else {
        assert done[|done| - 1] == done[|done| - 1];
      }
    }
  }

  lemma {:induction false} ReadBackEntry(all: seq<Opt>, tb: Table, r: nat)
    requires Filled(all, all, tb) && r < |tb.slots|
    ensures |Parsed(all)| == |tb.slots| && Entry(tb, r) == Parsed(all)[r]
  {
    hide TagData, Start, Rank, Claimant, Merged;
    MergedSize(all, MAX_OPTIONS);
    MergedEntry(all, MAX_OPTIONS, r);
    var t := Merged(all, MAX_OPTIONS)[r].tag;
    Claimed(all, all, t);
    assert tb.slots[Rank(all, t)] == SlotFor(all, all, t);
    assert SegmentFilled(all, all, tb.buf, t);
  }

  lemma {:induction false} ReadBack(all: seq<Opt>, tb: Table)
    requires Filled(all, all, tb)
    ensures Entries(tb) == Parsed(all)
  {
    hide Filled, Parsed, Merged, Rank, Entry;
    assert |tb.slots| == |Parsed(all)| by {
      ParsedSize(all, tb);
    }
    forall r | 0 <= r < |tb.slots| ensures Entries(tb)[r] == Parsed(all)[r] {
      ReadBackEntry(all, tb, r);
    }
  }

  lemma {:induction false} ParsedSize(all: seq<Opt>, tb: Table)
    requires Filled(all, all, tb)
    ensures |tb.slots| == |Parsed(all)|
  {
    MergedSize(all, MAX_OPTIONS);
  }

  /**
   DhcpParseOption. The two allocations may fail, so whether they succeed is a
   parameter. `Fits` is what the UINT16 counters ask of a packet.
   */
  method ParseOption(p: Packet, countersAllocated: bool, entriesAllocated: bool)
    returns (status: Status, count: nat, entries: Option<seq<Opt>>)
    requires p.Valid()
    requires PacketOptions(p).Some? ==> Fits(PacketOptions(p).value)
    ensures !countersAllocated ==> status == OutOfResources
    ensures countersAllocated && PacketOptions(p).None? ==> status == InvalidParameter
    ensures countersAllocated && PacketOptions(p).Some? ==>
              var found := Returned(PacketOptions(p).value);
              && count == |found|
              && (count == 0 ==> status == Success && entries == None)
              && (count > 0 && !entriesAllocated ==> status == OutOfResources)
              && (count > 0 && entriesAllocated ==> status == Success && entries == Some(found))
  {
    hide TagData, Start, CountedTags, Rank, Merged, Parsed, Filled, Counted, LaidIndex, LaidOffset, Low16, DataSize, Fits, Returned;
    count, entries := 0, None;
    if !countersAllocated {
      return OutOfResources, count, entries;
    }
    var ctx := new Context();
    ghost var opts := if PacketOptions(p).Some? then PacketOptions(p).value else [];
    status := ctx.IterateOptions(p, CountLength, opts);
    if status != Success {
      return;
    }
    var totalLen;
    count, totalLen := ctx.AssignOffsets(opts);
    ReturnedCount(opts);
    if count == 0 {
      return;
    }
    if !entriesAllocated {
      return OutOfResources, count, entries;
    }
    ctx.slots := new Slot[count](_ => Slot(0, 0, None));
    ctx.buf := new byte[totalLen](_ => 0);
    LaidPlaced(opts, ctx.Value());
    FillStart(opts, ctx.Value());
    status := ctx.IterateOptions(p, FillData, opts);
    ReadBack(opts, ctx.Value());
    entries := Some(Entries(ctx.Value()));
  }

  /** What the call returns: all counters at zero means that no entry is found. */
  function Returned(opts: seq<Opt>): seq<Opt> {
    if DataSize(opts) < 0x1_0000 then Parsed(opts) else []
  }

  lemma {:induction false} ReturnedCount(opts: seq<Opt>)
    requires Fits(opts)
    ensures |Returned(opts)| == CountedTags(opts, MAX_OPTIONS)
    ensures CountedTags(opts, MAX_OPTIONS) > 0 ==> DataSize(opts) < 0x1_0000 && Returned(opts) == Parsed(opts)
    ensures DataSize(opts) < 0x1_0000 ==>
              CountedTags(opts, MAX_OPTIONS) == Rank(opts, MAX_OPTIONS)
              && Low16(Start(opts, MAX_OPTIONS)) == Start(opts, MAX_OPTIONS)
  {
    hide Merged, Rank, CountedTags, Start, TagData, Claimant, Low16;
    MergedSize(opts, MAX_OPTIONS);
    if DataSize(opts) < 0x1_0000 {
      CountedIsRank(opts, MAX_OPTIONS);
      SegmentsCoverData(opts);
      Low16Small(Start(opts, MAX_OPTIONS));
    } else {
      NoneCounted(opts, MAX_OPTIONS);
    }
  }

  // ---------- When the parse is the plain concatenation ----------

  /** The option at `i` carries no data under its tag, and precedes every option of the lowest tag that does. */
  ghost predicate StrayAt(opts: seq<Opt>, i: int) {
    && 0 <= i < |opts| && TagData(opts, opts[i].tag) == []
    && Merged(opts, MAX_OPTIONS) != []
    && forall j :: 0 <= j < i ==> opts[j].tag != Merged(opts, MAX_OPTIONS)[0].tag
  }

  ghost predicate Stray(opts: seq<Opt>) {
    exists i :: StrayAt(opts, i)
  }

  /** While neither an empty option nor the lowest tag has come by, entry 0 is unclaimed. */
  lemma {:induction false} UnclaimedWhile(all: seq<Opt>, done: seq<Opt>, low: byte)
    requires TagData(all, low) != [] && Rank(all, low) == 0
    requires forall j :: 0 <= j < |done| ==> done[j].tag != low && TagData(all, done[j].tag) != []
    ensures Claimant(all, done, 0).None?
  {
    if done != [] {
      hide TagData, Rank;
      UnclaimedWhile(all, done[..|done| - 1], low);
      RankSeparates(all, done[|done| - 1].tag, low);
    }
  }

  /** The first option to claim entry 0 keeps it. */
  lemma {:induction false} ClaimantAt(all: seq<Opt>, done: seq<Opt>, i: nat)
    requires i < |done| && Claimant(all, done[..i], 0).None? && IndexOf(all, done[i].tag) == 0
    ensures Claimant(all, done, 0) == Some(done[i].tag)
  {
    var before := done[..|done| - 1];
    if i == |done| - 1 {
    } else {
      assert before[..i] == done[..i];
      ClaimantAt(all, before, i);
    }
  }

  /**
   The counting parse refines concatenation: it returns one entry per tag with
   data, ascending, each the concatenation of its occurrences, exactly when no
   empty option precedes the lowest such tag. Otherwise that option's tag ends
   up on entry 0 and nothing else changes; of several, the first.
   */
  lemma {:induction false} ParseIsConcatenation(opts: seq<Opt>)
    ensures Parsed(opts) == Merged(opts, MAX_OPTIONS) <==> !Stray(opts)
    ensures |Parsed(opts)| == |Merged(opts, MAX_OPTIONS)|
    ensures forall r :: 0 <= r < |Parsed(opts)| ==> Parsed(opts)[r].data == Merged(opts, MAX_OPTIONS)[r].data
    ensures forall r :: 0 < r < |Parsed(opts)| ==> Parsed(opts)[r] == Merged(opts, MAX_OPTIONS)[r]
    ensures Stray(opts) ==> TagData(opts, Parsed(opts)[0].tag) == []
    ensures forall i :: StrayAt(opts, i) && (forall j :: 0 <= j < i ==> !StrayAt(opts, j)) ==>
              Parsed(opts)[0].tag == opts[i].tag
  {
    hide TagData, Rank, Merged, Claimant;
    var m := Merged(opts, MAX_OPTIONS);
    if m != [] {
      MergedEntry(opts, MAX_OPTIONS, 0);
      var low := m[0].tag;
      Claimed(opts, opts, low);
      var i := FirstClaim(opts, low);
      UnclaimedWhile(opts, opts[..i], low);
      ClaimantAt(opts, opts, i);
      if TagData(opts, opts[i].tag) == [] {
        assert StrayAt(opts, i);
      } else if k :| StrayAt(opts, k) {
        assert false;
      }
    }
  }

  /** Data under a tag comes from an option with that tag. */
  lemma {:induction false} DataOccurs(opts: seq<Opt>, t: byte) returns (k: nat)
    requires TagData(opts, t) != []
    ensures k < |opts| && opts[k].tag == t
  {
    k := |opts| - 1;
    if opts[k].tag != t {
      k := DataOccurs(opts[..k], t);
    }
  }

  /** The first option that is empty under its tag or has tag `low`. */
  lemma {:induction false} FirstClaim(opts: seq<Opt>, low: byte) returns (i: nat)
    requires TagData(opts, low) != []
    ensures i < |opts| && (opts[i].tag == low || TagData(opts, opts[i].tag) == [])
    ensures forall j :: 0 <= j < i ==> opts[j].tag != low && TagData(opts, opts[j].tag) != []
  {
    hide TagData;
    var k := DataOccurs(opts, low);
    i := 0;
    while opts[i].tag != low && TagData(opts, opts[i].tag) != []
      invariant i <= k
      invariant forall j :: 0 <= j < i ==> opts[j].tag != low && TagData(opts, opts[j].tag) != []
      decreases k - i
    {
      i := i + 1;
    }
  }

  /** No two entries of a parse share a tag, whatever empty options do. */
  lemma {:induction false} ParsedTagsDistinct(opts: seq<Opt>, r: nat, s: nat)
    requires r < s < |Parsed(opts)|
    ensures Parsed(opts)[r].tag != Parsed(opts)[s].tag
  {
    hide Parsed, Merged, TagData;
    ParseIsConcatenation(opts);
    MergedEntry(opts, MAX_OPTIONS, s);
    MergedAscending(opts, r, s);
  }
}
