/**
 Merging the occurrences of each option (RFC 3396): the plain concatenation that
 a parse is meant to return, and the key indexed counting layout that computes it.
 */
module DhcpMerge {
  import opened Bytes
  import opened DhcpOption

  // ---------- The reference: concatenate, in scan order, per tag ----------

  function TagData(opts: seq<Opt>, t: byte): seq<byte> {
    if opts == [] then []
    else
      var last := opts[|opts| - 1];
      TagData(opts[..|opts| - 1], t) + if last.tag == t then last.data else []
  }

  /** The options with tags below `t` that carry data, one entry per tag, ascending. */
  function Merged(opts: seq<Opt>, t: nat): seq<Opt>
    requires t <= MAX_OPTIONS
  {
    if t == 0 then []
    else if TagData(opts, t - 1) == [] then Merged(opts, t - 1)
    else Merged(opts, t - 1) + [Opt(t - 1, TagData(opts, t - 1))]
  }

  // ---------- The layout: where each tag's data and entry go ----------

  /** Octets of data with tags below `t`. */
  function Start(opts: seq<Opt>, t: nat): nat
    requires t <= MAX_OPTIONS
  {
    if t == 0 then 0 else Start(opts, t - 1) + |TagData(opts, t - 1)|
  }

  /** Number of tags below `t` that carry data. */
  function Rank(opts: seq<Opt>, t: nat): nat
    requires t <= MAX_OPTIONS
  {
    if t == 0 then 0 else Rank(opts, t - 1) + if TagData(opts, t - 1) == [] then 0 else 1
  }

  /** The entry that the counting pass assigns: tags without any data keep index 0. */
  function IndexOf(opts: seq<Opt>, t: byte): nat {
    if TagData(opts, t) == [] then 0 else Rank(opts, t)
  }

  function OffsetOf(opts: seq<Opt>, t: byte): nat {
    if TagData(opts, t) == [] then 0 else Start(opts, t)
  }

  /** The first tag of `done` whose options land in entry `r`: it names the entry. */
  function Claimant(all: seq<Opt>, done: seq<Opt>, r: nat): Option<byte> {
    if done == [] then None
    else
      var earlier := Claimant(all, done[..|done| - 1], r);
      if earlier.Some? then earlier
      else if IndexOf(all, done[|done| - 1].tag) == r then Some(done[|done| - 1].tag)
      else None
  }

  /** What the parser returns: the merged options, with entry 0 named by its claimant. */
  function Parsed(opts: seq<Opt>): seq<Opt> {
    var m := Merged(opts, MAX_OPTIONS);
    var c := Claimant(opts, opts, 0);
    if m == [] || c.None? then m else m[0 := Opt(c.value, m[0].data)]
  }

  // ---------- Facts about the reference ----------

  lemma {:induction false} TagDataAppend(a: seq<Opt>, b: seq<Opt>, t: byte)
    ensures TagData(a + b, t) == TagData(a, t) + TagData(b, t)
  {
    if b == [] {
      assert a + b == a;
    } else {
      assert (a + b)[..|a + b| - 1] == a + b[..|b| - 1];
      TagDataAppend(a, b[..|b| - 1], t);
    }
  }

  lemma {:induction false} TagDataPrefix(done: seq<Opt>, all: seq<Opt>, t: byte)
    requires done <= all
    ensures TagData(done, t) <= TagData(all, t)
  {
    assert all == done + all[|done|..];
    TagDataAppend(done, all[|done|..], t);
  }

  lemma {:induction false} MergedSize(opts: seq<Opt>, t: nat)
    requires t <= MAX_OPTIONS
    ensures |Merged(opts, t)| == Rank(opts, t) <= t
  {
    if t > 0 {
      MergedSize(opts, t - 1);
    }
  }

  lemma {:induction false} RankMonotone(opts: seq<Opt>, t: nat, u: nat)
    requires t <= u <= MAX_OPTIONS
    ensures Rank(opts, t) <= Rank(opts, u)
    ensures t < u && TagData(opts, t) != [] ==> Rank(opts, t) < Rank(opts, u)
    ensures Start(opts, t) <= Start(opts, u)
    ensures t < u ==> Start(opts, t) + |TagData(opts, t)| <= Start(opts, u)
    decreases u
  {
    if t < u {
      RankMonotone(opts, t, u - 1);
    }
  }

  /** Each tag with data has its entry, at its rank. */
  lemma {:induction false} MergedAt(opts: seq<Opt>, t: byte, u: nat)
    requires t < u <= MAX_OPTIONS && TagData(opts, t) != []
    ensures Rank(opts, t) < |Merged(opts, u)|
    ensures Merged(opts, u)[Rank(opts, t)] == Opt(t, TagData(opts, t))
    decreases u
  {
    hide TagData;
    MergedSize(opts, u - 1);
    if t < u - 1 {
      MergedAt(opts, t, u - 1);
    }
  }

  /** Every entry belongs to a tag with data. */
  lemma {:induction false} MergedEntry(opts: seq<Opt>, t: nat, r: nat)
    requires t <= MAX_OPTIONS && r < |Merged(opts, t)|
    ensures var e := Merged(opts, t)[r];
            e.tag < t && e.data == TagData(opts, e.tag) != [] && Rank(opts, e.tag) == r
  {
    hide TagData;
    var shorter := Merged(opts, t - 1);
    MergedSize(opts, t - 1);
    if r < |shorter| {
      MergedEntry(opts, t - 1, r);
      assert Merged(opts, t)[r] == shorter[r];
    } else {
      assert Merged(opts, t)[r] == Opt(t - 1, TagData(opts, t - 1));
    }
  }

  /** The merged options are strictly ascending by tag: one entry per tag. */
  lemma {:induction false} MergedAscending(opts: seq<Opt>, q: nat, r: nat)
    requires q < r < |Merged(opts, MAX_OPTIONS)|
    ensures Merged(opts, MAX_OPTIONS)[q].tag < Merged(opts, MAX_OPTIONS)[r].tag
  {
    var m := Merged(opts, MAX_OPTIONS);
    MergedEntry(opts, MAX_OPTIONS, q);
    MergedEntry(opts, MAX_OPTIONS, r);
    if m[r].tag <= m[q].tag {
      RankMonotone(opts, m[r].tag, m[q].tag);
    }
  }

  lemma {:induction false} StartAfter(done: seq<Opt>, o: Opt, t: nat)
    requires t <= MAX_OPTIONS
    ensures Start(done + [o], t) == Start(done, t) + if o.tag < t then |o.data| else 0
  {
    assert (done + [o])[..|done|] == done;
    if t > 0 {
      StartAfter(done, o, t - 1);
    }
  }

  /** The segments of all 256 tags together hold exactly the data of the packet. */
  lemma {:induction false} SegmentsCoverData(opts: seq<Opt>)
    ensures Start(opts, MAX_OPTIONS) == DataSize(opts)
  {
    if opts == [] {
      StartEmpty(MAX_OPTIONS);
    } else {
      var done, o := opts[..|opts| - 1], opts[|opts| - 1];
      assert opts == done + [o];
      SegmentsCoverData(done);
      StartAfter(done, o, MAX_OPTIONS);
    }
  }

  lemma {:induction false} StartEmpty(t: nat)
    requires t <= MAX_OPTIONS
    ensures Start([], t) == 0
  {
    if t > 0 {
      StartEmpty(t - 1);
    }
  }

  // ---------- The two passes as functions of a table ----------

  /** DHCP_OPTION: `data` is an offset into the value buffer, None the null pointer. */
  datatype Slot = Slot(tag: byte, len: nat, data: Option<nat>)

  /** OptCount as two columns, the entry array, and the value buffer. */
  datatype Table = Table(index: seq<byte>, offset: seq<nat>, slots: seq<Slot>, buf: seq<byte>)

  predicate Counters(tb: Table) {
    |tb.index| == MAX_OPTIONS && |tb.offset| == MAX_OPTIONS
  }

  /** DhcpGetOptionLen. */
  function CountOne(tb: Table, o: Opt): Table
    requires Counters(tb)
  {
    tb.(offset := tb.offset[o.tag := Low16(tb.offset[o.tag] + |o.data|)])
  }

  // ---------- The prefix sums, in 16 bits ----------

  /** Number of tags below `t` whose counter is not zero. */
  function CountedTags(opts: seq<Opt>, t: nat): nat
    requires t <= MAX_OPTIONS
  {
    if t == 0 then 0 else CountedTags(opts, t - 1) + if Low16(|TagData(opts, t - 1)|) == 0 then 0 else 1
  }

  ghost function LaidIndex(opts: seq<Opt>, t: byte): nat {
    if Low16(|TagData(opts, t)|) == 0 then 0 else CountedTags(opts, t)
  }

  ghost function LaidOffset(opts: seq<Opt>, t: byte): nat {
    if Low16(|TagData(opts, t)|) == 0 then 0 else Low16(Start(opts, t))
  }

  /** What the prefix-sum loop leaves in the counters. */
  ghost predicate Laid(opts: seq<Opt>, tb: Table) {
    Counters(tb) && forall t: byte :: tb.index[t] == LaidIndex(opts, t) && tb.offset[t] == LaidOffset(opts, t)
  }

  /** No counter shows any data: every tag carries a multiple of 65536 octets. */
  ghost predicate Uncounted(opts: seq<Opt>) {
    forall t: byte :: Low16(|TagData(opts, t)|) == 0
  }

  /** The counters hold what the packet carries, or show nothing at all. */
  ghost predicate Fits(opts: seq<Opt>) {
    DataSize(opts) < 0x1_0000 || Uncounted(opts)
  }

  lemma {:induction false} CountedAtMost(opts: seq<Opt>, t: nat)
    requires t <= MAX_OPTIONS
    ensures CountedTags(opts, t) <= t
  {
    if t > 0 {
      CountedAtMost(opts, t - 1);
    }
  }

  lemma {:induction false} NoneCounted(opts: seq<Opt>, t: nat)
    requires t <= MAX_OPTIONS && Uncounted(opts)
    ensures CountedTags(opts, t) == 0
  {
    if t > 0 {
      hide TagData, Low16;
      NoneCounted(opts, t - 1);
      var u: byte := t - 1;
      assert Low16(|TagData(opts, u)|) == 0;
    }
  }

  /** No tag carries more than the whole packet. */
  lemma {:induction false} TagDataBounded(opts: seq<Opt>, t: byte)
    ensures Start(opts, t) + |TagData(opts, t)| <= DataSize(opts)
  {
    hide TagData, Start;
    SegmentsCoverData(opts);
    RankMonotone(opts, t, MAX_OPTIONS);
  }

  /** Below 65536 octets the counters are exact. */
  lemma {:induction false} CountersExact(opts: seq<Opt>, t: byte)
    requires DataSize(opts) < 0x1_0000
    ensures Low16(|TagData(opts, t)|) == |TagData(opts, t)| && Low16(Start(opts, t)) == Start(opts, t)
  {
    hide TagData, Start, Low16;
    TagDataBounded(opts, t);
    Low16Small(|TagData(opts, t)|);
    Low16Small(Start(opts, t));
  }

  lemma {:induction false} CountedIsRank(opts: seq<Opt>, t: nat)
    requires t <= MAX_OPTIONS && DataSize(opts) < 0x1_0000
    ensures CountedTags(opts, t) == Rank(opts, t)
  {
    if t > 0 {
      hide TagData, Low16, DataSize;
      CountedIsRank(opts, t - 1);
      CountersExact(opts, t - 1);
    }
  }

  lemma {:induction false} LaidPlaced(opts: seq<Opt>, tb: Table)
    requires Laid(opts, tb) && DataSize(opts) < 0x1_0000
    ensures Placed(opts, [], tb)
  {
    hide TagData, Low16, DataSize, Start, Rank, CountedTags;
    forall t: byte
      ensures tb.index[t] == IndexOf(opts, t) && tb.offset[t] == OffsetOf(opts, t) + |TagData([], t)|
    {
      CountersExact(opts, t);
      CountedIsRank(opts, t);
      NothingOf(t);
      assert tb.index[t] == LaidIndex(opts, t) && tb.offset[t] == LaidOffset(opts, t);
    }
  }

  lemma {:induction false} NothingOf(t: byte)
    ensures TagData([], t) == []
  {
  }

  /** The memory that DhcpFillOption touches exists. */
  predicate FillSafe(tb: Table, o: Opt) {
    Counters(tb) && tb.index[o.tag] < |tb.slots| && tb.offset[o.tag] + |o.data| <= |tb.buf|
  }

  /** DhcpFillOption. */
  function FillOne(tb: Table, o: Opt): Table
    requires FillSafe(tb, o)
  {
    var i, at := tb.index[o.tag], tb.offset[o.tag];
    var s := if tb.slots[i].data.None? then Slot(o.tag, tb.slots[i].len, Some(at)) else tb.slots[i];
    Table(tb.index,
          tb.offset[o.tag := Low16(at + |o.data|)],
          tb.slots[i := s.(len := Low16(s.len + |o.data|))],
          Overwrite(tb.buf, at, o.data))
  }

  // ---------- What holds after each pass has handled `done` ----------

  ghost predicate Counted(done: seq<Opt>, tb: Table) {
    && Counters(tb)
    && forall t: byte :: tb.offset[t] == Low16(|TagData(done, t)|)
  }

  ghost predicate Sized(all: seq<Opt>, tb: Table) {
    && Counters(tb)
    && DataSize(all) < 0x1_0000
    && |tb.slots| == Rank(all, MAX_OPTIONS)
    && |tb.buf| == Start(all, MAX_OPTIONS)
  }

  ghost predicate Placed(all: seq<Opt>, done: seq<Opt>, tb: Table)
    requires Counters(tb)
  {
    forall t: byte ::
      && tb.index[t] == IndexOf(all, t)
      && tb.offset[t] == OffsetOf(all, t) + |TagData(done, t)|
  }

  ghost function SlotFor(all: seq<Opt>, done: seq<Opt>, t: byte): Slot {
    var c := Claimant(all, done, Rank(all, t));
    Slot(if c.Some? then c.value else 0, |TagData(done, t)|, if c.Some? then Some(Start(all, t)) else None)
  }

  ghost predicate SlotsFilled(all: seq<Opt>, done: seq<Opt>, slots: seq<Slot>) {
    forall t: byte :: TagData(all, t) != [] ==>
      Rank(all, t) < |slots| && slots[Rank(all, t)] == SlotFor(all, done, t)
  }

  ghost predicate SegmentFilled(all: seq<Opt>, done: seq<Opt>, buf: seq<byte>, t: byte) {
    && Start(all, t) + |TagData(done, t)| <= |buf|
    && buf[Start(all, t)..Start(all, t) + |TagData(done, t)|] == TagData(done, t)
  }

  ghost predicate SegmentsFilled(all: seq<Opt>, done: seq<Opt>, buf: seq<byte>) {
    forall t: byte :: SegmentFilled(all, done, buf, t)
  }

  ghost predicate Filled(all: seq<Opt>, done: seq<Opt>, tb: Table) {
    && Sized(all, tb)
    && Placed(all, done, tb)
    && SlotsFilled(all, done, tb.slots)
    && SegmentsFilled(all, done, tb.buf)
  }

  // ---------- The passes keep those facts ----------

  lemma {:induction false} CountStep(done: seq<Opt>, o: Opt, tb: Table)
    requires Counted(done, tb)
    ensures Counted(done + [o], CountOne(tb, o))
  {
    hide TagData, Low16;
    forall t: byte
      ensures CountOne(tb, o).offset[t] == Low16(|TagData(done + [o], t)|)
    {
      TagDataLast(done, o, t);
      Low16Add(|TagData(done, t)|, |o.data|);
      assert tb.offset[t] == Low16(|TagData(done, t)|);
    }
  }

  lemma {:induction false} TagDataLast(done: seq<Opt>, o: Opt, t: byte)
    ensures TagData(done + [o], t) == TagData(done, t) + if o.tag == t then o.data else []
  {
    assert (done + [o])[..|done|] == done;
  }

  lemma {:induction false} OneOption(o: Opt, u: byte)
    ensures TagData([o], u) == if o.tag == u then o.data else []
  {
    assert [o] == [] + [o];
    TagDataLast([], o, u);
  }

  /** One more option fits where the layout puts it. */
  lemma {:induction false} FillStepSafe(all: seq<Opt>, done: seq<Opt>, o: Opt, tb: Table)
    requires Filled(all, done, tb) && done + [o] <= all
    requires |tb.slots| > 0
    ensures FillSafe(tb, o)
    ensures TagData(all, o.tag) == [] ==> o.data == []
    ensures tb.offset[o.tag] + |o.data| <= Start(all, MAX_OPTIONS) < 0x1_0000
  {
    TagDataLast(done, o, o.tag);
    TagDataPrefix(done + [o], all, o.tag);
    SegmentsCoverData(all);
    RankMonotone(all, o.tag, MAX_OPTIONS);
    assert tb.offset[o.tag] == OffsetOf(all, o.tag) + |TagData(done, o.tag)|;
    assert tb.index[o.tag] == IndexOf(all, o.tag);
  }

  lemma {:induction false} FillKeepsPlaced(all: seq<Opt>, done: seq<Opt>, o: Opt, tb: Table)
    requires Filled(all, done, tb) && done + [o] <= all && |tb.slots| > 0
    ensures FillSafe(tb, o) && Placed(all, done + [o], FillOne(tb, o))
  {
    hide TagData, Start, Rank, Claimant;
    FillStepSafe(all, done, o, tb);
    var tb' := FillOne(tb, o);
    forall t: byte
      ensures tb'.index[t] == IndexOf(all, t)
      ensures tb'.offset[t] == OffsetOf(all, t) + |TagData(done + [o], t)|
    {
      TagDataLast(done, o, t);
      assert tb.index[t] == IndexOf(all, t);
      assert tb.offset[t] == OffsetOf(all, t) + |TagData(done, t)|;
    }
  }

  lemma {:induction false} ClaimantLast(all: seq<Opt>, done: seq<Opt>, o: Opt, r: nat)
    ensures Claimant(all, done + [o], r) ==
            if Claimant(all, done, r).Some? then Claimant(all, done, r)
            else if IndexOf(all, o.tag) == r then Some(o.tag) else None
  {
    assert (done + [o])[..|done|] == done;
  }

  lemma {:induction false} RankSeparates(opts: seq<Opt>, t: byte, u: byte)
    requires TagData(opts, t) != [] && TagData(opts, u) != []
    ensures Rank(opts, t) == Rank(opts, u) ==> t == u
  {
    if t < u {
      RankMonotone(opts, t, u);
    } else if u < t {
      RankMonotone(opts, u, t);
    }
  }

  /** Entry 0 always starts at offset 0, whichever tag claims it. */
  lemma {:induction false} FirstSegmentAtZero(opts: seq<Opt>, t: nat)
    requires t <= MAX_OPTIONS
    ensures Rank(opts, t) == 0 ==> Start(opts, t) == 0
  {
    if t > 0 {
      FirstSegmentAtZero(opts, t - 1);
    }
  }

  /** Nothing claimed a tag's entry yet, so none of its data was seen. */
  lemma {:induction false} UnclaimedUnseen(all: seq<Opt>, done: seq<Opt>, t: byte)
    requires Claimant(all, done, IndexOf(all, t)).None?
    ensures TagData(done, t) == []
  {
    if done != [] {
      UnclaimedUnseen(all, done[..|done| - 1], t);
    }
  }

  lemma {:induction false} FillKeepsSlot(all: seq<Opt>, done: seq<Opt>, o: Opt, tb: Table, t: byte)
    requires Filled(all, done, tb) && done + [o] <= all && |tb.slots| > 0
    requires TagData(all, t) != []
    ensures FillSafe(tb, o)
    ensures Rank(all, t) < |FillOne(tb, o).slots|
    ensures FillOne(tb, o).slots[Rank(all, t)] == SlotFor(all, done + [o], t)
  {
    hide TagData, Start, Rank, Claimant;
    FillStepSafe(all, done, o, tb);
    TagDataLast(done, o, t);
    TagDataPrefix(done + [o], all, t);
    ClaimantLast(all, done, o, Rank(all, t));
    RankMonotone(all, t, MAX_OPTIONS);
    SegmentsCoverData(all);
    assert tb.index[o.tag] == IndexOf(all, o.tag);
    assert tb.offset[o.tag] == OffsetOf(all, o.tag) + |TagData(done, o.tag)|;
    assert tb.slots[Rank(all, t)] == SlotFor(all, done, t);
    FirstSegmentAtZero(all, t);
    if Claimant(all, done, Rank(all, t)).None? && IndexOf(all, o.tag) == Rank(all, t) {
      UnclaimedUnseen(all, done, o.tag);
    }
    if TagData(all, o.tag) != [] {
      RankSeparates(all, t, o.tag);
    }
  }

  lemma {:induction false} SegmentsApart(all: seq<Opt>, done: seq<Opt>, t: byte, u: byte)
    requires done <= all && t != u
    ensures || Start(all, t) + |TagData(done, t)| <= Start(all, u)
            || Start(all, u) + |TagData(all, u)| <= Start(all, t)
  {
    TagDataPrefix(done, all, t);
    if t < u {
      RankMonotone(all, t, u);
    } else {
      RankMonotone(all, u, t);
    }
  }

  /** The buffer after `data` is copied to offset `at`. */
  function Overwrite(buf: seq<byte>, at: nat, data: seq<byte>): (r: seq<byte>)
    requires at + |data| <= |buf|
    ensures |r| == |buf|
  {
    buf[..at] + data + buf[at + |data|..]
  }

  lemma {:induction false} WriteExtends(buf: seq<byte>, from: nat, at: nat, data: seq<byte>)
    requires from <= at && at + |data| <= |buf|
    ensures Overwrite(buf, at, data)[from..at + |data|] == buf[from..at] + data
  {
  }

  lemma {:induction false} WriteElsewhere(buf: seq<byte>, at: nat, data: seq<byte>, from: nat, to: nat)
    requires from <= to <= |buf| && at + |data| <= |buf|
    requires to <= at || at + |data| <= from || from == to || data == []
    ensures Overwrite(buf, at, data)[from..to] == buf[from..to]
  {
    if data == [] {
      assert Overwrite(buf, at, data) == buf;
    }
  }

  lemma {:induction false} FillKeepsSegment(all: seq<Opt>, done: seq<Opt>, o: Opt, tb: Table, t: byte)
    requires Filled(all, done, tb) && done + [o] <= all && |tb.slots| > 0
    ensures FillSafe(tb, o)
    ensures SegmentFilled(all, done + [o], FillOne(tb, o).buf, t)
  {
    hide TagData, Start, Rank, Claimant, Overwrite;
    FillStepSafe(all, done, o, tb);
    var at := tb.offset[o.tag];
    assert at == OffsetOf(all, o.tag) + |TagData(done, o.tag)|;
    TagDataLast(done, o, t);
    TagDataLast(done, o, o.tag);
    TagDataPrefix(done + [o], all, o.tag);
    assert done == (done + [o])[..|done|];
    assert done <= all;
    var buf' := FillOne(tb, o).buf;
    assert SegmentFilled(all, done, tb.buf, t);
    if t == o.tag && o.data != [] {
      WriteExtends(tb.buf, Start(all, t), at, o.data);
    } else {
      if t != o.tag {
        SegmentsApart(all, done, t, o.tag);
      }
      WriteElsewhere(tb.buf, at, o.data, Start(all, t), Start(all, t) + |TagData(done, t)|);
    }
  }

  /** Every option of the second pass lands in its own tag's segment and entry, and disturbs no other. */
  lemma {:induction false} FillStep(all: seq<Opt>, done: seq<Opt>, o: Opt, tb: Table)
    requires Filled(all, done, tb) && done + [o] <= all
    requires |tb.slots| > 0
    ensures FillSafe(tb, o) && Filled(all, done + [o], FillOne(tb, o))
  {
    FillStepSafe(all, done, o, tb);
    FillKeepsPlaced(all, done, o, tb);
    forall t: byte | TagData(all, t) != []
      ensures Rank(all, t) < |FillOne(tb, o).slots|
      ensures FillOne(tb, o).slots[Rank(all, t)] == SlotFor(all, done + [o], t)
    {
      FillKeepsSlot(all, done, o, tb, t);
    }
    forall t: byte
      ensures SegmentFilled(all, done + [o], FillOne(tb, o).buf, t)
    {
      FillKeepsSegment(all, done, o, tb, t);
    }
  }
}
