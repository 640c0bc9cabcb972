/** When the second pass of the parser stays inside what the first pass made it allocate. */
module DhcpBounds {
  import opened Bytes
  import opened DhcpOption
  import opened DhcpMerge
  import opened DhcpParse

  /** Every write of the second pass over `opts`, one after the other, finds its memory. */
  ghost predicate FillsSafely(tb: Table, opts: seq<Opt>)
    decreases |opts|
  {
    opts == [] || (FillSafe(tb, opts[0]) && FillsSafely(FillOne(tb, opts[0]), opts[1..]))
  }

  /** What the second pass starts from: the laid out counters, and entries and buffer as counted. */
  ghost predicate Ready(opts: seq<Opt>, tb: Table) {
    && Laid(opts, tb)
    && |tb.slots| == CountedTags(opts, MAX_OPTIONS) && |tb.buf| == Low16(Start(opts, MAX_OPTIONS))
    && forall r :: 0 <= r < |tb.slots| ==> tb.slots[r] == Slot(0, 0, None)
  }

  // ---------- Enough room: nothing is written outside ----------

  lemma {:induction false} FilledFillsSafely(all: seq<Opt>, done: seq<Opt>, opts: seq<Opt>, tb: Table)
    requires Filled(all, done, tb) && |tb.slots| > 0 && done + opts == all
    ensures FillsSafely(tb, opts)
    decreases |opts|
  {
    hide Filled, FillOne, FillSafe;
    if opts != [] {
      var o, rest := opts[0], opts[1..];
      Onward(done, opts, all);
      FillStep(all, done, o, tb);
      FillKeepsSlots(tb, o);
      FilledFillsSafely(all, done + [o], rest, FillOne(tb, o));
    }
  }

  lemma {:induction false} Onward(done: seq<Opt>, opts: seq<Opt>, all: seq<Opt>)
    requires opts != [] && done + opts == all
    ensures done + [opts[0]] + opts[1..] == all && done + [opts[0]] <= all
  {
    assert done + [opts[0]] + opts[1..] == all;
  }

  lemma {:induction false} FillKeepsSlots(tb: Table, o: Opt)
    requires FillSafe(tb, o)
    ensures |FillOne(tb, o).slots| == |tb.slots| && |FillOne(tb, o).buf| == |tb.buf|
  {
  }

  // ---------- Too little room: some write falls outside ----------

  /** Writes that all stay inside leave room for all of a tag's data behind its first offset. */
  lemma {:induction false} SafeTagFits(tb: Table, opts: seq<Opt>, t: byte)
    requires FillsSafely(tb, opts) && Counters(tb) && |tb.buf| < 0x1_0000
    ensures TagData(opts, t) != [] ==> tb.offset[t] + |TagData(opts, t)| <= |tb.buf|
    decreases |opts|
  {
    hide TagData;
    if opts == [] {
      NothingOf(t);
    } else {
      var o, rest := opts[0], opts[1..];
      assert opts == [o] + rest;
      TagDataAppend([o], rest, t);
      OneOption(o, t);
      SafeTagFits(FillOne(tb, o), rest, t);
      Low16Small(tb.offset[o.tag] + |o.data|);
    }
  }

  /** If every tag's data fits behind its laid out offset, no prefix sum ever wrapped. */
  lemma {:induction false} SumsNeverWrapped(opts: seq<Opt>, tb: Table, k: nat)
    requires k <= MAX_OPTIONS && Laid(opts, tb) && |tb.buf| < 0x1_0000
    requires forall t: byte :: TagData(opts, t) != [] ==> tb.offset[t] + |TagData(opts, t)| <= |tb.buf|
    ensures Start(opts, k) < 0x1_0000
  {
    if k > 0 {
      hide TagData, Low16;
      SumsNeverWrapped(opts, tb, k - 1);
      var t: byte := k - 1;
      assert tb.offset[t] == LaidOffset(opts, t);
      Low16Small(|TagData(opts, t)|);
      Low16Small(Start(opts, t));
    }
  }

  /**
   When there is something to fill, the second pass stays inside its entries and
   its buffer exactly if the packet carries less than 65536 octets of data.
   */
  lemma {:induction false} FillsSafelyIff(opts: seq<Opt>, tb: Table)
    requires Ready(opts, tb) && |tb.slots| > 0
    ensures FillsSafely(tb, opts) <==> DataSize(opts) < 0x1_0000
  {
    hide TagData, Start, CountedTags, DataSize, FillsSafely, LaidIndex, LaidOffset, Low16, Filled;
    SegmentsCoverData(opts);
    if DataSize(opts) < 0x1_0000 {
      CountedIsRank(opts, MAX_OPTIONS);
      Low16Small(Start(opts, MAX_OPTIONS));
      LaidPlaced(opts, tb);
      FillStart(opts, tb);
      FilledFillsSafely(opts, [], opts, tb);
    }
    if FillsSafely(tb, opts) {
      Low16Bounded(Start(opts, MAX_OPTIONS));
      forall t: byte ensures TagData(opts, t) != [] ==> tb.offset[t] + |TagData(opts, t)| <= |tb.buf| {
        SafeTagFits(tb, opts, t);
      }
      SumsNeverWrapped(opts, tb, MAX_OPTIONS);
    }
  }

  lemma {:induction false} Low16Bounded(n: int)
    ensures Low16(n) < 0x1_0000
  {
  }

  /** If no tag is counted, no counter shows any data. */
  lemma {:induction false} NothingCounted(opts: seq<Opt>, t: nat, u: byte)
    requires u < t <= MAX_OPTIONS && CountedTags(opts, t) == 0
    ensures Low16(|TagData(opts, u)|) == 0
  {
    hide TagData, Low16;
    if u < t - 1 {
      NothingCounted(opts, t - 1, u);
    }
  }

  /**
   The condition on packets is exact: it holds if and only if the parse either
   finds nothing to fill or fills without leaving its memory.
   */
  lemma {:induction false} FitsIff(opts: seq<Opt>, tb: Table)
    requires Ready(opts, tb)
    ensures Fits(opts) <==> |tb.slots| == 0 || FillsSafely(tb, opts)
  {
    hide TagData, Start, CountedTags, DataSize, FillsSafely, Laid, Low16;
    if |tb.slots| > 0 {
      FillsSafelyIff(opts, tb);
      if Uncounted(opts) {
        NoneCounted(opts, MAX_OPTIONS);
        assert false;
      }
    } else {
      forall t: byte ensures Low16(|TagData(opts, t)|) == 0 {
        NothingCounted(opts, MAX_OPTIONS, t);
      }
    }
  }
}
