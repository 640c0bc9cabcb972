/** Packets that show why the exact conditions on parsing and on the round trip are needed. */
module DhcpExamples {
  import opened Bytes
  import opened DhcpOption
  import opened DhcpMerge
  import opened DhcpParse
  import opened DhcpBuild
  import opened DhcpRoundTrip
  import opened DhcpGrammar

  // ---------- An empty option ahead of real data ----------

  const MISNAMED: seq<byte> := [7, 0, 3, 1, 9, TAG_EOP]

  lemma {:induction false} ScanMisnamed()
    ensures ScanBuffer(MISNAMED, true, 0) == Scanned([Opt(7, []), Opt(3, [9])], 0)
  {
    hide ScanBuffer;
    var b := MISNAMED;
    assert b[0..] == b && b[2..2] == [] && b[4..5] == [9];
    ScanAt(b, 0, true, 0);
    ScanAt(b, 2, true, 0);
    ScanAt(b, 5, true, 0);
  }

  /** The first entry of this packet's parse carries the data of option 3 under tag 7. */
  lemma {:induction false} EmptyOptionMisnamesEntry(header: seq<byte>)
    requires |header| == HEADER_SIZE
    ensures var p := Packet(PACKET_SIZE + 5, OPTION_AT + 6, header, MISNAMED);
            && p.Valid() && PacketOptions(p) == Some([Opt(7, []), Opt(3, [9])])
            && Merged(PacketOptions(p).value, MAX_OPTIONS) == [Opt(3, [9])]
            && Parsed(PacketOptions(p).value) == [Opt(7, [9])]
  {
    hide ScanBuffer, Merged, Rank, TagData, Claimant;
    var p := Packet(PACKET_SIZE + 5, OPTION_AT + 6, header, MISNAMED);
    assert p.OptionField() == MISNAMED;
    ScanMisnamed();
    var opts := [Opt(7, []), Opt(3, [9])];
    assert opts + [] + [] == opts;
    assert opts == [] + [Opt(7, [])] + [Opt(3, [9])];
    NothingSeen();
    TagDataLast([], Opt(7, []), 3);
    TagDataLast([], Opt(7, []), 7);
    TagDataLast([] + [Opt(7, [])], Opt(3, [9]), 3);
    TagDataLast([] + [Opt(7, [])], Opt(3, [9]), 7);
    OnlyTagThree(opts);
    FirstClaims(opts);
  }

  lemma {:induction false} OnlyTagThree(opts: seq<Opt>)
    requires TagData(opts, 3) == [9] && DataSize(opts) == 1
    ensures Merged(opts, MAX_OPTIONS) == [Opt(3, [9])]
  {
    hide TagData, Rank, Merged, DataSize, Start;
    var m := Merged(opts, MAX_OPTIONS);
    MergedAt(opts, 3, MAX_OPTIONS);
    if |m| > 1 {
      MergedEntry(opts, MAX_OPTIONS, 0);
      MergedEntry(opts, MAX_OPTIONS, 1);
      MergedAscending(opts, 0, 1);
      RankMonotone(opts, m[0].tag, m[1].tag);
      TagDataBounded(opts, m[1].tag);
      assert false;
    }
  }

  lemma {:induction false} FirstClaims(opts: seq<Opt>)
    requires opts != [] && IndexOf(opts, opts[0].tag) == 0
    ensures Claimant(opts, opts, 0) == Some(opts[0].tag)
  {
    hide TagData, Rank, Claimant;
    assert opts[..0] == [];
    Unclaimed(opts);
    ClaimantAt(opts, opts, 0);
  }

  lemma {:induction false} Unclaimed(opts: seq<Opt>)
    ensures Claimant(opts, [], 0).None?
  {
  }

  // ---------- An overload option that is kept ----------

  const FILE: seq<byte> := [12, 1, 65, TAG_EOP]
  const HEADER: seq<byte> := Zeros(FILE_AT) + FILE + Zeros(HEADER_SIZE - FILE_AT - 4)
  const SEED: Packet := Packet(PACKET_SIZE + 3, OPTION_AT + 4, HEADER, [TAG_OVERLOAD, 1, OVERLOAD_FILENAME, TAG_EOP])

  lemma {:induction false} ScanOverload()
    ensures ScanBuffer(SEED.option, true, 0) == Scanned([Opt(TAG_OVERLOAD, [OVERLOAD_FILENAME])], OVERLOAD_FILENAME)
  {
    hide ScanBuffer;
    var b := SEED.option;
    assert b[0..] == b && b[2..3] == [OVERLOAD_FILENAME];
    ScanAt(b, 0, true, 0);
    ScanAt(b, 3, true, OVERLOAD_FILENAME);
  }

  lemma {:induction false} ScanFile(b: seq<byte>)
    requires FILE <= b
    ensures ScanBuffer(b, false, 0) == Scanned([Opt(12, [65])], 0)
  {
    hide ScanBuffer;
    assert b[0..] == b && b[2..3] == [65];
    ScanAt(b, 0, false, 0);
    ScanAt(b, 3, false, 0);
  }

  lemma {:induction false} SeedOptions()
    ensures SEED.Valid() && PacketOptions(SEED) == Some([Opt(TAG_OVERLOAD, [OVERLOAD_FILENAME]), Opt(12, [65])])
    ensures HeaderScan(HEADER, OVERLOAD_FILENAME) == Scanned([Opt(12, [65])], 0)
  {
    hide ScanBuffer;
    assert SEED.OptionField() == SEED.option;
    assert SEED.File() == HEADER[FILE_AT..];
    assert FILE <= HEADER[FILE_AT..];
    ScanOverload();
    ScanFile(HEADER[FILE_AT..]);
    var o, h := Opt(TAG_OVERLOAD, [OVERLOAD_FILENAME]), Opt(12, [65]);
    assert [o] + [h] + [] == [o, h] && [h] + [] == [h];
  }

  /** Without stray options, the mark array starts with the merged data of each tag. */
  lemma {:induction false} SeedDataIsMerged(opts: seq<Opt>, t: byte)
    requires !Stray(opts)
    ensures SeedData(Parsed(opts), t) == TagData(opts, t)
  {
    hide Parsed, Merged, TagData, SeedData, Listed, Stray;
    var marks: Marks := seq(MAX_OPTIONS, u requires 0 <= u < MAX_OPTIONS => TagData(opts, u));
    ParseIsConcatenation(opts);
    MergedIsListed(opts, marks, MAX_OPTIONS);
    ListedLookup(marks, MAX_OPTIONS, t);
  }

  lemma {:induction false} OverloadKept()
    ensures SEED.Valid() && PacketOptions(SEED).Some?
    ensures var marks := Wanted(Parsed(PacketOptions(SEED).value), [], []);
            marks[TAG_OVERLOAD] == [OVERLOAD_FILENAME] && marks[12] == [65]
  {
    hide PacketOptions, Parsed, Merged, TagData, SeedData;
    SeedOptions();
    var o, h := Opt(TAG_OVERLOAD, [OVERLOAD_FILENAME]), Opt(12, [65]);
    var opts := PacketOptions(SEED).value;
    assert opts == [] + [o] + [h];
    NothingSeen();
    TagDataLast([], o, TAG_OVERLOAD);
    TagDataLast([], o, 12);
    TagDataLast([] + [o], h, TAG_OVERLOAD);
    TagDataLast([] + [o], h, 12);
    assert !Stray(opts);
    SeedDataIsMerged(opts, TAG_OVERLOAD);
    SeedDataIsMerged(opts, 12);
  }

  /**
   Rebuilding this packet without changes keeps its overload option, and the
   host name in its file field is then read a second time: it comes back doubled.
   */
  lemma {:induction false} KeptOverloadBreaksRoundTrip()
    ensures SEED.Valid() && PacketOptions(SEED).Some?
    ensures var marks := Wanted(Parsed(PacketOptions(SEED).value), [], []);
            var p := Rebuilt(SEED.header, marks);
            && p.Valid() && PacketOptions(p).Some? && !Quiet(SEED.header, marks)
            && marks[12] == [65] && TagData(PacketOptions(p).value, 12) == [65, 65]
            && Parsed(PacketOptions(p).value) != Listed(marks, MAX_OPTIONS)
  {
    hide PacketOptions, Parsed, Wanted, Rebuilt, Listed, HeaderScan, ChunksFrom, TagData, Sendable;
    SeedOptions();
    OverloadKept();
    assert [Opt(12, [65])][..0] == [];
    BuildThenParse(SEED, [], []);
    PacketOptionsPlain(SEED);
    WantedSendable(PacketOptions(SEED).value, [], []);
    var marks := Wanted(Parsed(PacketOptions(SEED).value), [], []);
    ScanRebuilt(SEED.header, marks);
    TagDataAppend(ChunksFrom(marks, 0), [Opt(12, [65])], 12);
    ChunksFromMerge(marks, 0, 12);
    OneOption(Opt(12, [65]), 12);
  }

  // ---------- More data than the counters hold ----------

  const LARGE := 258 * 255

  function LargeMarks(): Marks {
    seq(MAX_OPTIONS, t => if t == 1 then Zeros(LARGE) else [])
  }

  /** A packet that repeats option 1 in 258 full chunks carries more than its counter shows. */
  lemma {:induction false} LargePacketDoesNotFit(header: seq<byte>)
    requires |header| == HEADER_SIZE
    ensures var p := Rebuilt(header, LargeMarks());
            p.Valid() && PacketOptions(p).Some? && !Fits(PacketOptions(p).value)
  {
    hide PacketOptions, Rebuilt, ChunksFrom, TagData, DataSize, Start, HeaderScan;
    var marks := LargeMarks();
    ScanRebuilt(header, marks);
    NoOverloadIsQuiet(header, marks);
    var h := HeaderScan(header, OverloadOf(marks));
    var opts := ChunksFrom(marks, 0) + h.opts;
    TagDataAppend(ChunksFrom(marks, 0), h.opts, 1);
    ChunksFromMerge(marks, 0, 1);
    TagDataBounded(opts, 1);
    var one: byte := 1;
    assert |TagData(opts, one)| >= LARGE && |TagData(h.opts, one)| == 0 by {
      DhcpRoundTrip.NoData(h.opts, 1);
    }
    assert Low16(|TagData(opts, one)|) == 254;
  }

  // ---------- Options in the server name field ----------

  const NAMED: seq<byte> := Zeros(44) + FILE + Zeros(HEADER_SIZE - 48)

  lemma {:induction false} ScanNumberTwo()
    ensures ScanBuffer([52, 1, 2, 255], true, 0) == Scanned([Opt(52, [2])], 2)
  {
    hide ScanBuffer;
    var b: seq<byte> := [52, 1, 2, 255];
    assert b[0..] == b && b[2..3] == [2];
    ScanAt(b, 0, true, 0);
    ScanAt(b, 3, true, 2);
  }

  /** With overload number 2 the options of the server name field follow those of the option field. */
  lemma {:induction false} ServerNameIsRead()
    ensures var p := Packet(PACKET_SIZE + 3, 244, NAMED, [52, 1, 2, 255]);
            p.Valid() && PacketOptions(p) == Some([Opt(52, [2]), Opt(12, [65])])
  {
    hide ScanBuffer, PacketOptions;
    var p := Packet(PACKET_SIZE + 3, 244, NAMED, [52, 1, 2, 255]);
    assert p.option[..p.length - 240] == [52, 1, 2, 255];
    ScanNumberTwo();
    assert FILE <= p.header[44..108];
    ScanFile(p.header[44..108]);
    OverloadByNumber(p);
    assert [Opt(52, [2])] + [Opt(12, [65])] == [Opt(52, [2]), Opt(12, [65])];
  }
}
