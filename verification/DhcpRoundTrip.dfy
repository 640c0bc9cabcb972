/** Scanning and parsing a rebuilt packet gives back exactly what was put into it. */
module DhcpRoundTrip {
  import opened Bytes
  import opened DhcpOption
  import opened DhcpMerge
  import opened DhcpParse
  import opened DhcpBuild

  /** The options that a scan finds in a split option. */
  function Chunks(t: byte, data: seq<byte>): seq<Opt>
    decreases |data|
  {
    if data == [] then []
    else [Opt(t, data[..ChunkSize(data)])] + Chunks(t, data[ChunkSize(data)..])
  }

  function ChunksFrom(marks: Marks, k: nat): seq<Opt>
    requires k <= MAX_OPTIONS
    decreases MAX_OPTIONS - k
  {
    if k == MAX_OPTIONS then [] else Chunks(k, marks[k]) + ChunksFrom(marks, k + 1)
  }

  /** Tags 0 and 255 stand for pad and end, and cannot carry data. */
  ghost predicate Sendable(marks: Marks) {
    marks[TAG_PAD] == [] && marks[TAG_EOP] == []
  }

  function OverloadOf(marks: Marks): byte {
    if marks[TAG_OVERLOAD] == [] then 0 else marks[TAG_OVERLOAD][0]
  }

  lemma {:induction false} AfterNothing(s: Scan)
    ensures s.After([]) == s
  {
    if s.Scanned? {
      assert [] + s.opts == s.opts;
    }
  }

  /** The shape of a buffer that starts with one chunk. */
  lemma {:induction false} ScanChunk(t: byte, chunk: seq<byte>, rest: seq<byte>, track: bool, overload: byte)
    requires t != TAG_PAD && t != TAG_EOP && |chunk| <= 255
    ensures ScanBuffer([t, |chunk|] + chunk + rest, track, overload) ==
            if t == TAG_OVERLOAD && track && |chunk| != 1 then Malformed
            else ScanBuffer(rest, track, if t == TAG_OVERLOAD && track then chunk[0] else overload).After([Opt(t, chunk)])
  {
    var b := [t, |chunk|] + chunk + rest;
    assert b[2..2 + |chunk|] == chunk && b[2 + |chunk|..] == rest;
  }

  lemma {:induction false} ScanSplit(t: byte, data: seq<byte>, rest: seq<byte>, track: bool, overload: byte)
    requires t != TAG_PAD && t != TAG_EOP
    ensures ScanBuffer(Split(t, data) + rest, track, overload) ==
            if t == TAG_OVERLOAD && track && |data| > 1 then Malformed
            else
              ScanBuffer(rest, track, if t == TAG_OVERLOAD && track && data != [] then data[0] else overload)
              .After(Chunks(t, data))
    decreases |data|
  {
    hide ScanBuffer;
    if data == [] {
      assert Split(t, data) + rest == rest;
      AfterNothing(ScanBuffer(rest, track, overload));
    } else {
      var n := ChunkSize(data);
      var tail := Split(t, data[n..]) + rest;
      assert Split(t, data) + rest == [t, n] + data[..n] + tail;
      ScanChunk(t, data[..n], tail, track, overload);
      var next := if t == TAG_OVERLOAD && track then data[0] else overload;
      ScanSplit(t, data[n..], rest, track, next);
      AfterTwice(ScanBuffer(rest, track, next), Chunks(t, data[n..]), [Opt(t, data[..n])]);
    }
  }

  /** The overload value after a scan of the options from tag `k` on. */
  function OverloadFrom(marks: Marks, k: nat, overload: byte): byte {
    if k <= TAG_OVERLOAD && marks[TAG_OVERLOAD] != [] then marks[TAG_OVERLOAD][0] else overload
  }

  lemma {:induction false} ChunksStep(marks: Marks, k: byte)
    ensures ChunksFrom(marks, k) == Chunks(k, marks[k]) + ChunksFrom(marks, k + 1)
    ensures ChunksFrom(marks, MAX_OPTIONS) == []
  {
  }

  lemma {:induction false} ScanEnd(overload: byte)
    ensures ScanBuffer([TAG_EOP], true, overload) == Scanned([], overload)
  {
  }

  /** A scan of everything written from tag `k` on. */
  lemma {:induction false} ScanPrint(marks: Marks, k: nat, overload: byte)
    requires k <= MAX_OPTIONS && Sendable(marks)
    ensures ScanBuffer(PrintFrom(marks, k), true, overload) ==
            if k <= TAG_OVERLOAD && |marks[TAG_OVERLOAD]| > 1 then Malformed
            else Scanned(ChunksFrom(marks, k), OverloadFrom(marks, k, overload))
    decreases MAX_OPTIONS - k
  {
    hide ScanBuffer, Split, Chunks, PrintFrom, ChunksFrom;
    if k == MAX_OPTIONS {
      PrintStart(marks);
      ChunksStep(marks, 0);
      ScanEnd(overload);
    } else {
      var next := if k == TAG_OVERLOAD && |marks[k]| == 1 then marks[k][0] else overload;
      ScanPrint(marks, k + 1, next);
      PrintStep(marks, k);
      ChunksStep(marks, k);
      if k == TAG_PAD || k == TAG_EOP {
        NoChunks(k, marks[k]);
        assert [] + PrintFrom(marks, k + 1) == PrintFrom(marks, k + 1);
        assert [] + ChunksFrom(marks, k + 1) == ChunksFrom(marks, k + 1);
      } else {
        ScanSplit(k, marks[k], PrintFrom(marks, k + 1), true, overload);
      }
    }
  }

  lemma {:induction false} NoChunks(t: byte, data: seq<byte>)
    requires data == []
    ensures Split(t, data) == [] && Chunks(t, data) == []
  {
  }

  // ---------- Splitting and merging undo each other ----------

  lemma {:induction false} ChunksMerge(t: byte, data: seq<byte>, u: byte)
    ensures TagData(Chunks(t, data), u) == if t == u then data else []
    decreases |data|
  {
    if data != [] {
      var n := ChunkSize(data);
      ChunksMerge(t, data[n..], u);
      TagDataAppend([Opt(t, data[..n])], Chunks(t, data[n..]), u);
      OneOption(Opt(t, data[..n]), u);
      assert data == data[..n] + data[n..];
    }
  }

  lemma {:induction false} ChunksFromMerge(marks: Marks, k: nat, u: byte)
    requires k <= MAX_OPTIONS
    ensures TagData(ChunksFrom(marks, k), u) == if k <= u then marks[u] else []
    decreases MAX_OPTIONS - k
  {
    if k < MAX_OPTIONS {
      ChunksMerge(k, marks[k], u);
      ChunksFromMerge(marks, k + 1, u);
      TagDataAppend(Chunks(k, marks[k]), ChunksFrom(marks, k + 1), u);
    }
  }

  /** Options whose merged data is `marks` merge to the listing of `marks`. */
  lemma {:induction false} MergedIsListed(opts: seq<Opt>, marks: Marks, t: nat)
    requires t <= MAX_OPTIONS
    requires forall u: byte :: TagData(opts, u) == marks[u]
    ensures Merged(opts, t) == Listed(marks, t)
  {
    if t > 0 {
      hide TagData;
      MergedIsListed(opts, marks, t - 1);
      assert TagData(opts, t - 1) == marks[t - 1];
    }
  }

  // ---------- No chunk is empty, so no entry is misnamed ----------

  lemma {:induction false} ChunksNotEmpty(t: byte, data: seq<byte>, i: nat)
    requires i < |Chunks(t, data)|
    ensures Chunks(t, data)[i].tag == t && data != []
    decreases |data|
  {
    if i > 0 {
      ChunksNotEmpty(t, data[ChunkSize(data)..], i - 1);
    }
  }

  lemma {:induction false} ChunksFromNotEmpty(marks: Marks, k: nat, i: nat)
    requires k <= MAX_OPTIONS && i < |ChunksFrom(marks, k)|
    ensures marks[ChunksFrom(marks, k)[i].tag] != []
    decreases MAX_OPTIONS - k
  {
    var here := Chunks(k, marks[k]);
    if i < |here| {
      ChunksNotEmpty(k, marks[k], i);
    } else {
      ChunksFromNotEmpty(marks, k + 1, i - |here|);
    }
  }

  /** Data after the printed options cannot hold a stray tag, as long as it carries no data. */
  lemma {:induction false} NoStray(marks: Marks, extra: seq<Opt>)
    requires DataSize(extra) == 0
    requires extra != [] ==> ChunksFrom(marks, 0) != []
    ensures !Stray(ChunksFrom(marks, 0) + extra)
    ensures forall u: byte :: TagData(ChunksFrom(marks, 0) + extra, u) == marks[u]
  {
    hide TagData, Merged, Rank, ChunksFrom;
    var chunks := ChunksFrom(marks, 0);
    var opts := chunks + extra;
    forall u: byte ensures TagData(opts, u) == marks[u] {
      ChunksFromMerge(marks, 0, u);
      TagDataAppend(chunks, extra, u);
      NoData(extra, u);
    }
    if i :| StrayAt(opts, i) {
      var m := Merged(opts, MAX_OPTIONS);
      MergedEntry(opts, MAX_OPTIONS, 0);
      assert m[0].data == marks[m[0].tag] == TagData(opts, m[0].tag);
      ChunksFromMerge(marks, 0, m[0].tag);
      var k := DataOccurs(chunks, m[0].tag);
      assert opts[k] == chunks[k];
      assert i <= k;
      assert opts[i] == chunks[i];
      ChunksFromNotEmpty(marks, 0, i);
      assert false;
    }
  }

  lemma {:induction false} NoData(opts: seq<Opt>, u: byte)
    requires DataSize(opts) == 0
    ensures TagData(opts, u) == []
  {
    TagDataBounded(opts, u);
  }

  // ---------- The round trip ----------

  lemma {:induction false} RebuiltFits(header: seq<byte>, marks: Marks)
    requires |header| == HEADER_SIZE
    ensures Rebuilt(header, marks).Valid()
    ensures Rebuilt(header, marks).OptionField() == PrintFrom(marks, 0)
    ensures Rebuilt(header, marks).size == Rebuilt(header, marks).length + 8
  {
    hide PrintFrom, PrintSize;
    PrintStart(marks);
  }

  /** The options that the overload value makes a scan pick up from the copied header. */
  function HeaderScan(header: seq<byte>, overload: byte): Scan
    requires |header| == HEADER_SIZE
  {
    var f := ScanField(UsesFile(overload), header[FILE_AT..]);
    var n := ScanField(UsesSname(overload), header[SNAME_AT..FILE_AT]);
    if f.Malformed? || n.Malformed? then Malformed else Scanned(f.opts + n.opts, 0)
  }

  /** A scan of a rebuilt packet sees the written chunks, then whatever its header still holds. */
  lemma {:induction false} ScanRebuilt(header: seq<byte>, marks: Marks)
    requires |header| == HEADER_SIZE && Sendable(marks)
    ensures Rebuilt(header, marks).Valid()
    ensures var h := HeaderScan(header, OverloadOf(marks));
            PacketOptions(Rebuilt(header, marks)) ==
            if |marks[TAG_OVERLOAD]| > 1 || h.Malformed? then None else Some(ChunksFrom(marks, 0) + h.opts)
  {
    hide ScanBuffer, PrintFrom, PrintSize, ChunksFrom;
    RebuiltFits(header, marks);
    ScanPrint(marks, 0, 0);
    var f := ScanField(UsesFile(OverloadOf(marks)), header[FILE_AT..]);
    var n := ScanField(UsesSname(OverloadOf(marks)), header[SNAME_AT..FILE_AT]);
    if f.Scanned? && n.Scanned? {
      assert ChunksFrom(marks, 0) + f.opts + n.opts == ChunksFrom(marks, 0) + (f.opts + n.opts);
    }
  }

  /** The overload option is absent or one octet, and no header field it points at adds data. */
  ghost predicate Quiet(header: seq<byte>, marks: Marks)
    requires |header| == HEADER_SIZE
  {
    && |marks[TAG_OVERLOAD]| <= 1
    && var h := HeaderScan(header, OverloadOf(marks));
       h.Scanned? && DataSize(h.opts) == 0
  }

  lemma {:induction false} MergedKeepsSize(opts: seq<Opt>, t: nat)
    requires t <= MAX_OPTIONS
    ensures DataSize(Merged(opts, t)) == Start(opts, t)
  {
    if t > 0 {
      hide TagData;
      MergedKeepsSize(opts, t - 1);
      assert Merged(opts, t - 1) + [] == Merged(opts, t - 1);
      DataSizeAppend(Merged(opts, t - 1), [Opt(t - 1, TagData(opts, t - 1))]);
      assert [Opt(t - 1, TagData(opts, t - 1))][..0] == [];
    }
  }

  lemma {:induction false} SameDataSameSize(a: seq<Opt>, b: seq<Opt>)
    requires |a| == |b| && forall i :: 0 <= i < |a| ==> |a[i].data| == |b[i].data|
    ensures DataSize(a) == DataSize(b)
  {
    if a != [] {
      SameDataSameSize(a[..|a| - 1], b[..|b| - 1]);
    }
  }

  /** Parsing conserves option data. */
  lemma {:induction false} ParsedKeepsSize(opts: seq<Opt>)
    ensures DataSize(Parsed(opts)) == DataSize(opts)
  {
    hide DataSize, Start, Merged, Claimant, Parsed;
    ParseIsConcatenation(opts);
    SameDataSameSize(Parsed(opts), Merged(opts, MAX_OPTIONS));
    MergedKeepsSize(opts, MAX_OPTIONS);
    SegmentsCoverData(opts);
  }

  lemma {:induction false} QuietReturns(header: seq<byte>, marks: Marks)
    requires |header| == HEADER_SIZE && Sendable(marks) && Quiet(header, marks)
    ensures Rebuilt(header, marks).Valid() && PacketOptions(Rebuilt(header, marks)).Some?
    ensures Parsed(PacketOptions(Rebuilt(header, marks)).value) == Listed(marks, MAX_OPTIONS)
  {
    hide PacketOptions, ChunksFrom, Listed, Merged, TagData, Rebuilt;
    ScanRebuilt(header, marks);
    var h := HeaderScan(header, OverloadOf(marks));
    if h.opts != [] {
      PrintedOverload(header, marks);
    }
    NoStray(marks, h.opts);
    ParseIsConcatenation(ChunksFrom(marks, 0) + h.opts);
    MergedIsListed(ChunksFrom(marks, 0) + h.opts, marks, MAX_OPTIONS);
  }

  /** Header options are scanned only when an overload option was printed. */
  lemma {:induction false} PrintedOverload(header: seq<byte>, marks: Marks)
    requires |header| == HEADER_SIZE && Quiet(header, marks)
    requires HeaderScan(header, OverloadOf(marks)).opts != []
    ensures ChunksFrom(marks, 0) != []
  {
    hide TagData, ScanBuffer;
    assert marks[TAG_OVERLOAD] != [];
    ChunksFromMerge(marks, 0, TAG_OVERLOAD);
    var k := DataOccurs(ChunksFrom(marks, 0), TAG_OVERLOAD);
  }

  /**
   Build then parse is the identity on options, exactly when the overload option
   of the result is quiet. In particular it is whenever the result has none.
   */
  lemma {:induction false} RoundTrip(header: seq<byte>, marks: Marks)
    requires |header| == HEADER_SIZE && Sendable(marks)
    ensures Rebuilt(header, marks).Valid()
    ensures var got := PacketOptions(Rebuilt(header, marks));
            got.Some? && Parsed(got.value) == Listed(marks, MAX_OPTIONS) <==> Quiet(header, marks)
    ensures marks[TAG_OVERLOAD] == [] ==> Quiet(header, marks)
  {
    hide PacketOptions, ChunksFrom, Listed, Merged, Rebuilt, Parsed, DataSize;
    ScanRebuilt(header, marks);
    if marks[TAG_OVERLOAD] == [] {
      NoOverloadIsQuiet(header, marks);
    }
    if Quiet(header, marks) {
      QuietReturns(header, marks);
    } else {
      var got := PacketOptions(Rebuilt(header, marks));
      if got.Some? && Parsed(got.value) == Listed(marks, MAX_OPTIONS) {
        var h := HeaderScan(header, OverloadOf(marks));
        ParsedKeepsSize(got.value);
        DataSizeAppend(ChunksFrom(marks, 0), h.opts);
        ListedKeepsSize(marks);
        assert false;
      }
    }
  }

  lemma {:induction false} NoOverloadIsQuiet(header: seq<byte>, marks: Marks)
    requires |header| == HEADER_SIZE && marks[TAG_OVERLOAD] == []
    ensures Quiet(header, marks)
  {
    hide ScanBuffer;
    assert HeaderScan(header, 0).opts == [];
  }

  lemma {:induction false} ListedKeepsSize(marks: Marks)
    ensures DataSize(Listed(marks, MAX_OPTIONS)) == DataSize(ChunksFrom(marks, 0))
  {
    hide Listed, ChunksFrom, Merged, DataSize, Start;
    var chunks := ChunksFrom(marks, 0);
    forall u: byte ensures TagData(chunks, u) == marks[u] {
      ChunksFromMerge(marks, 0, u);
    }
    MergedIsListed(chunks, marks, MAX_OPTIONS);
    MergedKeepsSize(chunks, MAX_OPTIONS);
    SegmentsCoverData(chunks);
  }

  // ---------- Building from a seed ----------

  lemma {:induction false} WantedSendable(opts: seq<Opt>, deleted: seq<byte>, appended: seq<Opt>)
    requires Plain(opts)
    requires forall o :: o in appended ==> o.tag != TAG_PAD && o.tag != TAG_EOP
    ensures Sendable(Wanted(Parsed(opts), deleted, appended))
  {
    hide SeedData, LastOf, Parsed;
    forall t: byte | t == TAG_PAD || t == TAG_EOP ensures Wanted(Parsed(opts), deleted, appended)[t] == [] {
      SeedDataBounded(opts, t);
      if LastOf(appended, t).Some? {
        LastOfIsMember(appended, t);
      }
    }
  }

  /**
   For any seed that scans, the parse of what is rebuilt from it lists,
   ascending, the appended options and the parsed seed options that are neither
   deleted nor replaced, exactly when the overload option is quiet. The two
   calls compute these functions while the data stays below 65536 octets;
   `DhcpEdits.BuildAndParse` is about the calls.
   */
  lemma {:induction false} BuildThenParse(seed: Packet, deleted: seq<byte>, appended: seq<Opt>)
    requires seed.Valid() && PacketOptions(seed).Some?
    requires forall o :: o in appended ==> o.tag != TAG_PAD && o.tag != TAG_EOP
    ensures var marks := Wanted(Parsed(PacketOptions(seed).value), deleted, appended);
            var p := Rebuilt(seed.header, marks);
            && p.Valid()
            && (PacketOptions(p).Some? && Parsed(PacketOptions(p).value) == Listed(marks, MAX_OPTIONS)
                <==> Quiet(seed.header, marks))
            && (marks[TAG_OVERLOAD] == [] ==> Quiet(seed.header, marks))
  {
    PacketOptionsPlain(seed);
    hide Wanted, Rebuilt, Listed, Parsed, PacketOptions, Quiet;
    var opts := PacketOptions(seed).value;
    WantedSendable(opts, deleted, appended);
    RoundTrip(seed.header, Wanted(Parsed(opts), deleted, appended));
  }

  /** The data that a scan of a rebuilt packet meets: what was printed, and what the header adds. */
  lemma {:induction false} RebuiltDataSize(header: seq<byte>, marks: Marks)
    requires |header| == HEADER_SIZE && Sendable(marks)
    ensures Rebuilt(header, marks).Valid()
    ensures var got := PacketOptions(Rebuilt(header, marks));
            var h := HeaderScan(header, OverloadOf(marks));
            got.Some? ==> h.Scanned? && DataSize(got.value) == DataSize(Listed(marks, MAX_OPTIONS)) + DataSize(h.opts)
  {
    hide PacketOptions, HeaderScan, ChunksFrom, Listed, Rebuilt, DataSize;
    ScanRebuilt(header, marks);
    var h := HeaderScan(header, OverloadOf(marks));
    ListedKeepsSize(marks);
    if h.Scanned? {
      DataSizeAppend(ChunksFrom(marks, 0), h.opts);
    }
  }

  /** What a parse of exactly the options `l` returns. */
  predicate Returns(status: Status, count: nat, entries: Option<seq<Opt>>, l: seq<Opt>) {
    status == Success && count == |l| && entries == if l == [] then None else Some(l)
  }

  /** The rebuilt packet, too, asks no more of the 16-bit counters than they hold. */
  ghost predicate FitsAgain(header: seq<byte>, marks: Marks)
    requires |header| == HEADER_SIZE
  {
    var p := Rebuilt(header, marks);
    p.Valid() && PacketOptions(p).Some? ==> Fits(PacketOptions(p).value)
  }

  lemma {:induction false} ReturnedSendable(opts: seq<Opt>, deleted: seq<byte>, appended: seq<Opt>)
    requires Plain(opts)
    requires forall o :: o in appended ==> o.tag != TAG_PAD && o.tag != TAG_EOP
    ensures Sendable(Wanted(Returned(opts), deleted, appended))
  {
    hide SeedData, LastOf, Parsed, DataSize;
    WantedSendable(opts, deleted, appended);
    forall t: byte | t == TAG_PAD || t == TAG_EOP ensures Wanted(Returned(opts), deleted, appended)[t] == [] {
      NoSeed(t);
      if LastOf(appended, t).Some? {
        LastOfIsMember(appended, t);
      }
    }
  }

  lemma {:induction false} NothingListed(marks: Marks, t: nat, u: byte)
    requires u < t <= MAX_OPTIONS && Listed(marks, t) == []
    ensures marks[u] == []
  {
    if u < t - 1 {
      NothingListed(marks, t - 1, u);
    }
  }

  /** What a parse of a rebuilt packet returns is what it was to hold, exactly if the packet is quiet and small. */
  lemma {:induction false} ReturnedAgain(header: seq<byte>, marks: Marks)
    requires |header| == HEADER_SIZE && Sendable(marks)
    ensures Rebuilt(header, marks).Valid()
    ensures var got := PacketOptions(Rebuilt(header, marks));
            got.Some? && Returned(got.value) == Listed(marks, MAX_OPTIONS)
            <==> Quiet(header, marks) && DataSize(Listed(marks, MAX_OPTIONS)) < 0x1_0000
  {
    hide PacketOptions, Parsed, Rebuilt, Listed, HeaderScan, DataSize, Sendable;
    RoundTrip(header, marks);
    RebuiltDataSize(header, marks);
    var l := Listed(marks, MAX_OPTIONS);
    if l == [] {
      NothingListed(marks, MAX_OPTIONS, TAG_OVERLOAD);
      NoOverloadIsQuiet(header, marks);
      NoneCarries();
    }
  }

  lemma {:induction false} NoneCarries()
    ensures DataSize([]) == 0
  {
  }

  lemma {:induction false} ListedLookup(marks: Marks, t: nat, u: byte)
    requires t <= MAX_OPTIONS
    ensures SeedData(Listed(marks, t), u) == if u < t then marks[u] else []
  {
    if t > 0 {
      ListedLookup(marks, t - 1, u);
      if marks[t - 1] != [] {
        var l := Listed(marks, t);
        assert l[..|l| - 1] == Listed(marks, t - 1);
      }
    }
  }

  // ---------- Rebuilding what was rebuilt ----------

  /** Where tags differ, the last option of a tag is all of its data. */
  lemma {:induction false} SeedDataIsTagData(entries: seq<Opt>, t: byte)
    requires forall r, s :: 0 <= r < s < |entries| ==> entries[r].tag != entries[s].tag
    ensures SeedData(entries, t) == TagData(entries, t)
  {
    if entries != [] {
      var before, last := entries[..|entries| - 1], entries[|entries| - 1];
      SeedDataIsTagData(before, t);
      if last.tag == t && LastOf(before, t).Some? {
        LastOfIsMember(before, t);
        assert false;
      }
    }
  }

  /** Putting parsed options into the mark array loses no data. */
  lemma {:induction false} WantedKeepsSize(opts: seq<Opt>)
    ensures DataSize(Listed(Wanted(Parsed(opts), [], []), MAX_OPTIONS)) == DataSize(opts)
  {
    hide DataSize, Listed, Parsed, Merged, TagData, Start, SeedData;
    var entries := Parsed(opts);
    var marks := Wanted(entries, [], []);
    forall r, s | 0 <= r < s < |entries| ensures entries[r].tag != entries[s].tag {
      ParsedTagsDistinct(opts, r, s);
    }
    forall u: byte ensures TagData(entries, u) == marks[u] {
      SeedDataIsTagData(entries, u);
    }
    MergedIsListed(entries, marks, MAX_OPTIONS);
    MergedKeepsSize(entries, MAX_OPTIONS);
    SegmentsCoverData(entries);
    ParsedKeepsSize(opts);
  }

  /** Different options print differently, unless a long overload option keeps the print from scanning. */
  lemma {:induction false} PrintInjective(marks: Marks, other: Marks)
    requires Sendable(marks) && Sendable(other) && |marks[TAG_OVERLOAD]| <= 1
    requires PrintFrom(marks, 0) == PrintFrom(other, 0)
    ensures marks == other
  {
    hide PrintFrom, ChunksFrom, ScanBuffer, TagData;
    ScanPrint(marks, 0, 0);
    ScanPrint(other, 0, 0);
    forall u: byte ensures marks[u] == other[u] {
      ChunksFromMerge(marks, 0, u);
      ChunksFromMerge(other, 0, u);
    }
  }

  lemma {:induction false} QuietIsNormal(header: seq<byte>, marks: Marks)
    requires |header| == HEADER_SIZE && Sendable(marks) && Quiet(header, marks)
    ensures var p := Rebuilt(header, marks);
            && p.Valid() && PacketOptions(p).Some?
            && Wanted(Parsed(PacketOptions(p).value), [], []) == marks
  {
    hide PrintFrom, PrintSize, Listed, Parsed, PacketOptions, Quiet, SeedData, ScanBuffer;
    RoundTrip(header, marks);
    var again := Wanted(Listed(marks, MAX_OPTIONS), [], []);
    forall u: byte ensures again[u] == marks[u] {
      ListedLookup(marks, MAX_OPTIONS, u);
    }
    assert again == marks;
  }

  /** Header data that is read again shows up in the next rebuild. */
  lemma {:induction false} LoudIsNotNormal(header: seq<byte>, marks: Marks)
    requires |header| == HEADER_SIZE && Sendable(marks) && !Quiet(header, marks)
    requires Rebuilt(header, marks).Valid() && PacketOptions(Rebuilt(header, marks)).Some?
    ensures Rebuilt(header, Wanted(Parsed(PacketOptions(Rebuilt(header, marks)).value), [], [])) != Rebuilt(header, marks)
  {
    hide PacketOptions, Parsed, Wanted, Listed, PrintFrom, PrintSize, ChunksFrom, DataSize, Sendable, HeaderScan;
    var got := PacketOptions(Rebuilt(header, marks)).value;
    var again := Wanted(Parsed(got), [], []);
    PacketOptionsPlain(Rebuilt(header, marks));
    WantedSendable(got, [], []);
    ScanRebuilt(header, marks);
    RebuiltDataSize(header, marks);
    WantedKeepsSize(got);
    if Rebuilt(header, again) == Rebuilt(header, marks) {
      PrintInjective(marks, again);
      assert false;
    }
  }

  /**
   Rebuilding a rebuilt packet without changes reproduces it octet for octet
   exactly when its overload option is quiet.
   */
  lemma {:induction false} NormalForm(header: seq<byte>, marks: Marks)
    requires |header| == HEADER_SIZE && Sendable(marks)
    ensures Rebuilt(header, marks).Valid()
    ensures var p := Rebuilt(header, marks);
            PacketOptions(p).Some? && Rebuilt(p.header, Wanted(Parsed(PacketOptions(p).value), [], [])) == p
            <==> Quiet(header, marks)
  {
    hide PacketOptions, Parsed, Wanted, Quiet, PrintFrom, PrintSize, Sendable;
    RebuiltFits(header, marks);
    if Quiet(header, marks) {
      QuietIsNormal(header, marks);
    } else if PacketOptions(Rebuilt(header, marks)).Some? {
      LoudIsNotNormal(header, marks);
    }
  }
}
