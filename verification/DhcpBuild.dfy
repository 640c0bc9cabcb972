/**
 Rebuilding a packet from a seed: options deleted, replaced or added, and long
 ones split (RFC 3396).
 */
module DhcpBuild {
  import opened Bytes
  import opened DhcpOption
  import opened DhcpMerge
  import opened DhcpParse

  /** Data per tag; an empty string means that the option is absent. */
  type Marks = m: seq<seq<byte>> | |m| == MAX_OPTIONS witness seq(MAX_OPTIONS, _ => [])

  // ---------- What the rebuilt packet is to hold ----------

  function LastOf(opts: seq<Opt>, t: byte): Option<seq<byte>> {
    if opts == [] then None
    else if opts[|opts| - 1].tag == t then Some(opts[|opts| - 1].data)
    else LastOf(opts[..|opts| - 1], t)
  }

  function SeedData(seed: seq<Opt>, t: byte): seq<byte> {
    if LastOf(seed, t).Some? then LastOf(seed, t).value else []
  }

  function KeptData(seed: seq<Opt>, deleted: seq<byte>, t: byte): seq<byte> {
    if t in deleted then [] else SeedData(seed, t)
  }

  /** An appended option wins over a deletion, a deletion over the seed, the last append over earlier ones. */
  function WantedData(seed: seq<Opt>, deleted: seq<byte>, appended: seq<Opt>, t: byte): seq<byte> {
    if LastOf(appended, t).Some? then LastOf(appended, t).value else KeptData(seed, deleted, t)
  }

  function Wanted(seed: seq<Opt>, deleted: seq<byte>, appended: seq<Opt>): Marks {
    seq(MAX_OPTIONS, t requires 0 <= t < MAX_OPTIONS => WantedData(seed, deleted, appended, t))
  }

  /** The options present in `marks` with tags below `t`, ascending. */
  function Listed(marks: Marks, t: nat): seq<Opt>
    requires t <= MAX_OPTIONS
  {
    if t == 0 then []
    else if marks[t - 1] == [] then Listed(marks, t - 1)
    else Listed(marks, t - 1) + [Opt(t - 1, marks[t - 1])]
  }

  // ---------- What is written ----------

  function ChunkSize(data: seq<byte>): nat {
    Min(255, |data|)
  }

  function Split(t: byte, data: seq<byte>): seq<byte>
    decreases |data|
  {
    if data == [] then []
    else [t, ChunkSize(data)] + data[..ChunkSize(data)] + Split(t, data[ChunkSize(data)..])
  }

  function SplitSize(n: nat): nat {
    n + 2 * ((n + 254) / 255)
  }

  /** All options from tag `k` on, and the end tag. */
  function PrintFrom(marks: Marks, k: nat): seq<byte>
    requires k <= MAX_OPTIONS
    decreases MAX_OPTIONS - k
  {
    if k == MAX_OPTIONS then [TAG_EOP] else Split(k, marks[k]) + PrintFrom(marks, k + 1)
  }

  function PrintSize(marks: Marks, k: nat): nat
    requires k <= MAX_OPTIONS
  {
    if k == 0 then 0 else PrintSize(marks, k - 1) + SplitSize(|marks[k - 1]|)
  }

  function Rebuilt(header: seq<byte>, marks: Marks): Packet {
    var o := PrintFrom(marks, 0);
    Packet(PACKET_SIZE + PrintSize(marks, MAX_OPTIONS), OPTION_AT + |o|, header, o)
  }

  lemma {:induction false} SplitLength(t: byte, data: seq<byte>)
    ensures |Split(t, data)| == SplitSize(|data|)
    decreases |data|
  {
    if data != [] {
      SplitLength(t, data[ChunkSize(data)..]);
    }
  }

  lemma {:induction false} PrintLength(marks: Marks, k: nat)
    requires k <= MAX_OPTIONS
    ensures |PrintFrom(marks, k)| + PrintSize(marks, k) == PrintSize(marks, MAX_OPTIONS) + 1
    decreases MAX_OPTIONS - k
  {
    if k < MAX_OPTIONS {
      SplitLength(k, marks[k]);
      PrintLength(marks, k + 1);
    }
  }

  // ---------- The writer ----------

  /** One option header and its data, at `pos`. */
  method WriteChunk(buf: array<byte>, pos: nat, tag: byte, chunk: seq<byte>)
    requires |chunk| <= 255 && pos + 2 + |chunk| <= buf.Length
    modifies buf
    ensures buf[..pos + 2 + |chunk|] == old(buf[..pos]) + [tag, |chunk|] + chunk
  {
    buf[pos] := tag;
    buf[pos + 1] := |chunk|;
    forall k | 0 <= k < |chunk| {
      buf[pos + 2 + k] := chunk[k];
    }
  }

  method AppendOption(buf: array<byte>, pos: nat, tag: byte, data: seq<byte>) returns (next: nat)
    requires 0 < |data| < 0x1_0000
    requires pos + SplitSize(|data|) <= buf.Length
    modifies buf
    ensures next == pos + SplitSize(|data|)
    ensures buf[..next] == old(buf[..pos]) + Split(tag, data)
  {
    hide Split, SplitSize;
    next := pos;
    ghost var goal := buf[..pos] + Split(tag, data);
    ghost var at: nat := 0;
    assert data[0..] == data;
    SplitNothing(tag);
    for i := 0 to (|data| + 254) / 255
      invariant at == Min(i * 255, |data|)
      invariant pos <= next && next + SplitSize(|data| - at) == pos + SplitSize(|data|)
      invariant goal == buf[..next] + Split(tag, data[at..])
    {
      var len := Min(255, |data| - i * 255);
      SplitStep(tag, data, at, len);
      ghost var done, tail := buf[..next], Split(tag, data[at + len..]);
      WriteChunk(buf, next, tag, data[i * 255..i * 255 + len]);
      Regroup(done, [tag, len], data[at..at + len], tail);
      next := next + 2 + len;
      at := at + len;
    }
    assert data[at..] == [];
  }

  lemma {:induction false} Regroup(a: seq<byte>, b: seq<byte>, c: seq<byte>, d: seq<byte>)
    ensures a + (b + c + d) == a + b + c + d
  {
  }

  lemma {:induction false} SplitNothing(t: byte)
    ensures Split(t, []) == [] && SplitSize(0) == 0
  {
  }

  lemma {:induction false} SplitStep(t: byte, data: seq<byte>, at: nat, len: nat)
    requires at < |data| && len == Min(255, |data| - at)
    ensures Split(t, data[at..]) == [t, len] + data[at..at + len] + Split(t, data[at + len..])
    ensures SplitSize(|data| - at) == 2 + len + SplitSize(|data| - at - len)
    ensures SplitSize(|data| - at) >= 2 + len
  {
    assert data[at..][..len] == data[at..at + len];
    assert data[at..][len..] == data[at + len..];
  }

  /** The seed's options go to the mark array by tag. */
  method MarkSeed(mark: array<Opt>, seed: seq<Opt>)
    requires mark.Length == MAX_OPTIONS
    requires forall t: byte :: mark[t] == Opt(t, [])
    modifies mark
    ensures forall t: byte :: mark[t] == Opt(t, SeedData(seed, t))
  {
    for i := 0 to |seed|
      invariant forall t: byte :: mark[t] == Opt(t, SeedData(seed[..i], t))
    {
      assert seed[..i + 1][..i] == seed[..i];
      mark[seed[i].tag] := seed[i];
    }
    assert seed[..|seed|] == seed;
  }

  method MarkDeleted(mark: array<Opt>, deleted: seq<byte>, ghost seed: seq<Opt>)
    requires mark.Length == MAX_OPTIONS
    requires forall t: byte :: mark[t] == Opt(t, SeedData(seed, t))
    modifies mark
    ensures forall t: byte :: mark[t] == Opt(t, KeptData(seed, deleted, t))
  {
    hide SeedData;
    for i := 0 to |deleted|
      invariant forall t: byte :: mark[t] == Opt(t, KeptData(seed, deleted[..i], t))
    {
      assert forall t: byte :: t in deleted[..i + 1] <==> t in deleted[..i] || t == deleted[i];
      mark[deleted[i]] := mark[deleted[i]].(data := []);
    }
    assert deleted[..|deleted|] == deleted;
  }

  method MarkAppended(mark: array<Opt>, appended: seq<Opt>, ghost seed: seq<Opt>, ghost deleted: seq<byte>)
    requires mark.Length == MAX_OPTIONS
    requires forall t: byte :: mark[t] == Opt(t, KeptData(seed, deleted, t))
    modifies mark
    ensures forall t: byte :: mark[t] == Opt(t, WantedData(seed, deleted, appended, t))
  {
    hide KeptData;
    for i := 0 to |appended|
      invariant forall t: byte :: mark[t] == Opt(t, WantedData(seed, deleted, appended[..i], t))
    {
      assert appended[..i + 1][..i] == appended[..i];
      mark[appended[i].tag] := mark[appended[i].tag].(data := appended[i].data);
    }
    assert appended[..|appended|] == appended;
  }

  /** Every mark fits the UINT16 length field. */
  predicate Short(marks: Marks) {
    forall t: byte :: |marks[t]| < 0x1_0000
  }

  ghost predicate Shows(mark: array<Opt>, marks: Marks)
    reads mark
  {
    mark.Length == MAX_OPTIONS && forall t: byte :: mark[t] == Opt(t, marks[t])
  }

  /** The size of the packet to allocate. */
  method PacketSize(mark: array<Opt>, ghost marks: Marks) returns (size: nat)
    requires Shows(mark, marks) && Short(marks)
    ensures size == PACKET_SIZE + PrintSize(marks, MAX_OPTIONS) < 0x1_0000_0000
  {
    size := PACKET_SIZE;
    for k := 0 to MAX_OPTIONS
      invariant size == PACKET_SIZE + PrintSize(marks, k) <= PACKET_SIZE + k * 0x2_0000
    {
      assert mark[k] == Opt(k, marks[k]) && |marks[k]| < 0x1_0000;
      if |mark[k].data| != 0 {
        size := size + ((|mark[k].data| + 254) / 255) * 2 + |mark[k].data|;
      }
    }
  }

  /** Writes all marked options and the end tag; they fill the buffer exactly. */
  method WriteOptions(mark: array<Opt>, buf: array<byte>, ghost marks: Marks) returns (pos: nat)
    requires Shows(mark, marks) && Short(marks)
    requires buf.Length == PrintSize(marks, MAX_OPTIONS) + 1
    requires buf as object != mark
    modifies buf
    ensures pos == buf.Length && buf[..] == PrintFrom(marks, 0)
  {
    hide PrintFrom, PrintSize, SplitSize, Split;
    ghost var goal := PrintFrom(marks, 0);
    pos := 0;
    PrintStart(marks);
    for k := 0 to MAX_OPTIONS
      invariant pos == PrintSize(marks, k)
      invariant pos + |PrintFrom(marks, k)| == buf.Length
      invariant goal == buf[..pos] + PrintFrom(marks, k)
    {
      assert mark[k] == Opt(k, marks[k]);
      PrintStep(marks, k);
      assert |marks[k]| < 0x1_0000;
      ghost var tail := PrintFrom(marks, k + 1);
      ghost var done := buf[..pos];
      if |mark[k].data| != 0 {
        pos := AppendOption(buf, pos, mark[k].tag, mark[k].data);
      }
      assert done + (Split(k, marks[k]) + tail) == done + Split(k, marks[k]) + tail;
    }
    buf[pos] := TAG_EOP;
    assert buf[..] == buf[..pos] + [TAG_EOP];
    pos := pos + 1;
  }

  lemma {:induction false} PrintStart(marks: Marks)
    ensures PrintSize(marks, 0) == 0
    ensures |PrintFrom(marks, 0)| == PrintSize(marks, MAX_OPTIONS) + 1
    ensures PrintFrom(marks, MAX_OPTIONS) == [TAG_EOP]
  {
    PrintLength(marks, 0);
  }

  lemma {:induction false} PrintStep(marks: Marks, k: byte)
    ensures PrintFrom(marks, k) == Split(k, marks[k]) + PrintFrom(marks, k + 1)
    ensures PrintSize(marks, k + 1) == PrintSize(marks, k) + SplitSize(|marks[k]|)
    ensures |Split(k, marks[k])| == SplitSize(|marks[k]|)
    ensures marks[k] == [] ==> Split(k, marks[k]) == [] && SplitSize(|marks[k]|) == 0
  {
    SplitLength(k, marks[k]);
  }

  lemma {:induction false} LastOfIsMember(opts: seq<Opt>, t: byte)
    requires LastOf(opts, t).Some?
    ensures Opt(t, LastOf(opts, t).value) in opts
  {
    if opts[|opts| - 1].tag == t {
      assert opts[|opts| - 1] == Opt(t, LastOf(opts, t).value);
    } else {
      LastOfIsMember(opts[..|opts| - 1], t);
    }
  }

  /** An entry of a parse carries scanned data, under a tag that a scan can produce. */
  lemma {:induction false} ParsedEntry(opts: seq<Opt>, r: nat)
    requires Plain(opts) && r < |Parsed(opts)|
    ensures |Parsed(opts)[r].data| <= DataSize(opts)
    ensures Parsed(opts)[r].tag != TAG_PAD && Parsed(opts)[r].tag != TAG_EOP
  {
    hide TagData, Rank, Start, Merged, Claimant;
    var m := Merged(opts, MAX_OPTIONS);
    var c := Claimant(opts, opts, 0);
    MergedEntry(opts, MAX_OPTIONS, r);
    TagDataBounded(opts, m[r].tag);
    var k := DataOccurs(opts, m[r].tag);
    assert opts[k] in opts;
    if c.Some? {
      ClaimantIsOneOf(opts, opts, 0);
      var i :| 0 <= i < |opts| && opts[i].tag == c.value;
      assert opts[i] in opts;
    }
  }

  lemma {:induction false} SeedDataBounded(opts: seq<Opt>, t: byte)
    requires Plain(opts)
    ensures |SeedData(Parsed(opts), t)| <= DataSize(opts)
    ensures t == TAG_PAD || t == TAG_EOP ==> SeedData(Parsed(opts), t) == []
  {
    hide Parsed, LastOf;
    if LastOf(Parsed(opts), t).Some? {
      LastOfIsMember(Parsed(opts), t);
      var r :| 0 <= r < |Parsed(opts)| && Parsed(opts)[r] == Opt(t, LastOf(Parsed(opts), t).value);
      ParsedEntry(opts, r);
    }
  }

  lemma {:induction false} WantedShort(opts: seq<Opt>, deleted: seq<byte>, appended: seq<Opt>)
    requires Plain(opts)
    requires forall o :: o in appended ==> |o.data| <= 255
    ensures Short(Wanted(Returned(opts), deleted, appended))
  {
    hide SeedData, LastOf, Parsed, DataSize;
    forall t: byte ensures |WantedData(Returned(opts), deleted, appended, t)| < 0x1_0000 {
      SeedDataBounded(opts, t);
      NoSeed(t);
      if LastOf(appended, t).Some? {
        LastOfIsMember(appended, t);
      }
    }
  }

  lemma {:induction false} NoSeed(t: byte)
    ensures SeedData([], t) == []
  {
  }

  /** Overlays the seed's options with the two lists. */
  method MarkAll(mark: array<Opt>, seed: seq<Opt>, deleted: seq<byte>, appended: seq<Opt>)
    requires mark.Length == MAX_OPTIONS
    requires forall t: byte :: mark[t] == Opt(t, [])
    modifies mark
    ensures Shows(mark, Wanted(seed, deleted, appended))
  {
    hide SeedData, KeptData, WantedData;
    MarkSeed(mark, seed);
    MarkDeleted(mark, deleted, seed);
    MarkAppended(mark, appended, seed, deleted);
  }

  /** Allocates and writes the new packet. */
  method Emit(mark: array<Opt>, header: seq<byte>, ghost marks: Marks, granted: bool)
    returns (packet: Option<Packet>)
    requires Shows(mark, marks) && Short(marks)
    ensures packet == if granted then Some(Rebuilt(header, marks)) else None
  {
    hide PrintFrom, PrintSize;
    var size := PacketSize(mark, marks);
    if !granted {
      return None;
    }
    var buf := new byte[size - (PACKET_SIZE - 1)];
    var pos := WriteOptions(mark, buf, marks);
    packet := Some(Packet(size, OPTION_AT + pos, header, buf[..]));
  }

  /**
   DhcpBuild. The flags say which allocations succeed: the mark array, the two
   of the parse, and the new packet.
   */
  method Build(seed: Packet, deleted: seq<byte>, appended: seq<Opt>,
               marksAllocated: bool, countersAllocated: bool, entriesAllocated: bool, packetAllocated: bool)
    returns (status: Status, packet: Option<Packet>)
    requires seed.Valid()
    requires PacketOptions(seed).Some? ==> Fits(PacketOptions(seed).value)
    requires forall o :: o in appended ==> |o.data| <= 255
    ensures !marksAllocated || !countersAllocated ==> status == OutOfResources && packet == None
    ensures marksAllocated && countersAllocated && PacketOptions(seed).None? ==>
              status == InvalidParameter && packet == None
    ensures marksAllocated && countersAllocated && PacketOptions(seed).Some? ==>
              var entries := Returned(PacketOptions(seed).value);
              if packetAllocated && (entriesAllocated || entries == []) then
                status == Success && packet == Some(Rebuilt(seed.header, Wanted(entries, deleted, appended)))
              else
                status == OutOfResources && packet == None
  {
    hide Returned, Wanted, Rebuilt, Short, Fits;
    packet := None;
    if !marksAllocated {
      return OutOfResources, packet;
    }
    var mark := new Opt[MAX_OPTIONS](t => Opt(if 0 <= t < MAX_OPTIONS then t else 0, []));
    var count, seedOptions;
    status, count, seedOptions := ParseOption(seed, countersAllocated, entriesAllocated);
    if status != Success {
      return;
    }
    ghost var opts := PacketOptions(seed).value;
    PacketOptionsPlain(seed);
    var entries := if seedOptions.Some? then seedOptions.value else [];
    WantedShort(opts, deleted, appended);
    MarkAll(mark, entries, deleted, appended);
    packet := Emit(mark, seed.header, Wanted(entries, deleted, appended), packetAllocated);
    status := if packetAllocated then Success else OutOfResources;
  }
}
