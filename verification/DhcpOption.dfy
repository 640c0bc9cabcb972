/**
 The wire form of DHCPv4 options: packets, and what a scan of their option
 buffers sees (section 4.1 of RFC 2131 for the overload order, section 9.3 of
 RFC 2132 for the overload option).
 */
module DhcpOption {
  import opened Bytes

  const TAG_PAD: byte := 0
  const TAG_EOP: byte := 255
  const TAG_OVERLOAD: byte := 52

  const OVERLOAD_FILENAME: byte := 1
  const OVERLOAD_SVRNAME: byte := 2
  const OVERLOAD_BOTH: byte := 3

  const MAX_OPTIONS := 256

  // EFI_DHCP4_HEADER: ServerName sits at offset 44, BootFileName at offset 108.
  const HEADER_SIZE := 236
  const SNAME_AT := 44
  const FILE_AT := 108

  // Header plus the magic cookie, which Packet->Length also covers.
  const OPTION_AT := 240

  // sizeof (EFI_DHCP4_PACKET): Size, Length, header, cookie and one option octet.
  const PACKET_SIZE := 249

  /** One option as the scanner hands it to a callback, or one entry of a parse. */
  datatype Opt = Opt(tag: byte, data: seq<byte>)

  /** `length` counts from the header on; `option` is the memory at Dhcp4.Option. */
  datatype Packet = Packet(size: nat, length: nat, header: seq<byte>, option: seq<byte>) {
    ghost predicate Valid() {
      |header| == HEADER_SIZE && length - OPTION_AT <= |option|
    }

    function OptionField(): seq<byte>
      requires Valid()
    {
      if length < OPTION_AT then [] else option[..length - OPTION_AT]
    }

    function File(): seq<byte>
      requires Valid()
    {
      header[FILE_AT..]
    }

    function Sname(): seq<byte>
      requires Valid()
    {
      header[SNAME_AT..FILE_AT]
    }
  }

  datatype Scan = Malformed | Scanned(opts: seq<Opt>, overload: byte) {
    function After(seen: seq<Opt>): Scan {
      if Malformed? then Malformed else Scanned(seen + opts, overload)
    }
  }

  /** What a scan of one buffer sees. `track` says that the caller wants the overload value. */
  function ScanBuffer(b: seq<byte>, track: bool, overload: byte): Scan
    decreases |b|
  {
    if b == [] then Malformed
    else if b[0] == TAG_PAD then ScanBuffer(b[1..], track, overload)
    else if b[0] == TAG_EOP then Scanned([], overload)
    else if |b| == 1 || 2 + b[1] > |b| then Malformed
    else if b[0] == TAG_OVERLOAD && track && b[1] != 1 then Malformed
    else
      ScanBuffer(b[2 + b[1]..], track, if b[0] == TAG_OVERLOAD && track then b[2] else overload)
      .After([Opt(b[0], b[2..2 + b[1]])])
  }

  /** A header field read as options, when the overload value asks for it. */
  function ScanField(wanted: bool, field: seq<byte>): Scan {
    if wanted then ScanBuffer(field, false, 0) else Scanned([], 0)
  }

  predicate UsesFile(overload: byte) {
    overload == OVERLOAD_FILENAME || overload == OVERLOAD_BOTH
  }

  predicate UsesSname(overload: byte) {
    overload == OVERLOAD_SVRNAME || overload == OVERLOAD_BOTH
  }

  /** Every option of a packet in the order option field, file, sname; None if any part is malformed. */
  function PacketOptions(p: Packet): Option<seq<Opt>>
    requires p.Valid()
  {
    var s := ScanBuffer(p.OptionField(), true, 0);
    if s.Malformed? then None else
    var f := ScanField(UsesFile(s.overload), p.File());
    if f.Malformed? then None else
    var n := ScanField(UsesSname(s.overload), p.Sname());
    if n.Malformed? then None else
    Some(s.opts + f.opts + n.opts)
  }

  /** Octets of data that a list of options carries. */
  function DataSize(opts: seq<Opt>): nat {
    if opts == [] then 0 else DataSize(opts[..|opts| - 1]) + |opts[|opts| - 1].data|
  }

  /** No scanned option is tagged pad or end, and each fits the one-octet length field. */
  ghost predicate Plain(opts: seq<Opt>) {
    forall o :: o in opts ==> o.tag != TAG_PAD && o.tag != TAG_EOP && |o.data| <= 255
  }

  lemma {:induction false} ScanIsPlain(b: seq<byte>, track: bool, overload: byte)
    ensures ScanBuffer(b, track, overload).Scanned? ==> Plain(ScanBuffer(b, track, overload).opts)
    decreases |b|
  {
    if b == [] || b[0] == TAG_EOP {
    } else if b[0] == TAG_PAD {
      ScanIsPlain(b[1..], track, overload);
    } else if |b| == 1 || 2 + b[1] > |b| || (b[0] == TAG_OVERLOAD && track && b[1] != 1) {
    } else {
      ScanIsPlain(b[2 + b[1]..], track, if b[0] == TAG_OVERLOAD && track then b[2] else overload);
    }
  }

  lemma {:induction false} DataSizeAppend(a: seq<Opt>, b: seq<Opt>)
    ensures DataSize(a + b) == DataSize(a) + DataSize(b)
  {
    if b == [] {
      assert a + b == a;
    } else {
      assert (a + b)[..|a + b| - 1] == a + b[..|b| - 1];
      DataSizeAppend(a, b[..|b| - 1]);
    }
  }

  /** A scan never reports more data than the buffer holds. */
  lemma {:induction false} ScanFitsBuffer(b: seq<byte>, track: bool, overload: byte)
    ensures ScanBuffer(b, track, overload).Scanned? ==> DataSize(ScanBuffer(b, track, overload).opts) <= |b|
    decreases |b|
  {
    if b == [] || b[0] == TAG_EOP {
    } else if b[0] == TAG_PAD {
      ScanFitsBuffer(b[1..], track, overload);
    } else if |b| == 1 || 2 + b[1] > |b| || (b[0] == TAG_OVERLOAD && track && b[1] != 1) {
    } else {
      var o := Opt(b[0], b[2..2 + b[1]]);
      var rest := ScanBuffer(b[2 + b[1]..], track, if b[0] == TAG_OVERLOAD && track then b[2] else overload);
      ScanFitsBuffer(b[2 + b[1]..], track, if b[0] == TAG_OVERLOAD && track then b[2] else overload);
      if rest.Scanned? {
        DataSizeAppend([o], rest.opts);
        assert [o][..0] == [];
      }
    }
  }

  lemma {:induction false} PacketOptionsPlain(p: Packet)
    requires p.Valid() && PacketOptions(p).Some?
    ensures Plain(PacketOptions(p).value)
  {
    var s := ScanBuffer(p.OptionField(), true, 0);
    ScanIsPlain(p.OptionField(), true, 0);
    ScanIsPlain(p.File(), false, 0);
    ScanIsPlain(p.Sname(), false, 0);
  }

  /**
   Every packet that fits one UDP datagram keeps its option data below 65536
   octets, which is what the UINT16 counters of the parser rely on.
   */
  lemma {:induction false} DatagramKeepsCountersExact(p: Packet)
    requires p.Valid() && PacketOptions(p).Some?
    requires p.length < 0x1_0000
    ensures DataSize(PacketOptions(p).value) < 0x1_0000
  {
    var s := ScanBuffer(p.OptionField(), true, 0);
    var f := ScanField(UsesFile(s.overload), p.File());
    var n := ScanField(UsesSname(s.overload), p.Sname());
    ScanFitsBuffer(p.OptionField(), true, 0);
    ScanFitsBuffer(p.File(), false, 0);
    ScanFitsBuffer(p.Sname(), false, 0);
    DataSizeAppend(s.opts, f.opts);
    DataSizeAppend(s.opts + f.opts, n.opts);
  }
}
