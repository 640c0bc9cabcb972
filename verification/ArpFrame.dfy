/** The octets of an ARP frame as ArpSendFrame writes them and as the receive path takes them apart (RFC 826). */
module ArpFrame {
  import opened Bytes
  import opened ArpTypes

  const ARP_HEAD_SIZE := 8

  datatype Frame = Frame(hwType: nat, protoType: nat, opcode: nat,
                         senderHw: seq<byte>, senderProto: seq<byte>,
                         targetHw: seq<byte>, targetProto: seq<byte>)

  function Word(b: seq<byte>, at: nat): nat
    requires at + 2 <= |b|
  {
    b[at] as nat * 256 + b[at + 1] as nat
  }

  /** A 16-bit value in network byte order. */
  function NetWord(n: nat): seq<byte> {
    [n / 256 % 256, n % 256]
  }

  /** The length checks and pointer arithmetic of the receive path. */
  function Decode(b: seq<byte>): Option<Frame> {
    if |b| < ARP_HEAD_SIZE then None
    else
      var h, p := b[4] as nat, b[5] as nat;
      if |b| < ARP_HEAD_SIZE + 2 * h + 2 * p then None
      else
        Some(Frame(Word(b, 0), Word(b, 2), Word(b, 6),
                   b[8..8 + h], b[8 + h..8 + h + p],
                   b[8 + h + p..8 + 2 * h + p], b[8 + 2 * h + p..8 + 2 * h + 2 * p]))
  }

  /** The address lengths agree and every field fits its place on the wire. */
  ghost predicate Encodable(f: Frame) {
    && |f.senderHw| == |f.targetHw| < 256 && |f.senderProto| == |f.targetProto| < 256
    && f.hwType < 0x1_0000 && f.protoType < 0x1_0000 && f.opcode < 0x1_0000
  }

  function Head(f: Frame): seq<byte>
    requires Encodable(f)
  {
    NetWord(f.hwType) + NetWord(f.protoType) + [|f.senderHw|, |f.senderProto|] + NetWord(f.opcode)
  }

  /** The ARP packet proper, without the media header. */
  function Payload(f: Frame): seq<byte>
    requires Encodable(f)
  {
    Head(f) + f.senderHw + f.senderProto + f.targetHw + f.targetProto
  }

  lemma {:induction false} HeadFields(f: Frame)
    requires Encodable(f)
    ensures var h := Head(f);
            && |h| == ARP_HEAD_SIZE && h[4] == |f.senderHw| && h[5] == |f.senderProto|
            && Word(h, 0) == f.hwType && Word(h, 2) == f.protoType && Word(h, 6) == f.opcode
  {
  }

  /** The receive path recovers every field of a sent packet, whatever padding follows it. */
  lemma {:induction false} FrameRoundTrip(f: Frame, padding: seq<byte>)
    requires Encodable(f)
    ensures Decode(Payload(f) + padding) == Some(f)
  {
    hide Head;
    HeadFields(f);
    var h, p := |f.senderHw|, |f.senderProto|;
    var head := Head(f);
    var b := Payload(f) + padding;
    assert b[..8] == head;
    assert b[4] == head[4] && b[5] == head[5];
    assert Word(b, 0) == Word(head, 0) && Word(b, 2) == Word(head, 2) && Word(b, 6) == Word(head, 6);
    assert b[8..8 + h] == f.senderHw;
    assert b[8 + h..8 + h + p] == f.senderProto;
    assert b[8 + h + p..8 + 2 * h + p] == f.targetHw;
    assert b[8 + 2 * h + p..8 + 2 * h + 2 * p] == f.targetProto;
  }

  /** The 28 octets of ARP for IPv4 over Ethernet, field by field (RFC 826). */
  lemma {:induction false} EthernetLayout(b: seq<byte>)
    requires |b| >= 28 && b[4] == 6 && b[5] == 4
    ensures Decode(b) == Some(Frame(b[0] as nat * 256 + b[1] as nat, b[2] as nat * 256 + b[3] as nat,
                                    b[6] as nat * 256 + b[7] as nat, b[8..14], b[14..18], b[18..24], b[24..28]))
  {
  }

  lemma {:induction false} WordInverse(x: byte, y: byte)
    ensures NetWord(x as nat * 256 + y as nat) == [x, y]
  {
  }

  lemma {:induction false} HeadInverse(b: seq<byte>)
    requires Decode(b).Some?
    ensures Encodable(Decode(b).value) && Head(Decode(b).value) == b[..8]
  {
    WordInverse(b[0], b[1]);
    WordInverse(b[2], b[3]);
    WordInverse(b[6], b[7]);
    hide NetWord;
  }

  lemma {:induction false} Slices(b: seq<byte>, i: nat, j: nat, k: nat, l: nat, m: nat)
    requires i <= j <= k <= l <= m <= |b|
    ensures b[..i] + b[i..j] + b[j..k] + b[k..l] + b[l..m] == b[..m]
  {
  }

  /** Conversely, a packet that decodes starts with the encoding of what it decodes to. */
  lemma {:induction false} DecodeInverse(b: seq<byte>)
    requires Decode(b).Some?
    ensures Encodable(Decode(b).value)
    ensures Payload(Decode(b).value) <= b
  {
    hide Head, Word;
    var h, p := b[4] as nat, b[5] as nat;
    HeadInverse(b);
    Slices(b, 8, 8 + h, 8 + h + p, 8 + 2 * h + p, 8 + 2 * h + 2 * p);
  }

  // ---------- Writing the frame ----------

  /** CopyMem into the packet, returning the advanced pointer. */
  method Put(packet: array<byte>, at: nat, data: seq<byte>) returns (next: nat)
    requires at + |data| <= packet.Length
    modifies packet
    ensures next == at + |data|
    ensures packet[..next] == old(packet[..at]) + data
  {
    forall k | 0 <= k < |data| {
      packet[at + k] := data[k];
    }
    next := at + |data|;
  }

  /** The frame that an instance sends about a cache entry. */
  function FrameFor(link: Link, current: seq<byte>, c: Config, e: Entry, opcode: nat): Frame {
    Frame(link.ifType, c.swType, opcode, Read(current, link.hwSize), Read(c.station, c.swLen),
          Read(e.hw.bytes, link.hwSize), Read(e.proto.bytes, c.swLen))
  }

  function MediaHeader(link: Link, current: seq<byte>, e: Entry, opcode: nat): seq<byte> {
    Read(if opcode == OPCODE_REQUEST then link.broadcast else e.hw.bytes, link.hwSize)
    + Read(current, link.hwSize) + NetWord(ARP_ETHER_PROTO_TYPE)
  }

  /**
   The frame buffer of ArpSendFrame. `mediaHeaderSize` comes from the driver
   below; the fields fill the buffer exactly when it is two addresses and a type.
   */
  method BuildFrame(link: Link, current: seq<byte>, mediaHeaderSize: nat, c: Config, e: Entry, opcode: nat)
    returns (packet: array<byte>, filled: nat)
    requires Encodable(FrameFor(link, current, c, e, opcode))
    requires mediaHeaderSize >= 2 * link.hwSize + 2
    ensures fresh(packet)
    ensures packet.Length == mediaHeaderSize + ARP_HEAD_SIZE + 2 * (c.swLen + link.hwSize)
    ensures filled <= packet.Length
    ensures packet[..filled] == MediaHeader(link, current, e, opcode) + Payload(FrameFor(link, current, c, e, opcode))
    ensures var n := link.hwSize;
            && packet[..n] == Read(if opcode == 1 then link.broadcast else e.hw.bytes, n)
            && packet[n..2 * n] == Read(current, n) && packet[2 * n..2 * n + 2] == [8, 6]
    ensures filled == packet.Length <==> mediaHeaderSize == 2 * link.hwSize + 2
    ensures filled == packet.Length ==>
              Decode(packet[mediaHeaderSize..]) ==
              Some(Frame(link.ifType, c.swType, opcode, Read(current, link.hwSize), Read(c.station, c.swLen),
                         Read(e.hw.bytes, link.hwSize), Read(e.proto.bytes, c.swLen)))
  {
    var f := FrameFor(link, current, c, e, opcode);
    hide Head, MediaHeader, Payload, Decode;
    packet := new byte[mediaHeaderSize + ARP_HEAD_SIZE + 2 * (c.swLen + link.hwSize)];
    filled := PutMediaHeader(packet, link, current, e, opcode);
    filled := PutPayload(packet, filled, f);
    HeaderFirst(link, current, e, opcode, Payload(f), packet[..]);
    if filled == packet.Length {
      ghost var h, p := MediaHeader(link, current, e, opcode), Payload(f);
      assert packet[..] == h + p;
      assert (h + p)[|h|..] == p == p + [];
      FrameRoundTrip(f, []);
    }
  }

  /** Destination, source and type, where a receiver looks for them. */
  lemma {:induction false} HeaderFirst(link: Link, current: seq<byte>, e: Entry, opcode: nat, p: seq<byte>, b: seq<byte>)
    requires MediaHeader(link, current, e, opcode) + p <= b
    ensures var n := link.hwSize;
            && |b| >= 2 * n + 2
            && b[..n] == Read(if opcode == 1 then link.broadcast else e.hw.bytes, n)
            && b[n..2 * n] == Read(current, n) && b[2 * n..2 * n + 2] == [8, 6]
  {
    var n := link.hwSize;
    var to := Read(if opcode == 1 then link.broadcast else e.hw.bytes, n);
    var h := to + Read(current, n) + [8, 6];
    assert MediaHeader(link, current, e, opcode) == h;
    assert h <= b;
    assert h[..n] == to && h[n..2 * n] == Read(current, n) && h[2 * n..2 * n + 2] == [8, 6];
    assert b[..n] == h[..n] && b[n..2 * n] == h[n..2 * n] && b[2 * n..2 * n + 2] == h[2 * n..2 * n + 2];
  }

  method PutMediaHeader(packet: array<byte>, link: Link, current: seq<byte>, e: Entry, opcode: nat) returns (at: nat)
    requires packet.Length >= 2 * link.hwSize + 2
    modifies packet
    ensures at == 2 * link.hwSize + 2 && packet[..at] == MediaHeader(link, current, e, opcode)
  {
    if opcode == OPCODE_REQUEST {
      at := Put(packet, 0, Read(link.broadcast, link.hwSize));
    } else {
      at := Put(packet, 0, Read(e.hw.bytes, link.hwSize));
    }
    at := Put(packet, at, Read(current, link.hwSize));
    at := Put(packet, at, NetWord(ARP_ETHER_PROTO_TYPE));
  }

  method PutPayload(packet: array<byte>, start: nat, f: Frame) returns (at: nat)
    requires Encodable(f)
    requires start + ARP_HEAD_SIZE + 2 * (|f.senderProto| + |f.senderHw|) <= packet.Length
    modifies packet
    ensures at == start + ARP_HEAD_SIZE + 2 * (|f.senderProto| + |f.senderHw|)
    ensures packet[..at] == old(packet[..start]) + Payload(f)
  {
    hide Head;
    HeadFields(f);
    ghost var before := packet[..start];
    at := Put(packet, start, Head(f));
    at := Put(packet, at, f.senderHw);
    at := Put(packet, at, f.senderProto);
    at := Put(packet, at, f.targetHw);
    at := Put(packet, at, f.targetProto);
    assert packet[..at] == before + Payload(f);
  }
}
