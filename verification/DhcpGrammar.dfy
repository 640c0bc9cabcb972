/**
 What a scan reads, by the wire format alone: a buffer is pads and options up to
 an end tag, and the overload number says which header fields follow (section
 4.1 of RFC 2131, section 9.3 of RFC 2132).
 */
module DhcpGrammar {
  import opened Bytes
  import opened DhcpOption

  /** One element of an option buffer. */
  datatype Item = Pad | Item(o: Opt)

  function Wire(items: seq<Item>): seq<byte>
    requires Writable(items)
  {
    if items == [] then []
    else
      (if items[0].Pad? then [0] else [items[0].o.tag, |items[0].o.data|] + items[0].o.data) + Wire(items[1..])
  }

  /** Options are tagged 1 to 254 and have at most 255 octets. */
  ghost predicate Writable(items: seq<Item>) {
    forall i :: 0 <= i < |items| && items[i].Item? ==> 0 < items[i].o.tag < 255 && |items[i].o.data| <= 255
  }

  function OptionsOf(items: seq<Item>): seq<Opt> {
    if items == [] then [] else (if items[0].Pad? then [] else [items[0].o]) + OptionsOf(items[1..])
  }

  /** Overload options, where they count, are one octet long. */
  ghost predicate Orderly(items: seq<Item>, track: bool) {
    track ==> forall i :: 0 <= i < |items| && items[i].Item? && items[i].o.tag == 52 ==> |items[i].o.data| == 1
  }

  /** The number in the last overload option, where they count. */
  function Number(items: seq<Item>, track: bool, start: byte): byte {
    if items == [] then start
    else if items[0].Item? && items[0].o.tag == 52 && track && |items[0].o.data| == 1 then
      Number(items[1..], track, items[0].o.data[0])
    else Number(items[1..], track, start)
  }

  /** What a scan of these items, an end tag and anything behind it must see. */
  ghost function Seen(items: seq<Item>, track: bool, start: byte): Scan {
    if Orderly(items, track) then Scanned(OptionsOf(items), Number(items, track, start)) else Malformed
  }

  lemma {:induction false} SeenPad(rest: seq<Item>, track: bool, start: byte)
    ensures Seen([Pad] + rest, track, start) == Seen(rest, track, start)
  {
    var items := [Pad] + rest;
    assert items[1..] == rest;
    assert Orderly(items, track) <==> Orderly(rest, track) by {
      forall i | 0 <= i < |rest| ensures items[i + 1] == rest[i] {
      }
    }
    assert [] + OptionsOf(rest) == OptionsOf(rest);
  }

  lemma {:induction false} SeenItem(o: Opt, rest: seq<Item>, track: bool, start: byte)
    ensures var next := if o.tag == 52 && track && |o.data| == 1 then o.data[0] else start;
            Seen([Item(o)] + rest, track, start) ==
            if o.tag == 52 && track && |o.data| != 1 then Malformed else Seen(rest, track, next).After([o])
  {
    var items := [Item(o)] + rest;
    assert items[1..] == rest && items[0] == Item(o);
    assert Orderly(items, track) <==> Orderly(rest, track) && (o.tag == 52 && track ==> |o.data| == 1) by {
      forall i | 0 <= i < |rest| ensures items[i + 1] == rest[i] {
      }
    }
  }

  lemma {:induction false} TailWritable(items: seq<Item>)
    requires Writable(items) && items != []
    ensures Writable(items[1..])
  {
  }

  /** The scan of any well formed buffer. */
  lemma {:induction false} ScanWire(items: seq<Item>, behind: seq<byte>, track: bool, start: byte)
    requires Writable(items)
    ensures ScanBuffer(Wire(items) + [255] + behind, track, start) == Seen(items, track, start)
    decreases |items|
  {
    var b := Wire(items) + [255] + behind;
    if items == [] {
      assert b[0] == 255;
    } else {
      var rest := items[1..];
      TailWritable(items);
      hide Seen;
      assert items == [items[0]] + rest;
      var tail := Wire(rest) + [255] + behind;
      if items[0].Pad? {
        assert b == [0] + tail;
        assert b[1..] == tail;
        SeenPad(rest, track, start);
        ScanWire(rest, behind, track, start);
      } else {
        var o := items[0].o;
        assert b == [o.tag, |o.data|] + o.data + tail;
        assert b[2..2 + b[1]] == o.data && b[2 + b[1]..] == tail;
        SeenItem(o, rest, track, start);
        ScanWire(rest, behind, track, if o.tag == 52 && track && |o.data| == 1 then o.data[0] else start);
      }
    }
  }

  lemma {:induction false} WirePad(rest: seq<Item>)
    requires Writable(rest)
    ensures Writable([Pad] + rest) && Wire([Pad] + rest) == [0] + Wire(rest)
  {
    assert ([Pad] + rest)[1..] == rest;
  }

  lemma {:induction false} WireItem(o: Opt, rest: seq<Item>)
    requires Writable(rest) && 0 < o.tag < 255 && |o.data| <= 255
    ensures Writable([Item(o)] + rest) && Wire([Item(o)] + rest) == [o.tag, |o.data|] + o.data + Wire(rest)
  {
    assert ([Item(o)] + rest)[1..] == rest;
  }

  /** How a buffer that scans begins. */
  lemma {:induction false} ScanBegins(b: seq<byte>, track: bool, start: byte)
    requires ScanBuffer(b, track, start).Scanned?
    ensures b != []
    ensures b[0] == 0 ==> ScanBuffer(b[1..], track, start).Scanned?
    ensures 0 < b[0] < 255 ==>
              && |b| >= 2 && 2 + b[1] as nat <= |b|
              && (b[0] == 52 && track ==> b[1] == 1)
              && ScanBuffer(b[2 + b[1] as nat..], track, if b[0] == 52 && track then b[2] else start).Scanned?
  {
  }

  /** Whatever scans is a well formed buffer. */
  lemma {:induction false} WireOfScan(b: seq<byte>, track: bool, start: byte) returns (items: seq<Item>, behind: seq<byte>)
    requires ScanBuffer(b, track, start).Scanned?
    ensures Writable(items) && b == Wire(items) + [255] + behind
    decreases |b|
  {
    hide ScanBuffer, Wire, Writable;
    ScanBegins(b, track, start);
    if b[0] == 255 {
      items, behind := [], b[1..];
      WireEnd(b);
    } else if b[0] == 0 {
      var rest;
      rest, behind := WireOfScan(b[1..], track, start);
      items := [Pad] + rest;
      WirePad(rest);
      Regroup([0], Wire(rest), [255], behind);
      Front(b, 1);
      assert b[..1] == [0];
    } else {
      var rest;
      var n: nat := 2 + b[1] as nat;
      rest, behind := WireOfScan(b[n..], track, if b[0] == 52 && track then b[2] else start);
      var o := Opt(b[0], b[2..n]);
      items := [Item(o)] + rest;
      WireItem(o, rest);
      Regroup([o.tag, |o.data|] + o.data, Wire(rest), [255], behind);
      Front(b, n);
      assert b[..n] == [o.tag, |o.data|] + o.data;
    }
  }

  lemma {:induction false} WireEnd(b: seq<byte>)
    requires b != [] && b[0] == 255
    ensures Writable([]) && b == Wire([]) + [255] + b[1..]
  {
  }

  lemma {:induction false} Front(b: seq<byte>, n: nat)
    requires n <= |b|
    ensures b == b[..n] + b[n..]
  {
  }

  lemma {:induction false} Regroup(a: seq<byte>, w: seq<byte>, end: seq<byte>, behind: seq<byte>)
    ensures a + (w + end + behind) == (a + w) + end + behind
  {
  }

  /**
   A scan succeeds exactly on buffers of pads and orderly options with an end tag
   behind them, and then sees those options in order and the last overload number.
   */
  lemma {:induction false} ScanExact(b: seq<byte>, track: bool, start: byte)
    ensures ScanBuffer(b, track, start).Scanned? <==>
            exists items, behind :: Writable(items) && Orderly(items, track) && b == Wire(items) + [255] + behind
    ensures forall items, behind :: Writable(items) && b == Wire(items) + [255] + behind ==>
              ScanBuffer(b, track, start) == Seen(items, track, start)
  {
    hide ScanBuffer, Wire, Writable;
    forall items, behind | Writable(items) && b == Wire(items) + [255] + behind
      ensures ScanBuffer(b, track, start) == Seen(items, track, start)
    {
      ScanWire(items, behind, track, start);
    }
    if ScanBuffer(b, track, start).Scanned? {
      var items, behind := WireOfScan(b, track, start);
      assert Writable(items) && b == Wire(items) + [255] + behind;
    }
  }

  // ---------- Which buffers a packet has ----------

  /** Two scans, one after the other. */
  function Then(first: Scan, second: Scan): Option<seq<Opt>> {
    if first.Malformed? || second.Malformed? then None else Some(first.opts + second.opts)
  }

  /**
   The options of a packet, by the number that the overload option of its option
   field gives: 1 adds the boot file field, 2 the server name field, 3 both in
   that order, and anything else neither.
   */
  lemma {:induction false} OverloadByNumber(p: Packet)
    requires p.Valid()
    ensures p.length <= 240 ==> PacketOptions(p) == None
    ensures p.length > 240 ==>
              var s := ScanBuffer(p.option[..p.length - 240], true, 0);
              var file := ScanBuffer(p.header[108..236], false, 0);
              var sname := ScanBuffer(p.header[44..108], false, 0);
              PacketOptions(p) ==
              if s.Malformed? then None
              else if s.overload == 1 then Then(s, file)
              else if s.overload == 2 then Then(s, sname)
              else if s.overload == 3 then
                if Then(s, file).None? || sname.Malformed? then None else Some(Then(s, file).value + sname.opts)
              else Some(s.opts)
  {
    if p.length <= 240 {
      assert p.OptionField() == [];
    } else {
      hide ScanBuffer;
      assert p.OptionField() == p.option[..p.length - 240];
      assert p.header[108..] == p.header[108..236];
      var s := ScanBuffer(p.OptionField(), true, 0);
      if s.Scanned? {
        assert s.opts + [] + [] == s.opts;
        var f := ScanField(UsesFile(s.overload), p.File());
        var n := ScanField(UsesSname(s.overload), p.Sname());
        if f.Scanned? && n.Scanned? {
          assert s.opts + f.opts + [] == s.opts + f.opts && s.opts + [] + n.opts == s.opts + n.opts;
        }
      }
    }
  }
}
