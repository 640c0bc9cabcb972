/** Validating a packet's options and reading the parameters that the client needs. */
module DhcpValidate {
  import opened Bytes
  import opened DhcpOption
  import opened DhcpMerge
  import opened DhcpParse
  import opened DhcpFormat
  import opened DhcpBuild

  const TAG_NETMASK: byte := 1
  const TAG_ROUTER: byte := 3
  const TAG_LEASE: byte := 51
  const TAG_SERVER_ID: byte := 54
  const TAG_T1: byte := 58
  const TAG_T2: byte := 59

  /** DHCP_PARAMETER, in host byte order; zero where the option is absent. */
  datatype Parameter = Parameter(netMask: nat, router: nat, dhcpType: nat, overload: nat,
                                 serverId: nat, lease: nat, t1: nat, t2: nat) {
    /** The field that belongs to a tag. */
    function Field(tag: byte): nat {
      if tag == TAG_NETMASK then netMask
      else if tag == TAG_ROUTER then router
      else if tag == TAG_LEASE then lease
      else if tag == TAG_OVERLOAD then overload
      else if tag == TAG_MSG_TYPE then dhcpType
      else if tag == TAG_SERVER_ID then serverId
      else if tag == TAG_T1 then t1
      else if tag == TAG_T2 then t2
      else 0
    }
  }

  // ---------- The reference: big-endian numbers ----------

  function BigEndian(data: seq<byte>): nat {
    if data == [] then 0 else BigEndian(data[..|data| - 1]) * 256 + data[|data| - 1]
  }

  function Lead(data: seq<byte>, n: nat): seq<byte> {
    if |data| <= n then data else data[..n]
  }

  /** The number that an option with this tag announces: its leading octets, most significant first. */
  function Announced(tag: byte, data: seq<byte>): nat {
    BigEndian(Lead(data, ReadSize(tag)))
  }

  /** The overload and message type values that DhcpGetParameter lets pass. */
  predicate InRange(tag: byte, data: seq<byte>) {
    && (tag == TAG_OVERLOAD ==> 1 <= Announced(tag, data) <= 3)
    && (tag == TAG_MSG_TYPE ==> 1 <= Announced(tag, data) <= 9)
  }

  // ---------- Reading one parameter ----------

  /** NetGetUint32. */
  function Uint32(data: seq<byte>): nat
    requires |data| >= 4
  {
    ((data[0] as nat * 256 + data[1] as nat) * 256 + data[2] as nat) * 256 + data[3] as nat
  }

  lemma {:induction false} BigEndianSnoc(data: seq<byte>, n: nat)
    requires n < |data|
    ensures BigEndian(data[..n + 1]) == BigEndian(data[..n]) * 256 + data[n]
  {
    assert data[..n + 1][..n] == data[..n];
  }

  lemma {:induction false} Uint32IsBigEndian(data: seq<byte>)
    requires |data| >= 4
    ensures Uint32(data) == BigEndian(data[..4])
  {
    hide BigEndian;
    assert BigEndian(data[..0]) == 0 by {
      NoOctets();
      assert data[..0] == [];
    }
    BigEndianSnoc(data, 0);
    BigEndianSnoc(data, 1);
    BigEndianSnoc(data, 2);
    BigEndianSnoc(data, 3);
  }

  lemma {:induction false} NoOctets()
    ensures BigEndian([]) == 0
  {
  }

  lemma {:induction false} AnnouncedWord(tag: byte, data: seq<byte>)
    requires ReadSize(tag) == 4 <= |data|
    ensures Announced(tag, data) == Uint32(data)
  {
    Uint32IsBigEndian(data);
    assert Lead(data, 4) == data[..4];
  }

  lemma {:induction false} AnnouncedOctet(tag: byte, data: seq<byte>)
    requires ReadSize(tag) == 1 <= |data|
    ensures Announced(tag, data) == data[0]
  {
    BigEndianSnoc(data, 0);
    assert Lead(data, 1) == data[..1];
    assert data[..0] == [];
  }

  /**
   DhcpGetParameter. It sets the field of the tag to the announced number and
   no other; it reports an error exactly for a number out of range.
   */
  method GetParameter(tag: byte, data: seq<byte>, p: Parameter) returns (status: Status, q: Parameter)
    requires |data| >= ReadSize(tag)
    ensures status == if InRange(tag, data) then Success else InvalidParameter
    ensures status == Success <==> (tag == 52 ==> 1 <= data[0] <= 3) && (tag == 53 ==> 1 <= data[0] <= 9)
    ensures AlertOf(tag) ==> q.Field(tag) == Announced(tag, data)
    ensures forall t :: t != tag ==> q.Field(t) == p.Field(t)
    ensures tag == 1 ==> q == p.(netMask := BigEndian(data[..4]))
    ensures tag == 3 ==> q == p.(router := BigEndian(data[..4]))
    ensures tag == 51 ==> q == p.(lease := BigEndian(data[..4]))
    ensures tag == 52 ==> q == p.(overload := data[0])
    ensures tag == 53 ==> q == p.(dhcpType := data[0])
    ensures tag == 54 ==> q == p.(serverId := BigEndian(data[..4]))
    ensures tag == 58 ==> q == p.(t1 := BigEndian(data[..4]))
    ensures tag == 59 ==> q == p.(t2 := BigEndian(data[..4]))
    ensures tag !in {1, 3, 51, 52, 53, 54, 58, 59} ==> q == p
  {
    hide Announced, Uint32, BigEndian;
    status, q := Success, p;
    if ReadSize(tag) == 4 {
      AnnouncedWord(tag, data);
      Uint32IsBigEndian(data);
    } else if ReadSize(tag) == 1 {
      AnnouncedOctet(tag, data);
    }
    if tag == TAG_NETMASK {
      q := p.(netMask := Uint32(data));
    } else if tag == TAG_ROUTER {
      q := p.(router := Uint32(data));
    } else if tag == TAG_LEASE {
      q := p.(lease := Uint32(data));
    } else if tag == TAG_OVERLOAD {
      q := p.(overload := data[0]);
      if q.overload < 1 || q.overload > 3 {
        status := InvalidParameter;
      }
    } else if tag == TAG_MSG_TYPE {
      q := p.(dhcpType := data[0]);
      if q.dhcpType < 1 || q.dhcpType > 9 {
        status := InvalidParameter;
      }
    } else if tag == TAG_SERVER_ID {
      q := p.(serverId := Uint32(data));
    } else if tag == TAG_T1 {
      q := p.(t1 := Uint32(data));
    } else if tag == TAG_T2 {
      q := p.(t2 := Uint32(data));
    }
  }

  /** Data accepted under the format of its tag holds every octet that is read from it. */
  lemma {:induction false} ReadsInBounds(tag: byte, data: seq<byte>)
    requires var f := Lookup(Formats(), tag); f.Some? && f.value.alert && Conforms(f.value, data)
    ensures |data| >= ReadSize(tag)
  {
    LookupFormats(tag);
    hide Formats, Lookup, AlertOf, ReadSize;
    var f := Lookup(Formats(), tag).value;
    assert |data| / Unit(f.kind) >= 1;
  }

  // ---------- What a packet must satisfy, and what is reported ----------

  /** The option conforms to its format, if it has one. */
  ghost predicate Formed(e: Opt) {
    var f := Lookup(Formats(), e.tag);
    f.Some? ==> Conforms(f.value, e.data)
  }

  ghost predicate Acceptable(entries: seq<Opt>, wanted: bool) {
    forall e :: e in entries ==> Formed(e) && (wanted && AlertOf(e.tag) ==> InRange(e.tag, e.data))
  }

  predicate Interesting(entries: seq<Opt>) {
    exists e :: e in entries && AlertOf(e.tag)
  }

  /** Every field holds the number that its option announces, or zero if the option is absent. */
  ghost predicate Reports(p: Parameter, entries: seq<Opt>) {
    forall t: byte :: AlertOf(t) ==>
      p.Field(t) == if LastOf(entries, t).Some? then Announced(t, LastOf(entries, t).value) else 0
  }

  lemma {:induction false} LastOfSnoc(before: seq<Opt>, e: Opt, t: byte)
    ensures LastOf(before + [e], t) == if e.tag == t then Some(e.data) else LastOf(before, t)
  {
    assert (before + [e])[..|before|] == before;
  }

  lemma {:induction false} ReportsSnoc(before: seq<Opt>, e: Opt, p: Parameter, q: Parameter)
    requires Reports(p, before)
    requires AlertOf(e.tag) ==> q.Field(e.tag) == Announced(e.tag, e.data)
    requires forall t :: t != e.tag ==> q.Field(t) == p.Field(t)
    ensures Reports(q, before + [e])
  {
    hide LastOf, Announced, AlertOf;
    forall t: byte | AlertOf(t)
      ensures q.Field(t) == if LastOf(before + [e], t).Some? then Announced(t, LastOf(before + [e], t).value) else 0
    {
      LastOfSnoc(before, e, t);
    }
  }

  /** One round of the loop in DhcpValidateOptions. */
  method ValidateOption(e: Opt, wanted: bool, p: Parameter) returns (status: Status, updated: bool, q: Parameter)
    ensures status == Success <==> Acceptable([e], wanted)
    ensures status == Success || status == InvalidParameter
    ensures status == Success ==> updated == (wanted && AlertOf(e.tag))
    ensures !updated ==> q == p
    ensures updated ==> q.Field(e.tag) == Announced(e.tag, e.data)
    ensures updated ==> forall t :: t != e.tag ==> q.Field(t) == p.Field(t)
  {
    hide Announced, Conforms, InRange, Formats, Lookup, AlertOf;
    status, updated, q := Success, false, p;
    assert e in [e];
    FormatsSorted();
    LookupFormats(e.tag);
    var format := FindOptionFormat(Formats(), e.tag);
    if format.None? {
      return;
    }
    var valid := OptionIsValid(format.value, e.data);
    if !valid {
      status := InvalidParameter;
      return;
    }
    if format.value.alert && wanted {
      ReadsInBounds(e.tag, e.data);
      updated := true;
      status, q := GetParameter(e.tag, e.data, p);
    }
  }

  lemma {:induction false} AcceptableSplit(before: seq<Opt>, e: Opt, after: seq<Opt>, wanted: bool)
    ensures Acceptable(before + [e] + after, wanted) <==>
            Acceptable(before, wanted) && Acceptable([e], wanted) && Acceptable(after, wanted)
  {
    hide Formed, InRange, AlertOf;
    forall x ensures x in before + [e] + after <==> x in before || x in [e] || x in after {
    }
  }

  lemma {:induction false} StepAccepted(before: seq<Opt>, e: Opt, wanted: bool, p: Parameter, q: Parameter)
    requires Acceptable(before, wanted) && Acceptable([e], wanted)
    requires wanted ==> Reports(p, before)
    requires wanted && AlertOf(e.tag) ==> q.Field(e.tag) == Announced(e.tag, e.data)
    requires forall t :: t != e.tag ==> q.Field(t) == p.Field(t)
    ensures Acceptable(before + [e], wanted)
    ensures wanted ==> Reports(q, before + [e])
    ensures Interesting(before + [e]) <==> Interesting(before) || AlertOf(e.tag)
  {
    hide Acceptable, Reports, AlertOf, Announced;
    assert before + [e] + [] == before + [e];
    AcceptableSplit(before, e, [], wanted);
    NothingReported(wanted);
    if wanted {
      ReportsSnoc(before, e, p, q);
    }
    if AlertOf(e.tag) {
      assert e in before + [e];
    }
    if x :| x in before && AlertOf(x.tag) {
      assert x in before + [e];
    }
  }

  lemma {:induction false} NothingReported(wanted: bool)
    ensures Acceptable([], wanted) && Reports(Parameter(0, 0, 0, 0, 0, 0, 0, 0), [])
  {
    hide Formed, InRange, AlertOf, Announced;
  }

  /** The loop of DhcpValidateOptions. */
  method ValidateEntries(entries: seq<Opt>, wanted: bool, copyAllocated: bool)
    returns (status: Status, para: Option<Parameter>)
    ensures status == InvalidParameter <==> !Acceptable(entries, wanted)
    ensures status == OutOfResources <==> Acceptable(entries, wanted) && wanted && Interesting(entries) && !copyAllocated
    ensures para.Some? <==> status == Success && wanted && Interesting(entries)
    ensures para.Some? ==> Reports(para.value, entries)
  {
    hide Acceptable, AlertOf, Announced, Reports;
    para := None;
    var updated, p := false, Parameter(0, 0, 0, 0, 0, 0, 0, 0);
    NothingReported(wanted);
    assert entries[..0] == [];
    for i := 0 to |entries|
      invariant Acceptable(entries[..i], wanted)
      invariant updated <==> wanted && Interesting(entries[..i])
      invariant wanted ==> Reports(p, entries[..i])
    {
      ghost var was := p;
      var u;
      status, u, p := ValidateOption(entries[i], wanted, p);
      assert entries == entries[..i] + [entries[i]] + entries[i + 1..];
      AcceptableSplit(entries[..i], entries[i], entries[i + 1..], wanted);
      if status != Success {
        return;
      }
      updated := updated || u;
      assert entries[..i + 1] == entries[..i] + [entries[i]];
      StepAccepted(entries[..i], entries[i], wanted, was, p);
    }
    assert entries[..|entries|] == entries;
    status := Success;
    if updated {
      if !copyAllocated {
        return OutOfResources, None;
      }
      para := Some(p);
    }
  }

  /**
   DhcpValidateOptions. The allocations may fail; `wanted` says that the caller
   asked for the parameters.
   */
  method ValidateOptions(p: Packet, wanted: bool, countersAllocated: bool, entriesAllocated: bool, copyAllocated: bool)
    returns (status: Status, para: Option<Parameter>)
    requires p.Valid()
    requires PacketOptions(p).Some? ==> Fits(PacketOptions(p).value)
    ensures status == InvalidParameter <==>
            countersAllocated &&
            (PacketOptions(p).None? || (entriesAllocated && !Acceptable(Returned(PacketOptions(p).value), wanted)))
    ensures para.Some? ==> status == Success && wanted && PacketOptions(p).Some?
    ensures status == Success && wanted ==>
              && PacketOptions(p).Some?
              && (para.Some? <==> Interesting(Returned(PacketOptions(p).value)))
              && (para.Some? ==> Reports(para.value, Returned(PacketOptions(p).value)))
    ensures status == OutOfResources <==>
            !countersAllocated ||
            (PacketOptions(p).Some? && Returned(PacketOptions(p).value) != [] &&
             (!entriesAllocated ||
              (Acceptable(Returned(PacketOptions(p).value), wanted) && wanted
               && Interesting(Returned(PacketOptions(p).value)) && !copyAllocated)))
  {
    hide Returned, Fits, Acceptable, Reports, PacketOptions, DataSize, AlertOf;
    para := None;
    var count, entries;
    status, count, entries := ParseOption(p, countersAllocated, entriesAllocated);
    NothingReported(wanted);
    if status != Success || count == 0 {
      return;
    }
    status, para := ValidateEntries(entries.value, wanted, copyAllocated);
  }

  /** What a report says about the two bounded fields. */
  lemma {:induction false} ReportedRanges(p: Parameter, entries: seq<Opt>)
    requires Acceptable(entries, true) && Reports(p, entries)
    ensures LastOf(entries, TAG_OVERLOAD).Some? ==> 1 <= p.overload <= 3
    ensures LastOf(entries, TAG_MSG_TYPE).Some? ==> 1 <= p.dhcpType <= 9
  {
    hide LastOf, Announced, Formed;
    assert p.Field(TAG_OVERLOAD) == p.overload && p.Field(TAG_MSG_TYPE) == p.dhcpType;
    if LastOf(entries, TAG_OVERLOAD).Some? {
      LastOfIsMember(entries, TAG_OVERLOAD);
    }
    if LastOf(entries, TAG_MSG_TYPE).Some? {
      LastOfIsMember(entries, TAG_MSG_TYPE);
    }
  }

  /** An overload or message type option carries a number that the client knows. */
  ghost predicate NumberKnown(e: Opt) {
    |e.data| > 0 ==> (e.tag == 52 ==> 1 <= e.data[0] <= 3) && (e.tag == 53 ==> 1 <= e.data[0] <= 9)
  }

  ghost predicate NumbersKnown(entries: seq<Opt>) {
    forall e :: e in entries ==> NumberKnown(e)
  }

  /**
   What is accepted, row by row of the format table: every option with a row obeys
   it, and if the parameters are wanted the two numbers are known ones.
   */
  lemma {:induction false} AcceptableMeans(entries: seq<Opt>, wanted: bool)
    ensures |Formats()| == 75
    ensures Acceptable(entries, wanted) <==>
            && (forall e, r :: e in entries && 0 <= r < 75 && Formats()[r].tag == e.tag ==> Conforms(Formats()[r], e.data))
            && (wanted ==> NumbersKnown(entries))
  {
    hide Conforms, Lookup, Formats, Announced, Sound, Documented, RowsAt;
    FormatsFit();
    forall e | e in entries
      ensures Formed(e) <==> forall r :: 0 <= r < 75 && Formats()[r].tag == e.tag ==> Conforms(Formats()[r], e.data)
      ensures Formed(e) ==> (InRange(e.tag, e.data) <==> NumberKnown(e))
    {
      FormedByRow(e);
      if Formed(e) {
        RangeByNumber(e);
      }
    }
  }

  lemma {:induction false} FormedByRow(e: Opt)
    ensures |Formats()| == 75
    ensures Formed(e) <==> forall r :: 0 <= r < 75 && Formats()[r].tag == e.tag ==> Conforms(Formats()[r], e.data)
  {
    hide Conforms, Lookup, Formats, Sound, Documented;
    FormatsFit();
    FormatsSorted();
    LookupFormats(e.tag);
    forall r | 0 <= r < 75 && Formats()[r].tag == e.tag ensures Lookup(Formats(), e.tag) == Some(Formats()[r]) {
      LookupAt(Formats(), r);
    }
  }

  lemma {:induction false} RangeByNumber(e: Opt)
    requires Formed(e)
    ensures InRange(e.tag, e.data) <==> NumberKnown(e)
  {
    hide Conforms, Lookup, Formats, Announced;
    if e.tag == 52 || e.tag == 53 {
      LookupFormats(e.tag);
      ReadsInBounds(e.tag, e.data);
      AnnouncedOctet(e.tag, e.data);
    }
  }
}
