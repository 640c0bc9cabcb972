/** The table of option formats and its binary search. */
module DhcpFormat {
  import opened Bytes
  import opened DhcpOption

  const TAG_MSG_TYPE: byte := 53

  datatype Kind = Switch | Int8 | Int16 | Int32 | Ip | IpPair

  /** DHCP_OPTION_FORMAT; an occurrence bound of -1 stands for none. */
  datatype Format = Format(tag: byte, kind: Kind, minOccur: int, maxOccur: int, alert: bool)

  // The rows of DhcpOptionFormats, five at a time.

  function Rows0(): seq<Format> {
    [Format(1, Ip, 1, 1, true), Format(2, Int32, 1, 1, false), Format(3, Ip, 1, -1, true),
     Format(4, Ip, 1, -1, false), Format(5, Ip, 1, -1, false)]
  }

  function Rows1(): seq<Format> {
    [Format(6, Ip, 1, -1, false), Format(7, Ip, 1, -1, false), Format(8, Ip, 1, -1, false),
     Format(9, Ip, 1, -1, false), Format(10, Ip, 1, -1, false)]
  }

  function Rows2(): seq<Format> {
    [Format(11, Ip, 1, -1, false), Format(12, Int8, 1, -1, false), Format(13, Int16, 1, 1, false),
     Format(14, Int8, 1, -1, false), Format(15, Int8, 1, -1, false)]
  }

  function Rows3(): seq<Format> {
    [Format(16, Ip, 1, 1, false), Format(17, Int8, 1, -1, false), Format(18, Int8, 1, -1, false),
     Format(19, Switch, 1, 1, false), Format(20, Switch, 1, 1, false)]
  }

  function Rows4(): seq<Format> {
    [Format(21, IpPair, 1, -1, false), Format(22, Int16, 1, 1, false), Format(23, Int8, 1, 1, false),
     Format(24, Int32, 1, 1, false), Format(25, Int16, 1, -1, false)]
  }

  function Rows5(): seq<Format> {
    [Format(26, Int16, 1, 1, false), Format(27, Switch, 1, 1, false), Format(28, Ip, 1, 1, false),
     Format(29, Switch, 1, 1, false), Format(30, Switch, 1, 1, false)]
  }

  function Rows6(): seq<Format> {
    [Format(31, Switch, 1, 1, false), Format(32, Ip, 1, 1, false), Format(33, IpPair, 1, -1, false),
     Format(34, Switch, 1, 1, false), Format(35, Int32, 1, 1, false)]
  }

  function Rows7(): seq<Format> {
    [Format(36, Switch, 1, 1, false), Format(37, Int8, 1, 1, false), Format(38, Int32, 1, 1, false),
     Format(39, Switch, 1, 1, false), Format(40, Int8, 1, -1, false)]
  }

  function Rows8(): seq<Format> {
    [Format(41, Ip, 1, -1, false), Format(42, Ip, 1, -1, false), Format(43, Int8, 1, -1, false),
     Format(44, Ip, 1, -1, false), Format(45, Ip, 1, -1, false)]
  }

  function Rows9(): seq<Format> {
    [Format(46, Int8, 1, 1, false), Format(47, Int8, 1, -1, false), Format(48, Ip, 1, -1, false),
     Format(49, Ip, 1, -1, false), Format(50, Ip, 1, 1, false)]
  }

  function Rows10(): seq<Format> {
    [Format(51, Int32, 1, 1, true), Format(52, Int8, 1, 1, true), Format(53, Int8, 1, 1, true),
     Format(54, Ip, 1, 1, true), Format(55, Int8, 1, -1, false)]
  }

  function Rows11(): seq<Format> {
    [Format(56, Int8, 1, -1, false), Format(57, Int16, 1, 1, false), Format(58, Int32, 1, 1, true),
     Format(59, Int32, 1, 1, true), Format(60, Int8, 1, -1, false)]
  }

  function Rows12(): seq<Format> {
    [Format(61, Int8, 2, -1, false), Format(64, Int8, 1, -1, false), Format(65, Ip, 1, -1, false),
     Format(66, Int8, 1, -1, false), Format(67, Int8, 1, -1, false)]
  }

  function Rows13(): seq<Format> {
    [Format(68, Ip, 0, -1, false), Format(69, Ip, 1, -1, false), Format(70, Ip, 1, -1, false),
     Format(71, Ip, 1, -1, false), Format(72, Ip, 1, -1, false)]
  }

  function Rows14(): seq<Format> {
    [Format(73, Ip, 1, -1, false), Format(74, Ip, 1, -1, false), Format(75, Ip, 1, -1, false),
     Format(76, Ip, 1, -1, false), Format(121, Int8, 5, -1, false)]
  }

  /** DhcpOptionFormats. */
  function Formats(): seq<Format> {
    Rows0() + Rows1() + Rows2() + Rows3() + Rows4() + Rows5() + Rows6() + Rows7()
    + Rows8() + Rows9() + Rows10() + Rows11() + Rows12() + Rows13() + Rows14()
  }

  // ---------- What the rows say ----------

  const ENTRIES := 75

  /** The tag of the i-th row: 1 to 61, 64 to 76, and 121. */
  function TagAt(i: nat): byte
    requires i < ENTRIES
  {
    if i < 61 then i + 1 else if i < 74 then i + 3 else 121
  }

  /** The row of a tag. */
  function RowOf(tag: byte): Option<nat> {
    if 1 <= tag <= 61 then Some(tag - 1)
    else if 64 <= tag <= 76 then Some(tag - 3)
    else if tag == 121 then Some(74)
    else None
  }

  /** The tags that the client inspects further. */
  predicate AlertOf(tag: byte) {
    tag in {1, 3, 51, 52, 53, 54, 58, 59}
  }

  /** How many octets of an inspected option the client reads. */
  function ReadSize(tag: byte): nat {
    if tag == TAG_OVERLOAD || tag == TAG_MSG_TYPE then 1 else if AlertOf(tag) then 4 else 0
  }

  function Unit(kind: Kind): (n: nat)
    ensures n > 0
  {
    match kind
    case Switch => 1
    case Int8 => 1
    case Int16 => 2
    case Int32 => 4
    case Ip => 4
    case IpPair => 8
  }

  /** The format alerts for its tag, and then demands at least the octets that are read. */
  predicate Sound(f: Format) {
    && (f.alert <==> AlertOf(f.tag))
    && (f.alert ==> f.minOccur >= 1 && Unit(f.kind) >= ReadSize(f.tag))
  }

  /** The unit in which each option counts (RFC 2132; RFC 3442 for tag 121). */
  function KindOf(tag: byte): Kind {
    if tag == 19 || tag == 20 || tag == 27 || 29 <= tag <= 31 || tag == 34 || tag == 36 || tag == 39 then Switch
    else if tag == 21 || tag == 33 then IpPair
    else if tag == 13 || tag == 22 || tag == 25 || tag == 26 || tag == 57 then Int16
    else if tag == 2 || tag == 24 || tag == 35 || tag == 38 || tag == 51 || tag == 58 || tag == 59 then Int32
    else if 1 <= tag <= 11 || tag == 16 || tag == 28 || tag == 32 || tag == 41 || tag == 42 || tag == 44 || tag == 45
            || 48 <= tag <= 50 || tag == 54 || tag == 65 || 68 <= tag <= 76 then Ip
    else Int8
  }

  /** Options that occur once have one unit; a client identifier has two at least, a classless route five. */
  predicate OccursOnce(tag: byte) {
    || tag == 1 || tag == 2 || tag == 13 || tag == 16 || 19 <= tag <= 20 || 22 <= tag <= 24 || 26 <= tag <= 32
    || 34 <= tag <= 39 || tag == 46 || 50 <= tag <= 54 || 57 <= tag <= 59
  }

  /** The row says what the documentation of its option says. */
  predicate Documented(f: Format) {
    && f.kind == KindOf(f.tag)
    && f.maxOccur == (if OccursOnce(f.tag) then 1 else -1)
    && f.minOccur == (if f.tag == 61 then 2 else if f.tag == 68 then 0 else if f.tag == 121 then 5 else 1)
  }

  /** `rows` may stand in the table from row `at` on. */
  ghost predicate RowsAt(rows: seq<Format>, at: nat) {
    && at + |rows| <= ENTRIES
    && forall i :: 0 <= i < |rows| ==> rows[i].tag == TagAt(at + i) && Sound(rows[i]) && Documented(rows[i])
  }

  lemma {:induction false} Rows0Fit()
    ensures |Rows0()| == 5 && RowsAt(Rows0(), 0)
  {
  }

  lemma {:induction false} Rows1Fit()
    ensures |Rows1()| == 5 && RowsAt(Rows1(), 5)
  {
  }

  lemma {:induction false} Rows2Fit()
    ensures |Rows2()| == 5 && RowsAt(Rows2(), 10)
  {
  }

  lemma {:induction false} Rows3Fit()
    ensures |Rows3()| == 5 && RowsAt(Rows3(), 15)
  {
  }

  lemma {:induction false} Rows4Fit()
    ensures |Rows4()| == 5 && RowsAt(Rows4(), 20)
  {
  }

  lemma {:induction false} Rows5Fit()
    ensures |Rows5()| == 5 && RowsAt(Rows5(), 25)
  {
  }

  lemma {:induction false} Rows6Fit()
    ensures |Rows6()| == 5 && RowsAt(Rows6(), 30)
  {
  }

  lemma {:induction false} Rows7Fit()
    ensures |Rows7()| == 5 && RowsAt(Rows7(), 35)
  {
  }

  lemma {:induction false} Rows8Fit()
    ensures |Rows8()| == 5 && RowsAt(Rows8(), 40)
  {
  }

  lemma {:induction false} Rows9Fit()
    ensures |Rows9()| == 5 && RowsAt(Rows9(), 45)
  {
  }

  lemma {:induction false} Rows10Fit()
    ensures |Rows10()| == 5 && RowsAt(Rows10(), 50)
  {
  }

  lemma {:induction false} Rows11Fit()
    ensures |Rows11()| == 5 && RowsAt(Rows11(), 55)
  {
  }

  lemma {:induction false} Rows12Fit()
    ensures |Rows12()| == 5 && RowsAt(Rows12(), 60)
  {
  }

  lemma {:induction false} Rows13Fit()
    ensures |Rows13()| == 5 && RowsAt(Rows13(), 65)
  {
  }

  lemma {:induction false} Rows14Fit()
    ensures |Rows14()| == 5 && RowsAt(Rows14(), 70)
  {
  }

  lemma {:induction false} RowsAtAppend(a: seq<Format>, b: seq<Format>, at: nat)
    requires RowsAt(a, at) && RowsAt(b, at + |a|)
    ensures RowsAt(a + b, at)
  {
    hide TagAt, Sound, Documented;
    forall i | 0 <= i < |a + b|
      ensures (a + b)[i].tag == TagAt(at + i) && Sound((a + b)[i]) && Documented((a + b)[i])
    {
      if i >= |a| {
        assert (a + b)[i] == b[i - |a|];
      }
    }
  }

  lemma {:induction false} FormatsFit()
    ensures |Formats()| == ENTRIES && RowsAt(Formats(), 0)
  {
    hide RowsAt, Rows0, Rows1, Rows2, Rows3, Rows4, Rows5, Rows6, Rows7,
         Rows8, Rows9, Rows10, Rows11, Rows12, Rows13, Rows14;
    var rows := Rows0();
    Rows0Fit();
    Rows1Fit();
    RowsAtAppend(rows, Rows1(), 0);
    rows := rows + Rows1();
    Rows2Fit();
    RowsAtAppend(rows, Rows2(), 0);
    rows := rows + Rows2();
    Rows3Fit();
    RowsAtAppend(rows, Rows3(), 0);
    rows := rows + Rows3();
    Rows4Fit();
    RowsAtAppend(rows, Rows4(), 0);
    rows := rows + Rows4();
    Rows5Fit();
    RowsAtAppend(rows, Rows5(), 0);
    rows := rows + Rows5();
    Rows6Fit();
    RowsAtAppend(rows, Rows6(), 0);
    rows := rows + Rows6();
    Rows7Fit();
    RowsAtAppend(rows, Rows7(), 0);
    rows := rows + Rows7();
    Rows8Fit();
    RowsAtAppend(rows, Rows8(), 0);
    rows := rows + Rows8();
    Rows9Fit();
    RowsAtAppend(rows, Rows9(), 0);
    rows := rows + Rows9();
    Rows10Fit();
    RowsAtAppend(rows, Rows10(), 0);
    rows := rows + Rows10();
    Rows11Fit();
    RowsAtAppend(rows, Rows11(), 0);
    rows := rows + Rows11();
    Rows12Fit();
    RowsAtAppend(rows, Rows12(), 0);
    rows := rows + Rows12();
    Rows13Fit();
    RowsAtAppend(rows, Rows13(), 0);
    rows := rows + Rows13();
    Rows14Fit();
    RowsAtAppend(rows, Rows14(), 0);
    rows := rows + Rows14();
  }

  /** Strictly ascending by tag. */
  ghost predicate Sorted(table: seq<Format>) {
    forall i, j :: 0 <= i < j < |table| ==> table[i].tag < table[j].tag
  }

  lemma {:induction false} FormatsSorted()
    ensures Sorted(Formats())
  {
    hide Formats, Sound, Documented;
    FormatsFit();
  }

  /** The reference: look at every entry. */
  function Lookup(table: seq<Format>, tag: byte): Option<Format> {
    if table == [] then None
    else if table[0].tag == tag then Some(table[0])
    else Lookup(table[1..], tag)
  }

  lemma {:induction false} LookupAt(table: seq<Format>, i: nat)
    requires Sorted(table) && i < |table|
    ensures Lookup(table, table[i].tag) == Some(table[i])
  {
    if i > 0 {
      LookupAt(table[1..], i - 1);
      assert table[1..][i - 1] == table[i];
    }
  }

  lemma {:induction false} LookupNone(table: seq<Format>, tag: byte)
    requires forall i :: 0 <= i < |table| ==> table[i].tag != tag
    ensures Lookup(table, tag) == None
  {
    if table != [] {
      LookupNone(table[1..], tag);
    }
  }

  /** Looking up a tag finds its row, and nothing for a tag without one; what is found is sound. */
  lemma {:induction false} LookupFormats(tag: byte)
    ensures |Formats()| == ENTRIES
    ensures Lookup(Formats(), tag) == if RowOf(tag).Some? then Some(Formats()[RowOf(tag).value]) else None
    ensures var f := Lookup(Formats(), tag);
            && (f.Some? ==> f.value.tag == tag && Sound(f.value) && Documented(f.value))
            && (AlertOf(tag) ==> f.Some?)
  {
    hide Formats, Lookup, Sound, Documented;
    FormatsFit();
    FormatsSorted();
    if RowOf(tag).Some? {
      LookupAt(Formats(), RowOf(tag).value);
    } else {
      LookupNone(Formats(), tag);
    }
  }

  /** DhcpFindOptionFormat: the binary search finds what looking at every entry finds. */
  method FindOptionFormat(table: seq<Format>, tag: byte) returns (r: Option<Format>)
    requires Sorted(table)
    ensures r == Lookup(table, tag)
  {
    hide Lookup;
    var left, right := 0, |table| - 1;
    while right >= left
      invariant 0 <= left && right < |table| && left <= right + 1
      invariant forall i :: 0 <= i < left ==> table[i].tag != tag
      invariant forall i :: right < i < |table| ==> table[i].tag != tag
    {
      var middle := (left + right) / 2;
      if tag == table[middle].tag {
        LookupAt(table, middle);
        return Some(table[middle]);
      }
      if tag < table[middle].tag {
        right := middle - 1;
      } else {
        left := middle + 1;
      }
    }
    LookupNone(table, tag);
    r := None;
  }

  // ---------- One option against its format ----------

  ghost predicate Conforms(f: Format, data: seq<byte>) {
    && |data| % Unit(f.kind) == 0
    && (f.minOccur != -1 ==> f.minOccur <= |data| / Unit(f.kind))
    && (f.maxOccur != -1 ==> |data| / Unit(f.kind) <= f.maxOccur)
    && (f.kind.Switch? ==> forall i :: 0 <= i < |data| ==> data[i] == 0 || data[i] == 1)
  }

  /** How often the option's unit may occur in `n` octets of `unit` each. */
  ghost predicate Occurs(f: Format, n: nat, unit: nat)
    requires unit > 0
  {
    n % unit == 0 && (f.minOccur == -1 || n / unit >= f.minOccur) && (f.maxOccur == -1 || n / unit <= f.maxOccur)
  }

  /** Switches and 8-bit numbers are one octet, then 2, 4, 4 for an address and 8 for a pair; switches are 0 or 1. */
  lemma {:induction false} ConformsByKind(f: Format, data: seq<byte>)
    ensures f.kind.Switch? ==>
              (Conforms(f, data) <==> Occurs(f, |data|, 1) && forall i :: 0 <= i < |data| ==> data[i] in {0, 1})
    ensures f.kind.Int8? ==> (Conforms(f, data) <==> Occurs(f, |data|, 1))
    ensures f.kind.Int16? ==> (Conforms(f, data) <==> Occurs(f, |data|, 2))
    ensures f.kind.Int32? || f.kind.Ip? ==> (Conforms(f, data) <==> Occurs(f, |data|, 4))
    ensures f.kind.IpPair? ==> (Conforms(f, data) <==> Occurs(f, |data|, 8))
  {
  }

  /** DhcpOptionIsValid. */
  method OptionIsValid(f: Format, data: seq<byte>) returns (valid: bool)
    ensures valid <==> Conforms(f, data)
  {
    var unit := Unit(f.kind);
    if |data| % unit != 0 {
      return false;
    }
    var occur := |data| / unit;
    if (f.minOccur != -1 && occur < f.minOccur) || (f.maxOccur != -1 && occur > f.maxOccur) {
      return false;
    }
    if f.kind.Switch? {
      for i := 0 to occur
        invariant forall k :: 0 <= k < i ==> data[k] == 0 || data[k] == 1
      {
        if data[i] != 0 && data[i] != 1 {
          return false;
        }
      }
    }
    valid := true;
  }
}
