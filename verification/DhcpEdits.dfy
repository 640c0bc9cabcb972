/** What DhcpBuild makes of the two lists: deletions, replacements and additions, entry by entry. */
module DhcpEdits {
  import opened Bytes
  import opened DhcpOption
  import opened DhcpMerge
  import opened DhcpParse
  import opened DhcpBuild
  import opened DhcpRoundTrip

  /** The option is the last in the list with its tag. */
  ghost predicate LastWithTag(appended: seq<Opt>, i: int) {
    0 <= i < |appended| && forall j :: i < j < |appended| ==> appended[j].tag != appended[i].tag
  }

  ghost predicate NoneWithTag(opts: seq<Opt>, t: byte) {
    forall j :: 0 <= j < |opts| ==> opts[j].tag != t
  }

  /** No entry of a deleted tag that is not appended again. */
  ghost predicate DeletionsGone(deleted: seq<byte>, appended: seq<Opt>, got: seq<Opt>) {
    forall t: byte :: t in deleted && NoneWithTag(appended, t) ==> NoneWithTag(got, t)
  }

  /** Entries of tags in neither list are those of the seed. */
  ghost predicate OthersKept(seed: seq<Opt>, deleted: seq<byte>, appended: seq<Opt>, got: seq<Opt>) {
    forall o: Opt :: o.tag !in deleted && NoneWithTag(appended, o.tag) ==> (o in got <==> o in seed)
  }

  /** The last appended option of a tag is the entry of that tag; an empty one leaves none. */
  ghost predicate AppendsWin(appended: seq<Opt>, got: seq<Opt>) {
    forall i, o: Opt :: LastWithTag(appended, i) && o.tag == appended[i].tag ==>
      (o in got <==> o == appended[i] && o.data != [])
  }

  ghost predicate TagsAscend(got: seq<Opt>) {
    forall j, k :: 0 <= j < k < |got| ==> got[j].tag < got[k].tag
  }

  /** `got` is the seed's entries with the two lists applied. */
  ghost predicate Edited(seed: seq<Opt>, deleted: seq<byte>, appended: seq<Opt>, got: seq<Opt>) {
    && TagsAscend(got)
    && DeletionsGone(deleted, appended, got)
    && OthersKept(seed, deleted, appended, got)
    && AppendsWin(appended, got)
  }

  /** Entries as a parse returns them: one per tag, none empty. */
  ghost predicate Proper(entries: seq<Opt>) {
    && (forall j, k :: 0 <= j < k < |entries| ==> entries[j].tag != entries[k].tag)
    && (forall j :: 0 <= j < |entries| ==> entries[j].data != [])
  }

  lemma {:induction false} ReturnedProper(opts: seq<Opt>)
    ensures Proper(Returned(opts))
  {
    hide Parsed, Merged, DataSize, TagData;
    var entries := Parsed(opts);
    ParseIsConcatenation(opts);
    forall j | 0 <= j < |entries| ensures entries[j].data != [] {
      MergedEntry(opts, MAX_OPTIONS, j);
    }
    forall j, k | 0 <= j < k < |entries| ensures entries[j].tag != entries[k].tag {
      ParsedTagsDistinct(opts, j, k);
    }
  }

  // ---------- The last option of a tag ----------

  lemma {:induction false} LastOfAt(opts: seq<Opt>, i: nat)
    requires LastWithTag(opts, i)
    ensures LastOf(opts, opts[i].tag) == Some(opts[i].data)
  {
    if i < |opts| - 1 {
      LastOfAt(opts[..|opts| - 1], i);
    }
  }

  lemma {:induction false} LastOfNone(opts: seq<Opt>, t: byte)
    requires NoneWithTag(opts, t)
    ensures LastOf(opts, t).None?
  {
    if opts != [] {
      LastOfNone(opts[..|opts| - 1], t);
    }
  }

  lemma {:induction false} SeedDataProper(seed: seq<Opt>, o: Opt)
    requires Proper(seed)
    ensures o in seed <==> o.data != [] && SeedData(seed, o.tag) == o.data
  {
    hide LastOf;
    if o in seed {
      var i :| 0 <= i < |seed| && seed[i] == o;
      LastOfAt(seed, i);
    }
    if LastOf(seed, o.tag).Some? {
      LastOfIsMember(seed, o.tag);
    }
  }

  // ---------- The listing of a mark array ----------

  lemma {:induction false} ListedMember(marks: Marks, t: nat, o: Opt)
    requires t <= MAX_OPTIONS
    ensures o in Listed(marks, t) <==> o.tag < t && o.data != [] && marks[o.tag] == o.data
  {
    if t > 0 {
      ListedMember(marks, t - 1, o);
    }
  }

  lemma {:induction false} ListedAscends(marks: Marks, t: nat)
    requires t <= MAX_OPTIONS
    ensures TagsAscend(Listed(marks, t))
    ensures forall j :: 0 <= j < |Listed(marks, t)| ==> Listed(marks, t)[j].tag < t
  {
    if t > 0 {
      ListedAscends(marks, t - 1);
    }
  }

  /** What the rebuilt packet is to hold is the seed with the lists applied. */
  lemma {:induction false} ListedIsEdited(seed: seq<Opt>, deleted: seq<byte>, appended: seq<Opt>)
    requires Proper(seed)
    ensures Edited(seed, deleted, appended, Listed(Wanted(seed, deleted, appended), MAX_OPTIONS))
  {
    hide Listed, SeedData, LastOf, Proper, NoneWithTag, LastWithTag;
    var marks := Wanted(seed, deleted, appended);
    var got := Listed(marks, MAX_OPTIONS);
    ListedAscends(marks, MAX_OPTIONS);
    forall t: byte | t in deleted && NoneWithTag(appended, t) ensures NoneWithTag(got, t) {
      LastOfNone(appended, t);
      NotListed(marks, t);
    }
    forall o: Opt | o.tag !in deleted && NoneWithTag(appended, o.tag) ensures o in got <==> o in seed {
      LastOfNone(appended, o.tag);
      ListedMember(marks, MAX_OPTIONS, o);
      SeedDataProper(seed, o);
    }
    AppendedListed(seed, deleted, appended);
  }

  lemma {:induction false} AppendedListed(seed: seq<Opt>, deleted: seq<byte>, appended: seq<Opt>)
    ensures AppendsWin(appended, Listed(Wanted(seed, deleted, appended), MAX_OPTIONS))
  {
    hide Listed, SeedData, LastOf;
    var marks := Wanted(seed, deleted, appended);
    forall i, o: Opt | LastWithTag(appended, i) && o.tag == appended[i].tag
      ensures o in Listed(marks, MAX_OPTIONS) <==> o == appended[i] && o.data != []
    {
      LastOfAt(appended, i);
      ListedMember(marks, MAX_OPTIONS, o);
    }
  }

  lemma {:induction false} NotListed(marks: Marks, t: byte)
    requires marks[t] == []
    ensures NoneWithTag(Listed(marks, MAX_OPTIONS), t)
  {
    hide Listed;
    var got := Listed(marks, MAX_OPTIONS);
    forall j | 0 <= j < |got| ensures got[j].tag != t {
      ListedMember(marks, MAX_OPTIONS, got[j]);
      assert got[j] in got;
    }
  }

  /**
   DhcpBuild and then DhcpParseOption on its result, all allocations succeeding:
   the parse returns exactly what the result was to hold if and only if its
   overload option is quiet and its data below 65536 octets. What comes back then
   is the seed's entries with the two lists applied.
   */
  method BuildAndParse(seed: Packet, deleted: seq<byte>, appended: seq<Opt>)
    returns (status: Status, count: nat, entries: Option<seq<Opt>>)
    requires seed.Valid() && PacketOptions(seed).Some? && Fits(PacketOptions(seed).value)
    requires forall o :: o in appended ==> o.tag != TAG_PAD && o.tag != TAG_EOP && |o.data| <= 255
    requires FitsAgain(seed.header, Wanted(Returned(PacketOptions(seed).value), deleted, appended))
    ensures var marks := Wanted(Returned(PacketOptions(seed).value), deleted, appended);
            && (Returns(status, count, entries, Listed(marks, MAX_OPTIONS)) <==>
                Quiet(seed.header, marks) && DataSize(Listed(marks, MAX_OPTIONS)) < 0x1_0000)
            && (marks[TAG_OVERLOAD] == [] ==> Quiet(seed.header, marks))
            && (Quiet(seed.header, marks) && DataSize(Listed(marks, MAX_OPTIONS)) < 0x1_0000 ==>
                var got := if entries.Some? then entries.value else [];
                && status == Success && count == |got|
                && Edited(Returned(PacketOptions(seed).value), deleted, appended, got))
  {
    hide Edited, Proper, PacketOptions, Returned, Wanted, Rebuilt, Listed, HeaderScan, DataSize, Sendable, Fits, Quiet;
    ghost var opts := PacketOptions(seed).value;
    ghost var marks := Wanted(Returned(opts), deleted, appended);
    PacketOptionsPlain(seed);
    ReturnedSendable(opts, deleted, appended);
    ReturnedAgain(seed.header, marks);
    ReturnedProper(opts);
    ListedIsEdited(Returned(opts), deleted, appended);
    if marks[TAG_OVERLOAD] == [] {
      NoOverloadIsQuiet(seed.header, marks);
    }
    var packet;
    status, packet := Build(seed, deleted, appended, true, true, true, true);
    status, count, entries := ParseOption(packet.value, true, true);
  }
}
