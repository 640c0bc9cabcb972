# Verified models of the DHCPv4 option codec, the ARP service and the GbE descriptor rings

The project models three parts of the network stack and of its UNDI driver.

- **DHCPv4 options** (`Dhcp*.dfy`). A scanner runs over the option field and,
  when the overload option says so, over the file and server name fields of the
  header. A two-pass parser merges split options by key indexed counting. A
  rebuilder deletes, replaces and splits options, and a validator checks them
  against a format table. `DhcpOption`, `DhcpMerge` and `DhcpBuild` say what the
  bytes mean; the methods of `DhcpParse`, `DhcpBuild`, `DhcpFormat` and
  `DhcpValidate` are the loops over the arrays.
- **ARP service** (`Arp*.dfy`). `ArpSteps` gives every public call, the timer and
  a received frame as a function on the whole state. `ArpInvariant` proves what
  every step keeps; `ArpProperties`, `ArpDelivery` and `ArpTimer` prove what
  follows over whole runs, and `ArpCalls` and `ArpEffects` what each call hits,
  misses and leaves behind. `ArpService` is the service as a class whose loops
  update the tables in place, each call proved to be its step.
- **Descriptor rings** (`TxRing`, `TxOwnership`, `TxDriver`, `RxRing`, `RxDriver`,
  `MemCopy`).
  Producer, hardware and reclaimer are steps in any interleaving; the `Driver`
  modules are the routines on the arrays.

Allocation failures, results of other drivers and hardware write-backs are
arguments, so every statement holds for all of them.

## What the code does where one might expect otherwise

- An option that never carries data is not counted, so it is filed under entry 0
  and may give that entry its tag. `DhcpParse.ParseIsConcatenation` has the exact
  condition, `DhcpExamples.EmptyOptionMisnamesEntry` a packet.
- The comment on the parser promises a not-found status; the code returns success
  with a count of zero. The comment on ArpFlush speaks of one protocol type; the
  code flushes all types. The model follows the code.
- A rebuilt packet that keeps the overload option is scanned again into its copied
  header. `DhcpRoundTrip.RoundTrip` has the exact condition,
  `DhcpExamples.KeptOverloadBreaksRoundTrip` a packet.
- The two assertions that both caches are empty after a stop do not hold when every
  remaining child was reset before. `ArpProperties.StopAssertions` has the exact
  condition, `ArpExamples.StopLeavesEntry` a run.
- ArpAdd can leave an address pending and resolved at once by overwriting a deny
  entry. `ArpProperties.NextApart` has the exact condition,
  `ArpExamples.BothPendingAndResolved` a run.
- A fragmented send, or a linear one at address zero, records no mapping, and the
  reclaimer never gets past it. `TxRing.StuckIffBlocked` has the exact condition,
  `TxRing.BlockedAtOnce` two runs.
- An added protocol address that is all zero can still be denied afterwards.
  `ArpDelivery.AddThenRequest` has the exact condition,
  `ArpExamples.AddedZeroStaysDenied` a run.
- A receive buffer length of 32768 or more can make the copy leave its slot or cut
  the packet wrongly, because of the casts to 16 bits. `RxRing.GoodPacketDelivered`
  has the exact condition, `RxRing.LargeBufferOverruns` a run.
- The parser's 16-bit counters wrap at 65536 octets of option data.
  `DhcpBounds.FitsIff` has the exact condition for its memory to suffice,
  `DhcpExamples.LargePacketDoesNotFit` a packet.
- The first- and last-descriptor bits of a fragmented send are computed and then
  dropped, since the word is read again before the owner bit is set.
- A linear transmit reads its fragment count from the upper 16 bits of the frame
  address, with which it shares its place.

## Model

| member | source | states |
|---|---|---|
| `DhcpOption.ScanIsPlain` | NetworkPkg/Dhcp4Dxe/Dhcp4Option.c:309-365 | No scan, of any buffer, hands a pad or end tag or more than 255 octets to a callback. |
| `DhcpOption.ScanFitsBuffer` | NetworkPkg/Dhcp4Dxe/Dhcp4Option.c:309-365 | The data that a scan reports never exceeds the buffer it scanned. |
| `DhcpOption.PacketOptionsPlain` | NetworkPkg/Dhcp4Dxe/Dhcp4Option.c:383-436 | The same for a whole packet: option field, then file, then sname as the overload value asks. |
| `DhcpOption.DatagramKeepsCountersExact` | NetworkPkg/Dhcp4Dxe/Dhcp4Option.c:453-467 | Every packet shorter than 65536 octets carries less option data than that, so no 16-bit counter of the parser wraps on a UDP datagram. |
| `DhcpGrammar.ScanExact` | NetworkPkg/Dhcp4Dxe/Dhcp4Option.c:309-365 | A scan succeeds exactly on buffers that are pads and options up to an end tag, overload options one octet long where they count, and sees those options in order and the last overload number; said by the wire format alone. |
| `DhcpGrammar.OverloadByNumber` | NetworkPkg/Dhcp4Dxe/Dhcp4Option.c:383-436 | By the overload number: 1 adds header octets 108 to 235, 2 octets 44 to 107, 3 both in that order, anything else neither; any malformed part refuses the packet. |
| `DhcpExamples.ServerNameIsRead` | NetworkPkg/Dhcp4Dxe/Dhcp4Option.c:421-433 | A packet with overload number 2 whose server name field holds an option. |
| `DhcpMerge.MergedAt` | NetworkPkg/Dhcp4Dxe/Dhcp4Option.c:583-595 | Every tag with data has its entry in the concatenated listing, at the rank the counting pass assigns. |
| `DhcpMerge.MergedEntry` | NetworkPkg/Dhcp4Dxe/Dhcp4Option.c:583-595 | Conversely each entry of the listing is some tag with data, whole, at that rank. |
| `DhcpMerge.MergedAscending` | NetworkPkg/Dhcp4Dxe/Dhcp4Option.c:583-595 | The listing is strictly ascending by tag. |
| `DhcpMerge.SegmentsCoverData` | NetworkPkg/Dhcp4Dxe/Dhcp4Option.c:583-595 | The per-tag segments of the prefix sums together have exactly the size of all option data. |
| `DhcpMerge.SegmentsApart` | NetworkPkg/Dhcp4Dxe/Dhcp4Option.c:583-595 | What is written of one tag and the whole segment of another never overlap. |
| `DhcpMerge.CountStep` | NetworkPkg/Dhcp4Dxe/Dhcp4Option.c:453-467 | After counting one more option every counter is that tag's data size modulo 65536. |
| `DhcpMerge.FillStepSafe` | NetworkPkg/Dhcp4Dxe/Dhcp4Option.c:483-514 | The second pass writes inside the entry array and inside the value buffer, and its offset does not wrap. |
| `DhcpMerge.FillStep` | NetworkPkg/Dhcp4Dxe/Dhcp4Option.c:483-514 | One more option of the second pass lands behind the earlier octets of its own tag and leaves every other segment and entry as the layout wants it. |
| `DhcpParse.Context.constructor` | NetworkPkg/Dhcp4Dxe/Dhcp4Option.c:566-570 | A fresh counting table: nothing counted. |
| `DhcpParse.Context.GetOptionLen` | NetworkPkg/Dhcp4Dxe/Dhcp4Option.c:453-467 | The first callback on the counter array, in place. |
| `DhcpParse.Context.FillOption` | NetworkPkg/Dhcp4Dxe/Dhcp4Option.c:483-514 | The second callback on entries, buffer and counters, in place. |
| `DhcpParse.Context.IterateBufferOptions` | NetworkPkg/Dhcp4Dxe/Dhcp4Option.c:309-365 | The cursor loop succeeds exactly on buffers that scan, runs the callback on exactly the scanned options in order, and returns the overload value. |
| `DhcpParse.Context.IterateOptions` | NetworkPkg/Dhcp4Dxe/Dhcp4Option.c:383-436 | The same over the three buffers of a packet; the second pass meets the options of the first. |
| `DhcpParse.Context.AssignOffsets` | NetworkPkg/Dhcp4Dxe/Dhcp4Option.c:583-595 | The prefix-sum loop turns counters into entry indices and start offsets, in 16 bits for any data size; the 8-bit index never truncates; the totals are the number of counted tags and the data size modulo 65536. |
| `DhcpBounds.FillsSafelyIff` | NetworkPkg/Dhcp4Dxe/Dhcp4Option.c:586-619 | With something to fill, every write of the second pass stays inside the allocated entries and buffer if and only if the packet carries less than 65536 octets of option data. |
| `DhcpBounds.FitsIff` | NetworkPkg/Dhcp4Dxe/Dhcp4Option.c:586-619 | Fits, the condition under which the parser is modelled, is exact: it holds if and only if there is nothing to fill or the filling stays inside. |
| `DhcpExamples.LargePacketDoesNotFit` | NetworkPkg/Dhcp4Dxe/Dhcp4Option.c:590-591 | A packet with 258 full chunks of one option, which does not Fit. |
| `DhcpParse.ReadBack` | NetworkPkg/Dhcp4Dxe/Dhcp4Option.c:615-626 | Following the data pointers of the finished table yields the parse. |
| `DhcpParse.ParseOption` | NetworkPkg/Dhcp4Dxe/Dhcp4Option.c:545-631 | Status for every packet that Fits and every allocation outcome; on success one entry per tag with data, and its contents, or none when every counter wrapped to zero. |
| `DhcpParse.ParseIsConcatenation` | NetworkPkg/Dhcp4Dxe/Dhcp4Option.c:383-631 | The counting parse equals concatenation per tag, ascending, if and only if no option of a dataless tag precedes the first option of the lowest tag with data; otherwise only the tag of entry 0 differs, and it is that of the first such option. |
| `DhcpExamples.EmptyOptionMisnamesEntry` | NetworkPkg/Dhcp4Dxe/Dhcp4Option.c:504-507 | The packet with option field 7 0 3 1 9 255, whatever its header: the parse returns the data of option 3 under tag 7. |
| `DhcpBuild.SplitLength` | NetworkPkg/Dhcp4Dxe/Dhcp4Option.c:733-757 | Splitting n octets writes n + 2 ceil(n / 255) octets. |
| `DhcpBuild.PrintLength` | NetworkPkg/Dhcp4Dxe/Dhcp4Option.c:849-878 | All options and the end tag fill exactly the size computed for them. |
| `DhcpBuild.AppendOption` | NetworkPkg/Dhcp4Dxe/Dhcp4Option.c:733-757 | The chunk loop appends the split option at the position and returns the position after it. |
| `DhcpBuild.MarkSeed` | NetworkPkg/Dhcp4Dxe/Dhcp4Option.c:822-826 | The mark array holds the seed's entry for each tag. |
| `DhcpBuild.MarkDeleted` | NetworkPkg/Dhcp4Dxe/Dhcp4Option.c:831-833 | Deleted tags are emptied, all others kept. |
| `DhcpBuild.MarkAppended` | NetworkPkg/Dhcp4Dxe/Dhcp4Option.c:838-841 | The last appended option of a tag wins over deletion and seed. |
| `DhcpBuild.PacketSize` | NetworkPkg/Dhcp4Dxe/Dhcp4Option.c:849-855 | The size loop computes the printed size plus the packet structure and stays inside 32 bits. |
| `DhcpBuild.WriteOptions` | NetworkPkg/Dhcp4Dxe/Dhcp4Option.c:868-876 | The print loop fills the buffer exactly, with the options ascending and the end tag. |
| `DhcpBuild.Build` | NetworkPkg/Dhcp4Dxe/Dhcp4Option.c:777-890 | Status for every seed and allocation outcome; on success the packet printed from seed, deletions and appends over the seed's header. |
| `DhcpBuild.SeedDataBounded` | NetworkPkg/Dhcp4Dxe/Dhcp4Option.c:822-826 | A parsed seed puts nothing under the pad or end tag and no more data under a tag than it carries. |
| `DhcpRoundTrip.ScanSplit` | NetworkPkg/Dhcp4Dxe/Dhcp4Option.c:309-365 | Scanning a split option returns its chunks and goes on behind them; a split overload option in the option field is malformed. |
| `DhcpRoundTrip.ScanPrint` | NetworkPkg/Dhcp4Dxe/Dhcp4Option.c:309-365 | Scanning what was printed from any tag on returns exactly the printed chunks and the overload value. |
| `DhcpRoundTrip.ChunksMerge` | NetworkPkg/Dhcp4Dxe/Dhcp4Option.c:733-757 | Chunks of a split option merge back to its data. |
| `DhcpRoundTrip.ScanRebuilt` | NetworkPkg/Dhcp4Dxe/Dhcp4Option.c:383-436 | A scan of a rebuilt packet sees the printed chunks, then what its copied header still holds under the overload value, and fails exactly when that header or the overload option is malformed. |
| `DhcpRoundTrip.ParsedKeepsSize` | NetworkPkg/Dhcp4Dxe/Dhcp4Option.c:545-631 | Parsing conserves option data. |
| `DhcpRoundTrip.RebuiltFits` | NetworkPkg/Dhcp4Dxe/Dhcp4Option.c:849-878 | The rebuilt packet is well formed, its option field is the printed options, and its allocated size is its length and the two size fields. |
| `DhcpRoundTrip.RoundTrip` | NetworkPkg/Dhcp4Dxe/Dhcp4Option.c:545-890 | The merged listing of a rebuilt packet is exactly its options if and only if its overload option is absent, or is one octet and adds no data from the header. The parser computes this listing for data below 65536 octets. |
| `DhcpRoundTrip.BuildThenParse` | NetworkPkg/Dhcp4Dxe/Dhcp4Option.c:777-890 | The same for what is rebuilt from any seed that scans, any delete list and any append list with tags 1 to 254: ascending, the seed minus the deleted overridden by the appended. The calls compute these functions for data below 65536 octets, before and after. |
| `DhcpRoundTrip.RebuiltDataSize` | NetworkPkg/Dhcp4Dxe/Dhcp4Option.c:383-436 | The data in a rebuilt packet is what was printed plus what its header adds. |
| `DhcpEdits.ListedIsEdited` | NetworkPkg/Dhcp4Dxe/Dhcp4Option.c:822-841 | What the rebuilt packet is to hold, entry by entry and in ascending order: no entry of a tag deleted and not appended; the seed's own entry for a tag in neither list; for an appended tag the last appended data, and none if that is empty. |
| `DhcpEdits.BuildAndParse` | NetworkPkg/Dhcp4Dxe/Dhcp4Option.c:545-890 | The two calls, one after the other, on packets that Fit: the parse succeeds with exactly the wanted count and entries if and only if the overload option is quiet, as it is when there is none, and the data is below 65536 octets. What comes back is then the seed with deletions gone, appended options in place and all others kept. |
| `DhcpExamples.KeptOverloadBreaksRoundTrip` | NetworkPkg/Dhcp4Dxe/Dhcp4Option.c:866-866 | A seed with a host name in its file field: rebuilt without changes, it reads back with the name doubled. |
| `DhcpRoundTrip.NormalForm` | NetworkPkg/Dhcp4Dxe/Dhcp4Option.c:777-890 | Rebuilding a rebuilt packet with empty lists reproduces it octet for octet if and only if its overload option is quiet. |
| `DhcpFormat.FindOptionFormat` | NetworkPkg/Dhcp4Dxe/Dhcp4Option.c:114-141 | On every strictly sorted table the binary search finds what looking at every row finds. |
| `DhcpFormat.LookupFormats` | NetworkPkg/Dhcp4Dxe/Dhcp4Option.c:16-102 | Looking up a tag in the 75 rows finds its row, for tags 1 to 61, 64 to 76 and 121, and nothing for others; the row has the documented unit and occurrence bounds, alerts exactly for the eight tags that the client reads, and then demands at least the octets read. |
| `DhcpFormat.OptionIsValid` | NetworkPkg/Dhcp4Dxe/Dhcp4Option.c:155-220 | True exactly for whole units, an allowed number of them, and switch values 0 or 1. |
| `DhcpFormat.ConformsByKind` | NetworkPkg/Dhcp4Dxe/Dhcp4Option.c:168-217 | The check by kind of unit: 1, 1, 2, 4, 4 and 8 octets, whole units within the bounds, switches 0 or 1. |
| `DhcpValidate.Uint32IsBigEndian` | NetworkPkg/Dhcp4Dxe/Dhcp4Option.c:245-258 | Four octets read as the most-significant-first number that they spell. |
| `DhcpValidate.GetParameter` | NetworkPkg/Dhcp4Dxe/Dhcp4Option.c:236-290 | Sets the field of the tag to the number the option announces and no other field; fails exactly for an overload outside 1..3 or a message type outside 1..9; tag by tag which field that is. |
| `DhcpValidate.ReadsInBounds` | NetworkPkg/Dhcp4Dxe/Dhcp4Option.c:688-698 | Every octet that GetParameter reads lies inside data that passed the format check. |
| `DhcpValidate.ValidateEntries` | NetworkPkg/Dhcp4Dxe/Dhcp4Option.c:676-712 | The loop rejects exactly when some entry breaks its format or range; it reports parameters exactly when asked to and an interesting option is present, each field the announced number or zero. |
| `DhcpValidate.AcceptableMeans` | NetworkPkg/Dhcp4Dxe/Dhcp4Option.c:676-704 | What is accepted, said by the rows of the format table and the two number ranges. |
| `DhcpValidate.ValidateOptions` | NetworkPkg/Dhcp4Dxe/Dhcp4Option.c:646-717 | The same for every packet that Fits, with the exact status for each allocation outcome. |
| `DhcpParse.ParsedTagsDistinct` | NetworkPkg/Dhcp4Dxe/Dhcp4Option.c:545-631 | No two parsed entries share a tag, so each field has one source, empty options or not. |
| `DhcpValidate.ReportedRanges` | NetworkPkg/Dhcp4Dxe/Dhcp4Option.c:260-274 | A reported overload is in 1..3 and a reported message type in 1..9 whenever the option is present. |
| `ArpInvariant.NextInv` | NetworkPkg/ArpDxe/ArpMain.c:40-739 | Every step, with every outcome of allocations and foreign calls, keeps the invariant of the service: children well configured, pending entries with requests for their own address from live configured owners and zero hardware addresses, one pending entry per address, settled caches, one deny entry per non-zero address, requests conserved. |
| `ArpInvariant.ReachableInv` | NetworkPkg/ArpDxe/ArpDriver.c:557-781 | That invariant holds after every run from an empty service. |
| `ArpProperties.ExactlyOnce` | NetworkPkg/ArpDxe/ArpImpl.c:779-827 | After every run each request queued so far is linked to exactly one pending entry or was signalled exactly once, never both and never neither. |
| `ArpProperties.ListAssertions` | NetworkPkg/ArpDxe/ArpImpl.c:444-503 | After every run pending entries have requests, their owners are configured children that use that kind of address, cached entries have none, and nothing is pending without children. |
| `ArpProperties.StopAssertions` | NetworkPkg/ArpDxe/ArpDriver.c:501-515 | Destroying all children leaves nothing pending; the asserted emptiness of both caches holds if and only if they were empty or some child is still configured. |
| `ArpExamples.StopLeavesEntry` | NetworkPkg/ArpDxe/ArpDriver.c:512-515 | A run of four calls after which the asserted emptiness fails. |
| `ArpProperties.NextApart` | NetworkPkg/ArpDxe/ArpMain.c:180-265 | From an invariant state in which no address is both pending and resolved, a step breaks this if and only if it is an ArpAdd that overwrites a deny entry for an address still pending. |
| `ArpProperties.RunApart` | NetworkPkg/ArpDxe/ArpMain.c:563-640 | So in every run without such a call no address is ever both pending and resolved. |
| `ArpExamples.BothPendingAndResolved` | NetworkPkg/ArpDxe/ArpMain.c:180-265 | A run of five calls after which an address is both. |
| `ArpDelivery.FrameResolves` | NetworkPkg/ArpDxe/ArpImpl.c:212-283 | An accepted frame addressed to us, allocation succeeding, makes the sender's first resolved entry its hardware address, and leaves no request for the sender pending if and only if the sender was not pending and resolved at once. |
| `ArpDelivery.AddThenRequest` | NetworkPkg/ArpDxe/ArpMain.c:554-581 | After a successful non-deny ArpAdd(X, H), ArpRequest(X) of a unicast X by the same child returns H at once if and only if X is not denied; a non-zero X never is. |
| `ArpExamples.AddedZeroStaysDenied` | NetworkPkg/ArpDxe/ArpMain.c:180-265 | A run after which 0.0.0.0 is added with success and a request for it is refused. |
| `ArpDelivery.LogGrows` | NetworkPkg/ArpDxe/ArpImpl.c:796-827 | Every step appends to the log of completions and never rewrites it. |
| `ArpDelivery.EmittedExplained` | NetworkPkg/ArpDxe/ArpImpl.c:265-277 | Each completion of a step is for the address its request was queued for and delivers zeros, or the hardware address that this very step learned for that address. |
| `ArpDelivery.TruthfulDelivery` | NetworkPkg/ArpDxe/ArpImpl.c:796-882 | Over every run each completion is traced to the step that made it: zeros, or the hardware address of an accepted frame from, or a non-deny ArpAdd of, the very address that the request asked for. |
| `ArpTimer.Ageing` | NetworkPkg/ArpDxe/ArpImpl.c:473-524 | n > 0 ticks leave in both caches, in order, exactly the static entries and the dynamic ones with more than n intervals left, their time reduced by n intervals. |
| `ArpTimer.FlushExact` | NetworkPkg/ArpDxe/ArpMain.c:422-452 | ArpFlush keeps exactly the static entries of both caches, in order, and succeeds exactly when there was a dynamic one. |
| `ArpTimer.RoundLengthIsCeiling` | NetworkPkg/ArpDxe/ArpImpl.c:431-443 | A time-out is noticed after ceil(time-out / interval) ticks. |
| `ArpTimer.RetryBound` | NetworkPkg/ArpDxe/ArpImpl.c:431-468 | With count c and k ticks per time-out, and only ticks following: after q k + j ticks the request waits and was resent q times; at tick (c + 1) k it is aborted after c resends and completes with zeros. |
| `ArpTimer.RequestLife` | NetworkPkg/ArpDxe/ArpMain.c:588-651 | The same for every call of ArpRequest that queued something. |
| `ArpTimer.EntryExpires` | NetworkPkg/ArpDxe/ArpImpl.c:431-468 | From any timer values an entry is gone after finitely many ticks: (RetryCount, NextRetryTime) decreases. |
| `ArpTimer.AllWaitingEnds` | NetworkPkg/ArpDxe/ArpImpl.c:410-525 | From every invariant state enough ticks empty the pending table and every request ever queued has completed once. |
| `ArpCalls.DeleteExact` | NetworkPkg/ArpDxe/ArpMain.c:375-407 | ArpDelete keeps, in order, exactly the entries that the caller did not name, static or not, and succeeds exactly when one was named. |
| `ArpCalls.CancelExact` | NetworkPkg/ArpDxe/ArpMain.c:699-739 | ArpCancel completes, with zeros, exactly the waiting requests of this child that match address and event, leaves all others waiting, and succeeds exactly when there was one. |
| `ArpCalls.FindExact` | NetworkPkg/ArpDxe/ArpImpl.c:1443-1666 | ArpFind reports exactly the matching entries, denied then resolved, each in table order; it says not found exactly when there are none, out of resources exactly when the list asked for cannot be had, and restarts the life time of exactly those if asked, changing nothing otherwise. |
| `ArpCalls.ShownIsStored` | NetworkPkg/ArpDxe/ArpImpl.c:1637-1653 | In every invariant state the reported hardware address is the stored one, and so is the protocol address in every search by protocol address. |
| `Filters.FilterKeeps` | NetworkPkg/ArpDxe/ArpImpl.c:1248-1303 | What a removing loop keeps: exactly the elements that satisfy the condition, in order and as often as they occur. |
| `ArpEffects.FrameIgnored` | NetworkPkg/ArpDxe/ArpImpl.c:112-210 | A payload that does not decode, another hardware type, address size or ethertype, a denied sender by either address, or a protocol that no configured child speaks: the service stays as it was. |
| `ArpEffects.RepliesMeans` | NetworkPkg/ArpDxe/ArpImpl.c:285-291 | A request for a child gets exactly one reply, from the first child addressed, to the sender's two addresses; nothing else is answered. |
| `ArpEffects.FrameMerges` | NetworkPkg/ArpDxe/ArpImpl.c:212-231 | A sender already resolved gets the new hardware address and its whole life time again, and nothing else changes but the reply. |
| `ArpEffects.FramePasses` | NetworkPkg/ArpDxe/ArpImpl.c:233-238 | A sender not resolved that asks for no child changes nothing. |
| `ArpEffects.FrameAnswers` | NetworkPkg/ArpDxe/ArpImpl.c:240-283 | A sender that is waited for: its entry becomes the newest resolved one with the sender's hardware address, and its requests complete in order. |
| `ArpEffects.FrameLearns` | NetworkPkg/ArpDxe/ArpImpl.c:240-283 | A sender that nobody waits for becomes the newest resolved entry, with the default times; without memory nothing happens. |
| `ArpEffects.AddStatus` | NetworkPkg/ArpDxe/ArpMain.c:141-232 | The status of ArpAdd by what is in the tables: the argument errors, an entry cached and not to be overwritten, no memory for a new one; without success nothing changes. |
| `ArpEffects.AddEffect` | NetworkPkg/ArpDxe/ArpMain.c:180-265 | Which one entry ArpAdd takes over, that the requests in it complete with the added address, and the entry with the two addresses and the given time-out at the head of the table asked for. |
| `ArpEffects.AddedLives` | NetworkPkg/ArpDxe/ArpMain.c:238-265 | After n > 0 ticks the added entry is at the head of its table if its time-out is zero or more than n times 500 ms, and gone otherwise; the entries below age on their own. |
| `ArpEffects.RequestMapped` | NetworkPkg/ArpDxe/ArpMain.c:496-534 | Argument errors; everyone, or 255.255.255.255, has the hardware broadcast address; 224.0.0.0 to 239.255.255.255 has what the driver below maps it to. |
| `ArpEffects.RequestLooksUp` | NetworkPkg/ArpDxe/ArpMain.c:536-651 | One host's address is refused if denied, answered from the newest resolved entry, and otherwise queued at the front of its pending entry, whose retries start again, or in a new one, with one request frame sent. |
| `ArpEffects.ConfigureEffect` | NetworkPkg/ArpDxe/ArpImpl.c:914-985 | A configured child keeps its address for good and may change its times; an unconfigured one takes a usable address; times not given are 400 s, 2 retries, 5 ms; nothing else changes. |
| `ArpEffects.ResetEffect` | NetworkPkg/ArpDxe/ArpImpl.c:986-1004 | Without data the child is unconfigured, exactly its own requests complete with zeros, and the caches and other children stay. |
| `ArpEffects.CreateEffect` | NetworkPkg/ArpDxe/ArpDriver.c:557-662 | A new last child, not configured, under an identity never used before. |
| `ArpEffects.DestroyEffect` | NetworkPkg/ArpDxe/ArpDriver.c:684-781 | A configured child takes both caches and exactly its own requests with it; a child not found or not uninstalled changes nothing. |
| `ArpEffects.Refusals` | NetworkPkg/ArpDxe/ArpMain.c:309-452 | Calls on a missing or unconfigured child, or with arguments at odds, do nothing, with the status for each. |
| `ArpFrame.FrameRoundTrip` | NetworkPkg/ArpDxe/ArpImpl.c:112-155 | The receive path recovers every field of a sent packet for all address lengths, whatever padding follows. |
| `ArpFrame.EthernetLayout` | NetworkPkg/ArpDxe/ArpImpl.c:119-155 | The 28 octets of ARP for IPv4 over Ethernet, field by field. |
| `ArpFrame.DecodeInverse` | NetworkPkg/ArpDxe/ArpImpl.c:112-155 | Conversely every packet that decodes starts with the encoding of what it decodes to. |
| `ArpFrame.BuildFrame` | NetworkPkg/ArpDxe/ArpImpl.c:1086-1166 | The fields written are media header and packet in order; they fill the buffer if and only if the media header is two addresses and a type, and the receive path then decodes the packet to the addresses of child and entry. Destination, source and type stand in this order. |
| `ArpService.FindNextEntry` | NetworkPkg/ArpDxe/ArpImpl.c:582-638 | The search loop returns the first match at or after the start. |
| `ArpService.FindDeniedEntry` | NetworkPkg/ArpDxe/ArpImpl.c:652-699 | By protocol address first, then by hardware address, null addresses skipped. |
| `ArpService.FindTarget` | NetworkPkg/ArpDxe/ArpImpl.c:171-201 | The children loop finds the first child addressed and whether any speaks the protocol. |
| `ArpService.Service.constructor` | NetworkPkg/ArpDxe/ArpDriver.c:39-57 | An empty service. |
| `ArpService.Service.AddressResolved` | NetworkPkg/ArpDxe/ArpImpl.c:779-827 | Exactly the matching requests are completed, in order, and the others kept. |
| `ArpService.Service.DeleteInTable` | NetworkPkg/ArpDxe/ArpImpl.c:1232-1304 | Removal while iterating leaves the entries not matched, in order; the count is the number removed. |
| `ArpService.Service.DeleteCacheEntry` | NetworkPkg/ArpDxe/ArpImpl.c:1320-1358 | Both caches, with the total removed. |
| `ArpService.Service.CancelRequests` | NetworkPkg/ArpDxe/ArpImpl.c:1373-1417 | Cancels the matching requests of one owner, drops entries left without any, and counts. |
| `ArpService.Service.TimerHandler` | NetworkPkg/ArpDxe/ArpImpl.c:410-525 | One pass over the three tables is one tick. |
| `ArpService.Service.CreateChildCall` | NetworkPkg/ArpDxe/ArpDriver.c:557-662 | A new child, not configured, at the end of the list. |
| `ArpService.Service.DestroyChildCall` | NetworkPkg/ArpDxe/ArpDriver.c:684-781 | A configured child takes all cache entries and its requests with it. |
| `ArpService.Service.ResetInstance` | NetworkPkg/ArpDxe/ArpImpl.c:991-1003 | Its requests are cancelled and it is no longer configured. |
| `ArpService.Service.ConfigureCall` | NetworkPkg/ArpDxe/ArpMain.c:40-74 | Status and new state for every configuration, including re-configuration and defaults. |
| `ArpService.Service.AddCall` | NetworkPkg/ArpDxe/ArpMain.c:122-272 | Takes over the denied, resolved or pending entry, or a new one, completes its requests and stores it newest first. |
| `ArpService.Service.FindCall` | NetworkPkg/ArpDxe/ArpMain.c:309-355 | Reports the denied then the resolved matches in order and refreshes them if asked. |
| `ArpService.Service.CollectFrom` | NetworkPkg/ArpDxe/ArpImpl.c:1443-1666 | One table's matches, and the refresh, by repeated search. |
| `ArpService.Service.DeleteCall` | NetworkPkg/ArpDxe/ArpMain.c:375-407 | Removes the matches from both caches; not found exactly when none was removed. |
| `ArpService.Service.FlushCall` | NetworkPkg/ArpDxe/ArpMain.c:422-452 | Removes the dynamic entries; not found exactly when none was removed. |
| `ArpService.Service.RequestCall` | NetworkPkg/ArpDxe/ArpMain.c:477-669 | Broadcast, multicast, denied, resolved or queued, with the answer that the caller sees. |
| `ArpService.Service.CancelCall` | NetworkPkg/ArpDxe/ArpMain.c:699-739 | Cancels by address and event; not found exactly when nothing was completed. |
| `ArpService.Service.FrameReceived` | NetworkPkg/ArpDxe/ArpImpl.c:64-313 | Checks, merge, learning and reply of the packet reception algorithm in RFC 826. |
| `TxRing.AvailPlusInFlight` | IntelUndiPkg/Intelgbe.c:315-319 | Free and in-flight slots always add up to 511, and a slot is free exactly when cur_tx would not catch up with dirty_tx. |
| `TxRing.NextInv` | IntelUndiPkg/Intelgbe.c:247-438 | Every send, completion and reclaim keeps the ring invariant; slots not in flight are cleared. |
| `TxRing.FifoConservation` | IntelUndiPkg/Intelgbe.c:247-438 | Over every interleaving of sends, completions in any order and reclaims of any size: accepted equals returned followed by what is in flight, in order. |
| `TxRing.OwnedUntouched` | IntelUndiPkg/Intelgbe.c:248-433 | In every reachable state the hardware owns only slots in flight, and no driver step writes a descriptor that it owns. |
| `TxOwnership.LinearSent` | IntelUndiPkg/Intelgbe.c:313-438 | A linear send succeeds exactly if free slots suffice; it hands the slot at cur_tx over with the mapped address, length and the interrupt, first, last and owner bits, and changes no other slot. |
| `TxOwnership.FragmentsSent` | IntelUndiPkg/Intelgbe.c:345-401 | A fragmented send succeeds exactly if free slots suffice; it hands one slot per fragment over, in order, each with its address and length and the owner bit. |
| `TxOwnership.HeldOrCompleted` | IntelUndiPkg/Intelgbe.c:247-438 | After every run each descriptor ever handed over is still owned by the hardware or was completed while in flight. |
| `TxOwnership.ReturnedAfterCompletion` | IntelUndiPkg/Intelgbe.c:247-281 | Over every run an address comes back only after a completion of its slot, at a step when it had been handed over and not yet returned. |
| `TxRing.ReclaimExact` | IntelUndiPkg/Intelgbe.c:247-281 | A reclaim returns the oldest addresses in order and stops only for a full result, an empty ring, a slot in use or a slot without mapping. |
| `TxRing.BlockedForever` | IntelUndiPkg/Intelgbe.c:261-264 | Once the oldest slot has no mapping nothing is ever returned again. |
| `TxRing.StuckIffBlocked` | IntelUndiPkg/Intelgbe.c:261-264 | With slots in flight no continuation returns an address if and only if the oldest slot has no mapping. |
| `TxRing.BlockedAtOnce` | IntelUndiPkg/Intelgbe.c:345-438 | One fragment, or one linear frame at address zero, blocks a fresh ring. |
| `TxRing.DrainableIffMapped` | IntelUndiPkg/Intelgbe.c:247-281 | In every invariant state some continuation returns everything accepted so far if and only if no slot was ever used without a mapping. |
| `TxRing.LinearNeverZero` | IntelUndiPkg/Intelgbe.c:402-438 | Linear frames at non-zero addresses never put a zero among the accepted. |
| `TxRing.LinearFifo` | IntelUndiPkg/Intelgbe.c:402-438 | With only such frames the ring is never blocked, and once the hardware is done one large enough reclaim has returned everything ever accepted, in order. |
| `TxDriver.Adapter.constructor` | IntelUndiPkg/IntelGbe/intelgbe_stmmac.c:444-445 | A cleared ring. |
| `TxDriver.Adapter.TransmitLinear` | IntelUndiPkg/Intelgbe.c:402-438 | The linear path on the arrays, including the queue-full answer. |
| `TxDriver.Adapter.TransmitFragments` | IntelUndiPkg/Intelgbe.c:345-401 | The fragmented path, which fills its first slot last, equals pushing the fragments in order. |
| `TxDriver.Adapter.FreeTxBuffers` | IntelUndiPkg/Intelgbe.c:232-282 | The reclaim loop; the caller's array receives exactly the returned addresses. |
| `MemCopy.Copy` | IntelUndiPkg/Intelgbe.c:895-942 | Word loop then octet loop, in place on one memory, for every word size and for addresses that rule words out. |
| `MemCopy.CopyExact` | IntelUndiPkg/Intelgbe.c:895-942 | For every word size it copies the block for all contents if and only if the destination does not start inside the source or the block is one word. |
| `RxRing.CopyLenExact` | IntelUndiPkg/Intelgbe.c:1020-1023 | The copied length is the shorter of packet and buffer if and only if the low 16 bits of the buffer length are not negative as INT16 and do not cut the packet wrongly; up to 32767 always; otherwise it is those low 16 bits. |
| `RxRing.ReceiveOrder` | IntelUndiPkg/Intelgbe.c:994-1070 | Over every interleaving slots are taken in the order in which the hardware filled them, each gives the outcome of its own write-back, and what waits is kept. |
| `RxRing.GoodPacketDelivered` | IntelUndiPkg/Intelgbe.c:994-1070 | Over every run an error-free packet that fits its slot arrives as its prefix of length min(packet, buffer) if and only if the casts keep the buffer length, as they do up to 32767. |
| `RxRing.BadPacketDropped` | IntelUndiPkg/Intelgbe.c:1000-1018 | A packet is dropped exactly if its descriptor is not the last of a frame or reports an error. |
| `RxRing.LargeBufferOverruns` | IntelUndiPkg/Intelgbe.c:1020-1029 | A run in which a packet of 60 octets read into a buffer of 32768 makes the copy leave its slot. |
| `RxDriver.BuffersKept` | IntelUndiPkg/Intelgbe.c:1025-1029 | Copying out, of any length, changes nothing in memory but its destination. |
| `RxDriver.FetchEffect` | IntelUndiPkg/Intelgbe.c:1025-1029 | A packet that fits its slot arrives whole at the caller's address. |
| `RxDriver.Adapter.constructor` | IntelUndiPkg/IntelGbe/intelgbe_stmmac.c:204-226 | Every slot armed and owned by the hardware, with the words written. |
| `RxDriver.Adapter.ReceiveFrame` | IntelUndiPkg/Intelgbe.c:967-1071 | No data changes nothing; otherwise exactly the slot at cur_rx is consumed and re-armed, with the words written, and memory is what the copy routine makes of it. With a destination outside the receive buffers these keep what they hold, and a packet that fits arrives in the caller's buffer. |

## Left out

- DhcpParse.ParseOption: asks that the packet Fits: less than 65536 octets of option data, or only tags with multiples of 65536. `DhcpBounds.FitsIff` shows that otherwise the code's own buffer is too small, and every packet of one UDP datagram Fits (`DhcpOption.DatagramKeepsCountersExact`).
- DhcpBuild.Build: asks the same of the seed, and that an appended option has at most 255 octets, the range of its one-octet length field.
- DhcpBuild.AppendOption: asks for the room that Build has computed, and for data, which the code asserts.
- DhcpValidate.ValidateOptions: asks the same as the parser.
- DhcpEdits.BuildAndParse: asks the same of the seed and of the result.
- ArpFrame.BuildFrame: asks that types and lengths fit their 16- and 8-bit fields, and that the media header holds two addresses and a type; a shorter one would not hold what the code writes.
- RxDriver.Adapter.ReceiveFrame: asks that both ends of the copy lie in memory. Of a copy longer than a slot, as for a long packet or for a short one read with a buffer length whose low 16 bits look negative, `RxRing.Receive` says only that it leaves the slot.
- TxDriver.Adapter.FreeTxBuffers: asks that the caller's array is not one of the ring's own.
- ArpService.Service.FindCall: a protocol address reported longer than the stored one is padded with zeros, where the code copies whatever memory follows; `ArpCalls.ShownIsStored` says when this cannot happen.
- ArpProperties.StopAssertions: every uninstallation of a child's protocol is taken to succeed.
- Re-entry into the ARP service from event callbacks: every call is one atomic step, and the flag against nested destruction has no effect then.
- Linked lists of the ARP service are sequences; list links and aliasing are not modelled. A caller's buffer shorter than the address read from it reads as zero past its end.
- Events, timers, protocol installation, the managed network and UDP drivers: foreign calls. Completions and sent frames are logs.
- The address that a multicast request maps to is an argument.
- The DHCP lease machine and the DPC queue: their code is not part of this model.
- Packet type classification and the copied addresses in the receive data block: they do not affect the ring.
- MemCopy.Copy: whether the addresses rule words out, which the Itanium build tests, is an argument.
- The buffer of a stored ARP address holds 32 octets, while ArpConfigure accepts protocol addresses of up to 255. Addresses are sequences here, so the model describes the code only for addresses of at most 32 octets.
- Re-initialisation of the adapter: it clears the ring without its indices, so runs start after the first initialisation and do not cross another.
- Command decoding, PHY and register access, component names, build scripts: none of the modelled state depends on them.
