# JOPIL in Dafny

JOPIL watches packets at the XDP hook, turns them into events, groups events into bidirectional
flows, and shows the flows in a terminal dashboard. This project models that path and proves what
its state means after any run.

| file | part of the system |
|---|---|
| `Base.dfy`, `Text.dfy` | machine integers with explicit wrap-around; decimal text, separators, Go's string order |
| `Packet.dfy`, `FlowKey.dfy` | addresses, protocol names, packet records; the conversation key as a real string |
| `RingBuffer.dfy` | the circular packet history (class over an array) |
| `Dns.dfy`, `DnsGrammar.dfy` | the question parser (loops) and, separately, the wire format it accepts |
| `Conversations.dfy`, `FlowProperties.dfy` | what a flow should show, defined over the whole list of its packets, and what that implies |
| `Runs.dfy` | runs of the aggregator: eviction, conservation, clock |
| `Flow.dfy`, `Aggregator.dfy` | the mutable flow and the table (classes); every field is proved equal to its definition over the run |
| `Facts.dfy` | every field of a flow of the table against its packets, in plain numbers and texts |
| `KernelRecord.dfy` | the XDP program, the 36-byte record, and its decoder |
| `Pipeline.dfy` | reader, bounded channel, aggregator and sweeper as a state machine over all interleavings |
| `Dashboard.dfy` | the displayed list: in-place compaction, sorting, sticky selection |
| `Session.dfy` | packets, sweeps, refreshes and keys in any order, on one aggregator and one dashboard |

How the aggregator proof is organised: `Conversations.Summarize` says what a flow shows for a list of
packets, using lengths, multiplicities, filters and suffixes. Class `Flow` carries the ghost list of
packets it absorbed and its invariant says that its fields equal that summary. Class `FlowAggregator`
carries the ghost serial order of its critical sections, and its invariant says that the table is
exactly the set of conversations that order leaves alive. `Runs` then characterises those
conversations without the table: the packets of a key after the last sweep that came more than the
timeout after the key's latest packet. `Facts` says the same once more without any of these definitions: each
field of a flow in the table as a count, sum, time, name or text of those packets. `Session` carries this through to the screen: after any mix of
packets, sweeps, refreshes and keys, a refreshed view has one row per such conversation, showing its summary.

## What the code does that its comments or documentation do not say

* A DNS compression pointer consumes one byte, not two (internal/parser/dns.go:81-88), so the type and class
  behind a compressed name are read one byte early and the name ends at the pointer
  (`DnsGrammar.CompressedNameMisread`, with a message in `DnsGrammar.CompressedExampleMisread`).
* On a little-endian host displayed addresses have their octets reversed (`KernelRecord.DisplayedAddressIsReversed`):
  127.0.0.1 is shown as 1.0.0.127 (`KernelRecord.LoopbackShownReversed`).
* The displayed drop counter and loss rate are always zero; drops are counted elsewhere, and can happen as soon as
  10001 samples have been read (`Aggregator.FlowAggregator.GetGlobalStats`, `Pipeline.DropsVisibleIff`).
* Captured events carry no payload, so DNS tracking never records anything for them (`Pipeline.CaptureNeverTalliesDns`).
* A refresh ignores the protocol filter (`Dashboards.FilterSurvivesRefreshIff`, `Session.FilterLost`).
* A row whose conversation was evicted and came back between two refreshes keeps the state "closed" and the ports,
  flags, change log and first time of the evicted flow beside the live counters. A refreshed row is wholly up to date
  exactly when it does not say "closed" (`Session.StaleRowIff`; a session that produces such a row: `Session.StaleRow`).
* The "s" key also cycles through the order "latest", which README.md of the repository does not list.
* "Smaller IP first" is lexicographic on text, and the ethertype alone decides that a frame is IPv4: the version nibble is not looked at.

Counters wrap at 2^64 as uint64 does. Where a promise holds only until a counter wraps, the exact bound is proved.

## Model

| member | source | states |
|---|---|---|
| `Text.DecimalInjective` | internal/monitor/aggregator.go:294-304 | printed decimal numbers determine the number |
| `Text.DecimalSpells` | internal/monitor/aggregator.go:294-304 | a printed number is its base-ten text without leading zeros |
| `Text.LessIsTotal` | internal/monitor/aggregator.go:298-302 | of two strings at most one is smaller, and unless they are equal exactly one is |
| `Text.LessIsTransitive` | internal/monitor/aggregator.go:298-302 | Go's string comparison is transitive |
| `Text.LessAtFirstDifference` | internal/monitor/aggregator.go:298-302 | the comparison is decided by the first differing character, and a proper prefix is smaller |
| `Packet.IPRoundTrip` | internal/model/packet.go:128-142 | IPToUint32 inverts IPFromUint32 on every 32-bit value |
| `Packet.AddressBytes` | internal/model/packet.go:128-130 | the four address bytes are those of the number, most significant first, behind the IPv4-in-IPv6 prefix |
| `Packet.IPStringSpelled` | internal/model/packet.go:128-130 | the text is those four bytes in decimal, joined by dots |
| `Packet.IPStringInjective` | internal/model/packet.go:128-130 | the dotted quad determines the whole address |
| `Packet.ProtocolNameEqual` | internal/model/packet.go:145-172 | names agree exactly for equal numbers or two numbers outside the table |
| `Packet.ProtocolNames` | internal/model/packet.go:145-172 | each of the eleven names belongs to exactly its number, and "other" to all the rest |
| `FlowKeys.FlowKeyEqual` | internal/monitor/aggregator.go:291-305 | two events get one key iff they have the same unordered address pair and the same protocol name |
| `FlowKeys.FlowKeySpelled` | internal/monitor/aggregator.go:291-305 | a key is the smaller address text, the larger one and the protocol name, joined by dashes |
| `FlowKeys.DirectionTest` | internal/monitor/aggregator.go:205-210 | the test against the flow's stored addresses is equality with the creating packet's addresses |
| `FlowKeys.NotForwardIsReverse` | internal/monitor/aggregator.go:205-228 | inside a conversation "not forward" means exactly swapped addresses; a self-addressed packet is always forward |
| `RingBuffers.SlotIsModulo` | internal/model/ringbuffer.go:36-41 | the incremented and wrapped index is the modulo expression, for every capacity and fill level |
| `RingBuffers.LastNSpelled` | internal/model/ringbuffer.go:48-73 | the window holds min(n, length) elements, in place order from the end |
| `RingBuffers.NonNilAppend` | internal/model/ringbuffer.go:56-70 | dropping nil entries keeps all others in order |
| `RingBuffers.RingBuffer.Add` | internal/model/ringbuffer.go:31-44 | the window slides by the new element, dropping the oldest only when full, and writeIdx = (readIdx + count) mod capacity holds again |
| `RingBuffers.RingBuffer.GetAll` | internal/model/ringbuffer.go:48-73 | exactly the non-nil ones of the last capacity elements added since the last Clear, oldest first |
| `RingBuffers.RingBuffer.Len` | internal/model/ringbuffer.go:76-80 | min(elements added, capacity) |
| `RingBuffers.RingBuffer.Clear` | internal/model/ringbuffer.go:83-91 | the window restarts empty with the same capacity |
| `Dns.ParseDomainName` | internal/parser/dns.go:74-114 | labels joined with dots and the offset behind the name, or an empty name and -1; terminates on every input |
| `Dns.ParseDNS` | internal/parser/dns.go:23-69 | the specification parser's result on every byte string, with all reads in bounds; the loop ends at the offset the specification names |
| `Dns.FailureCode` | internal/parser/dns.go:145-162 | the failure test on code names singles out exactly the non-zero codes, unknown ones included |
| `Dns.QueryTypes` | internal/parser/dns.go:117-142 | the ten query type names by number, "?" for all others |
| `Dns.ResponseCodes` | internal/parser/dns.go:145-162 | the six response code names by number, "?" for all others |
| `DnsGrammar.ScanComplete` | internal/parser/dns.go:74-102 | any accepted label list and terminator in the payload is read back whole |
| `DnsGrammar.ScanSound` | internal/parser/dns.go:74-102 | a name read before the end of input has that wire form, and an explicit terminator |
| `DnsGrammar.ParseReturnsDecomposition` | internal/parser/dns.go:23-69 | whatever decomposes the payload is what the parser returns, with RCODE and QR bit |
| `DnsGrammar.ParseAcceptsIffDecomposes` | internal/parser/dns.go:23-69 | a result exists iff the payload is a header with QDCOUNT > 0, that many well-formed questions, and anything |
| `DnsGrammar.DecompositionUnique` | internal/parser/dns.go:41-62 | a payload has at most one decomposition |
| `DnsGrammar.ParseStableUnderExtension` | internal/parser/dns.go:45-62 | appending bytes to an accepted payload leaves the result unchanged |
| `DnsGrammar.ParsePrefixIff` | internal/parser/dns.go:41-62 | of an accepted payload exactly the prefixes that reach the final offset are accepted, with the same result |
| `DnsGrammar.ByteAccounting` | internal/parser/dns.go:41-62 | the offset reached is exactly 12 plus, per reported question, len(name)+2 (or 1 for an empty name) plus 4, within the payload; as many questions as bytes 4 and 5 announce, so 12 + 5 QDCOUNT fits |
| `DnsGrammar.EncodeParseRoundTrip` | internal/parser/dns.go:28-68 | any message with 1 to 65535 uncompressed RFC 1035 questions parses to its own names, types, classes, RCODE and QR bit |
| `DnsGrammar.EncodeParseAccepted` | internal/parser/dns.go:28-102 | the same for labels of 1 to 191 bytes and names that end in 0 or in a byte of at least 192 |
| `DnsGrammar.NothingReported` | internal/parser/dns.go:24-36 | fewer than 12 bytes, or no question announced, give no result |
| `DnsGrammar.JoinDots` | internal/parser/dns.go:104-111 | labels are joined by the byte 46 |
| `DnsGrammar.SplitJoin` | internal/parser/dns.go:104-111 | if no label contains a dot, splitting the parsed name recovers the labels |
| `DnsGrammar.CompressedNameMisread` | internal/parser/dns.go:81-88 | what ParseDNS reports for a compressed name in any question and from where it reads on; for that question it is what RFC 1035 asks for iff the pointer adds no label and type and class both equal 257 times the second pointer byte |
| `DnsGrammar.CompressedExampleMisread` | internal/parser/dns.go:81-88 | a message asking for com and www.com is reported as com and www, the second with type 3072 and class 256 |
| `Conversations.CountersSnoc` | internal/monitor/aggregator.go:216-228 | the increments of one packet turn the counters of a list into those of the longer list |
| `Conversations.PortUseSnoc` | internal/monitor/aggregator.go:230-240 | the map update and overtaking test do the same for a port histogram and its top port |
| `Conversations.HistogramAppend` | internal/monitor/aggregator.go:248-250 | merging tallies key by key is the tally of both lists together |
| `FlowProperties.PacketsMatchFlowAddresses` | internal/monitor/aggregator.go:205-228 | every absorbed packet has the flow's addresses or exactly the swapped ones, and its protocol name |
| `FlowProperties.CountersAddUp` | internal/monitor/aggregator.go:216-228 | packet and byte counts are the sums of their directions modulo 2^64 |
| `FlowProperties.SelfAddressedNeverReverse` | internal/monitor/aggregator.go:205-228 | a self-addressed flow never counts a reverse packet |
| `FlowProperties.TopPortIsFirstMaximum` | internal/monitor/aggregator.go:234-240 | while no counter wraps, the running top port is the port that first reached the final maximum count |
| `FlowProperties.TopPortFirstMaximumIff` | internal/monitor/aggregator.go:234-240 | this holds after every packet of every sequence of length n iff n <= 2^64 |
| `FlowProperties.TopPortMaximalIff` | internal/monitor/aggregator.go:230-240 | the top port is a maximum of the displayed histogram after every packet of every sequence of length n iff n <= 2^64 |
| `FlowProperties.HistogramsSumUp` | internal/monitor/aggregator.go:230-250 | both port histograms sum to PacketCount and the DNS tallies to the log's length, modulo 2^64 |
| `FlowProperties.HistoryLength` | internal/monitor/aggregator.go:242-243 | the history holds min(n, capacity) records, which is min(PacketCount, capacity) iff the counter has not wrapped below the capacity |
| `FlowProperties.HistoryDirectionsMatch` | internal/monitor/aggregator.go:212-243 | until the buffer is full it shows as many records per direction as the counters say |
| `FlowProperties.TcpByName` | internal/model/packet.go:145-172 | a flow named tcp received only protocol-6 packets, any other flow none |
| `FlowProperties.ChangeCount` | internal/monitor/aggregator.go:260-284 | n TCP packets make 3 floor(n / 2^64) + min(n mod 2^64, 3) transitions |
| `FlowProperties.ChangesChain` | internal/monitor/aggregator.go:274-283 | the log is a contiguous chain of real changes from new to the current state |
| `FlowProperties.ChangeLogComplete` | internal/monitor/aggregator.go:275 | the cap of 100 entries truncates nothing iff at most 33 * 2^64 + 1 packets arrived |
| `FlowProperties.StageMonotoneIff` | internal/monitor/aggregator.go:265-272 | the TCP state never regresses along n packets iff n <= 2^64 |
| `FlowProperties.LiveStates` | internal/monitor/aggregator.go:260-284 | a live flow is never closed, and is new with an empty log exactly when it is not TCP |
| `FlowProperties.FailedMeansNonZeroCode` | internal/monitor/aggregator.go:252-257 | a log entry is a failure iff its packet is a response with non-zero RCODE |
| `FlowProperties.FailuresByResponseCode` | internal/monitor/aggregator.go:252-257 | DNSFailures is the number of questions in responses with non-zero RCODE |
| `Runs.LiveIsSinceEviction` | internal/monitor/aggregator.go:186-203 | the table holds, for each key, exactly its packets since its last eviction, and no key without packets |
| `Runs.SweptAway` | internal/monitor/aggregator.go:330-347 | a sweep more than the timeout after a conversation's latest packet leaves no flow for it |
| `Runs.LiveWellFormed` | internal/monitor/aggregator.go:183-203 | all packets filed under a key carry that key |
| `Runs.Conservation` | internal/monitor/aggregator.go:178-203 | any packet-wise additive quantity of all arrivals is the sum over live flows plus the sum over all evicted ones |
| `Runs.FirstBeforeLast` | internal/monitor/aggregator.go:193-217 | FirstPacketTime <= LastPacketTime in every live flow of a run with ordered clock readings |
| `Runs.StalenessBound` | internal/monitor/aggregator.go:313-347 | no live flow has been idle longer than the sweep period plus the larger of timeout and lock delay |
| `Flows.MergeNames` | internal/monitor/aggregator.go:248-250 | the merged tallies, in whatever order the map is iterated |
| `Flows.Flow.CountFailures` | internal/monitor/aggregator.go:252-257 | the loop adds the number of failed entries |
| `Flows.Flow.Absorb` | internal/monitor/aggregator.go:205-284 | after one more packet every field is again the one defined by the longer packet list |
| `Flows.Flow.ViewIsSummary` | internal/model/packet.go:62-105 | everything a reader of a valid flow sees is the summary of its packets |
| `Aggregator.CollectQueries` | internal/monitor/aggregator.go:147-172 | the log entries of one packet and their multiplicities |
| `Aggregator.FlowAggregator.constructor` | internal/monitor/aggregator.go:35-53 | an empty table with the history size clamped to 1000..50000 |
| `Aggregator.FlowAggregator.ProcessEvent` | internal/monitor/aggregator.go:128-285 | the run grows by this arrival and the totals by one packet and its length, and the table and totals are again those of the run; only the flow under the packet's key is touched, and all other entries stay the same objects |
| `Aggregator.FlowAggregator.CloseIdleFlows` | internal/monitor/aggregator.go:330-347 | exactly the flows idle for strictly more than the timeout leave the table; their state becomes closed and nothing else changes in any flow; the others are the same, unchanged objects |
| `Aggregator.FlowAggregator.GetAllFlows` | internal/monitor/aggregator.go:72-81 | every flow of the table once, in some order |
| `Aggregator.FlowAggregator.GetGlobalStats` | internal/monitor/aggregator.go:84-102 | totals of all arrivals of the run, the number of live flows, the time of the last packet (of the start before any), the given current time, and a drop count and loss rate of zero |
| `Aggregator.FlowAggregator.TableShowsRun` | internal/monitor/aggregator.go:128-285 | in every reachable state a key is live iff packets arrived since its last eviction, and its flow shows their summary |
| `Aggregator.FlowAggregator.TallyMatchesLog` | internal/monitor/aggregator.go:245-250 | in every table flow DNSQueryNames counts the entries of DNSQueries per name modulo 2^64, and has exactly the names of the log |
| `Aggregator.FlowAggregator.TotalsConserve` | internal/monitor/aggregator.go:178-181 | TotalPackets and TotalBytes are the sums of the flows' own PacketCount and ByteCount plus what evicted flows held, modulo 2^64 |
| `Aggregator.SumOfDisplayed` | internal/monitor/aggregator.go:217-219 | adding up wrapped per-flow counters loses nothing modulo 2^64 |
| `Facts.TotalFields` | internal/monitor/aggregator.go:216-219 | PacketCount, ByteCount, FirstPacketTime and LastPacketTime of a flow in the table: number of packets and sum of their lengths modulo 2^64, first and last stamp |
| `Facts.DirectionFields` | internal/monitor/aggregator.go:205-228 | the directional counters: packets and bytes with, or without, exactly the first packet's addresses, modulo 2^64 |
| `Facts.PortFields` | internal/monitor/aggregator.go:230-232 | each port histogram holds exactly the ports of the packets, each with its multiplicity modulo 2^64 |
| `Facts.TopPortField` | internal/monitor/aggregator.go:234-240 | up to 2^64 packets the top port has the largest counter; below that it is the port that reached the maximum first |
| `Facts.ProtocolField` | internal/monitor/aggregator.go:132 | the flow's protocol is "icmp" iff its packets have protocol 1, and so on for all names |
| `Facts.AddressFields` | internal/monitor/aggregator.go:130-131 | the flow's addresses are those of its first packet, byte by byte |
| `Facts.StateFields` | internal/monitor/aggregator.go:260-272 | a TCP flow is syn, syn-ack or established as its wrapped packet count is 1, 2 or other, with flags 6; any other flow is new with no flags and no log |
| `Facts.ChangeLogField` | internal/monitor/aggregator.go:274-283 | how many entries the change log has, and of each entry its packet's stamp, both states and its text |
| `Facts.QueryLogField` | internal/monitor/aggregator.go:147-172 | the query log: every question of every UDP packet to port 53 that parses, in order, with stamp, name, type, code and response flag; nothing else |
| `Facts.FailureField` | internal/monitor/aggregator.go:252-257 | DNSFailures is the number of questions in logged responses with non-zero RCODE, modulo 2^64 |
| `Facts.LastQueryField` | internal/monitor/aggregator.go:251 | DNSLastQuery is the stamp of the last packet that made log entries, zero while there is none |
| `Facts.TallyField` | internal/monitor/aggregator.go:248-250 | DNSQueryNames holds exactly the names of the log, each with its multiplicity modulo 2^64 |
| `Facts.HistoryLengthField` | internal/monitor/aggregator.go:242-243 | GetAll returns min(packets, capacity) records |
| `Facts.HistoryField` | internal/monitor/aggregator.go:135-145 | the i-th of the n records has stamp, addresses, ports, length, protocol byte and direction of the packet n - i places from the end |
| `Facts.HistoryQueryField` | internal/monitor/aggregator.go:147-171 | and the last query of that packet, if it has any |
| `Facts.WrapsAt` | internal/model/packet.go:74-75 | counters wrap at 18446744073709551616 |
| `KernelRecord.XdpProbe.Run` | bpf/packet.c:58-128 | counters always advance, modulo 2^64; a record is submitted iff space was reserved and bytes 12 to 14 and the length say a complete IPv4 header, and it describes the frame; no read is out of bounds |
| `KernelRecord.LayoutParseRoundTrip` | internal/monitor/monitor.go:271-310 | decoding the C layout of a record, with any trailing padding, recovers every field |
| `KernelRecord.EventBytes` | internal/monitor/monitor.go:271-310 | every field of the decoded event by its byte offsets in a sample of at least 36 bytes, little-endian |
| `KernelRecord.FrameToEvent` | bpf/packet.c:97-123 | frame to event end to end, byte by byte: addresses, length, protocol; ports at o = 14 + 4 ihl iff protocol 6 with o + 20 bytes or protocol 17 with o + 8, else 0; queue mapping rx_queue mod 2^16, no payload; one record only describes a frame |
| `KernelRecord.DisplayedAddressIsReversed` | internal/model/packet.go:128-130 | the displayed quad is the frame's address backwards, right iff the address is a palindrome |
| `KernelRecord.LoopbackShownReversed` | internal/model/packet.go:128-130 | the frame bytes 127, 0, 0, 1 are displayed as 1.0.0.127 |
| `Pipeline.StepKeepsInv` | internal/monitor/monitor.go:202-239 | every move of every goroutine keeps the protocol invariant |
| `Pipeline.OrderPreserved` | internal/monitor/monitor.go:230-237 | processed events, the received one and the channel are in order the accepted samples; the channel never exceeds 10000 |
| `Pipeline.SendOrDrop` | internal/monitor/monitor.go:230-237 | with an event in hand the reader can send iff fewer than 10000 are queued, and can drop iff 10000 are and it has not been stopped; what either does to channel and drop counter |
| `Pipeline.MalformedIffShort` | internal/monitor/monitor.go:224-228 | the samples discarded as malformed are exactly those of fewer than 36 bytes |
| `Pipeline.StopEndsReading` | internal/monitor/monitor.go:202-216 | after a stop request at most the Read in progress delivers one more sample |
| `Pipeline.StoppedReaderReturns` | internal/monitor/monitor.go:202-239 | wherever a stopped reader is, a move towards its return is enabled |
| `Pipeline.ReaderReturnIsFinal` | internal/monitor/monitor.go:202-239 | a reader that has returned reads, sends, drops and logs nothing more |
| `Pipeline.ConsumerReturnIsFinal` | internal/monitor/aggregator.go:105-125 | an aggregator loop that has returned processes nothing more |
| `Pipeline.SweeperReturnIsFinal` | internal/monitor/aggregator.go:313-328 | a sweeper that has returned sweeps no more |
| `Pipeline.ReturnsOnlyWhenStopped` | internal/monitor/aggregator.go:105-125 | neither loop of the aggregator returns before it is told to stop |
| `Pipeline.PipelineConservation` | internal/monitor/monitor.go:202-239 | samples read = processed + received + queued + malformed + dropped + at most one in hand or lost at stop |
| `Pipeline.TotalsAgainstSamples` | internal/monitor/monitor.go:235 | TotalPackets against samples read; the displayed drop counter is zero and agrees with the reader's while at most 10000 samples have been read |
| `Pipeline.DropsBounded` | internal/monitor/monitor.go:230-237 | in every reachable state with drops, at most the samples beyond the first 10000 were dropped |
| `Pipeline.DropsVisibleIff` | internal/monitor/monitor.go:230-237 | a reachable state with n samples read and a reader's drop counter other than zero exists iff n > 10000 |
| `Pipeline.ReachableTimely` | internal/monitor/aggregator.go:128-175 | whatever the interleaving, packet stamps and sweeps are ordered as one event goroutine and one sweeper read the clock |
| `Pipeline.FirstNeverAfterLast` | internal/monitor/aggregator.go:193-217 | in every reachable state FirstPacketTime <= LastPacketTime in every live flow |
| `Pipeline.IdleBound` | internal/monitor/aggregator.go:313-347 | in every reachable state no live flow has been idle longer than the time since the last sweep plus the larger of the timeout and the longest wait for the lock |
| `Pipeline.CaptureNeverTalliesDns` | internal/monitor/monitor.go:299-309 | in every reachable state the DNS tally of every live flow is empty |
| `Dashboards.SameIdSameKey` | internal/tui/dashboard.go:1193-1195 | equal flow ids imply equal table keys |
| `Dashboards.IdDeterminesFields` | internal/tui/dashboard.go:1193-1195 | equal flow ids imply equal addresses, in the same order, and equal protocol names |
| `Dashboards.FlowIdSpelled` | internal/tui/dashboard.go:1193-1195 | an id is source, destination and protocol name in this order, joined by bars |
| `Dashboards.SnapshotIdsDistinct` | internal/tui/dashboard.go:1203-1209 | a snapshot of the table contains no flow id twice |
| `Dashboards.SortDescending` | internal/tui/dashboard.go:1157-1172 | the sort yields descending ranks |
| `Dashboards.CopyStats` | internal/tui/dashboard.go:1216-1228 | twelve fields copied; state, change log, TCP flags, both port histograms with their top ports and first time kept; copying a flow onto itself changes nothing |
| `Dashboards.IndexById` | internal/tui/dashboard.go:1205-1209 | the map finds each snapshot flow under its own id and nothing else |
| `Dashboards.Dashboard.Compact` | internal/tui/dashboard.go:1211-1233 | the list shrinks in its own array to the flows still live, in order, each refreshed; the uncopied fields of every earlier row, and all fields of dropped ones and of live flows, stay as they were |
| `Dashboards.SelectAppend` | internal/tui/dashboard.go:1211-1233 | keeping the live rows goes row by row and keeps the order |
| `Dashboards.SelectOne` | internal/tui/dashboard.go:1211-1233 | and a row is kept iff its id is among the live ones |
| `Dashboards.Dashboard.AddNew` | internal/tui/dashboard.go:1235-1247 | the snapshot flows with ids not on display are appended, in order |
| `Dashboards.Dashboard.SortFlows` | internal/tui/dashboard.go:1157-1172 | a permutation of the displayed list with byte count, packet count, last packet time, or last minus first packet time descending, as the sort key says |
| `Dashboards.Dashboard.TrackSelection` | internal/tui/dashboard.go:1252-1259 | the selection lands on the row with the selected id, or stays when there is none |
| `Dashboards.Dashboard.UpdateFlows` | internal/tui/dashboard.go:1198-1264 | an unpaused refresh permutes survivors plus newcomers into the order of the sort key's field, shows every live id once with its live statistics, shows no object that was neither on display nor in the table, keeps each row's uncopied fields and every field of dropped rows, follows the selected id, stores the table's flows in a new snapshot, and leaves the aggregator untouched; a paused one does nothing |
| `Dashboards.ReconciledIds` | internal/tui/dashboard.go:1211-1247 | survivors plus newcomers are duplicate-free and have exactly the snapshot's ids |
| `Dashboards.ReconciledMembers` | internal/tui/dashboard.go:1211-1247 | the list holds every earlier row whose id is still live, and beyond the earlier rows only snapshot flows |
| `Dashboards.PermutationKeepsDistinct` | internal/tui/dashboard.go:1157-1172 | reordering introduces no duplicate id |
| `Dashboards.Dashboard.ApplyFilters` | internal/tui/dashboard.go:1175-1190 | the displayed list is the snapshot's flows of the protocol; without a filter it is the snapshot's own array |
| `Dashboards.OfProtocolAppend` | internal/tui/dashboard.go:1181-1185 | the filter goes row by row and keeps the order |
| `Dashboards.Dashboard.EnterFilter` | internal/tui/dashboard.go:918-929 | exactly the snapshot's flows of that protocol, all for the empty filter, sorted by the field of the sort key, selection at the top, still without duplicate ids; the snapshot is at most reordered |
| `Dashboards.Dashboard.CycleSort` | internal/tui/dashboard.go:1072-1089 | bytes, packets, duration, latest and bytes again: the same flows in that order, selection at the top, still without duplicate ids |
| `Dashboards.Dashboard.TogglePause` | internal/tui/dashboard.go:1024-1025 | only the pause flag changes |
| `Dashboards.Dashboard.MoveSelection` | internal/tui/dashboard.go:1026-1051 | the neighbouring row, where there is one, becomes the selected row and its id the followed id |
| `Dashboards.FilterSurvivesRefreshIff` | internal/tui/dashboard.go:1241-1247 | a refreshed view satisfies a protocol filter iff the whole table does |
| `Session.Start` | internal/tui/dashboard.go:67-89 | a new aggregator and dashboard meet everything a session requires, with an empty run |
| `Session.PressKey` | internal/tui/dashboard.go:1021-1089 | what each key does to the pause flag, the sort key, the filter, the selection and the rows, and that it does nothing else to them |
| `Session.Step` | internal/tui/dashboard.go:95-112 | a packet, sweep, refresh or key keeps the view consistent, the table the one its run calls for, and every flow the view knows in the table or closed with the memory of an evicted conversation; it changes the pause flag, the sort key, the filter, the rows and the selection only as that key or refresh does |
| `Session.RunSession` | internal/tui/dashboard.go:95-112 | the same after any script; the run grew by exactly the script's packets and sweeps |
| `Session.KnownAfterPacket` | internal/monitor/aggregator.go:186-285 | a packet moves no flow out of the table and touches no flow that has left it |
| `Session.KnownAfterSweep` | internal/monitor/aggregator.go:330-347 | a flow a sweep evicts is closed and keeps the memory of exactly the conversation evicted |
| `Session.RowsShowRun` | internal/tui/dashboard.go:1198-1264 | in a refreshed view a key has a row iff packets of it arrived since its last eviction, it has one only, and its copied fields are the summary of those packets |
| `Session.StaleRowIff` | internal/tui/dashboard.go:1211-1233 | a refreshed row has all twelve copied fields of the live flow with its key; it shows what that flow shows in every field iff it does not say closed, iff it is that flow; one that says closed has the first time, ports, flags and change log of a conversation the run has evicted |
| `Session.RefreshAfter` | internal/tui/dashboard.go:1198-1264 | so it is for every key after any script and an unpaused refresh, ordered by the sort key's field; and every row is the table's flow, or closed and a conversation evicted earlier in the run |
| `Session.FilterLost` | internal/tui/dashboard.go:1241-1247 | with one UDP conversation the filter tcp shows nothing, and the next refresh shows the UDP row |
| `Session.StaleRow` | internal/tui/dashboard.go:1211-1233 | packet, refresh, idle sweep, packet, refresh: the row has the live statistics but says closed, with the first time and port of the evicted flow |

## Left out

- Rendering, scrolling, drill-down, help, the mouse, the filter dialog before "enter", and the throughput history: display only.
- eBPF loading, XDP attachment, interface lookup and watching, logging and the command line: I/O. Reads from the kernel ring buffer and reservations in it are free inputs.
- `StatusLog`: a simpler "last n" list than the ring buffer.
- Rates other than the packet loss rate, `MemorySize`, `EstimateRingBufferSize`, `uint16ToString`: no state or unused.
- `TimestampNs` is carried through; the never-set event fields (hash, probe point, pads) and the never-written flow fields (retransmits, out-of-order) are not part of the model.
- Mutexes and memory-model races: each locked region is one step. The dashboard's unlocked reads and writes are taken as one step as well.
- The DNS log and tally are values here: between two refreshes a row kept for a re-created flow shares Go's map and slice with it, and so may show the map's newer entries early.
- Clock: readings are unbounded integers; the saturation of `time.Duration` at 292 years is not modelled. Readings never go back, as Go's monotonic clock promises.
- Dashboards.Sort: stands for the library function `sort.Slice` and leaves ties in a fixed order the library does not promise; `SortFlows` promises only a descending permutation.
- Dashboards.Dashboard.Append: a slice that outgrows its array moves to one of exactly the needed size; how much spare room the Go runtime adds is not modelled.
- Pipeline.StepKeepsInv: readLoop and aggregateLoop are moves of a state machine rather than loops, so that every interleaving is covered; when the kernel reader reports itself closed is tied to the stop flag.
- Bit masks and shifts are written as comparisons, division and remainder on integers.
- Compression pointer resolution and the answer sections of DNS messages: the code does not implement them.
