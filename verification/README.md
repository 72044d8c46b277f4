# MarlinSpike: verified model

MarlinSpike analyses packet captures of industrial networks. This project models its computational cores in
Dafny and proves what they promise, for all inputs, all runs and all states that can be reached:

- the PCAP and PCAPNG header reader, against writers for both formats (draft-ietf-opsawg-pcap sections 4 and 5,
  draft-ietf-opsawg-pcapng sections 3.1, 3.5 and 4.1 to 4.4);
- the activity timeline and its cache;
- the merge of separately dissected chunks of a large capture;
- crash recovery: durable rows, engine processes, reports, server restarts, the boot reaper and the watchers;
- the stage tracker of a run;
- the topology builder with its layer-2 merge and Purdue levels;
- the packet stream with inline port-scan collapse;
- beacon scoring and the adapter for decoded events;
- the roll-ups across reports: aggregation, asset baselines, enrichment by plugins, indicator scans.

Code that works in place is modelled by classes and methods with loops, each proved equal to a specification
function; the theorems are lemmas about those functions. `KeyedFold` and `Unordered` hold the shared theory of
the program's dictionaries of aggregates. Times and scores are real numbers.

## What the proofs turned up

Where a promise fails, the model keeps the code as it is and gives the exact condition.

- The guard on record lengths reads as `(4 * snaplen + 1) << 20`, so it can only fire for snap lengths below 1024
  (`PcapFormat.SanityCheckCanFire`).
- The timeline cache is described as least-recently-used; it evicts the oldest inserted entry, so the two hold the same
  entries exactly as long as every entry evicted was also the one requested longest ago (`TimelineCache.RunIsLru`).
- Merging protocol identities depends on how the chunks are grouped when kinds of values clash (`Json.Associates`).
- Dissecting chunks apart misses port scans that only show across chunks (`ChunkedPipeline.ChunkedIsOnePass`).
- A process that is not the same invocation is to count as a dead engine. The reaper takes any process for the engine
  that shares one distinctive argument with it, another scan for one (`RecoveryRuns.StrangerExact`); a watcher takes
  any process that has the pid (`RecoveryRuns.PhantomExact`), for as long as one has (`RecoveryRuns.RunsWhilePidLasts`).
- A stage marker that goes back can leave two stages running, and a failed or stopped run then keeps one running
  (`Stages.GoingBack`, `Stages.FinaliseExact`).
- A node whose management address is its own IPv6 key is merged into itself and deleted; the graph is sound exactly
  when that happens to no node (`TopologyIntegrity.IntegrityExact`).
- After a layer-2 merge the second Purdue pass looks peers up under their old keys, so separation can fail
  (`PurdueLevels.Separation`).
- An aggregate whose first event has no time never gets a first time (`Bronze.FirstSeenIsEarliest`).
- The description kept of a finding can depend on the order of reports (`RollupDescription.DescriptionOrderExact`).
- The enrichment merge is described as idempotent; it is so unless an unknown plugin's extension has findings
  (`Enrich.MergeAgain`).
- The severity histogram counts first ratings, the findings keep the worst, so the two need not agree
  (`RollupHistogram.HistogramAgrees`).
- The number of reports a finding or an anomaly is in counts how often they list it (`BaselineFacts.InReports`).
- The indicator scan does not flag the loss of matches beyond fifty in one report (`IocScans.ScanComplete`).
- Indicator matches are said to be exact; a domain name also matches inside longer names (`IocScans.MatchesExact`).

## Model

| member | source | states |
|---|---|---|
| CaptureReader.ReadCaptureSummary | marlinspike/_pcap_header.py:89-107 | The cursor-moving reader returns, for every byte string, exactly what the specification of the format its first four bytes name returns, errors included |
| CaptureReader.ReadPcap | marlinspike/_pcap_header.py:110-175 | The classic reader computes the specified summary or error of any file |
| CaptureReader.ReadRecords | marlinspike/_pcap_header.py:133-175 | The record loop, from any cursor position, tallies exactly the record headers wholly present, and stops at the first absurd length |
| CaptureReader.ReadPcapng | marlinspike/_pcap_header.py:178-329 | The block reader computes the specified summary or error of any file |
| CaptureReader.ReadBlocks | marlinspike/_pcap_header.py:204-329 | The block loop, from any cursor position, is the specified walk over the blocks found from there |
| CaptureReader.ReadOptions | marlinspike/_pcap_header.py:246-264 | The option loop yields the divisor of the last timestamp-resolution option before the end of options, or the overrun error |
| CaptureReader.ReadPacket | marlinspike/_pcap_header.py:266-307 | A packet block counts, and carries a time over its interface's divisor, exactly as the walk says |
| CaptureReader.ReadBlock | marlinspike/_pcap_header.py:216-234 | One whole aligned block is read and the cursor put behind it, or the walk stops |
| CaptureReader.FormatRecognised | marlinspike/_pcap_header.py:97-107 | The output of either writer reaches its own reader |
| PcapFormat.RoundTrip | marlinspike/_pcap_header.py:110-175 | Reading undoes writing for every classic capture whose payload lengths pass the sanity check, in both byte orders and resolutions |
| PcapFormat.RejectedWhenImplausible | marlinspike/_pcap_header.py:146-151 | A written capture is rejected exactly when some payload trips the check, and then on the first such one |
| PcapFormat.HeaderRefused | marlinspike/_pcap_header.py:110-126 | Any file is refused for its header exactly when it has fewer than 24 bytes, or starts with none of the four magic numbers |
| PcapFormat.ByteOrderIrrelevant | marlinspike/_pcap_header.py:115-129 | Both byte orders of a capture read the same |
| PcapFormat.SanityCheckCanFire | marlinspike/_pcap_header.py:148 | With the precedence the code gives the guard, some 32-bit length trips it if and only if the snap length is below 1024 |
| PcapFormat.Truncation | marlinspike/_pcap_header.py:140-163 | Cutting any bytes leaves exactly the records whose headers lie wholly inside the cut |
| PcapFormat.CutSummary | marlinspike/_pcap_header.py:140-175 | A file cut after its global header reports exactly on the records left |
| PcapFormat.Progress | marlinspike/_pcap_header.py:137-143 | Each record consumes at least 16 bytes, which bounds the count |
| PcapngFormat.UnknownBlocksSkipped | marlinspike/_pcap_header.py:309-310 | Blocks of other types contribute nothing to the walk, wherever and however many |
| PcapngFormat.HeaderRefused | marlinspike/_pcap_header.py:184-201 | Of any file: when the section header is refused, and why, and which byte order it sets |
| PcapngFormat.PacketsCounted | marlinspike/_pcap_header.py:266-307 | On any bytes that summarise, the count is that of the simple packet blocks and of the enhanced and obsolete ones whose header is whole |
| PcapngFormat.Truncation | marlinspike/_pcap_header.py:215-234 | Cutting any bytes leaves exactly the blocks wholly inside the cut |
| PcapngFormat.CutSummary | marlinspike/_pcap_header.py:184-234 | A file cut after its section header summarises exactly the blocks left |
| PcapngFormat.Progress | marlinspike/_pcap_header.py:216-234 | Each block consumes at least 12 bytes, which bounds the count |
| PcapngWriter.ReadBackBlocks | marlinspike/_pcap_header.py:215-234 | Framing any list of blocks and walking the bytes gives the blocks back |
| PcapngWriter.ReadBackFields | marlinspike/_pcap_header.py:246-264 | Walking written options gives the resolution of the last one that sets it |
| PcapngWriter.UnitReadsBack | marlinspike/_pcap_header.py:255-262 | The octet of every unit, ten or two to some power ticks a second, is read as that unit |
| PcapngWriter.UnitPastTheEnd | marlinspike/_pcap_header.py:246-264 | After any options, a resolution option whose value lies past the end of the block fails the read |
| PcapngWriter.LastWins | marlinspike/_pcap_header.py:255-262 | The divisor chosen is that of the last setting option if any sets it, else the default |
| PcapngWriter.RoundTrip | marlinspike/_pcap_header.py:178-329 | Reading undoes writing for every single-section capture: packet count, first and last ticks over the power of ten or two their interface names, first link type, largest snap length |
| PcapngWriter.ByteOrderIrrelevant | marlinspike/_pcap_header.py:193-199 | Both byte orders of a section read the same |
| PcapngWriter.UnknownItemsSkipped | marlinspike/_pcap_header.py:305-310 | For written captures: two that differ only in items of unknown type summarise alike |
| PcapngInsertion.InsertedWalk | marlinspike/_pcap_header.py:215-310 | For any bytes: a block of unknown type inserted at any boundary the walk reaches leaves its result unchanged |
| PcapngInsertion.UnknownInsertionsSkipped | marlinspike/_pcap_header.py:178-329 | So any number of them, at any boundary after the section header, leave the summary or error of any file unchanged |
| Timeline.Compute | marlinspike/app.py:122-191 | The three-array bucketer returns the specified timeline of any conversations |
| Timeline.AddEntry | marlinspike/app.py:160-173 | One conversation adds one to each slot it occupies and its exact shares of packets and bytes |
| Timeline.SizeBound | marlinspike/app.py:150-154 | At most 121 buckets, each at least one second |
| Timeline.ClampsNeverFire | marlinspike/app.py:161-164 | Every conversation falls inside the grid, so clamping changes no index |
| Timeline.SlotsAreMeetings | marlinspike/app.py:161-171 | A conversation occupies exactly the buckets whose half-open slot its interval meets |
| Timeline.Conservation | marlinspike/app.py:160-184 | Emitted packets and bytes add up exactly to those of the kept conversations |
| Timeline.EmittedExactly | marlinspike/app.py:175-184 | A bucket is emitted exactly when some conversation meets its slot, with the number that do |
| Timeline.EmittedWithin | marlinspike/app.py:177-181 | Every emitted time lies between the first and the last moment seen |
| Timeline.TimelineExact | marlinspike/app.py:122-191 | Of the conversations themselves: least start, greatest end, all packets, all bytes, and in each bucket the number active in its interval |
| Timeline.StepLeast | marlinspike/app.py:150-151 | Buckets last the fewest whole seconds, at least one, of which 120 cover the span |
| Timeline.SharesEven | marlinspike/app.py:167-173 | The shares of a conversation differ by at most one, larger ones first, and add up |
| TimelineCache.Cache.Get | marlinspike/app.py:199-214 | The answer and the whole new cache: a hit leaves it, a miss adds the entry after evicting the oldest inserted when 32 are held |
| TimelineCache.RunInvariant | marlinspike/app.py:195-214 | After any run of requests the cache is bounded and holds only timelines some request of that key computed |
| TimelineCache.AnswersAreFresh | marlinspike/app.py:199-207 | While conversations do not change under one path and modification time, every answer is what computing it anew gives |
| TimelineCache.StepIsLru | marlinspike/app.py:194-213 | From one state, a request leaves the contents and their order as least-recently-used would if and only if it misses or hits the newest entry |
| TimelineCache.RunIsLru | marlinspike/app.py:194-213 | Over a run both policies hold the same entries throughout, and so answer alike, if and only if every entry evicted was requested before every other held one |
| TimelineCache.EvictsJustUsed | marlinspike/app.py:206-213 | In a full cache a hit on the oldest entry and then a miss evicts the key just used, which least-recently-used keeps |
| TimelineCache.NotLeastRecentlyUsed | marlinspike/app.py:206-213 | A run of 34 requests from the empty cache that does so: the key just used is gone, and least-recently-used still holds it |
| Json.MergeNestedIdempotent | marlinspike/app.py:1006-1030 | merge(a, a) = a and merge(merge(a, b), b) = merge(a, b), for all trees |
| Json.MergeNestedKeeps | marlinspike/app.py:1006-1030 | Every non-empty scalar, list item, true flag and key of the existing tree survives at its path; incoming keys and items arrive |
| Json.Associates | marlinspike/app.py:1015-1029 | Merging three values in either grouping agrees if and only if they do not conflict, the conflicts being spelled out |
| Json.GroupingCanMatter | marlinspike/app.py:1026-1029 | A concrete triple for which the grouping matters |
| ChunkMerge.MergeChunks | marlinspike/app.py:1033-1140 | The in-place merge over all chunk reports is the keyed fold of their conversations in order |
| ChunkMerge.Absorb | marlinspike/app.py:1096-1138 | Merging one conversation into a held one, field by field, is the combining function of the fold |
| ChunkMerge.Unite | marlinspike/app.py:1116-1124 | Appending items whose marker is not yet seen is an order-keeping union |
| ChunkMerge.ChunkSplitIndependent | marlinspike/app.py:1085-1140 | On every field but the identities, merging two stretches and then their results equals merging the whole |
| ChunkMerge.KeysAndTotals | marlinspike/app.py:1086-1099 | One conversation per key; packets, bytes and writes conserved |
| ChunkMerge.Present | marlinspike/app.py:1086-1094 | A key is present exactly when some chunk had it |
| ChunkMerge.ListsUniteAndFlagsSpread | marlinspike/app.py:1116-1131 | A list field holds exactly the union of the chunks' items, a flag is set exactly when some chunk set it |
| ChunkMerge.BeaconIsStrongest | marlinspike/app.py:1133-1136 | Score, interval and jitter come together from one chunk, the first of those with the highest score |
| ChunkMerge.TimesAreExtreme | marlinspike/app.py:1101-1108 | First and last seen are the least and greatest non-empty times, empty only when none was given |
| ChunkMerge.FieldsExact | marlinspike/app.py:1096-1138 | Per key: addresses, transport and source port are the first any chunk gives, the entropy is the highest, packets, bytes and writes are the sums |
| ScanStore.Store.RecordStart | marlinspike/run_store.py:28-80 | The row as started, its outcome columns as they were; the others unchanged |
| ScanStore.Store.UpdatePid | marlinspike/run_store.py:83-98 | Only pid and argument vector of an existing row change |
| ScanStore.Store.RecordFinish | marlinspike/run_store.py:101-133 | The finished row: given columns written, the pid cleared, absent rows ignored |
| ScanStore.Store.ActiveForRecovery | marlinspike/run_store.py:139-141 | Exactly the running rows, each once |
| ScanStore.Store.ActiveCount | marlinspike/run_store.py:144-154 | The number of running rows of one user, or of all |
| Recovery.RecognisesItself | marlinspike/recovery.py:68-88 | A live process under the very saved arguments matches if and only if none were saved or some argument after the first is non-empty and no flag |
| Recovery.Reap | marlinspike/recovery.py:192-288 | Rows, counters and watchers are the specified ones, in whatever order rows come and whatever each row finds when its turn comes |
| Recovery.OutcomesPartition | marlinspike/recovery.py:214-281 | Each running row gets exactly one of the four outcomes, so the counters add up to the rows checked |
| Recovery.ReapIsSafe | marlinspike/recovery.py:229-281 | What still runs has a live pid that passed the argument test, and is in time; what completed has a report; terminal rows are untouched |
| Recovery.ReapExact | marlinspike/recovery.py:214-281 | Every running row, without naming the decision: abandoned iff late, else left alone iff its process lives, else completed with its counts iff its report is there, else failed; and every column of the row it becomes |
| Recovery.ReportCompleteExact | marlinspike/recovery.py:143-160 | A report passes the check iff its file is there, parses, and is an object with a key, a list with an item or a text with a part that is topology or results |
| Recovery.CountsMean | marlinspike/recovery.py:162-173 | The counts are the sizes of nodes and edges of the topology, under results or beside them; zero where they cannot be taken |
| Recovery.PollExact | marlinspike/recovery.py:312-334 | A poll waits iff a process has the pid; else the row completes iff its report is there, and otherwise fails; no other row changes |
| Recovery.WatchLoop | marlinspike/recovery.py:312-334 | The polling loop finalises the row at the first poll that finds the pid gone, and not before |
| RecoveryRuns.AlwaysAccounted | marlinspike/recovery.py:254-263 | Over every run of launches, exits, crashes, boots and ticks a live server accounts for each running row exactly once, by a reader or by a watcher on its pid |
| RecoveryRuns.TerminalIsFinal | marlinspike/run_store.py:117-133 | No terminal row runs again or changes in any column |
| RecoveryRuns.CompletedHadReport | marlinspike/recovery.py:265-269 | A row completed by reaper or watcher was running with its report in place at the very step that made it what it is |
| RecoveryRuns.WatchedWasMatched | marlinspike/recovery.py:248-256 | Every watched pid was, at the boot that attached its watcher, alive and passed the argument test |
| RecoveryRuns.BootSettles | marlinspike/recovery.py:229-281 | Right after a boot every running row is within its deadline and has its one watcher on a live matching process |
| RecoveryRuns.BootExact | marlinspike/recovery.py:214-281 | In every reachable world, what a boot makes of each running row, and which rows it watches |
| RecoveryRuns.TickExact | marlinspike/recovery.py:312-334 | In every reachable world, what a poll makes of the row it watches |
| RecoveryRuns.WatcherIgnoresIdentity | marlinspike/recovery.py:316-319 | A poll keeps the row running if and only if any process has the pid, whatever its arguments |
| RecoveryRuns.PhantomExact | marlinspike/recovery.py:316-334 | In every reachable world a polled row runs on without its own invocation if and only if another one has its pid |
| RecoveryRuns.StrangerExact | marlinspike/recovery.py:116-138 | After a boot in every reachable world a row is watched without its own invocation if and only if it ran, in time, and another invocation with a distinctive argument of its own has its pid |
| RecoveryRuns.RunsWhilePidLasts | marlinspike/recovery.py:312-334 | While the server stays up a watched row runs, unchanged, if and only if no poll has found its pid gone |
| RecoveryRuns.PhantomRuns | marlinspike/recovery.py:316-334 | A run that ends with a phantom: the engine is re-attached, ends, and a shell takes its pid |
| RecoveryRuns.OtherScanAdopted | marlinspike/recovery.py:116-138 | A run in which the engine ends while the server is down, another scan takes its pid and the boot adopts it |
| Stages.Tracker.SetStage | marlinspike/app.py:970-981 | Stages before the announced one complete and it runs, unless failed or stopped; the rest stay |
| Stages.Tracker.MarkActive | marlinspike/app.py:984-989 | The first running stage, and no other, takes the given state |
| Stages.Tracker.ApplyMarker | marlinspike/app.py:992-1003 | A marker, mapped, moves the run; anything else leaves it |
| Stages.Tracker.Stop | marlinspike/app.py:4523-4533 | A stop request stops the running stage of a run in progress and is remembered in any case |
| Stages.Tracker.FinaliseRun | marlinspike/app.py:1168-1270 | The final status and stages for stopped, failed and completed runs with any set of plugins |
| Stages.PluginTwice | marlinspike/app.py:1176-1262 | A second plugin leaves the stages as the first left them |
| Stages.AtMostOneRuns | marlinspike/app.py:970-1003 | In every run whose markers never go back at most one stage runs, earlier ones are over, later ones wait; a finished run has none running |
| Stages.GoingBack | marlinspike/app.py:975-981 | A marker leaves two stages running if and only if it goes back to a stage free to run while a later one runs |
| Stages.BackwardsLeavesOneRunning | marlinspike/app.py:975-989 | A run whose markers go back: two stages run at once, and one is left running in the failed run |
| Stages.FixedForever | marlinspike/app.py:976-981 | Failed and stopped stages never change, under any events in any order |
| Stages.CompleteForever | marlinspike/app.py:975-981 | In an orderly run a completed stage stays complete |
| Stages.OutcomeFinal | marlinspike/app.py:4531-4533 | A finished run keeps its status and stages |
| Stages.FinaliseExact | marlinspike/app.py:1172-1270 | From any state: the status is terminal; no stage is left running if and only if the run completed or at most one was; a completed run has every stage over if and only if a plugin ran or none waited |
| Stages.EventExact | marlinspike/app.py:970-1003 | What each event does to every stage and to name, number and flags, stage by stage |
| Stages.OutcomeExact | marlinspike/app.py:1168-1270 | A run ends stopped iff a stop was requested, else completed iff the engine returned 0, else failed; and what becomes of every stage, the number and the name |
| TopologyBuilder.Builder.IndexConversations | marlinspike/engine.py:2854-2861 | The two indexes list each conversation under its source and its destination key |
| TopologyBuilder.Builder.BuildGraph | marlinspike/engine.py:2921-3046 | Nodes and edges built in place are the specified ones |
| TopologyBuilder.Builder.MergeNode | marlinspike/engine.py:3154-3203 | One merge moves attributes, edges and index entries to the target and removes the node |
| TopologyBuilder.Builder.MergeL2Nodes | marlinspike/engine.py:3134-3206 | The whole pass is the specified merges over the colon-bearing keys in some order |
| TopologyBuilder.Builder.Build | marlinspike/engine.py:2854-2867 | Index, graph and merge pass together; the result is sound if and only if no node resolved to itself |
| TopologyIntegrity.BuildLinked | marlinspike/engine.py:2854-3046 | A built graph is linked to its conversations: nodes, edges, indexes and roles match them exactly |
| TopologyIntegrity.MergeLinked | marlinspike/engine.py:3154-3203 | Merging one node into another keeps the graph linked, the merged key sent to its target |
| TopologyIntegrity.PassLinked | marlinspike/engine.py:3154-3203 | So does any sequence of merges in which no node resolves to itself |
| TopologyIntegrity.EndpointsLinked | marlinspike/engine.py:3188-3193 | Whatever was merged, edges join existing nodes |
| TopologyIntegrity.EdgesConserve | marlinspike/engine.py:3017-3043 | Edge conversation counts and bytes add up to those of the non-skipped conversations |
| TopologyEdges.EdgesExact | marlinspike/engine.py:3003-3043 | Edges differ in their five values; there is one for exactly the combinations that kept conversations have; each adds up count, bytes, flags, source ports and extreme times of exactly these |
| TopologyEdges.NodesExact | marlinspike/engine.py:2928-2969 | A node exists iff some end has its key; its addresses are those of the first such end, its name and management address the first that its own conversations say |
| TopologyEdges.MacTableExact | marlinspike/engine.py:3143-3149 | The table maps a MAC address, in lower case, to the IP address beside its last appearance with one |
| TopologyEdges.TargetExact | marlinspike/engine.py:3157-3160 | A node is merged into the node of its management address, or, without one, of its address in the table |
| TopologyEdges.MergedNode | marlinspike/engine.py:3164-3186 | The merged node keeps its words and addresses where it has any, takes the other's where not, and unites protocols and roles |
| TopologyIntegrity.AllFiled | marlinspike/engine.py:3195-3199 | Each conversation is filed exactly once per index, under one existing node |
| TopologyIntegrity.IntegrityExact | marlinspike/engine.py:2845-2867 | Over every visiting order, endpoints exist, totals are conserved and every conversation is filed once if and only if no node resolves to itself when its turn comes |
| TopologySelfMerge.StepKeepsEndpoints | marlinspike/engine.py:3157-3202 | A merge step keeps edges on existing nodes if and only if the target differs from the key or no edge touches it |
| TopologySelfMerge.NoSelfWithoutIPv6 | marlinspike/engine.py:3152-3160 | If no address a node may resolve to holds a colon, no node resolves to itself |
| TopologySelfMerge.IPv6ManagementAddressDangles | marlinspike/engine.py:3152-3202 | A concrete capture after which an edge end is no node |
| Purdue.InferLevels | marlinspike/engine.py:3263-3342 | The five loops over the nodes leave the specified graph |
| Purdue.Talks | marlinspike/engine.py:3322-3333 | The search of both indexes finds a device exactly when some filed conversation has one at its other end |
| Purdue.LevelsComputed | marlinspike/engine.py:3263-3342 | The level the loops leave on a node is given directly by its address, protocols, roles and talks |
| PurdueLevels.EveryNodeLevelled | marlinspike/engine.py:3335-3342 | Every node of the merged graph is left with a level |
| PurdueLevels.LevelExact | marlinspike/engine.py:3263-3342 | The level of every node, whatever was merged, from the conversations that sit there: by address, else 1 or 2 with operational protocols, else 2 or 3 with a device at the other end, else 4 |
| PurdueLevels.LevelThreeTalks | marlinspike/engine.py:3337-3340 | A node left at level 3 was put there by its subnet or converses with a device placed at 0 to 2 in the first pass |
| PurdueLevels.LevelFourExact | marlinspike/engine.py:3316-3342 | A node left to the second pass ends at level 4 if and only if no conversation filed under it names a first-pass device, by the conversation's own key, at its other end |
| PurdueLevels.Separation | marlinspike/engine.py:3313-3342 | After any merges, a conversation joins a node left at 0 or 1 to one left at 4 if and only if the first pass left 0 or 1 on the one, and 4, or nothing with no device named, on the other |
| PurdueLevels.SeparatedUnmerged | marlinspike/engine.py:3313-3342 | So never where the low end kept its own key and no subnet dictates level 4 |
| Purdue.CheckCrossPurdue | marlinspike/engine.py:4132-4149 | One violation for each edge that joins a node at level 0 or 1 to one at level 3 or above, and no other |
| Purdue.CrossingExact | marlinspike/engine.py:4132-4149 | For any graph: a pair is reported iff an edge joins it and its ends are nodes apart, one at level 0 or 1, the other at 3 or above; as many reports as such edges |
| Purdue.ViolationsInvolveThreeOrFive | marlinspike/engine.py:4132-4149 | With no subnet map and nothing merged, the pair of an edge is reported iff one end is at level 1 and the other at level 3 or 5 |
| PurdueAfterMerge.SeparationFailsAfterMerge | marlinspike/engine.py:3316-3333 | A merged capture whose levels left are 4 on a host and 1 on the controller it has an edge to; the cross-level check reports the edge |
| PurdueAfterMerge.UnmergedPlantSeparated | marlinspike/engine.py:3316-3333 | Without the merge the levels left on the same conversations keep separation |
| PacketStream.Dissector.Take | marlinspike/engine.py:2040-2120 | One packet moves the shared state as specified: skipped, filed under its own key, or collapsed |
| PacketStream.Dissector.RunPass | marlinspike/engine.py:2008-2120 | One pass folds the packets into the state |
| PacketStream.Dissector.Dissect | marlinspike/engine.py:2348-2393 | Chunked and single-pass modes leave the same state, for every chunk size |
| PacketStream.FoldConcat | marlinspike/engine.py:2374-2376 | Processing two stretches one after the other equals processing them at once |
| PacketStream.PacketsConserved | marlinspike/engine.py:2069-2071 | Every packet is skipped or filed under one conversation, whose count and bytes are those of the packets filed there |
| PacketFiling.ConversationsExact | marlinspike/engine.py:2049-2125 | For every key: the conversation exists iff some packet has these addresses, protocol and port and is no part of a scan, or is part of one for a port-scan key; and it tells packets, bytes, transport, source ports, times and epochs of exactly those packets |
| PacketFiling.CountersExact | marlinspike/engine.py:2030-2067 | The three counters are all packets, the incomplete ones and those that are part of a scan |
| PacketFiling.ScanExact | marlinspike/engine.py:2049-2067 | A packet is collapsed iff, with collapsing on and a port and transport given, the complete packets of its pair so far, itself included, show at least threshold many ports |
| PacketStream.CollapsedExactly | marlinspike/engine.py:2057-2067 | A packet is collapsed exactly when its pair has been seen on threshold many ports, itself included |
| PacketStream.StaysCollapsed | marlinspike/engine.py:2062-2067 | Once collapsed, a pair stays collapsed on every port |
| PacketStream.FewOwnPorts | marlinspike/engine.py:2061-2066 | Fewer than threshold ports of a pair ever get their own conversation |
| PacketStream.ArpsCapped | marlinspike/engine.py:2087-2113 | The observations kept are the first 10,000 ARP packets, and the flag says exactly whether that many came |
| ChunkedPipeline.MergedTotals | marlinspike/app.py:1085-1099 | The merged conversation of a key totals the packets and bytes the chunks' dissections filed under it |
| ChunkedPipeline.ChunkedIsOnePass | marlinspike/engine.py:2057-2071 | Dissecting chunks with fresh state and merging gives every key the packets of one pass if and only if no packet is collapsed only because of ports earlier chunks saw; and then the bytes too |
| ChunkedPipeline.ChunkedIsOnePassWhenOff | marlinspike/engine.py:2062-2071 | With collapsing off that is so however the capture is cut |
| ChunkedPipeline.ScanAcrossChunks | marlinspike/engine.py:2062-2067 | A two-packet scan that the cut hides |
| Beacon.Compute | marlinspike/engine.py:263-296 | The histogram computation returns the specified score, interval and jitter |
| Beacon.Histogram | marlinspike/engine.py:278-281 | The dictionary loop counts each bin, in order of first use |
| Beacon.FindPeak | marlinspike/engine.py:283 | The first bin of greatest count |
| Beacon.PeakIsFullest | marlinspike/engine.py:283 | The peak is the first of the fullest bins |
| Beacon.NearCountsGaps | marlinspike/engine.py:278-286 | The count around the peak is the number of gaps whose bin lies within one width of it |
| Beacon.ScoreInRange | marlinspike/engine.py:284-295 | The score lies in [0, 1] before clamping, which therefore never acts |
| Beacon.ScoreIsProportion | marlinspike/engine.py:263-296 | For every list of timestamps the score lies in [0, 1] and is what it would be without the clamp |
| BeaconMeaning.ScoreExact | marlinspike/engine.py:263-296 | Of any timestamps: when the score is zero, and otherwise interval, jitter and score in terms of the gaps, with bins of half a second or a tenth of the middle gap |
| BeaconMeaning.BinExact | marlinspike/engine.py:279-281 | A gap's bin is a multiple of the width, none nearer |
| Beacon.ClusterNotEmpty | marlinspike/engine.py:283-289 | The fullest bin has a gap within one bin width, so the cluster is never empty |
| Beacon.OrderAndOriginIrrelevant | marlinspike/engine.py:267-268 | Permuting or translating the timestamps does not change the result |
| Beacon.PerfectBeacon | marlinspike/engine.py:265-295 | At least ten perfectly periodic beats score 1 with no jitter and an interval within half a bin if and only if the period exceeds 0.25 s, else 0 |
| Bronze.TurnedWhenOutranked | marlinspike/engine.py:342-353 | An event is turned exactly when its source port outranks its destination port, under every status; its service port is the server's |
| Bronze.NormaliseIdempotent | marlinspike/engine.py:451-487 | Normalising a normalised event under any status changes nothing |
| Bronze.DirectionsMeet | marlinspike/engine.py:457-487 | Both directions of a flow get one key if and only if the ports differ in rank or the two ends are equal |
| Bronze.OneRegisteredPort | marlinspike/engine.py:344-348 | With exactly one registered port an event and its mirror image normalise to the same flow |
| Bronze.BuildConversations | marlinspike/engine.py:751-833 | The adapter's loop is the keyed fold of the events' contributions |
| Bronze.DirectionIrrelevant | marlinspike/engine.py:771-784 | Turning any events of decided direction round leaves all conversations unchanged |
| Bronze.TotalsConserved | marlinspike/engine.py:598-599 | One conversation per key; all packets and bytes of transaction and topology events conserved |
| Bronze.ConversationOf | marlinspike/engine.py:600-601 | A conversation's first time and operations are those of the events of its key, in order |
| BronzeFacts.ConversationExact | marlinspike/engine.py:771-833 | For every key: the conversation exists iff some event belongs to it, and tells packets, bytes, first and last time, times, client ports and operations of exactly those events |
| BronzeFacts.NormaliseExact | marlinspike/engine.py:342-353 | Client and server of an event by the weight of the two ports, told without the turning |
| BronzeFacts.RegisteredExact | marlinspike/engine.py:217-228 | The registered service ports |
| Bronze.FirstSeenIsEarliest | marlinspike/engine.py:600 | The first time is the earliest given if and only if the key's first event had a time, or none had |
| Bronze.FirstTimeLost | marlinspike/engine.py:600 | Two events of one flow, the first without a time: the conversation has none, though one was given |
| Bronze.OperationsKept | marlinspike/engine.py:356-364 | Of the operations the first thirty-two different ones are kept |
| Rollup.Aggregate | marlinspike/aggregate.py:55-212 | The loops over reports, nodes and findings return the specified assets, findings and histogram |
| Rollup.FindingsOrderIrrelevant | marlinspike/aggregate.py:162-212 | Occurrences, severity, score and first and last time of each finding do not depend on the order of reports |
| Rollup.AssetsOrderIrrelevant | marlinspike/aggregate.py:112-160 | Counts, times, addresses and levels of an asset do not depend on the order of reports |
| Rollup.HistogramOrderIrrelevant | marlinspike/aggregate.py:206-209 | Nor does the severity histogram |
| Rollup.FindingMeaning | marlinspike/aggregate.py:199-208 | Occurrences are the reports holding the key, never more than the reports; severity and score are the worst any finding of the key gives, and attained |
| Rollup.RanksExact | marlinspike/aggregate.py:261-262 | The order of the severities; an unknown text counts as medium |
| RollupMeaning.FindingDates | marlinspike/aggregate.py:188-198 | First and last are the least non-empty and the greatest time of the reports that have the finding |
| RollupMeaning.AssetMeaning | marlinspike/aggregate.py:112-160 | The report count is the reports that show the asset, the times are their least non-empty and greatest, and exactly the addresses and levels of its nodes are kept |
| RollupMeaning.ShowsExact | marlinspike/aggregate.py:37-46 | A report shows an asset iff a node has its MAC address, or has none and has its IP address |
| Rollup.HistogramConserved | marlinspike/aggregate.py:206-258 | The histogram adds up to the occurrences of all findings |
| RollupHistogram.HistogramExact | marlinspike/aggregate.py:199-208 | For each severity: histogram and occurrences of the findings rolled up to it differ by the first ratings promoted into it less those promoted above it; so when they are equal |
| RollupHistogram.HistogramAgrees | marlinspike/aggregate.py:199-208 | They agree for all severities if and only if every report that has a finding first rates it as the roll-up does |
| RollupHistogram.RatedApart | marlinspike/aggregate.py:199-208 | Two reports for which they do not |
| RollupDescription.DescriptionOrderExact | marlinspike/aggregate.py:163-195 | Over all orders of any reports, a finding keeps one description if and only if the latest reports that have it say the same and, if that is nothing, no report says anything |
| Baselines.Compute | marlinspike/baselines.py:253-550 | The loop over presences returns novelty, loss, change and history as specified, nothing without a presence |
| Baselines.ProtocolHistory | marlinspike/baselines.py:168-241 | The history holds for every protocol ever shown its appearances, report by report |
| Baselines.CountPackets | marlinspike/baselines.py:171-216 | A report's protocols are those of the node and of its conversations, and each is given the packets of the asset's conversations |
| Baselines.PeerReports | marlinspike/baselines.py:321-352 | The report count of a peer is the number of file names among the reports that show it |
| BaselineFacts.PeerExact | marlinspike/baselines.py:266-276 | A conversation shows a peer exactly when the asset is at one end and the other end's IP address is known, and the peer is that address |
| BaselineFacts.ShownExact | marlinspike/baselines.py:171-276 | What a report shows of an asset, kind by kind: the protocols of its node and of the conversations that touch it, the peers these name, its findings and anomalies |
| BaselineFacts.PacketsExact | marlinspike/baselines.py:178-201 | An appearance gives the packets of the conversations in that protocol that touch the asset |
| BaselineFacts.FlaggedWhenListed | marlinspike/baselines.py:233-241 | For every kind, protocols included, a history entry is flagged new exactly when it is listed as new |
| BaselineFacts.NewProtocol | marlinspike/baselines.py:233-241 | A protocol is flagged new if and only if its history is one appearance, in the latest report |
| BaselineFacts.ProtocolHistoryExact | marlinspike/baselines.py:233-241 | One appearance for each report that shows the protocol, in the order of the reports |
| BaselineFacts.ChangeApplies | marlinspike/baselines.py:627-638 | (previous minus removed) plus added is the latest, in contents and counts |
| BaselineFacts.NoveltyAndChange | marlinspike/baselines.py:542-550 | New against the baseline is among the added, removed among the lost; each equality holds exactly when no older report showed the difference |
| BaselineFacts.HistoryExact | marlinspike/baselines.py:294-318 | First and last sightings are the earliest and latest in (time, file) order, so first never follows last, and totals add up |
| BaselineFacts.HistoryOrderIrrelevant | marlinspike/baselines.py:294-318 | First, last and total do not depend on the order of reports |
| BaselineFacts.InReports | marlinspike/baselines.py:410-505 | The count of reports a finding or an anomaly is in is right if and only if no report lists it twice for the asset |
| BaselineFacts.CountedTwice | marlinspike/baselines.py:410-505 | One report that lists a category or an anomaly twice counts as two |
| BaselineFacts.PeerReportsExact | marlinspike/baselines.py:321-352 | The count of reports a peer is in never exceeds them, and is right if and only if they have different file names |
| Enrich.MergeReport | marlinspike/enrich.py:139-181 | The merge loops return the specified report |
| Enrich.Collect | marlinspike/enrich.py:199-209 | The adapted findings of all extensions, in order |
| Enrich.AffectedNodes | marlinspike/enrich.py:219-235 | The distinct non-empty addresses in order |
| Enrich.MergeAgain | marlinspike/enrich.py:139-181 | Merging again changes nothing if and only if no extension of an unknown plugin has a finding with a category |
| Enrich.ForeignFindingRepeats | marlinspike/enrich.py:173-180 | A report with one finding of an unknown plugin changes each time it is merged |
| Enrich.EachFindingOnce | marlinspike/enrich.py:174-180 | A known plugin's findings appear once each, in sidecar order; findings of other sources keep order and multiplicity |
| Enrich.AdaptedExact | marlinspike/enrich.py:212-240 | A plugin's findings with a category become one each, in order: source, category, severity or medium, and the non-empty addresses in order of first appearance |
| Enrich.KnownPlugins | marlinspike/enrich.py:50-61 | The four plugins |
| Iocs.ScanReport | marlinspike/iocs.py:130-246 | The capped loops over indicators return the specified hits |
| Iocs.ReportKeepsFirst | marlinspike/iocs.py:144-160 | A report's hits list the first fifty of all its matches, and no hit is empty |
| Iocs.ReportComplete | marlinspike/iocs.py:148-160 | They list all of them if and only if there are at most fifty |
| Iocs.FoundExact | marlinspike/iocs.py:163-234 | Matches are exactly the places that satisfy the indicator's rule |
| Iocs.PlacesExact | marlinspike/iocs.py:163-234 | Which fields of which entries of a report an indicator of each type is compared with |
| Iocs.WildcardIsLiteral | marlinspike/iocs.py:210-220 | There are no wildcards: an indicator with a star matches only a query with one |
| Iocs.Scan | marlinspike/iocs.py:261-290 | The list is the first thousand hits; the truncation flag and the number of reports read are exact |
| Iocs.TruncationTold | marlinspike/iocs.py:265-290 | Nothing is missing without the flag; the flag is raised with nothing missing in exactly one case |
| Iocs.Summarise | marlinspike/iocs.py:291-299 | The loop over the hits counts the total and both breakdowns |
| Iocs.SummaryAddsUp | marlinspike/iocs.py:291-307 | Each breakdown has one entry per key, exact, and adds up to the total |
| Iocs.KeysExact | marlinspike/iocs.py:294-299 | The breakdowns go by severity in lower case, unknown if none is given, and by a name that tells the six types apart |
| IocScans.ScanComplete | marlinspike/iocs.py:249-288 | A scan holds every match of every readable report if and only if all hits fit the list and no readable report has more than fifty matches |
| IocScans.LostSilently | marlinspike/iocs.py:144-160 | A report with fifty-one matches: one is lost and the truncation flag stays down |
| IocScans.MatchesExact | marlinspike/iocs.py:163-234 | For every indicator and report the matches are those of equality (for a vendor prefix, in the first eight characters) if and only if, for a domain name, no query has it inside a longer text before the name itself |
| IocScans.LongerNameMatches | marlinspike/iocs.py:210-220 | A query for notevil.com matches the indicator evil.com |
| KeyedFold.SplitIndependent | marlinspike/app.py:1085-1094 | Any keyed fold with an associative combination may be split anywhere |
| KeyedFold.SumConserved | marlinspike/app.py:1098-1099 | A quantity the combination adds is conserved by the fold |
| Unordered.OrderIrrelevant | marlinspike/aggregate.py:77-78 | A keyed fold with an associative and commutative combination does not depend on the order of its sources |

## Left out

- `CaptureReader.ReadPcapng`: the option walk is modelled with its overrun as an error, as the unguarded byte access makes it; only single-section files have a writer.
- `ChunkMerge.ChunkSplitIndependent`: leaves out the protocol identities, for which the claim is false; `Json.Associates` gives the exact condition for three values.
- `Json.Associates`: is about one triple of values; over longer chains of chunks the condition must hold at each step.
- `Recovery.ReapIsSafe`: takes each row's report as read at the moment it is checked; a report that is a bare number, boolean or null counts as incomplete, where the code would raise.
- `RecoveryRuns.AlwaysAccounted`: takes a boot's pass over the rows as one step; `Recovery.Reap` lets every row meet its own state of the machine.
- `RecoveryRuns.StrangerExact`: takes the saved arguments as the identity of an invocation; two scans under the very same arguments are not told apart, and a row without saved arguments has none.
- `Recovery.RecognisesItself`: covers the process table read as on Linux; the joined `ps` line of other systems is not modelled.
- `ScanStore.Store.RecordFinish`: database exceptions and rollbacks are not modelled.
- `Rollup.Aggregate`: leaves out the protocol table, attack identifiers, time window and final sorting, which repeat the same counting.
- `Rollup.FindingsOrderIrrelevant`: does not cover the file names beside the times (a tie keeps whichever came first) nor the description, which `RollupDescription.DescriptionOrderExact` deals with.
- `Rollup.AssetsOrderIrrelevant`: does not cover the file names beside the times, nor roles, vendors, device types and protocols.
- `Baselines.Compute`: leaves out identity fields, vendor and role stability and the final sorting; the text normalisation and the test whether a finding or anomaly concerns the asset are taken as done.
- `Enrich.MergeReport`: plugin runs and unreadable files appear as absent sidecars; descriptions, remediation, scores and technique lists of a finding are not modelled.
- `Iocs.ScanReport`: the normal form of each text is given with it; labels and numbers of the indicators are left out.
- `Stages.Tracker.FinaliseRun`: the plugins' own work and output lines are left out; they do not touch the stages.
- `TopologyBuilder.Builder.BuildGraph`: leaves out port labels, service ports, capabilities, VLANs, port lists and descriptions; the shortened display name of a protocol is given.
- `TopologyBuilder.Builder.MergeNode`: leaves out the same attributes, which it copies when they are blank or new.
- `Purdue.InferLevels`: subnet, broadcast and public-address tests are given by the policy; roles and device types set beside the levels are left out.
- `PacketStream.Dissector.Take`: leaves out the inline parsing of each protocol's fields and the address sets of a conversation.
- `Bronze.BuildConversations`: leaves out asset observations, protocol attributes, object references and layer-2 discovery details.
- Floating-point rounding: times, scores and divisions are real numbers.
- Capture duration: the difference of the two times kept.
- Link-type labels: the link type is kept as its number.
- Capture metadata merging beside the conversations of chunks (app.py 1068-1083): easy field copies.
- `_assign_roles`, vendor fingerprinting and target ranking: long branch tables that change levels only afterwards.
- Shannon entropy, threat-intelligence and export emitters: transcendental functions or other programs.
- Web routes, sessions, templates, user and project management, audit log, configuration and migrations: plumbing.
- External programs (packet dissector, splitter, plugins) and the operating system: their results are arbitrary inputs.
