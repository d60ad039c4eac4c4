# distributAr: a Dafny model

distributAr runs clusters of spiking neurons on threads in several processes. A tracker hands out cluster IDs over UDP.
Each server thread packs the impulses of its cluster into packets, gives them to local subscribers through lock-free
rings and to remote ones by multicast, and a clock filter keeps a delta to a common time server. Two tools write, read
and partition DOT graphs. This project models those cores and proves what they keep, over all runs and all inputs.

| file | models |
|---|---|
| `Prelude.dfy` | C++ division, narrowing, duration casts, shared types |
| `TimeSync.dfy` | the clock filter and the translation of stamps between hosts |
| `TimeBuffer.dfy` | the packet of impulses, its 16-bit offsets and its datagram |
| `Packetiser.dfy` | what any series of `Server::write` calls makes of the impulses |
| `FreeQueue.dfy` | the single-producer/single-consumer ring, one atomic access per step |
| `BlockingQueue.dfy` | the mutex/condition-variable queue, one thread action per step |
| `Tracker.dfy`, `IdProtocol.dfy` | the registry, and tracker and servers over an unreliable network |
| `ReadFilter.dfy`, `Network.dfy` | the age/order filter; subscriptions, multicast groups and the inverse index |
| `CommandText.dfy` | the text commands and how their receivers read them |
| `Server.dfy`, `Router.dfy` | the server object; the routing loop interleaved with the servers |
| `RingRouting.dfy` | the same routing with every atomic step of the rings |
| `EndToEnd.dfy` | an impulse from the emitting cluster to the reading one on another host |
| `GraphIO.dfy`, `Partition.dfy` | DOT writer and parser; loading, optimising and saving partitions |
| `Serial.dfy` | container serialisation |

Objects that the source updates in place are classes whose methods are tied to functions on values; the results are
lemmas about those functions. Concurrent parts are step functions, and a run is any sequence of actions.

## Where the code departs from the obvious claim

Each of these is kept as the code has it, with a lemma that says exactly when the obvious claim holds.

- Stamps are converted with `delta` subtracted on the way out and added on the way in, while `delta` is server minus
  local. The repository's README promises synchronised clocks; the coded signs miss by twice the difference of the two
  hosts' offsets (`SyncedHostsMiss`, `SynchronisedHostsMisread`), and a host whose offset leads by more than 10 ms is
  never heard (`LeadingHostIsNeverHeard`). The opposite signs would land within the filters' band.
- A datagram of `size()` bytes counts the used offsets, but the offsets lie behind the whole index array: they all
  arrive exactly when the packet is full (`WireCarries`), so a remote host reads entry i of a packet of n impulses
  right exactly when 356 + i < 2n (`FlushedPacketsReadTranslated`).
- IDs stay unique in every run that does not exhaust the tracker's counter exactly when the servers' configured IDs are
  pairwise different and, if any server asks for an ID, none of them lies in the tracker's issuing range
  (`UniqueInEveryRunIff`). Over all runs, those in which the counter wraps too, they do exactly when the configured IDs
  are different and no server asks, or there is only one server (`UniqueInAllRunsIff`). The tracker issues an address
  another ID only ten minutes after the last, when its entry has expired, so exhausting the counter takes time: in a good
  configuration of up to 279 servers no run that a 64-bit clock of nanoseconds can show gets there
  (`UniqueOnRealClocks`), and a wrap with few servers lies tens of thousands of years off.
- The distance to a packet's base is narrowed to 32 bits before the range tests. Impulses are conserved, and just the
  late ones dropped, exactly when that misleads no call (`ImpulsesConservedIff`); it never does within 35 minutes of the
  base (`ImpulsesConserved`).
- `RUN` does not mark the index dirty and does not touch the multicast groups; `EverySeriesKeepsIndex` and
  `GroupsAfterRunIff` say when both stay right all the same.
- Local subscribers get packets in network time (`LocalSubscriberReadsNetworkTime`). A node index is cut to 16 bits
  without an error (`NodeSurvivesIff`).
- The smallest time point stands for "no base yet", so an impulse stored at it is moved by the next one
  (`SentinelImpulseMoves`).
- A measurement is good to half its trip exactly when the server's reading falls between the request and the reply that
  the code pairs with it; replies are not matched to requests (`MeasurementBoundExact`).
- A label 0 in a DOT file reads as -1, and a negative time stamp in the header reads as an edge (`WrittenFileReadsBack`,
  `HeaderSkippedIff`).
- A vector of vectors is restored exactly when all inner vectors but the last are empty (`NestedRestoredIff`).

## Model

| member | source | states |
|---|---|---|
| TimeSync.TimeSync.Calculate | lib/timesync.cpp:30-41 | delta moves by the truncated third of its distance to the measurement |
| TimeSync.StepIsAThird | lib/timesync.cpp:38 | a step covers a third of the distance to the measurement, rounded toward the delta, from either side |
| TimeSync.MeasurementBoundExact | lib/timesync.cpp:30-34 | a measurement errs by at most half the trip if and only if the server's reading lies between request and reply |
| TimeSync.MeasurementBound | lib/timesync.cpp:30-34 | with nanosecond clocks every measurement of a bounded trip is within half the bound plus 2 of the offset |
| TimeSync.Converges | lib/timesync.cpp:36-40 | from any start, twice as many measurements as the excess has bits reach the band of error plus 2, and all later ones stay in it |
| TimeSync.BandIsTight | lib/timesync.cpp:38 | the band cannot be narrowed: the dead zone of the truncated division holds the filter at error plus 2 for ever, on either side |
| TimeSync.SyncedAfter | lib/timesync.cpp:30-41 | any long enough series of sound exchanges ends within the band of the true offset |
| TimeSync.CodedSignsRightIff | lib/timesync.h:23-31 | with exact deltas the coded translation is right if and only if the offsets are equal |
| TimeSync.SyncedHostsMiss | lib/timesync.h:23-31 | after synchronising, the coded translation misses by twice the offset difference up to the band; opposite signs land within the band |
| TimeBuffers.TimeBuffer.Write | lib/timebuff.h:41-58 | stores, drops or refuses an impulse; every stored offset fits 16 bits |
| TimeBuffers.WriteMeans | lib/timebuff.h:41-58 | near the base: dropped from 32769 whole microseconds behind it on, refused and converted for the network when 356 are held or from 32768 ahead on, else stored last within a microsecond |
| TimeBuffers.TimeBuffer.Read | lib/timebuff.h:34-38 | index and time of an entry |
| TimeBuffers.TimeBuffer.PrepareRead | lib/timebuff.h:31 | one conversion to local time, nothing else changes |
| TimeBuffers.StoredReadsBack | lib/timebuff.h:34-58 | a stored impulse keeps its index; its time is within a microsecond, between base and original, iff the distance fits 32 bits; the stored offset differs from the distance by a multiple of 2^32 microseconds |
| TimeBuffers.SentinelImpulseMoves | lib/timebuff.h:44-45 | a stored impulse leaves the earlier ones at their times iff the base is not the sentinel or the new time is the sentinel too |
| TimeBuffers.WireCarries | lib/timebuff.h:18-23 | which offsets of a datagram arrive whatever the receiver held; all of them iff the packet is full |
| Packetiser.SentSizes | server.cpp:63-74 | every flushed packet holds 1 to 356 impulses |
| Packetiser.BatchesHoldKept | server.cpp:63-74 | closed batches followed by the open one are the kept calls, once each and in order |
| Packetiser.SendsCarryBatches | server.cpp:63-74 | the code's packets are exactly the carriers of the batches, after any calls |
| Packetiser.ImpulsesConservedIff | server.cpp:63-74 | batches hold the kept impulses once each and in order; packets and buffer read back as the batches, within a microsecond after exactly one conversion each, and exactly the late impulses are dropped, iff the narrowing to 32 bits misleads no call |
| Packetiser.ImpulsesConserved | server.cpp:63-74 | all that holds for series of any length whose impulses are each less than 2^31 microseconds from the base of their time |
| Packetiser.StaleMeans | lib/timebuff.h:47-48 | near the base, dropped are exactly the impulses at least 32769 whole microseconds behind it |
| Packetiser.PlaceMeans | server.cpp:63-74 | near its base a kept impulse joins the open packet iff that holds fewer than 356 and the impulse lies less than 32768 whole microseconds ahead; else it closes it and opens the next |
| Packetiser.LocalSubscriberReadsNetworkTime | main.cpp:101-106 | a local subscriber reads the local times iff the delta is 0 |
| FreeQueues.PoppedIsPrefix | lib/queue.h:14-32 | under every interleaving popped values are a prefix of pushed ones, at most SIZE-1 behind |
| FreeQueues.NoSlotRace | lib/queue.h:19-28 | the slot being written is never the slot being read |
| FreeQueues.RefinesFifo | lib/queue.h:14-32 | each atomic action is an enqueue, a dequeue of the head, or nothing, on a FIFO of capacity SIZE-1 |
| FreeQueues.RefusalsExact | lib/queue.h:17-27 | push (pop) returns false iff the abstract queue is full (empty) at the load of the opposite index |
| FreeQueues.UndisturbedSteps | lib/queue.h:14-32 | an undisturbed call is its thread's four steps |
| FreeQueues.FreeQueue.Push | lib/queue.h:14-22 | appends unless full, which is what it returns |
| FreeQueues.FreeQueue.Pop | lib/queue.h:24-32 | takes the head; nothing iff empty |
| BlockingQueues.ConsumedIsPrefix | lib/blockq.h:23-47 | in every run consumed values are a prefix of pushed ones and the rest is queued |
| BlockingQueues.NoLostWakeup | lib/blockq.h:24-34 | a parked consumer faces a non-empty queue only while the pusher is about to notify it |
| BlockingQueues.BlockedPopDelivers | lib/blockq.h:32-37 | from every reachable state a blocking pop on a non-empty queue delivers the head |
| BlockingQueues.UndisturbedPush | lib/blockq.h:24-28 | an undisturbed push appends and wakes a parked consumer |
| BlockingQueues.UndisturbedPop | lib/blockq.h:32-47 | undisturbed, pop and popNoBlock take the head; on an empty queue popNoBlock changes nothing and pop parks |
| BlockingQueues.ParkedStays | lib/blockq.h:34 | a parked consumer takes nothing and stays parked until notified or spuriously woken |
| BlockingQueues.WokenTestsAgain | lib/blockq.h:34-36 | a woken consumer takes the head or parks again |
| BlockingQueues.BlockingQueue.Push | lib/blockq.h:24-28 | appends |
| BlockingQueues.BlockingQueue.Pop | lib/blockq.h:32-37 | waits through spurious wakeups exactly until something is queued, then takes the head |
| BlockingQueues.BlockingQueue.PopNoBlock | lib/blockq.h:41-47 | takes the head; nothing iff empty |
| Tracker.Tracker.FindByValue | utils/tracker.cpp:38-45 | a key of the address, or 0 when there is none |
| Tracker.Tracker.GetNextClusterId | utils/tracker.cpp:21-22 | the counter, which wraps at 32 bits |
| Tracker.Tracker.ListLive | utils/tracker.cpp:123-128 | exactly the registered IDs that are not old |
| Tracker.Tracker.Serve | utils/tracker.cpp:74-136 | the whole new registry and the reply, for every command |
| Tracker.SoundnessKeptIff | utils/tracker.cpp:74-136 | the map stays injective and free of 0 iff the command does not issue a wrapped counter |
| Tracker.AnnouncementMeans | utils/tracker.cpp:81-90 | an address that announces an ID is registered under it alone, and GET answers POINT with it until ten minutes later; others are untouched unless the ID was theirs |
| Tracker.RequestMeans | utils/tracker.cpp:92-102 | an address that asks is told its own ID or the next of the counter, is registered under it alone, and GET answers POINT until ten minutes later |
| Tracker.GetMeans | utils/tracker.cpp:104-121 | DROP for an unregistered ID, POINT until ten minutes after its last update, then DROP and deletion above 1024 and silence up to it; nothing else changes |
| Tracker.ListMeans | utils/tracker.cpp:123-129 | LIST names the IDs updated within ten minutes, or says nothing; no other command does anything |
| Tracker.FindInverts | utils/tracker.cpp:38-45 | findByValue inverts a sound map in any iteration order |
| Tracker.RepeatedRequestSameId | utils/tracker.cpp:92-102 | a registered address that asks again gets the same ID and moves no entry |
| Tracker.ListAgreesWithGet | utils/tracker.cpp:104-129 | at a fixed clock LIST names exactly the IDs that GET answers with POINT, and no GET changes that |
| IdProtocol.OwnersAgreeInEveryRun | utils/tracker.cpp:75-102 | in every run that does not exhaust the counter every ID belongs to one address for ever; registry, datagrams in flight and servers agree with it |
| IdProtocol.AnnouncementArrives | server.cpp:93-97 | an announcement that arrives registers its sender under its ID alone, as of then |
| IdProtocol.ClientRunArrives | utils/client.cpp:95-103 | a RUN that arrives gives its server that ID and nobody else any |
| IdProtocol.UniqueInEveryRunIff | server.cpp:93-97 | no two servers ever hold the same nonzero ID, over all runs with loss, duplication and reordering that do not exhaust the counter, iff the configuration is good |
| IdProtocol.UniqueInAllRunsIff | utils/tracker.cpp:21-22 | the same over all runs without exception, iff configured IDs differ and no server asks for one or there is no other server |
| IdProtocol.UniqueInShortTimes | utils/tracker.cpp:24 | an address is issued at most one ID per ten minutes, so in a good configuration IDs are unique in every run whose clock shows too little time for its servers to exhaust the counter, whatever the number of actions |
| IdProtocol.UniqueOnRealClocks | utils/tracker.cpp:10-24 | with up to 279 servers that is every run below 2^63 nanoseconds |
| IdProtocol.ShortRunsNeverExhaust | utils/tracker.cpp:21-22 | runs shorter than the remaining ID range never exhaust it |
| IdProtocol.Collision | main.cpp:70-74 | a run, with the tracker's clock running forward, in which a server is issued the ID that another one was started with, ten minutes for each ID before it |
| IdProtocol.ExhaustionCollides | utils/tracker.cpp:22 | from the start of any configuration with a server that asks and another one there is a run, through the counter's wrap and with the clock running forward, that ends with both holding one ID |
| ReadFilter.FilterCommutesWithProjection | network.cpp:78-119 | filtering a stream and projecting to a source is projecting and filtering |
| ReadFilter.StreamIsClean | network.cpp:92-116 | per source, accepted packets are in order of local time, non-empty and at most 20 ms old; the sequence is the last one's time |
| ReadFilter.LetThroughIff | network.cpp:78-119 | a packet passes, with the number of its impulses, iff it is non-empty, at most 20 ms old and not before any packet passed from its source |
| Networks.Network.SubscribeTo | network.cpp:30-49 | the new lists, the dirty flag and the groups joined |
| Networks.SubscribeMeans | network.cpp:30-49 | the pair and nothing else is added to the relation, at the end of its list and no second time; a new pair joins the group unless hosted here; the network is dirty |
| Networks.Network.UnsubscribeFrom | network.cpp:52-75 | the new lists, the dirty flag and the groups left |
| Networks.UnsubscribeMeans | network.cpp:52-75 | the pair and nothing else leaves the relation; the group is left with the last subscriber unless hosted here; the network is dirty |
| Networks.SubscribedAfter | network.cpp:30-75 | after any operations a pair is subscribed iff the last of them on it was a subscribe |
| Networks.Network.GetSubscriptions | network.cpp:11-27 | when dirty, the result is the exact inverse of the subscriptions; otherwise it is left alone |
| Networks.Network.ReadVerify | network.cpp:78-119 | the filter's verdict and new sequences; the packet is converted to local time once |
| Networks.EverySeriesKeepsIndex | network.cpp:11-75 | after any operations, RUN among them, lists have no duplicates and the index is the inverse of what was last seen; if not dirty it is the inverse of what is now iff each server's ID subscribes to what the ID it had then does |
| Networks.EverySeriesKeepsIndexAndGroups | network.cpp:11-75 | without RUN, groups are exactly the subscribed remotes not hosted here, and the index, if not dirty, is the inverse as of now |
| Networks.IndexAfterRunIff | server.cpp:30-37 | after an ID change a right index stays right iff old and new ID have the same subscriptions |
| Networks.GroupsAfterRunIff | server.cpp:30-37 | after an ID change the groups are right iff the new ID, if subscribed to, was hosted here already and the old one, if subscribed to, still is by another server |
| Multicast.GroupsOneToOne | network.h:28-29 | IDs and groups correspond one to one; a group is a multicast address iff the ID is in range |
| Servers.Server.constructor | server.cpp:100-114 | a server starts with group and ID in agreement, known to the network, and an empty buffer |
| CommandText.ServerReadsBack | server.cpp:13-44 | a server reads the text of every CONNECT, DROP and RUN as that command with its number |
| CommandText.TrackerReadsBack | utils/tracker.cpp:70-124 | the tracker reads the text of every ID and GET as that command with its number |
| CommandText.BareCommands | server.cpp:13-44 | LIST and EXIT read as themselves; commands without their number are undefined |
| CommandText.OthersGoToCluster | server.cpp:44 | what is no command of the server goes to the cluster as it came |
| Servers.Server.ParseCommand | server.cpp:13-45 | CONNECT and DROP act for the current ID; RUN moves the ID, also as the network sees it, and the group together; undefined are exactly a missing number and a DROP of what is not subscribed |
| Servers.Server.RequestIdFromTracker | server.cpp:93-97 | sends a text that the tracker reads as an announcement of the current ID |
| Servers.Server.Flush | server.cpp:65-71 | the refused buffer, stamped, goes to the ring if there is room and to the group; a new one takes its place |
| Servers.Server.Write | server.cpp:63-74 | one call is one step of the packetiser, flushes at most one packet, and offers exactly it to the ring |
| Servers.Server.PerformIO | server.cpp:77-90 | takes at most one packet off the incoming queue, waiting for it if the cluster does; output only under a nonzero ID; all packets so far went under their source's ID to that ID's group |
| Servers.EveryImpulseIsACall | server.cpp:87-89 | every emitted impulse is one call, in order, under the current ID |
| Routers.Router.Hand | main.cpp:102-104 | pushes to every target in turn |
| Routers.Router.RouteLocal | main.cpp:100-107 | visits every ring once and pops at most one packet from each |
| Routers.Router.Listen | main.cpp:86-91 | what the filter lets through goes to its subscribers |
| Routers.ArriveMeans | main.cpp:87-91 | a packet let through goes to the end of the queue of each subscriber of its source, and to nobody else |
| Routers.VisitMeans | main.cpp:101-106 | a visit takes the head of a ring that holds something, and only that, to each subscriber of its source and nobody else |
| Routers.FlushMeans | server.cpp:66 | a flush is accepted, at the end, iff the ring holds fewer than 255 packets |
| Routers.Router.Turn | main.cpp:80-108 | one turn of the loop: refresh when due and dirty, one packet from the network through the filter, then the rings |
| Routers.TurnIsRun | main.cpp:80-108 | a turn of the loop is a stretch of a run: the packet let through, then a visit to every server |
| Routers.DeliveredInOrderOnce | main.cpp:100-107 | in every interleaving each subscriber got from a source, in order and once each, what its ring accepted and no longer holds; others got nothing |
| Routers.ReceivedInOrderOnce | main.cpp:86-91 | in every interleaving each server got from the network exactly the packets let through that it subscribes to, in order and once each |
| RingRouting.DeliveredUnderEveryInterleaving | main.cpp:100-107 | the same under every interleaving of the rings' atomic steps and single hand-overs: delivered, then in hand, then queued is what the ring accepted |
| RingRouting.ReceivedUnderEveryInterleaving | main.cpp:86-91 | the same for packets from the network, with what is in hand |
| RingRouting.VisitIsRouteOne | main.cpp:101-106 | undisturbed, the four steps of pop and one push per target are one visit on the abstract queues |
| EndToEnd.FlushedPacketsReadTranslated | server.cpp:63-74 | where no call was misled by the narrowing, entry i of a flushed packet of n impulses reads on any other host within a microsecond of its translated time, whatever that host's buffer held, iff 356 + i < 2n; all entries do iff the packet is full |
| EndToEnd.SynchronisedHostsMisread | lib/timesync.h:23-31 | between synchronised hosts an impulse of a flushed packet whose offset is sent reads off by twice the offset difference, up to the bands and a microsecond |
| EndToEnd.AgeSeenAcrossHosts | network.cpp:92-98 | the age that the filter judges is the true age plus twice the lead of the sender's offset |
| EndToEnd.LeadingHostIsNeverHeard | network.cpp:78-119 | in any interleaved stream nothing is accepted from a cluster whose host's offset leads by more than half the packet lifetime, while both deltas move within their bands |
| Decimal.AtoiOfItoa | utils/graphio.cpp:65 | a written number reads back, whatever non-digit follows |
| GraphFiles.GraphWriter.InitGraph | utils/graphio.cpp:16-28 | the header line and the file name |
| GraphFiles.NameTellsTime | utils/graphio.cpp:17-22 | from 2020 on the two parts of the name give the time back in tenths of a second, the second part in five digits |
| GraphFiles.GraphWriter.WriteNode | utils/graphio.cpp:31-33 | one more node line, character by character |
| GraphFiles.GraphWriter.WriteEdge | utils/graphio.cpp:36-38 | one more edge line, character by character |
| GraphFiles.GraphWriter.CloseGraph | utils/graphio.cpp:41-44 | the closing line |
| GraphFiles.Tokenize | utils/graphio.cpp:50-59 | the tokens between runs of blanks and equal signs |
| GraphFiles.ParseLabel | utils/graphio.cpp:63-71 | the first token that reads as a nonzero number, else -1 |
| GraphFiles.LabelIsFirstNonzero | utils/graphio.cpp:63-71 | the label is that of the first token that reads as nonzero; -1 if none does |
| GraphFiles.ParseLine | utils/graphio.cpp:74-94 | adds the line's node or edge, or nothing |
| GraphFiles.LineMeans | utils/graphio.cpp:74-94 | which lines are nodes, edges or nothing, and the numbers they give |
| GraphFiles.Parse | utils/graphio.cpp:100-113 | the graph of all lines in order |
| GraphFiles.HeaderSkippedIff | utils/graphio.cpp:20-25 | the header contributes nothing iff the stamp is not negative, else an edge from 0 to 0 |
| GraphFiles.NodeLineReadsBack | utils/graphio.cpp:31-33 | a node line parses to its node, label 0 as -1 |
| GraphFiles.EdgeLineReadsBack | utils/graphio.cpp:36-38 | an edge line parses to its edge, label 0 as -1 |
| GraphFiles.WrittenFileReadsBack | utils/graphio.cpp:16-113 | a written file parses to exactly the written nodes and edges in order, label 0 as -1 |
| GraphFiles.ParsedLabelsNonzero | utils/graphio.cpp:63-71 | no parsed graph has a label 0 |
| Partition.CountHyperEdges | utils/partgraph.cpp:23-35 | the number of a partition's edges that leave it |
| Partition.HyperEdgesCount | utils/partgraph.cpp:23-35 | the count is the number of edges whose target is no vertex of the partition |
| Partition.CountAll | utils/partgraph.cpp:92-105 | the total over all partitions |
| Partition.Optimizer.Swap | utils/partgraph.cpp:19 | exchanges the two picked vertices with their edges, place by place, and changes nothing else |
| Partition.Optimizer.OptimizePartitions | utils/partgraph.cpp:38-54 | keeps the swap unless it adds edges to the two partitions, else undoes it |
| Partition.OptimizedMeans | utils/partgraph.cpp:44-53 | the partitions with exactly the two picked vertices exchanged, unless their total is greater, then as they were |
| Partition.StepTakesSmallerTotal | utils/partgraph.cpp:47-53 | the comparison of two partitions leaves the smaller total over all partitions |
| Partition.TotalIsCut | utils/partgraph.cpp:92-106 | the sum of the partitions' counts is the number of graph edges that leave their partition |
| Partition.CutNeverIncreases | utils/partgraph.cpp:38-54 | over any steps vertices stay the same, the total stays the cut, and the cut never increases |
| Partition.LoadGraph | utils/partgraph.cpp:57-71 | nodes dealt out in turn, each with its outgoing edges in file order |
| Partition.DealtInTurn | utils/partgraph.cpp:61-64 | partition p holds, in file order, the nodes p, p + groups, p + 2 * groups and so on |
| Partition.TargetsOfConcat | utils/partgraph.cpp:65-69 | files joined give targets joined, in file order |
| Partition.DealtHolds | utils/partgraph.cpp:61-70 | every loaded vertex holds exactly the graph's edges that leave it |
| Partition.DealtUnique | utils/partgraph.cpp:61-64 | distinct nodes give unique vertices |
| Partition.SaveGraph | utils/partgraph.cpp:75-89 | the written file: vertices labelled with their partition, then the edges |
| Partition.SavedNodeAt | utils/partgraph.cpp:78-83 | every vertex is written once, behind those of earlier partitions, with its partition's number |
| Partition.SavedGraphReadsBack | utils/partgraph.cpp:75-89 | a saved graph parses to the partitions, 0 read as -1, and to the very edges |
| Partition.PartitionFile | utils/partgraph.cpp:138-163 | the whole program: the printed total is the cut and no larger than at first, and the saved file has exactly the input's edges |
| Serial.SerializeInts | lib/serial.h:26-34 | the size and the elements in order, a blank behind each |
| Serial.SerializeMap | lib/serial.h:37-45 | the size and each key before its value, a blank behind each |
| Serial.FormatOfTwo | lib/serial.h:26-45 | the format, written out for two numbers |
| Serial.IntExtracted | lib/serial.h:52 | a number beyond an int reads as the nearest end of the range with the fail bit; a failed or exhausted stream gives nothing |
| Serial.DeserializeVector | lib/serial.h:57-79 | the element loop, with the stream's failure bits, appends to the vector |
| Serial.DeserializeMap | lib/serial.h:82-94 | the entry loop, with the stream's failure bits, stores into the map |
| Serial.AllReadBack | lib/serial.h:13-94 | values serialised in a row are read back in order, independent of iteration order, with the stream good and only a blank left |
| Serial.NestedRestoredIff | lib/serial.h:57-66 | a vector of vectors, read back with its size, comes back accumulated; restored iff all inner vectors but the last are empty |

## Left out

- Sockets, `select`, host lookup, byte order, the multicast system calls and console output: sends and receives are
  additions to and picks from a set of messages, joins and leaves a set of groups.
- `TimeSync::sync`: its timers and tracker queries; the exchange that it feeds to `Calculate` is a parameter.
- Weakening of the memory model: the ring's atomics are sequentially consistent by default, so steps interleave.
- Overflow of 64-bit time arithmetic and of the partitioner's `int` counters.
- Servers.Server.Write: hands the ring the packet's value, where the code shares a pointer to a buffer that it no longer
  writes to; and the ring is the abstract queue that FreeQueues.RefinesFifo justifies.
- Routers.DeliveredInOrderOnce: takes a visit to one source as one step; RingRouting.DeliveredUnderEveryInterleaving does
  not. In both the routing is fixed for the run.
- IdProtocol.UniqueInEveryRunIff: clients issue RUN only with IDs outside the tracker's issuing range that no other
  server was ever given, and the tracker does not restart; without that either can hand one ID to two servers.
- Servers.Server.ParseCommand: promises nothing where the code is undefined, and EXIT ends the process.
- Packetiser.ImpulsesConservedIff: is stated for impulses at other times than the smallest time point;
  TimeBuffers.SentinelImpulseMoves says what becomes of those.
- Cluster libraries: what a cluster does with input and when it emits is a parameter of `PerformIO`.
- `Server::run` pacing, thread start-up, `SpinLock` and `kbhit`: each locked `Network` method is one step.
- utils/client.cpp, utils/graph.cpp, dummy/dummy.cpp and utils/timeserv.cpp, except that random picks are arbitrary and
  the time server is a clock reading.
- `atoi` beyond the range of `int`, which C leaves undefined, and DOT lines that the parser reads out of bounds.
- User-defined types and sets or maps of containers in the serialiser.
