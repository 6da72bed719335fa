# Verification of the crawler's in-memory state

A Dafny model of the parts of the DHT crawler whose state carries invariants, with proofs
about every run of them. `dafny verify dfyconfig.toml` checks everything.

Each mutable object of the program is a class whose methods work the way the program does
(in-place filtering and shifting, deleting loops, wrapping counters). Every method is proved
against a function on an abstract state, and the theorems are about those functions: over
all inputs, over every sequence of calls, and, where threads or machines interleave, over
every interleaving of critical sections and messages. Time is a parameter everywhere.

| file | what it models |
|---|---|
| `Basics.dfy`, `NetAddr.dfy` | bytes, options, small sequence facts; addresses as in Go's netip |
| `XorMetric.dfy` | 160-bit XOR distance, bucket index and comparison (BEP 5) |
| `RoutingTable.dfy` | the routing table: add, prune, snapshot, nearest nodes |
| `RoutingReplay.dfy` | saving the table and replaying the saved list |
| `RequestTable.dfy` | outstanding get_peers requests, their limits, expiry and transaction IDs |
| `HashCache.dfy` | the cache of known infohashes with end dates |
| `Sink.dfy` | the download sink: peers to try, one attempt per infohash |
| `WorkerQueue.dfy` | the worker's bounded queue with in-place acknowledgement |
| `Transfer.dfy` | worker to master over a lossy, duplicating, reordering network; pull and push loops |
| `Snapshot.dfy` | the queue's disk snapshot with its dirty flag, interleaved with changes |
| `Pipeline.dfy`, `CrawlLoop.dfy` | cache, crawl runs, sinks, drains, queue and acks of one worker together |
| `MetadataExchange.dfy` | fetching metadata piece by piece (BEP 9) |
| `CompactCodec.dfy` | compact peers and nodes (BEP 5 "Contact Encoding", BEP 32) |
| `Schedule.dfy`, `CrawlerManager.dfy` | the daily window; manual override, schedule and auto-stop |

Some results say exactly when the code does what one might expect of it:

* the guessing node decoder gives back a list of IPv6 nodes if and only if their number is
  not a positive multiple of 13 (`CompactCodec.UntypedRoundTrip6`);
* a concatenation of IPv6 peers never decodes to itself unless it is empty (`CompactCodec.PeerListFails6`);
* a transfer whose size is not a multiple of 16 KiB is accepted if and only if the last piece
  comes last (`MetadataExchange.AcceptedOrders`);
* under whatever local ID a restart draws, a reloaded bucket is newest first if and only if the
  last eight saved entries that map to it were saved oldest first
  (`RoutingReplay.ReplayTurnsRecencyAround`, with an input for either case in `RecencyIsLost`
  and `RecencyIsKept`);
* giving a known infohash an end date keeps end dates within the known infohashes if and only if
  it is not evicted by its own call (`HashCache.ExpiryStaysKnown`). That can happen
  (`HashCache.SelfEvictionHappens`), but in a worker only to an infohash of a restored record
  (`Pipeline.OnAckNeverEvictsItself`): such a one can be found and queued a second time, and be
  acknowledged twice (`Pipeline.RestoredEndsTwice`), which takes push mode and its queue file;
* what a terminated crawl run holds can be accepted again by some continuation if and only if it
  is on its way out already: being discarded, or failing past the termination check with no
  peer left (`Pipeline.StoppedRunsRelease`). Anything else it holds, tracked or drained, is refused
  for the rest of the process (`Pipeline.StoppedRunsStrand`); all three cases are reachable;
* while nobody presses again or turns the schedule off, and until the window next changes, a press
  of Stop holds, and a press of Start holds if and only if the auto-stop timer of its own run has
  not fired (`CrawlerManagers.PressHolds`);
* an automatic stop lasts through the next reconcile if and only if an override is in force
  or the window is closed (`CrawlerManagers.AutoStopLasts`).

## Model

| member | source | states |
|---|---|---|
| XorMetric.XorBucketIndex | dhtc-client/routing_table.go:130-138 | the byte scan computes floor(log2) of the 160-bit XOR distance, -1 for the ID itself, always below 160 |
| XorMetric.BucketRange | dhtc-client/routing_table.go:130-138 | the index is -1 exactly on equal IDs, else 2^k <= distance < 2^(k+1) |
| XorMetric.XorLess | dhtc-client/routing_table.go:140-149 | the bytewise comparison is integer comparison of the two distances |
| XorMetric.SameDistanceSameID | dhtc-client/routing_table.go:140-149 | no two IDs are at the same distance from a target |
| XorMetric.OwnBucketIsNearer | dhtc-client/routing_table.go:88-99 | IDs of the target's own bucket are strictly nearer to it than IDs of any other bucket |
| RoutingTables.RoutingTable.constructor | dhtc-client/routing_table.go:27-34 | an empty table, local ID padded or cut to 20 bytes, room for at least eight nodes |
| RoutingTables.RoutingTable.Add | dhtc-client/routing_table.go:36-70 | the in-place scan, shift and overwrite give exactly the abstract table and result of an add, with every other bucket untouched |
| RoutingTables.RoutingTable.Front | dhtc-client/routing_table.go:49-69 | the overlapping copy is a move to the front of one bucket |
| RoutingTables.RoutingTable.Prune | dhtc-client/routing_table.go:114-128 | in-place compaction keeps, in order, exactly the nodes seen after the given time, and the size falls by the number of the others |
| RoutingTables.PruneDecides | dhtc-client/routing_table.go:114-128 | a node stays in its bucket exactly if it was seen after the given time; order, local ID and limit stay, the size falls by what went |
| RoutingTables.AddDecides | dhtc-client/routing_table.go:36-70 | when an add is refused, and otherwise the new bucket: the node in front, a known ID taken out behind, the last of a full bucket dropped; all other buckets as they were |
| RoutingTables.EmptyDecides | dhtc-client/routing_table.go:27-34 | a new table has empty buckets and room for at least eight nodes |
| RoutingTables.RoutingTable.Snapshot | dhtc-client/routing_table.go:78-86 | all nodes, bucket after bucket |
| RoutingTables.RoutingTable.Closest | dhtc-client/routing_table.go:88-99 | the nearest min(limit, size) nodes, strictly nearest first, everything left out being farther |
| RoutingTables.RunKeepsInv | dhtc-client/routing_table.go:36-70 | after any adds and prunes: size at most maxNodes, buckets of at most eight unique nodes, each in the bucket of its distance |
| RoutingTables.TableIsSound | dhtc-client/routing_table.go:36-70 | IDs are unique across the whole table, each node is in the bucket of its distance, the local ID is never stored |
| RoutingTables.RunKeepsRecency | dhtc-client/routing_table.go:49-69 | if the clock never goes back between adds, every bucket is sorted newest first in every reachable table |
| RoutingTables.EvictionDropsOldest | dhtc-client/routing_table.go:60-69 | a new node in a full bucket replaces exactly one node, and that one is least recently seen |
| RoutingTables.NearestIsUnique | dhtc-client/routing_table.go:88-99 | only one list is the nearest list, whatever algorithm sorts |
| RoutingTables.ClosestStartsWithOwnBucket | dhtc-client/routing_table.go:88-99 | the nodes of the target's own bucket fill the front of the nearest list, as many as fit |
| RoutingReplay.LoadRoutingTable | dhtc-client/indexingService.go:260-287 | the load loop replays every acceptable saved entry in order |
| RoutingReplay.SaveRoutingTable | dhtc-client/indexingService.go:289-297 | the saved list is the snapshot with times in whole seconds |
| RoutingReplay.ReloadDecides | dhtc-client/indexingService.go:276-296 | ID, address and port survive a restart; the time is cut to seconds or replaced by the load time |
| RoutingReplay.LoadDecides | dhtc-client/indexingService.go:269-285 | which saved entries are passed over, and that the others are added with their time |
| NetAddr.AcceptsByFamily | dhtc-client/indexingService.go:590-596 | which family a network keeps, mapped addresses and port zero included |
| RoutingReplay.ReplayBuckets | dhtc-client/indexingService.go:269-285 | replayed into an empty table with any local ID and enough room, every bucket is the reverse of the last eight entries that map to it |
| RoutingReplay.SaveAndReplay | dhtc-client/indexingService.go:260-297 | were the local ID kept, nothing would be lost and every bucket reversed |
| RoutingReplay.ReplayTurnsRecencyAround | dhtc-client/indexingService.go:260-297 | under any local ID a reloaded bucket is newest first exactly when the last eight saved entries that map to it were saved oldest first |
| RoutingReplay.RestartRecency | dhtc-client/indexingService.go:260-297 | the same for a saved table reloaded under a newly drawn ID |
| RoutingReplay.SameIDReplayRecency | dhtc-client/indexingService.go:260-297 | were the local ID kept, a newest-first bucket would stay so exactly when its nodes were all last seen in one second |
| RoutingReplay.RecencyIsLost | dhtc-client/indexingService.go:269-285 | two saved nodes of one bucket whose order a reload turns round |
| RoutingReplay.RecencyIsKept | dhtc-client/indexingService.go:269-285 | two saved nodes with different times that a reload leaves newest first |
| RequestTables.RequestTable.ExpireOld | dhtc-client/indexingService.go:611-628 | early return or deleting scan, with the next deadline recomputed, is the abstract sweep |
| RequestTables.RequestTable.Scan | dhtc-client/indexingService.go:615-627 | deleting while iterating leaves exactly the live entries, counters equal to the counts, and the earliest deadline |
| RequestTables.RequestTable.Remove | dhtc-client/indexingService.go:630-639 | decrement-or-delete keeps the counters equal to the counts |
| RequestTables.RequestTable.RequestPeers | dhtc-client/indexingService.go:530-564 | sweep, both limits, ID search and store are exactly the abstract issue; deduplicated and rejected requests are counted apart |
| RequestTables.RequestTable.NextID | dhtc-client/indexingService.go:550-557 | the search stops on the first takeable ID from the counter on, going round at 65536 |
| RequestTables.RequestTable.SendFailed | dhtc-client/indexingService.go:568-576 | the rollback step removes whatever entry the ID has by then and counts a dropped send |
| RequestTables.RequestTable.OnGetPeersResponse | dhtc-client/indexingService.go:433-445 | a reply removes its entry and is credited to that entry's hash |
| RequestTables.SearchEnds | dhtc-client/indexingService.go:550-557 | for every table and counter the search ends, having passed over no more IDs than there are entries |
| RequestTables.SweptHasNoneExpired | dhtc-client/indexingService.go:554-556 | in a swept table the reuse case never applies: only free IDs are taken |
| RequestTables.IssueKeepsInv | dhtc-client/indexingService.go:530-578 | an issue keeps all invariants and never overwrites an entry |
| RequestTables.IssueStores | dhtc-client/indexingService.go:530-564 | a request is stored, dated now, exactly when fewer than two live ones for its hash and fewer than 8192 in all are left, under the first free ID from the counter on |
| RequestTables.IdIsBigEndian | dhtc-client/indexingService.go:550-553 | the two bytes of the i-th ID are the counter i steps on, modulo 65536, high byte first |
| RequestTables.TableIsBounded | dhtc-client/indexingService.go:530-628 | in every run at most 8192 requests, two for a hash, and the deadline is no later than 15 seconds after any of them was made |
| RequestTables.PendingIsExact | dhtc-client/indexingService.go:538-548 | a hash's counter is its number of entries, at most two, with no zero keys |
| RequestTables.SweepIsFullScan | dhtc-client/indexingService.go:611-628 | the early return leaves the same requests and counters as an unconditional scan |
| RequestTables.SweepKeepsTheYoung | dhtc-client/indexingService.go:611-628 | a sweep keeps exactly the requests younger than 15 seconds |
| RequestTables.ScanFindsEarliest | dhtc-client/indexingService.go:616-627 | after a scan the deadline is that of some request, and there is none exactly if the table is empty |
| RequestTables.NextKeepsInv | dhtc-client/indexingService.go:530-639 | every step, the separate rollback included, keeps counts, limits, the deadline bound and the per-ID history |
| RequestTables.Run | dhtc-client/indexingService.go:530-639 | every state reachable from an empty table, any starting counter, satisfies the invariants |
| RequestTables.AnswersMatchIssues | dhtc-client/indexingService.go:433-445 | in every run a reply is credited to the hash last issued under the ID that the reply's first two bytes make, and under each ID issues alternate with closings of the same hash |
| RequestTables.PairsAlternate | dhtc-client/indexingService.go:530-639 | what alternating means: issues in even places, each followed by the closing of the same hash |
| RequestTables.ReplyReadsBack | dhtc-client/indexingService.go:439-440 | the ID of a reply is its first two bytes in order, missing ones zero |
| RequestTables.IssuedIsAnswered | dhtc-client/indexingService.go:433-447 | a reply that carries the two bytes sent with a request is credited to the hash of that request |
| RequestTables.ClosingLeavesOthers | dhtc-client/indexingService.go:630-639 | an answer or a rollback takes out just the request under its ID |
| RequestTables.SecondAnswerIsIgnored | dhtc-client/indexingService.go:437-444 | a second reply finds nothing |
| HashCache.InfoHashCache.Add | cache/cache.go:27-35 | true exactly for an infohash that is unknown or past its end date |
| HashCache.InfoHashCache.Remove | cache/cache.go:37-42 | both the infohash and its end date go |
| HashCache.InfoHashCache.ExpireAfter | cache/cache.go:44-67 | sweep when full, evict one more if still full, then set the end date; never more than 100000 end dates |
| HashCache.InfoHashCache.Sweep | cache/cache.go:52-57 | the deleting loop removes exactly the infohashes past their end dates |
| HashCache.AddPins | cache/cache.go:27-35 | an add makes at most its own infohash in flight, and only one that was not |
| HashCache.AddDecides | cache/cache.go:27-35 | an unknown infohash, or one past its end date, is taken and is in flight then; the others stay as they are |
| HashCache.RemoveForgets | cache/cache.go:37-42 | a removed infohash is unknown; the others stay as they are |
| HashCache.ExpireDecides | cache/cache.go:44-67 | a known infohash gets the end date now + ttl; others become unknown exactly if they make way in a full table |
| HashCache.SweepDecides | cache/cache.go:52-57 | a sweep makes exactly the infohashes past their end dates unknown |
| HashCache.ExpireUnpins | cache/cache.go:44-67 | an end date ends the flight of just its own infohash and leaves every other as it was, whatever is evicted |
| HashCache.ExpiryStaysKnown | cache/cache.go:44-67 | end dates stay within the known infohashes exactly when the infohash is not evicted by its own call |
| HashCache.SelfEvictionHappens | cache/cache.go:51-66 | full tables in which an infohash is evicted by its own call, by the sweep and by the second eviction |
| HashCache.EndDatesAreBounded | cache/cache.go:51-66 | the end dates stay within their limit of 100000 |
| Sinks.UniqueValidPeers | dhtc-client/sink.go:82-99 | the loop yields the usable, unseen peers at their first occurrence |
| Sinks.FreshPeersAre | dhtc-client/sink.go:82-99 | no repeats, and exactly the usable peers not seen before |
| Sinks.FreshInOrder | dhtc-client/sink.go:82-99 | peers keep the order they came in |
| Sinks.NewIsEmpty | dhtc-client/sink.go:10-26 | a new sink runs, tracks nothing and has the limit it was given |
| Sinks.SinkDecides | dhtc-client/sink.go:28-56 | exactly when a result is accepted, which of its peers wait and are remembered, and that no other infohash is touched |
| Sinks.AddPeersDecides | dhtc-client/sink.go:59-80 | exactly when more peers are taken, which ones, and where they are queued |
| Sinks.LearnDecides | dhtc-client/sink.go:124-133 | exchanged peers go behind those waiting for a tracked infohash, and nowhere else |
| Sinks.FlushDecides | dhtc-client/sink.go:152-168 | what a finished download ends and sends, and that a late one does nothing |
| Sinks.FailureDecides | dhtc-client/sink.go:170-192 | a failure discards its infohash exactly if the sink runs and no peer waits, and otherwise takes the first that does; no other infohash is touched |
| Sinks.AllResultsAreTried | dhtc-client/sink.go:59-192 | however results with more peers and failures alternate, the usable peers of all results are tried in the order they came, each once |
| Sinks.Sink.SinkResult | dhtc-client/sink.go:28-56 | acceptance with its limit, duplicate and no-peer cases; the first peer is dialled |
| Sinks.Sink.AddPeers | dhtc-client/sink.go:59-80 | the inner peer set always exists when it is written |
| Sinks.Sink.OnPeers | dhtc-client/sink.go:124-133 | exchanged peers are queued for a tracked infohash only |
| Sinks.Sink.Flush | dhtc-client/sink.go:152-168 | the three deletions and the family the metadata is sent with |
| Sinks.Sink.OnLeechError | dhtc-client/sink.go:170-192 | the next peer is tried, or the infohash is dropped and discarded |
| Sinks.EachPeerIsTried | dhtc-client/sink.go:170-192 | an accepted infohash is tried with each of its peers in order and discarded by exactly as many failures as it has peers |
| Sinks.DrainedFamily | dhtc-client/sink.go:160-167 | drained metadata carries the family of the result it was accepted with |
| WorkerQueues.WorkerQueue.constructor | cluster/transport.go:72-82 | a restored queue holds the file's records and counts on from their largest ID |
| WorkerQueues.WorkerQueue.Enqueue | cluster/transport.go:84-101 | a full queue counts a drop, otherwise the record is appended under the next ID and the flag set |
| WorkerQueues.EnqueueDecides | cluster/transport.go:84-101 | a record is taken exactly below the limit, at the end and under the next ID, and counted as dropped otherwise |
| WorkerQueues.RestoreDecides | cluster/transport.go:50-82 | a start keeps the records of the file in order; the limit is 256 if none is given |
| WorkerQueues.BatchDecides | cluster/transport.go:103-111 | a batch is everything, or as many records from the front as were asked for |
| WorkerQueues.WorkerQueue.Batch | cluster/transport.go:103-111 | a batch is a copy of a prefix |
| WorkerQueues.WorkerQueue.Ack | cluster/transport.go:113-141 | exactly the acked records go, the rest keeps its order, and the metadata of what goes is handed on once each |
| WorkerQueues.WorkerQueue.Filter | cluster/transport.go:119-128 | filtering in the buffer that is being scanned keeps and removes the right records |
| WorkerQueues.AckSplits | cluster/transport.go:113-128 | kept and removed records together are the queue, divided by the acked IDs |
| Transfer.NoRecordIsLost | cluster/transport.go:84-141 | under any interleaving and any network, an accepted record is still queued or was processed by the master, and ingested if its infohash has 20 or 32 bytes |
| Transfer.OnlyRecordsAreIngested | cluster/transport.go:434-441 | whatever was ingested is the metadata of an accepted record the master went through, with an infohash of 20 or 32 bytes |
| Transfer.IngestInOrder | cluster/transport.go:434-441 | a batch of such records is ingested whole and in order |
| Transfer.BatchGoesThrough | cluster/transport.go:560-602 | an undisturbed exchange takes a batch off the front of the queue, processed, with one onAck call outstanding for each record |
| Transfer.InterruptedIsNotAcked | cluster/transport.go:422-449 | a master that stops inside a batch has ingested what came before and acks nothing |
| Transfer.OffersAreCounted | cluster/transport.go:84-101 | in every run each offer is accepted or counted as dropped, the queue stays within the larger of its limit and its start, and IDs count up from the largest restored one |
| Transfer.ReleaseCallsOne | cluster/transport.go:136-140 | each outstanding onAck call is made for its record |
| Transfer.EachRecordOnce | cluster/transport.go:113-141 | each record is queued or removed, never both or twice; onAck fires once per removed record; accepted = queued + flushed |
| Transfer.ProcessedBeforeRemoved | cluster/transport.go:560-602 | a step that takes a record out of the queue comes after the master has processed it |
| Transfer.ProcessKeepsMasterInv | cluster/transport.go:422-449 | going through a batch, or part of it, keeps every ack backed by a processed record |
| Transfer.PullBatch | cluster/transport.go:560-602 | one pulled batch under each disturbance, the lost reply to an applied ack included: what the master sees, what the queue loses, what is reported |
| Transfer.PullWithToken | cluster/transport.go:546-558 | the pull loop acks a prefix in queue order, one batch a round and one more when only the reply to an ack is lost; it goes on exactly while there is more, up to eight batches |
| Transfer.DrainFlush | cluster/transport.go:261-270 | the push loop empties the queue in order unless a flush fails, and stops as soon as it is empty |
| Snapshots.QuietFileIsQueue | cluster/transport.go:285-309 | with no save or change under way and the flag clear, the file is the queue and a restart restores exactly the unacknowledged records |
| Snapshots.FileIsPastQueue | cluster/transport.go:285-309 | the file is always what the queue held at some earlier moment |
| Snapshots.RestartsAscend | cluster/transport.go:285-326 | through any number of restarts the file has ascending IDs, so that the results about one process apply to each |
| Snapshots.ChangeMarksDirty | cluster/transport.go:84-130 | a change does under the lock what it does alone and marks the file as out of date; nothing moves while another holds the lock |
| Snapshots.UndisturbedSave | cluster/transport.go:285-309 | an uninterrupted save makes file and queue equal; a failed one keeps the file and sets the flag again |
| Snapshots.SaveToCache | cluster/transport.go:285-309 | saveToCache run alone, with its failure path |
| Snapshots.NewIDsExceedRestored | cluster/transport.go:311-326 | after a restart every new ID exceeds every restored one |
| Pipeline.OnePlace | ui/crawler.go:339-365 | in every reachable state of a worker an infohash that was not restored is in exactly one place if the cache knows it without an end date, in none otherwise |
| Pipeline.QueueHasNoRepeats | ui/crawler.go:353-363 | the queue never holds two records for one infohash, restored ones apart |
| Pipeline.OnlyFreshAreSunk | ui/crawler.go:343-352 | a download is only started for an infohash that is nowhere in the worker, restored ones apart |
| Pipeline.SinksStaySound | dhtc-client/sink.go:28-80 | in every run the sink's maps have the same keys within the limit, one attempt per tracked infohash until termination, accepted = drained + discarded + tracked, at most ten drained, and nothing is sent on a closed drain |
| Pipeline.StoppedRunsStrand | dhtc-client/sink.go:143-192 | what a terminated run tracks or has drained, and is not letting go of, is refused by the cache whatever happens next |
| Pipeline.StoppedRunsRelease | dhtc-client/sink.go:143-192 | an infohash a terminated run holds can be accepted again by some continuation exactly when it is being discarded or failing past the check with no peer left |
| Pipeline.TrackedIsStranded | dhtc-client/sink.go:143-174 | a stop during a download strands it |
| Pipeline.DrainedIsStranded | ui/crawler.go:336-358 | a stop before the drain is read strands what is in it |
| Pipeline.FailingIsReleased | dhtc-client/sink.go:170-192 | a stop while the last attempt fails past its check lets the infohash go |
| Pipeline.OnAckNeverEvictsItself | cmd/dhtc/main.go:127-129 | no onAck call evicts its own infohash, restored ones apart |
| Pipeline.RestoredEndsTwice | cmd/dhtc/main.go:127-141 | a restored infohash can be queued twice and acknowledged while it has an end date |
| Pipeline.OnAckKeepsLaw | cmd/dhtc/main.go:127-129 | onAck ends the flight of exactly its infohash |
| Pipeline.HeldForTwelveHours | cmd/dhtc/main.go:127-129 | an acknowledged infohash is refused for exactly twelve hours from its onAck call on |
| Pipeline.RefusedIsForgotten | ui/crawler.go:345-362 | what the sink or the queue refuses can be taken again at once |
| Pipeline.OfferedIsPassedOn | ui/crawler.go:349-352 | a result for a known infohash brings its peers to the sink and changes nothing else |
| Pipeline.HandOverTakes | ui/crawler.go:353-363 | metadata goes to the end of the queue, or is refused exactly if the queue is full |
| Pipeline.AttemptDecides | dhtc-client/sink.go:110-132 | the steps of an attempt before and after termination: learning peers, its check, its start |
| Pipeline.DrainIsFifo | dhtc-client/sink.go:152-168 | the drain hands over in the order of sending |
| CrawlLoop.OnResult | ui/crawler.go:343-352 | handling a DHT result on the objects is the composed pipeline steps |
| CrawlLoop.OnMetadata | ui/crawler.go:353-363 | a refused record's infohash is forgotten |
| MetadataExchange.RequestAllPieces | dhtc-client/client.go:157-183 | exactly the pieces below ceil(size / 16384) are requested, in order |
| MetadataExchange.PiecesAreCeiling | dhtc-client/client.go:159 | the number of pieces is the size over 16384, rounded up |
| MetadataExchange.Client.ReceiveAll | dhtc-client/client.go:314-370 | the loop and its buffer end as the abstract transfer does, error cases and the out-of-range crash included |
| MetadataExchange.FarPieceWraps | dhtc-client/client.go:350-353 | the 64-bit offset goes round: a piece number 2^50 further on is placed like the piece itself |
| MetadataExchange.ReceiveInParts | dhtc-client/client.go:314-370 | the loop has no memory but buffer and counter: it goes on with later messages from where earlier ones left it, or has ended |
| MetadataExchange.NextMessage | dhtc-client/client.go:314-370 | what each kind of message does to a waiting loop: rejections, undecodable, too long, out of range, too short, too much, complete |
| MetadataExchange.OthersAreSkipped | dhtc-client/client.go:326-368 | messages of other kinds change nothing wherever they come |
| MetadataExchange.PlacedAt | dhtc-client/client.go:350-352 | a piece goes to 16384 times its number and leaves every other byte alone |
| MetadataExchange.TakenAddUp | dhtc-client/client.go:335-366 | the loop ends without error only after exactly ceil(size / 16384) data messages, all full but the last |
| MetadataExchange.HonestTransferIsExact | dhtc-client/client.go:350-353 | if those carried distinct pieces with their right bytes the buffer is the original |
| MetadataExchange.AcceptedOrders | dhtc-client/client.go:355-365 | a complete honest transfer is accepted exactly if all pieces are full or the last piece comes last |
| CompactCodec.PeerRoundTrip | dhtc-client/codec.go:151-180 | a peer survives encoding exactly when its address is valid and not IPv4-mapped |
| CompactCodec.NodeRoundTrip | dhtc-client/codec.go:277-345 | a node survives exactly when, besides, its ID has 20 bytes |
| CompactCodec.PeerLayout | dhtc-client/codec.go:151-162 | address bytes, then the port, high byte first |
| CompactCodec.NodeLayout | dhtc-client/codec.go:326-345 | twenty bytes of ID, cut or filled up, in front of the peer |
| CompactCodec.DecodeBySize | dhtc-client/codec.go:164-180 | a peer decodes exactly from 6 or 18 bytes, a node from 26 or 38 |
| NetAddr.UnmapDecides | dhtc-client/codec.go:179 | which addresses are read as IPv4 ones |
| CompactCodec.TypedRoundTrip | dhtc-client/codec.go:232-247 | a typed list of any length decodes to what was encoded |
| CompactCodec.TypedDecodesAll4 | dhtc-client/codec.go:232-247 | every string of whole 26-byte entries decodes and encodes back to itself |
| CompactCodec.TypedBySize | dhtc-client/codec.go:232-247 | a typed list is accepted exactly in whole entries, one node each |
| CompactCodec.UntypedBySize | dhtc-client/codec.go:250-275 | the guessing decoder refuses exactly what neither 26 nor 38 divides |
| CompactCodec.UntypedRoundTrip4 | dhtc-client/codec.go:250-275 | guessing the entry size recovers every IPv4 list |
| CompactCodec.UntypedRoundTrip6 | dhtc-client/codec.go:250-275 | it recovers an IPv6 list exactly when its length is not a positive multiple of 13 |
| CompactCodec.UnmarshalTyped | dhtc-client/codec.go:232-247 | length check and offset loop |
| CompactCodec.UnmarshalCompactNodeInfos | dhtc-client/codec.go:250-275 | the size guess and the offset loop |
| CompactCodec.DecodePeersIsParsePeers | dhtc-client/codec.go:183-207 | the 18-byte case is unreachable; lengths divisible by 6 are read as parsePeers does, others refused |
| CompactCodec.PeerListRoundTrip4 | dhtc-client/codec.go:183-207 | a concatenation of IPv4 peers comes back |
| CompactCodec.PeerListFails6 | dhtc-client/codec.go:183-207 | one of IPv6 peers comes back only when empty |
| CompactCodec.ParsePeersLoop | dhtc-client/util.go:43-54 | the index loop reads six bytes at a time and ignores a remainder |
| CompactCodec.ParsePeers6Loop | dhtc-client/util.go:56-67 | the same for eighteen bytes at a time |
| CompactCodec.ParsedEncoding6 | dhtc-client/util.go:56-67 | every list of IPv6 peers comes back, mapped addresses included, whatever shorter rest follows |
| Schedule.NextIsFirstFlip | ui/crawler.go:235-257 | for all valid distinct times, windows across midnight included, the returned instant is the first at which the state flips, within a day |
| Schedule.InsideSomeWindow | ui/crawler.go:241-247 | inside means in the window that opened today or yesterday |
| Schedule.NoWindow | ui/crawler.go:236-240 | no change exactly without two different times, and then outside |
| CrawlerManagers.CrawlerManager.StartLocked | ui/crawler.go:106-133 | a start takes a new stop channel and, if configured, a timer for it |
| CrawlerManagers.CrawlerManager.StopLocked | ui/crawler.go:294-305 | a stop closes the current channel, which is open |
| CrawlerManagers.CrawlerManager.SetManualOverrideLocked | ui/crawler.go:213-224 | an override lasts until the next change of the window |
| CrawlerManagers.CrawlerManager.ReconcileSchedule | ui/crawler.go:182-207 | reconciling is the abstract reconcile, which with the schedule off ends the override and nothing else |
| CrawlerManagers.CrawlerManager.StopAfter | ui/crawler.go:267-292 | a timer acts only while its own channel is current |
| CrawlerManagers.RunKeepsInv | ui/crawler.go:106-133 | in all runs, configuration edits included, the crawler runs exactly when it has a channel, and each channel is closed at most once |
| CrawlerManagers.StaleTimerIsHarmless | ui/crawler.go:267-292 | a timer whose channel has been closed changes nothing |
| CrawlerManagers.StartsAreFresh | ui/crawler.go:117-129 | a start's channel belongs to no earlier run and no earlier timer |
| CrawlerManagers.ReconcileDecides | ui/crawler.go:190-206 | after a reconcile the crawler runs as the manual choice says before its end and as the window says otherwise |
| CrawlerManagers.IdleReconcile | ui/crawler.go:185-189 | with the schedule off or only the web server, a reconcile ends the override and leaves the run alone |
| CrawlerManagers.ReconcileEndsOverride | ui/crawler.go:182-207 | an override stays until its end and is gone from there on |
| CrawlerManagers.StartDecides | ui/crawler.go:106-133 | when a start starts, and its channel, timer and auto-stop time |
| CrawlerManagers.StopDecides | ui/crawler.go:294-305 | when a stop stops, and that it closes the current channel once |
| CrawlerManagers.PressDecides | ui/crawler.go:99-104 | a press starts or stops at once, and sets an override exactly where the schedule is on and has a window |
| CrawlerManagers.TimerDecides | ui/crawler.go:267-292 | the timer of the current channel stops the crawler for the rest of an override too; any other does nothing |
| CrawlerManagers.UnscheduledPressHolds | ui/crawler.go:185-189 | with the schedule off the crawler goes on as pressed over every list of reconciles and timers until the timer of its own run fires |
| CrawlerManagers.PressHolds | ui/crawler.go:99-131 | until the window next changes, against any mix of reconciles, timers and window edits, a Stop always holds and a Start holds exactly until the timer of its own run fires |
| CrawlerManagers.WindowTakesOver | ui/crawler.go:182-207 | from that change on every reconcile does what the window says |
| CrawlerManagers.StartArmsTimer | ui/crawler.go:128-131 | a start by hand has a timer exactly when auto-stop is configured |
| CrawlerManagers.PressAgainstWindowHandsOver | ui/crawler.go:213-224 | a press against the window ends at the instant the window asks for the same |
| CrawlerManagers.AutoStopLasts | ui/crawler.go:267-292 | an automatic stop lasts through the next reconcile exactly if an override is in force or the window is closed |

## Left out

- HTTP, gzip, JSON, sockets, DNS, rate limiting, logging and file-system calls: messages, steps that may fail, or an abstract file; JSON, hex and address text are taken to round-trip.
- Bencode, SHA-1 and SHA-256, the handshakes and the checksum after the metadata loop: the libraries are not part of this model.
- RoutingTables.RoutingTable.Front: the program prepends a new node by building a new slice; the model shifts inside one fixed window of eight slots per bucket, as the program does only when it refreshes a node.
- RoutingTables.RoutingTable.Closest: insertion sort stands in for the library sort; `NearestIsUnique` is why the algorithm does not matter. Negative limits, which panic, are excluded by the type; the only caller passes eight.
- RoutingReplay.SaveAndReplay: hypothetical, like SameIDReplayRecency: the program draws a new local ID at every start, which ReplayBuckets and RestartRecency cover.
- CompactCodec.UntypedRoundTrip6: about the exported decoder on its own; the message fields use the decoders for one entry size.
- RequestTables.RequestTable.RequestPeers: the stopped check before it and the message itself are not modelled; the send failure is the separate step `SendFailed`.
- RequestTables.RequestTable.OnGetPeersResponse: which of the reply's peers are reported is not modelled.
- Transfer.NoRecordIsLost: scoped to one process and to acks the master sends; a restarted queue may reuse IDs issued after its last snapshot. Acked means processed, not stored: the program acks whatever ingest returns.
- Transfer.PullWithToken: the puller's status record and the loop over several workers are not modelled.
- Transfer.DrainFlush: a missing URL or token, with which a flush returns without progress, is excluded.
- Snapshots.QuietFileIsQueue: a missing or unreadable file reads as no records, while JSON with a wrongly typed field would leave some records in the queue and the ID counter at zero; the limit is not applied to restored records, as in the program.
- Pipeline.OnePlace: infohashes of restored records are excluded: a push-mode worker restores them into its queue and not into its cache, so that they can be found again. A pull-mode worker restores none.
- Sinks.Sink.OnPeers: exchanged peers are not deduplicated, as in the program, so "no peer is tried twice" is not claimed for them.
- MetadataExchange.HonestTransferIsExact: a peer that sends wrong bytes is left to the checksum.
- Liveness: the sink's flush holds a lock across a channel send that may block; only safety is claimed.
- Schedule.NextIsFirstFlip: a clock with a fixed offset; daylight-saving changes and the parsing of clock texts are not modelled.
- Integer widths: record IDs and statistics are unbounded; metadata offsets wrap at 64 bits; the transaction counter wraps at 65536, and the per-hash counters stay at most two, well inside eight bits.
- IPv6 zones, which no wire format carries.
- Databases, search, categories, notifiers, downloaders, settings, token rotation and the user interface.
