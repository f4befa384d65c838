# Chronus, verified in Dafny

Chronus is a clustered InfluxDB: meta nodes agree on shard placement through raft, data nodes
write points to every owner of a shard, keep what a down owner missed in a hinted-handoff queue,
and answer queries by spreading shards over nodes. This project models the parts of it whose
correctness does not follow from reading one function, and proves what they keep over every run.

| area | files | what is proved |
|---|---|---|
| hinted handoff | `Bytes` `SegmentNames` `Directory` `SegmentModel` `SegmentFile` `QueueModel` `HandoffQueue` `NodeProcessor` `HandoffRuns` `HandoffBatches` | file bytes refine blocks, segments refine one FIFO; over every run of writes, sends, purges and reopenings every accepted record is gone or pending exactly once, and in order as long as reopening keeps it; disk bounds; exactly when reopening keeps the order, when the queue gets stuck, and when a write is accepted and lost; the shards and points a node receives are those writers gave, in order |
| streams | `Connection` `CyclicBuffer` `IteratorReader` `Framing` | terminator stripping and message framing give back exactly what was sent, for every chunking |
| metadata | `Lists` `MetaModel` `NodeRemoval` `Placement` `MetaOps` `MetaRuns` `AnyRuns` `GroupOrder` `OwnedShards` `ZeroOwner` `AnyCommands` `CommandEffects` `ReachedStates` `MetaData` `MetaStore` | over every sequence of commands: ids never used again, sorted groups, each with a shard; of legal ones: clean owner lists, disjoint, aligned groups; removing a node reassigns its shards in a balanced way and never fails; exactly which command leaves a live shard without an owner, which of all commands breaks the invariant, and when a removal fails in any metadata; for each command its outcome and exactly what it changes |
| replication | `Determinism` `ReplicaRuns` `Checksums` `RaftNode` | replicas with different clocks agree; state equals the fold of the log prefix through repeats, restarts and snapshot installs; as long as every applied prune calls the same groups expired, which is always so without prunes, the checksum check never fires; in every run, which checksum a replica holds and exactly which entry stops it |
| reads | `LinearizableRead` `ReadRounds` `ReadData` | an interleaving model: a successful read sees everything committed when it began, no lost wake-up; a call returns nil exactly when the request of its round was answered; run together with the replicas, exactly when the data it finds hold that |
| queries | `Planner` `QueryRetry` `EndlessRetry` | plans are exact partitions; retries end, settle each shard once, and give one up exactly when the planned node and all its owners refuse; a query misses exactly the shards whose owners all refuse; exactly when the retries have a bound |
| writes | `PointMapping` `ShardWrites` | points are mapped without loss, exactly when overlapping groups hide one, acknowledgements are counted by distinct owner, each level means some, more than half or all owners, quorums meet |
| connections | `PoolSweep` `ConnectionPool` | the pool's bound under every interleaving, what lost races leave of it, and exactly when it can starve |

Code that updates things in place is a class or a method with loops, proved against a value-level
function; the properties are lemmas about that function and about runs of it. Protocols whose
point is interleaving (linearizable reads, replicas, the pool) are state machines with one step
per atomic action. Random choices, map iteration order, the clock, answers of the network and of
the file system's callers are arbitrary inputs or nondeterministic choices.

`dafny verify dfyconfig.toml` checks everything.

## What the code does that one might not expect

Each of these is a lemma here; the code is modelled as it is.

- A drained head segment with another one behind it makes the sender see end of file: it returns
  before it could advance. Another caller's `Advance`, a purge of a segment that has become too
  old, or reopening can move the queue on. `HandoffRuns.StrandsExact` says for every event exactly
  when it leaves the queue in that position (`StuckForever`, `StrandedRunExists`). Reopening can
  itself do so: it strands a queue with three segments or more whose first two by name are drained,
  also one whose head had a record to send (`ReopenStrandsRunExists`).
- A purge that finds every segment too old replaces the last one but leaves the tail on its closed
  handle, and `Append` swallows the error. From then on records are reported as accepted and are
  nowhere, until the queue is reopened. A write is accepted and lost if and only if it fits an
  empty queue and such a purge came before it, with no reopening since
  (`HandoffRuns.AcceptedAndLostExact`). An idle queue that has grown old is enough (`LostRunExists`).
- Segments are numbered but listed by name, so reopening keeps the order exactly when the names are
  in string order; while ids are consecutive that is when all have the same number of digits
  (`HandoffRuns.ReloadOrderExact`, `ReorderedRunExists`). The records are all there in either case
  (`RunConserves`).
- An empty record would break the cached block size; the processor never writes one
  (`SegmentModel.AppendKeepsSynced`).
- With a replica setting of 0 and every node frozen, creating a shard group divides by zero
  (`MetaRuns.CreateGroupOutcome`, `ReachedStates.PanicRunExists`). Beyond the largest time it makes a
  new group each time, and groups can overlap (`MetaRuns.CreateIdempotentExact`,
  `CreateGroupInvExact`, `ReachedStates.SecondGroupRunExists`).
- `RemoveShardOwner` on the last owner leaves a live shard without one (`OwnedShards.RunExact`,
  `ReachedStates.OrphanRunExists`).
- `AddShardOwner` accepts node 0. A group with such an owner can stop the removal of a node:
  `ZeroOwner.RemovalFailsExact` says when, for every group (`ReachedStates.CannotLeaveRunExists`).
  Query retries have a bound if and only if node 0 owns no shard of the plan, or it or the planned
  node does not refuse (`EndlessRetry.BoundedExact`).
- Pruning compares deletion times that each replica took from its own clock, so replicas can
  diverge (`ReachedStates.PruneDivergesRun`, `Determinism.PruneAgreementExact`); the next checksum then
  stops one of them (`Checksums.CheckSeparates`, `ReachedStates.DivergedIsStopped`). The checksum does
  not see whether a group is deleted (`Determinism.ChecksumSees`).
- During a restore the applied index is ahead of the data, and a read can succeed on old data
  (`ReplicaRuns.RestoreGap`, `ReadData.ReadDuringRestore`).
- Shards can be missing from a query answer without an error (`QueryRetry.LossExact`,
  `QueryLossExact`), and a
  panic recovered in the query function counts as an answer without a value.
- An increment that loses the race in `Get` is never taken back, so each one lowers the usable
  capacity (`ConnectionPool.LostRacesShrink`). Enough of them starve a pool of any capacity for
  good (`StarvationReachable`, `RecoversExact`). Marking a connection unusable
  after closing it breaks the bound (`StaleMarkBreaksBound`).
- Keeping one idle connection moves it to the back, so a later sweep can miss an expired one
  (`PoolSweep.SweepKeepsOrderExact`, `SecondSweepCanMiss`).
- A point older than the retention limit is still written when another point of the request
  brought in a group that contains it: it is dropped exactly when no listed group contains it
  (`PointMapping.MapShards`). Overlapping groups, which a changed group duration leaves behind, can
  hide each other, and then a point is dropped although a listed group contains it and it is not
  too old (`PointMapping.DroppedExact`, `HiddenPointDropped`).

## Model

| member | source | states |
|---|---|---|
| `Bytes.BigEndianRoundTrip` | services/hh/queue.go:678-690 | reading n big-endian bytes written for a number below 256^n gives the number back |
| `Bytes.BigEndianBounded` | services/hh/queue.go:678-690 | every byte string is the encoding of the number it reads as |
| `Bytes.Uint64RoundTrip` | services/hh/queue.go:678-690 | `readUint64` undoes `writeUint64` below 2^64 |
| `Bytes.Uint64Inverse` | services/hh/queue.go:678-690 | writing what was read gives the same eight bytes |
| `Bytes.BigEndianFirst` | services/hh/queue.go:678-690 | the first byte is the most significant one |
| `SegmentNames.ParseFormat` | services/hh/queue.go:246-318 | a segment's file name parses back to its id |
| `SegmentNames.SameLengthOrder` | services/hh/queue.go:262-318 | among ids with as many digits, name order is numeric order, both ways |
| `SegmentNames.LengthStep` | services/hh/queue.go:262-318 | where ids gain a digit the larger one's name comes first |
| `SegmentNames.NameOrderExact` | services/hh/queue.go:262-318 | over a range of ids, name order is numeric order if and only if the first and last have as many digits |
| `Directory.Dir.ReadDir` | services/hh/queue.go:262-290 | the listing holds every file name once, in string order |
| `Directory.ListingUnique` | services/hh/queue.go:262-290 | a set of names has only one listing |
| `SegmentModel.BlockAt` | services/hh/queue.go:388-437 | block k starts where the first k end: its length prefix and bytes are at that offset |
| `SegmentModel.FooterOf` | services/hh/queue.go:439-487 | the last eight bytes of a segment file read as the offset of its head block |
| `SegmentModel.FileDeterminesSegment` | services/hh/queue.go:388-487 | two segments with the same file bytes have the same blocks and the same head |
| `SegmentModel.MeaningOfFile` | services/hh/queue.go:439-487 | what the bytes of a segment stand for is that segment with its cached size re-read |
| `SegmentModel.HeadBlock` | services/hh/queue.go:439-561 | reading at the footer's offset finds the head block, or the footer itself exactly when the segment is drained |
| `SegmentModel.AppendKeepsSynced` | services/hh/queue.go:490-529 | the cached size stays right unless an empty record waits at the head and a non-empty one is appended; both directions |
| `SegmentModel.AdvanceKeepsWellFormed` | services/hh/queue.go:564-608 | advancing drops exactly the first pending block and leaves the cached size right |
| `SegmentFile.Segment.SeekEnd` | services/hh/queue.go:651-671 | the cursor is that far before the end, or the seek fails and it does not move |
| `SegmentFile.Segment.ReadBytes` | services/hh/queue.go:704-714 | the bytes at the cursor, end of file or a short read, each exactly when |
| `SegmentFile.Segment.WriteBytes` | services/hh/queue.go:692-702 | overwrites at the cursor, extends at the end, and touches no other file |
| `SegmentFile.Segment.New` | services/hh/queue.go:419-437 | a missing or empty file becomes an empty segment; any other file is left alone, and opens exactly when its footer is a position; then size, position and cached size are read off its bytes, and a segment file is rebuilt as what it stands for |
| `SegmentFile.Segment.OpenExisting` | services/hh/queue.go:439-487 | for any bytes: fails exactly when there is no footer or it is negative, and otherwise takes position and cached size from them; a segment file gives its segment |
| `SegmentFile.Segment.Append` | services/hh/queue.go:490-529 | one more block at the end and the same head, the file again exactly blocks and footer; full or closed changes nothing |
| `SegmentFile.Segment.Current` | services/hh/queue.go:532-561 | the head block, end of file exactly when drained, the range error exactly when it is too long; the cached size is refreshed |
| `SegmentFile.Segment.Advance` | services/hh/queue.go:564-608 | with the cached size right the head moves one block and the file follows; otherwise the footer gets a position that is not the next block, and the cached size is whatever is read there |
| `SegmentFile.Segment.ReadCurrentSize` | services/hh/queue.go:592-607 | after moving, the size at the new position, 0 at the footer, or the error of reading past the end |
| `SegmentFile.AppendedFile` | services/hh/queue.go:490-529 | the file of a segment with one more block is the old file with the footer overwritten by block and footer |
| `SegmentFile.AdvancedFile` | services/hh/queue.go:564-608 | the file of the advanced segment is the old file with only the footer changed |
| `QueueModel.FreshName` | services/hh/queue.go:246-318 | one more than the largest numeric name is a name not in use |
| `QueueModel.AppendIsEnqueue` | services/hh/queue.go:321-344 | a successful append adds exactly one record at the end of the pending ones; a rejected one adds none |
| `QueueModel.CurrentIsFront` | services/hh/queue.go:347-353 | the record returned is the first pending one; end of file exactly when the head segment is drained |
| `QueueModel.TrimKeeps` | services/hh/queue.go:373-386 | dropping a drained head segment keeps the pending records and does not grow the disk use |
| `QueueModel.AdvanceIsDequeue` | services/hh/queue.go:356-371 | advancing removes exactly the first pending record, or none when the head segment is drained |
| `HandoffQueue.Queue.constructor` | services/hh/queue.go:85-92 | a new queue is closed and holds its limits |
| `HandoffQueue.Queue.DiskUsage` | services/hh/queue.go:237-243 | the sum of the segments' file sizes |
| `HandoffQueue.Queue.NextSegmentID` | services/hh/queue.go:293-318 | one more than the largest numeric name in the directory |
| `HandoffQueue.Queue.AddSegment` | services/hh/queue.go:246-259 | a new empty file with a fresh name behind the others, all else unchanged on disk |
| `HandoffQueue.Queue.Append` | services/hh/queue.go:321-344 | classes and files do what the value queue does, error included; closed is refused; on a detached tail nothing changes and the record is still reported as accepted |
| `HandoffQueue.Queue.Current` | services/hh/queue.go:347-353 | record and error of the value queue, files unchanged |
| `HandoffQueue.Queue.TrimHead` | services/hh/queue.go:373-386 | with more than one segment the head's file is removed and the next becomes head |
| `HandoffQueue.Queue.Advance` | services/hh/queue.go:356-371 | with the cached size right, the advance of the value queue, on disk as well |
| `HandoffQueue.Queue.LoadSegments` | services/hh/queue.go:262-290 | fails exactly when some numeric file cannot be opened; else the numeric names in name order, each segment the one its bytes stand for, new files with their footer |
| `HandoffQueue.Queue.Open` | services/hh/queue.go:95-124 | stays closed exactly when some numeric file cannot be opened; else the loaded segments, with a first one made if there is none and a drained head trimmed |
| `HandoffQueue.Queue.Close` | services/hh/queue.go:127-140 | the handles are given up and the files stay |
| `HandoffQueue.LeftIsLoadable` | services/hh/queue.go:127-140 | the files a queue leaves can all be opened and loaded, for every state of the queue |
| `HandoffQueue.Queue.Reopen` | services/hh/queue.go:95-140 | closing and opening always succeeds and gives the queue that the run model calls reopened |
| `HandoffQueue.Queue.PurgeOlderThan` | services/hh/queue.go:177-209 | drops exactly the segments in front that are too old; when all are, an empty one stays and the tail is left detached |
| `HandoffRuns.ReloadOrderExact` | services/hh/queue.go:262-318 | loading what any queue left on disk keeps the segment order if and only if its names are in string order, which for consecutive ids is if and only if all have as many digits |
| `HandoffRuns.ReopenKeepsQueue` | services/hh/queue.go:95-140 | with the names in order, closing and opening keeps the pending records and drops a drained head |
| `HandoffRuns.ReopenPermutes` | services/hh/queue.go:95-140 | whatever the names, the reopened queue holds the same records up to their order, and no more bytes |
| `HandoffRuns.StepKeepsInv` | services/hh/queue.go:177-386 | every write, send, advance, purge and reopening in order keeps: accepted records are those gone plus those pending, in order, consecutive ids, bounded sizes |
| `HandoffRuns.StepConserves` | services/hh/queue.go:95-386 | every event, reopening in any order included, keeps the accepted records a permutation of those gone plus those pending, and the byte bounds |
| `HandoffRuns.RunConserves` | services/hh/queue.go:95-386 | in every state of every run from an empty directory each accepted record is gone or pending, exactly once, and the byte bounds hold |
| `HandoffRuns.RunKeepsInv` | services/hh/queue.go:95-386 | in runs that reopen only while ids have as many digits, the same in order |
| `HandoffRuns.DeliveredIsPrefixOfAccepted` | services/hh/node_processor.go:305-346 | in every run that keeps the order when reopening, accepted equals gone plus pending, and if nothing was unreadable, skipped or purged the delivered records are a prefix of the accepted ones |
| `HandoffRuns.DiskBound` | services/hh/queue.go:237-259 | in every run from an empty directory usage is at most maxSize + 16 and a segment at most maxSegmentSize + 8 |
| `HandoffRuns.IdleWithPendingExact` | services/hh/queue.go:347-371 | after an event the sender sees end of file with records pending if and only if that event, judged from the state before it, strands the queue |
| `HandoffRuns.RollStrands` | services/hh/queue.go:321-344 | behind a sole drained segment a write leaves exactly its record stuck if and only if it needs a new segment, fits one, and the queue has room |
| `HandoffRuns.StrandsExact` | services/hh/queue.go:95-386 | for each event, any reopening included, a condition on the state before it that holds if and only if the queue is stuck after it; so also which events free it |
| `HandoffRuns.StuckForever` | services/hh/node_processor.go:305-346 | from there no run without reopening, purging or an outside advance delivers anything |
| `HandoffRuns.StrandedRunExists` | services/hh/node_processor.go:305-346 | a run from an empty directory that gets there |
| `HandoffRuns.ReopenStrandsRunExists` | services/hh/queue.go:95-290 | a run in which a queue that shows a record to send is reopened, and then is stuck with that record pending |
| `HandoffRuns.DetachedExact` | services/hh/queue.go:186-207 | in every run the tail is detached if and only if some earlier purge found every segment too old and the queue was not reopened since |
| `HandoffRuns.WriteLostExact` | services/hh/queue.go:321-344 | a write is accepted without a record becoming pending if and only if the tail is detached and the record fits an empty queue |
| `HandoffRuns.AcceptedAndLostExact` | services/hh/queue.go:186-344 | in every run a write is accepted and lost if and only if it fits an empty queue and such a purge came before it with no reopening since |
| `HandoffRuns.DetachedForever` | services/hh/queue.go:321-344 | while it is, no run delivers anything, whatever is accepted |
| `HandoffRuns.LostRunExists` | services/hh/node_processor.go:204-233 | a run from an empty directory whose only record is accepted and is nowhere |
| `HandoffRuns.ReopenPossible` | services/hh/queue.go:95-140 | every consistent queue has files and a queue that they reopen to |
| `HandoffRuns.ReachId` | services/hh/queue.go:321-371 | for every id a run whose sole segment has it, with one record in it |
| `HandoffRuns.ReorderedRunExists` | services/hh/queue.go:262-318 | a run whose last event reopens the queue and puts the newer of its two records first |
| `HandoffRuns.ReopenCanReorder` | services/hh/queue.go:262-318 | any queue with ids 9 and 10 and a record in each reopens with the records swapped |
| `HandoffRuns.UnmarshalMarshal` | services/hh/node_processor.go:376-393 | for every 64-bit shard id and every text, what is read back from a record is that shard and that text |
| `HandoffRuns.MarshalUnmarshal` | services/hh/node_processor.go:376-393 | every record of at least eight bytes is the one its shard and text are written as |
| `HandoffBatches.ReceivedIsPrefixOfGiven` | services/hh/node_processor.go:305-393 | in every run that keeps the order and skips nothing, the shards and points the node takes are, one by one, a prefix of those writers gave and were told were accepted |
| `HandoffBatches.ReceivedWasGiven` | services/hh/node_processor.go:305-393 | in every run no record is delivered more often than it was accepted, and every batch the node takes is one that was given |
| `NodeProcessor.SplitLines` | services/hh/node_processor.go:376-384 | points without a line break are told apart again in the text, in order |
| `NodeProcessor.NodeProcessor.MarshalWrite` | services/hh/node_processor.go:376-384 | the loop writes a record that reads back as the shard and one line for each point |
| `NodeProcessor.NodeProcessor.WriteShard` | services/hh/node_processor.go:178-191 | the record with the shard in front and the points line by line is appended to the queue, with the queue's error; on a detached queue it is reported as done exactly if it fits, and changes nothing |
| `NodeProcessor.NodeProcessor.SendWrite` | services/hh/node_processor.go:305-346 | the head record is kept on inactive nodes and when the node refuses its shard and points, dropped when unreadable, and removed when delivered; a closed queue says it is not open |
| `CyclicBuffer.CyclicBuffer.Put` | x/cyclic_buffer.go:18-31 | the window read from the position loses its oldest byte and gains the new one |
| `CyclicBuffer.CyclicBuffer.WriteFrom` | x/cyclic_buffer.go:25-31 | the window is the last bytes of everything before plus the data from the offset |
| `CyclicBuffer.CyclicBuffer.Write` | x/cyclic_buffer.go:67-78 | the buffer always holds the last bytes written, also when more than its capacity comes at once |
| `CyclicBuffer.CyclicBuffer.Dump` | x/cyclic_buffer.go:43-65 | copies out the bytes held, oldest first, or nothing when the target is too small |
| `CyclicBuffer.CyclicBuffer.Compare` | x/cyclic_buffer.go:81-101 | true exactly when the data are the last bytes written, at full capacity |
| `CyclicBuffer.HeldBytes` | x/cyclic_buffer.go:43-65 | the held part of the window is a suffix of everything written |
| `Connection.DeliverConserves` | coordinator/request/request.go:60-78 | one read takes its bytes off the front of the stream and loses none |
| `IteratorReader.ShiftBuffer` | coordinator/remote_executor.go:521-532 | the header goes in front and the old bytes move back, in place |
| `IteratorReader.Emission` | coordinator/remote_executor.go:534-558 | holding back the last terminator-length bytes, what a read returns continues what was returned before |
| `IteratorReader.IteratorReader.Read` | coordinator/remote_executor.go:534-558 | everything returned so far is everything received but the last terminator-length bytes; end of file exactly from the read that ends with the terminator |
| `IteratorReader.ReadPayload` | coordinator/remote_executor.go:534-558 | for every payload, terminator occurring only at the end, chunking, errors and buffer size, what is read is a prefix of the payload, and all of it if and only if no error that is passed on comes before the last byte |
| `IteratorReader.StopsAtEnd` | coordinator/remote_executor.go:534-558 | the terminator is seen exactly when the whole stream has been |
| `Framing.EncodingDecodes` | coordinator/service.go:342-372 | the frame at the front of an encoded message followed by anything is that message |
| `Framing.FrameDecodes` | coordinator/request/request.go:31-58 | a decoded frame encodes to the bytes it was read from |
| `Framing.EncodingLayout` | coordinator/service.go:342-372 | one byte of type, eight of length with the most significant first, then the body |
| `Framing.MessageReader.Fetch` | coordinator/request/request.go:31-58 | takes one frame off the buffer, or nothing when incomplete, or panics exactly when the length field is over the limit |
| `Framing.MessageReader.Read` | coordinator/request/request.go:60-78 | encoded message plus bytes still buffered and still to come equals the bytes there before |
| `Framing.NextFrame` | coordinator/request/request.go:31-58 | after any number of messages of an encoded list, the remaining bytes start with the next message |
| `Framing.NeverCrashes` | coordinator/request/request.go:31-58 | at no moment of receiving an encoded list is the length field over the limit |
| `Framing.FailedAtEnd` | coordinator/request/request.go:60-78 | an incomplete buffer with nothing to come means every message was returned |
| `Framing.ReceiveAll` | coordinator/request/request.go:60-78 | for every list of messages within the limit, every chunking and errors in between, repeated reads return exactly the list |
| `MetaModel.LeastUnique` | services/meta/data.go:251-272 | the node with the fewest shards, ties broken by id, is unique, whatever the iteration order |
| `MetaData.NewShardOwner` | services/meta/data.go:251-272 | looping over the map in any order finds that node, or 0 in an empty map |
| `MetaData.GetFreezed` | services/meta/data.go:82-89 | the first position of the id, or -1 |
| `MetaData.RelinquishAll` | services/meta/data.go:160-192 | owners without the node, the shards left without an owner, and how many shards each owner had |
| `MetaData.ReassignAll` | services/meta/data.go:205-220 | orphans get owners one by one, as in the balanced reassignment below |
| `NodeRemoval.WithoutLastDrops` | services/meta/data.go:169-185 | with distinct owners, removing the last occurrence removes the node |
| `NodeRemoval.FreqsAfterDrop` | services/meta/data.go:169-203 | the counts without the node's entry are the owner counts of the remaining shards |
| `NodeRemoval.AllOrphansExact` | services/meta/data.go:187-199 | every shard is orphaned exactly when the node was the only owner in the group |
| `NodeRemoval.ReassignAdoptsAll` | services/meta/data.go:203-220 | every orphan gets exactly one owner among the earlier ones, and a receiver ends with at most one shard more than any candidate |
| `NodeRemoval.FirstOrphanTo` | services/meta/data.go:203-272 | the first shard left without an owner goes to the other owner with the fewest shards of the group, the smallest id among those |
| `NodeRemoval.RemoveFromGroupSafe` | services/meta/data.go:159-221 | removal never fails; afterwards the node owns nothing, the group is deleted or every shard has an owner from the group, balanced |
| `Placement.AvailableAre` | services/meta/data.go:429-440 | exactly the unfrozen nodes, distinct if the nodes are |
| `Placement.AvailableInOrder` | services/meta/data.go:429-440 | they stay in the order of the nodes |
| `Placement.DealsApart` | services/meta/data.go:476-486 | two deals less than a full round apart are different nodes |
| `Placement.RoundRobin` | services/meta/data.go:469-486 | every shard gets its replicas, ids are consecutive, and no node appears twice in the group |
| `CommandEffects.DealExact` | services/meta/data.go:476-486 | replica j of shard i is on the node that many places after the one the metadata index points at, around the list |
| `MetaData.DealShards` | services/meta/data.go:469-486 | the nested loops deal that placement |
| `MetaData.AvailableNodes` | services/meta/data.go:429-440 | the loop over the nodes keeps the unfrozen ones |
| `MetaData.Data.CreateDataNode` | services/meta/data.go:38-71 | in place what the value operation does: an existing address is refused, a known meta node's id reused, else a new id |
| `MetaData.Data.FreezeDataNode` | services/meta/data.go:114-130 | in place what the value operation does, error cases included |
| `MetaData.Data.UnfreezeDataNode` | services/meta/data.go:91-108 | in place what the value operation does, error cases included |
| `MetaData.Data.DeleteDataNode` | services/meta/data.go:137-231 | the nested loops over databases, policies, groups and shards do what the value operation does |
| `MetaData.Data.CreateShardGroup` | services/meta/data.go:410-495 | in place what the value operation does, with the error or panic of each branch |
| `MetaData.Data.ChangeShardOwner` | services/meta/data.go:497-538 | the owner is added to, or removed from, the first shard with the id |
| `MetaData.Data.DeleteShardGroup` | services/meta/data.go:541-559 | in place what the value operation does, of which `CommandEffects.DeleteGroupExact` says what it is |
| `MetaRuns.DeleteDataNodeSafe` | services/meta/data.go:137-231 | deleting a present node succeeds, keeps the invariant, and no node list, freeze list or shard mentions it; live shards keep an owner from their group |
| `MetaRuns.CreateNodeKeepsInv` | services/meta/data.go:38-71 | node ids stay distinct, non-zero and below the counter |
| `MetaRuns.FreezeKeepsInv` | services/meta/data.go:91-130 | freezing and unfreezing keep the invariant |
| `MetaRuns.ReownKeepsInv` | services/meta/data.go:497-538 | moving owners of a shard between real nodes keeps the invariant |
| `MetaRuns.DeleteGroupKeepsInv` | services/meta/data.go:541-559 | stamping a group keeps the invariant |
| `CommandEffects.DeleteGroupExact` | services/meta/data.go:541-559 | succeeds if and only if the policy has a group with the id; then the first such group has the stamp and every other group, policy and field is as before; the error tells a missing database from a missing policy |
| `CommandEffects.DeletedIsGone` | services/meta/data.go:541-559 | under the invariant the deleted group answers no time, and no time it had is answered by any group |
| `CommandEffects.CreateAfterDelete` | services/meta/store.go:804-853 | a creation that succeeds for such a time makes the next group, and that group answers it |
| `CommandEffects.AnswerIsFirst` | services/meta/store.go:793-801 | in any list the answer is the first group that is live and has the time, and there is one if and only if some group is |
| `CommandEffects.FreezeExact` | services/meta/data.go:114-130 | each outcome if and only if; exactly the one node joins the frozen ones and leaves placement, nothing else changes |
| `CommandEffects.UnfreezeExact` | services/meta/data.go:91-108 | each outcome if and only if; exactly the one node leaves the frozen ones and is placed on again, nothing else changes |
| `CommandEffects.FrozenExact` | services/meta/data.go:91-231 | in every run of any commands a node is frozen if and only if it was frozen and neither unfrozen nor deleted since |
| `CommandEffects.ReownExactly` | services/meta/data.go:497-538 | of all shards exactly the first with the id changes: the owner is added behind the others unless there, or taken out with the others in order; without such a shard nothing changes |
| `CommandEffects.CreateNodeExact` | services/meta/data.go:38-71 | succeeds if and only if no data node has the host or the TCP host; exactly that node is added, with the id of the first such meta node, else the next id |
| `CommandEffects.RunKeepsHosts` | services/meta/data.go:38-71 | in every run of any commands no two data nodes share a host or a TCP host |
| `CommandEffects.DeleteNodeExact` | services/meta/data.go:137-231 | errors for id 0 and unknown nodes; else exactly that node leaves the nodes and the frozen ones, and of the rest only policies change |
| `CommandEffects.CreateGroupFrame` | services/meta/data.go:410-422 | only policies and the group and shard counters change; nothing for a time that is answered, and each missing thing has its error |
| `CommandEffects.PruneExact` | services/meta/store.go:769-791 | exactly the groups deleted before the limit go, nothing else changes, and the index moves if and only if some group goes |
| `CommandEffects.CommitExact` | services/meta/store.go:1127-1143 | a command that fails changes nothing; one that succeeds moves the index by one, or found the time answered or nothing to prune |
| `MetaRuns.CreateGroupOutcome` | services/meta/data.go:442-478 | panic, refusal and success each if and only if a condition on the replica setting and the frozen nodes |
| `MetaRuns.CreatedPlacement` | services/meta/data.go:442-486 | at least one shard, fresh ids, min(ReplicaN, available) owners each, none frozen, no node twice |
| `MetaRuns.CreateGroupKeepsInv` | services/meta/data.go:410-495 | creating a group keeps ids unique, live groups disjoint and the rest of the invariant |
| `MetaRuns.CreateGroupInvExact` | services/meta/data.go:455-492 | a group that is created keeps the invariant if and only if its range is within the largest time and no live group starts there |
| `MetaRuns.SecondGroupAtEnd` | services/meta/data.go:462-467 | beyond the largest time the last window can be taken twice: two live groups then contain the same time |
| `ReachedStates.SecondGroupRunExists` | services/meta/data.go:462-467 | a run of three commands after which two live groups contain the largest time |
| `MetaRuns.CreateAddsGroup` | services/meta/data.go:488-492 | exactly the one group is added to the policy and nothing else changes |
| `MetaRuns.LiveGroupsDisjoint` | services/meta/data.go:424-467 | under the invariant live groups of a policy are aligned and no time is in two of them |
| `MetaRuns.GroupIdsDistinct` | services/meta/data.go:458-461 | under the invariant group ids in a policy are distinct |
| `MetaRuns.CreatedCoversExact` | services/meta/data.go:462-467 | a new group contains its timestamp if and only if that is at most the largest time |
| `MetaRuns.CoveredAfterCreate` | services/meta/store.go:804-853 | after a creation the time is covered, with the same condition |
| `MetaRuns.CreateIdempotentExact` | services/meta/store.go:804-853 | creating again changes nothing, the index included, if and only if the time is at most the largest |
| `MetaRuns.PruneKeepsInv` | services/meta/store.go:769-791 | pruning keeps the invariant |
| `MetaRuns.ApplyKeepsInv` | services/meta/store.go:148-206 | every legal command keeps the invariant, and the error that no owner can be found never occurs |
| `GroupOrder.CreateKeepsSorted` | services/meta/data.go:488-492 | a new group is put where the order by end and start wants it |
| `GroupOrder.RunKeepsSorted` | services/meta/data.go:488-492 | after every sequence of any commands the groups of every policy are sorted, as other parts of the system assume |
| `GroupOrder.LiveGroupsApart` | coordinator/points_writer.go:207-225 | under the invariant any two live groups of a policy are the same or disjoint, untruncated and not empty: what the mapping of points relies on |
| `MetaRuns.RunKeepsInv` | services/meta/store.go:148-206 | the invariant holds after every sequence of legal commands with any clocks |
| `AnyRuns.ChangeReshapes` | services/meta/data.go:38-559 | in any metadata every command but creating a group and pruning leaves each group where it is, with its times and shard ids |
| `AnyRuns.CreateAdds` | services/meta/data.go:410-495 | in any metadata a creation adds at most one group, with the next group id, the next shard ids and an owner for each shard |
| `AnyRuns.RunKeepsNumbers` | services/meta/data.go:38-559 | in every run of any commands node, group and shard ids are within their counters and the shard ids of a group differ |
| `AnyRuns.IdsNeverReused` | services/meta/data.go:455-474 | in every run of any commands the node, group and shard ids of a state are at most the counters of every later one, so an id is never handed out twice, even after its holder is gone |
| `OwnedShards.ReownExact` | services/meta/data.go:497-538 | taking an owner away keeps every live shard owned if and only if the first shard with the id is in a deleted group, missing, or has another owner |
| `OwnedShards.ApplyExact` | services/meta/data.go:137-559 | every other command, legal or not, keeps every live shard owned |
| `OwnedShards.RunExact` | services/meta/data.go:137-559 | over a whole run of any commands no live shard is ever without an owner if and only if no command takes a last owner away |
| `ZeroOwner.AddZeroExact` | services/meta/data.go:497-516 | giving a shard to node 0 keeps the invariant if and only if no policy has a shard with that id |
| `ZeroOwner.ZeroStopsReassign` | services/meta/data.go:205-220 | with node 0 among the candidates the reassignment fails if and only if there are more orphans than places below the count of node 0 |
| `ZeroOwner.RemovalFailsExact` | services/meta/data.go:159-221 | for every group and node removal fails if and only if not all shards are orphaned and either node 0 is an owner and the orphans are more than those places, or there is an orphan and no other owner at all |
| `ZeroOwner.DeleteFailsExact` | services/meta/data.go:137-231 | in any metadata deleting a node fails for want of an owner if and only if it is a node and some group is of that kind |
| `ReachedStates.CannotLeaveRunExists` | services/meta/data.go:205-209 | a run of four commands, one of them giving a shard to node 0, after which a node cannot be removed |
| `AnyCommands.ApplyInvExact` | services/meta/store.go:148-206 | any command keeps the invariant if and only if it makes no group on a range that is not free and gives no existing shard to node 0 |
| `AnyCommands.RunInvExact` | services/meta/store.go:148-206 | over a run of any commands the invariant holds throughout if and only if every command was of that kind |
| `ReachedStates.OrphanRunExists` | services/meta/data.go:518-538 | a run of three commands that leaves a live shard without an owner |
| `ReachedStates.PanicRunExists` | services/meta/data.go:442-478 | a run after which creating a group divides by zero |
| `GroupOrder.RunKeepsShards` | services/meta/data.go:453-474 | in every run of any commands every group has a shard |
| `GroupOrder.AnswersHonest` | services/meta/store.go:793-801 | the groups a reachable state answers with contain the time, are untruncated, have shards, and are the same or disjoint |
| `GroupOrder.CreationsKeep` | services/meta/store.go:804-853 | a group answered during a write is still the answer after the write's later creations |
| `GroupOrder.RequestSeesOneState` | coordinator/points_writer.go:207-225 | a request that asks the store for one group after the other, which may create them, gathers the list that the answers of the one state afterwards give, and those answers are all that mapping relies on |
| `MetaStore.Client.Commit` | services/meta/store.go:1127-1143 | the clone becomes current with the index one higher |
| `MetaStore.Client.CreateDataNode` | services/meta/store.go:148-164 | clone or data, change, commit: the state after is that of the command, and on error the old one; the node returned is the one with the given address |
| `MetaStore.Client.DeleteDataNode` | services/meta/store.go:193-205 | as above for deletion |
| `MetaStore.Client.FreezeDataNode` | services/meta/store.go:864-879 | as above for freezing |
| `MetaStore.Client.UnfreezeDataNode` | services/meta/store.go:882-897 | as above for unfreezing |
| `MetaStore.Client.CreateShardGroup` | services/meta/store.go:804-853 | nothing is committed for a covered time or on error, else the created group; what is returned is the group that covers the time afterwards, if any |
| `MetaStore.Client.ShardGroupByTimestamp` | services/meta/store.go:793-801 | the first live group that covers the time, found exactly when a creation would have nothing to do |
| `MetaStore.Client.ChangeShardOwner` | services/meta/store.go:730-746 | adding and removing an owner always commit |
| `MetaStore.Client.DeleteShardGroup` | services/meta/store.go:900-915 | clone, change and commit: the state after is that of the command of which `CommandEffects.DeleteGroupExact` says what it does |
| `MetaStore.Client.PruneShardGroups` | services/meta/store.go:769-791 | groups deleted before the limit go; nothing is committed when none does |
| `MetaStore.Client.Execute` | raftmeta/apply.go:55-265 | the switch over commands applies each as the value model does |
| `MetaStore.ClockFree` | raftmeta/apply.go:55-265 | only deleting a node or a group depends on the replica's clock |
| `Determinism.ApplyCommutes` | services/meta/data.go:137-559 | applying a command and forgetting the deletion times commute |
| `Determinism.ReplicasStayInAgreement` | services/meta/data.go:137-559 | replicas equal up to non-zero deletion times return the same error and stay so, whatever their clocks |
| `Determinism.AgreeSameChecksum` | raftmeta/apply.go:331-352 | such replicas feed the same value to the checksum |
| `Determinism.ChecksumSees` | raftmeta/apply.go:331-352 | two replicas have the same checksum input if and only if they are equal up to the deletion and truncation stamps of groups |
| `Determinism.AgreeExact` | services/meta/data.go:137-559 | replicas agree if and only if they are equal up to when, but not whether, groups were deleted |
| `Determinism.PruneAgreementExact` | services/meta/store.go:769-791 | two agreeing replicas agree after the same prune, index included, if and only if both call the same groups of every policy expired |
| `Determinism.PruneKeepsAgreement` | services/meta/store.go:769-791 | calling the same groups expired is enough, whatever the ids |
| `ReachedStates.PruneDivergesRun` | services/meta/store.go:769-791 | two runs of the same commands with different clocks that agree until a prune, and whose checksums then differ |
| `ReplicaRuns.StepKeepsInv` | raftmeta/node.go:354-380 | commit, delivery of old or next entries, snapshot, install, restart and both halves of a restore keep the replicas consistent with the log |
| `ReplicaRuns.RunKeepsInv` | raftmeta/node.go:590-626 | the same in every state of every run in which the applied prunes agree with the log |
| `ReplicaRuns.WithoutPrunes` | raftmeta/node.go:590-626 | a run without prunes is such a run |
| `ReplicaRuns.PruneFollowsExact` | services/meta/store.go:769-791 | an applied prune leaves the replica in step with the log if and only if it calls the same groups expired |
| `ReplicaRuns.ReplicaFollowsLog` | raftmeta/node.go:354-380 | the data equal the fold of the log up to the applied index if and only if no restore is under way or the data agree with the snapshot already; a stored snapshot equals the fold up to its index |
| `ReplicaRuns.ReplicasConverge` | raftmeta/node.go:590-626 | two replicas at the same applied index agree |
| `ReplicaRuns.VerifyNeverFails` | raftmeta/apply.go:331-389 | in runs in which the applied prunes agree with the log no replica is ever stopped by a checksum |
| `Checksums.ChecksumExact` | raftmeta/apply.go:331-352 | in every run a replica holds the checksum of its own data at the last checksum entry it applied since it started, under that entry's index, and none if there was none |
| `Checksums.ChecksumOfLog` | raftmeta/apply.go:331-352 | as long as the prunes agree that is the checksum of the log up to the entry |
| `Checksums.StopsExact` | raftmeta/apply.go:360-389 | in every run an event stops a replica if and only if it hands it, as the next entry, a checksum of another node that differs from its own for that index; it then applies nothing, and otherwise the entry |
| `Checksums.SnapshotIsTaken` | raftmeta/apply.go:318-329 | after a snapshot entry the stored snapshot is at least as new, equals the log up to its index, and is the replica's own data under the entry's index unless a later one was installed |
| `Checksums.SnapshotStays` | raftmeta/node.go:354-380 | nothing but a snapshot entry or an install changes the stored snapshot, restarts included |
| `Checksums.CheckSeparates` | raftmeta/apply.go:331-389 | for all commands and any two clocks a run in which both replicas apply them and take a checksum, and the one that is sent the other's is stopped if and only if their checksums differ |
| `ReachedStates.DivergedIsStopped` | raftmeta/apply.go:360-389 | a run in which a replica that diverged through a prune is stopped |
| `ReplicaRuns.RestoreGap` | raftmeta/node.go:354-380 | a run in which the applied index is ahead of the data |
| `RaftNode.RaftNode.RestoreBegin` | raftmeta/node.go:354-380 | the applied index jumps to the snapshot's before the data do |
| `RaftNode.RaftNode.RestoreEnd` | raftmeta/node.go:354-380 | the data become the snapshot's |
| `RaftNode.RaftNode.ProcessEntry` | raftmeta/node.go:590-626 | old entries are skipped, the next is applied, a gap or a checksum mismatch stops the node as it was |
| `LinearizableRead.StepKeepsInv` | raftmeta/linearizable_read.go:40-142 | every interleaved step of readers, read loop and apply loop keeps the invariant on notifiers, indices and readers |
| `LinearizableRead.RunKeepsInv` | raftmeta/linearizable_read.go:40-142 | the same in every state of every run |
| `LinearizableRead.SinceIsBegin` | raftmeta/linearizable_read.go:40-57 | what a reader remembers is the commit index when its call began |
| `LinearizableRead.ReadSeesCommitted` | raftmeta/linearizable_read.go:40-57 | a call that returns nil returns when at least that index is applied |
| `LinearizableRead.FiredAtMostOnce` | raftmeta/util.go:8-17 | no notifier's channel is closed twice and its error never changes |
| `LinearizableRead.NoLostWakeUp` | raftmeta/linearizable_read.go:59-142 | until stop, a waiting reader's notifier is current with a token pending or taken, or is being served, or has fired |
| `LinearizableRead.NoLostTrigger` | raftmeta/node.go:327-342 | a registered wait is triggered as soon as its index is applied, up to the step in between |
| `LinearizableRead.SuccessfulReadExists` | raftmeta/linearizable_read.go:40-142 | for every index a run in which a call finds everything applied, is served and returns nil |
| `ReadRounds.FiredExact` | raftmeta/linearizable_read.go:59-142 | in every run a notifier is fired by the events that end its round and no others; with success if and only if the request of the round was answered, and then what was answered is applied; with an error if and only if the request failed or was given up |
| `ReadRounds.WakeExact` | raftmeta/linearizable_read.go:40-57 | in every run a call that is woken returns nil if and only if the request for its notifier was answered |
| `ReadRounds.RoundsAreAskedFor` | raftmeta/linearizable_read.go:45-70 | in every run there are no more rounds than calls that asked for one |
| `ReadRounds.RequestsAreNumbered` | raftmeta/linearizable_read.go:78-96 | in every run requests, failed ones included, are numbered one after the other |
| `ReadRounds.WaitingReadExists` | raftmeta/linearizable_read.go:132-140 | for every index a run in which a call finds the apply behind, registers, waits for it and returns nil |
| `ReadData.RunKeepsTied` | raftmeta/node.go:327-342 | in every joint run of readers and replicas the read protocol's applied index is the replica's and its commit index is the length of the log |
| `ReadData.ReadsRun` | raftmeta/linearizable_read.go:40-142 | without the replicas a joint run is a run of the read protocol |
| `ReadData.ReadSeesLog` | raftmeta/linearizable_read.go:40-57 | in every joint run, when a call returns nil the replica has applied at least the log of its beginning, and its data are the fold of the log up to there if and only if no restore is under way or it had the snapshot's data already |
| `ReadData.ReadDuringRestore` | raftmeta/node.go:354-380 | one joint run in which a call begins with two entries committed and returns nil on data that have neither |
| `Planner.GetOwners` | coordinator/cluster_planning.go:22-34 | the owners that are not blacklisted, in order |
| `Planner.Choose` | coordinator/cluster_planning.go:48-70 | a node is found exactly when the shard is local or has an allowed owner; local first, then its first owner in use |
| `Planner.PlanNodes` | coordinator/cluster_planning.go:39-73 | the plan is an exact partition of the plannable shards; local shards stay, others go to their first allowed owner in use, and a new node is opened only when there is none |
| `Planner.PlanPreference` | coordinator/cluster_planning.go:48-70 | each shard of a plan goes to the local node if that owns it, else to the first of its allowed owners in use before it, and to another allowed owner only if none is in use |
| `Planner.PlannableOfBag` | coordinator/cluster_planning.go:39-73 | which shards are planned does not depend on the shuffle |
| `Planner.Schedule` | coordinator/cluster_planning.go:140-145 | the entries of the map, each once, in some order |
| `Planner.EnumerationBag` | coordinator/cluster_planning.go:140-145 | whatever that order, the plans together hold every assigned shard exactly as often as it was assigned |
| `QueryRetry.ExecutePlans` | coordinator/cluster_planning.go:155-173 | values, plans to retry and the error are those of one call per plan, in order |
| `QueryRetry.RoundConserves` | coordinator/cluster_planning.go:155-173 | the shards of a round are those settled plus those handed back |
| `QueryRetry.Replan` | coordinator/cluster_planning.go:130-149 | the new plans go to owners that did not refuse, and what is not planned again has only owners that refused |
| `QueryRetry.ExecutePlanWithRetry` | coordinator/cluster_planning.go:114-153 | for every query function, at most one round more than there are owners; the result comes from a trace of calls in which the shards asked for are those settled plus those given up, later calls go to owners only, and never to a node that refused |
| `QueryRetry.OnceEach` | coordinator/cluster_planning.go:114-153 | no shard is sent twice to one node or settled twice |
| `QueryRetry.LostExact` | coordinator/cluster_planning.go:114-153 | a shard is given up if and only if every call that carried it was refused, and then every owner refused |
| `QueryRetry.ValuesAre` | coordinator/cluster_planning.go:155-173 | the values of a trace are those that calls answered, each as often as it was |
| `QueryRetry.AnswerIsReturned` | coordinator/cluster_planning.go:114-173 | a shard that is not given up is carried by exactly one call that was not refused; every value answered is in the result, and there is an error if and only if some call failed |
| `QueryRetry.LossExact` | coordinator/cluster_planning.go:114-153 | with a given set of nodes refusing, a shard is given up, as often as it was asked for, if and only if the planned node and all its owners are among them; no error unless a call fails otherwise, and no answer when all shards are out of reach |
| `EndlessRetry.ZeroOwnerIsAskedAgain` | coordinator/cluster_planning.go:114-153 | in every round of every run of the loop a shard with owner 0 is carried by a refused plan, from the second round on at node 0, if node 0 and the planned node refuse |
| `EndlessRetry.LoopNeedNotEnd` | coordinator/cluster_planning.go:114-153 | for every number of rounds a run of the loop that has not ended by then |
| `EndlessRetry.BoundedExact` | coordinator/cluster_planning.go:114-153 | every run of the loop has at most two rounds more than there are owners if and only if not the planned node and node 0 refuse and node 0 owns a shard of the plan |
| `QueryRetry.ExecuteWithRetry` | coordinator/cluster_planning.go:85-107 | one finished trace for every node of the plan explains values and error; an error exactly when some branch had one |
| `QueryRetry.QueryConserves` | coordinator/cluster_planning.go:39-153 | over a whole query, planned and executed in any order, settled plus given up are exactly the plannable shards |
| `QueryRetry.QueryLossExact` | coordinator/cluster_planning.go:39-153 | over a whole query with a given set of nodes refusing, a shard is missing, as often as it was asked for, if and only if it has owners and all of them are in the set, however it is planned; no error unless a call fails otherwise |
| `PointMapping.Search` | coordinator/points_writer.go:264-266 | the loop gets where binary search gets, for any list |
| `PointMapping.SearchDecides` | coordinator/points_writer.go:264-272 | over consistent groups the position the search stops at decides what a scan of the list finds |
| `PointMapping.ShardGroupAt` | coordinator/points_writer.go:264-272 | in any list what is found is in it and contains the time; over consistent groups it is what a linear scan finds |
| `PointMapping.Covers` | coordinator/points_writer.go:248-253 | in any list true exactly when the lookup finds something; over consistent groups exactly when some group contains the time |
| `PointMapping.Append` | coordinator/points_writer.go:275-279 | one more group, the list sorted; consistent if the groups are |
| `PointMapping.MissedExact` | coordinator/points_writer.go:264-272 | in any list sorted by end a lookup misses a group that contains the time if and only if an earlier group that begins later hides it |
| `PointMapping.DroppedExact` | coordinator/points_writer.go:192-242 | for answers that contain their times, a point not older than the limit is dropped if and only if a listed group hides the one that contains it |
| `PointMapping.HiddenPointDropped` | coordinator/points_writer.go:264-272 | groups 10 to 20 and 0 to 30 and a request with times 15, 25 and 5: the last point is dropped |
| `PointMapping.ShardMapping.constructor` | coordinator/points_writer.go:101-107 | an empty mapping |
| `PointMapping.ShardMapping.MapPoint` | coordinator/points_writer.go:110-116 | the point goes to the end of its shard's list and no list loses a point, although a slice of too small a capacity is replaced by an empty one |
| `PointMapping.GroupsFor` | coordinator/points_writer.go:207-225 | the loop gathers the list of the specification or fails with it; with metadata as it should be every point not older than the limit is in a listed group |
| `PointMapping.MapShards` | coordinator/points_writer.go:192-242 | for any metadata whose groups have shards: each shard's list is its points in request order, the others are dropped, and the shard kept for an id is one a point was routed to; with answers that contain their times a recent point is dropped if and only if a listed group hides its own; with consistent groups all dropped points are older than the limit |
| `PointMapping.EachPointOnce` | coordinator/points_writer.go:227-240 | every occurrence of a point is in exactly one shard's list or in the dropped ones |
| `PointMapping.ShardForExact` | coordinator/points_writer.go:238-239 | every shard of a group gets the hashes whose remainder is its position |
| `PointMapping.GatheredOnce` | coordinator/points_writer.go:207-225 | with metadata as it should be no group is asked for twice |
| `ShardWrites.WriteOwner` | coordinator/points_writer.go:386-432 | an owner counts exactly when it stored the points, or for ANY when the handoff queue took them; the calls made show it: a missing shard is created once and written again, and exactly errors that can be retried are queued |
| `ShardWrites.Collect` | coordinator/points_writer.go:434-479 | the loop's result is determined by how many of the results seen are acknowledgements; without any, the error passed on is that of the first owner to answer |
| `ShardWrites.OrderIrrelevant` | coordinator/points_writer.go:434-479 | without timeout or closing the outcome is the same for every order of arrival |
| `ShardWrites.WriteToShard` | coordinator/points_writer.go:369-480 | owners' runs and collection together |
| `ShardWrites.OutcomeExact` | coordinator/points_writer.go:369-480 | every outcome as an if and only if on the owners that hold the points and on whose results were awaited: written when these are all owners at ALL, more than half at QUORUM, at least one at ONE and ANY |
| `ShardWrites.WrittenMeans` | coordinator/points_writer.go:369-480 | success means that every owner, more than half of them, or some owner holds the points, as the level says |
| `ShardWrites.FullWaitExact` | coordinator/points_writer.go:369-480 | with every result awaited, success if and only if all, more than half, or some of the owners hold them, failure if and only if none does |
| `ShardWrites.QuorumsMeet` | coordinator/points_writer.go:369-380 | two successful quorum writes to the same owners share an owner that stored both |
| `ShardWrites.SingleAcksCanMiss` | coordinator/points_writer.go:369-380 | at ONE and ANY two successful writes can be on different owners |
| `ShardWrites.Gather` | coordinator/points_writer.go:338-365 | the first shard error wins over a later timeout; accepted if and only if every shard was written in time and nothing was dropped |
| `ShardWrites.AcceptedIsHeld` | coordinator/points_writer.go:293-366 | when nothing was dropped and every shard of the mapping was written, every point is with all, more than half, or some of the owners of the shard it was mapped to, as the level says |
| `ShardWrites.WritePoints` | coordinator/points_writer.go:293-366 | mapping, writing and gathering together: accepted if and only if nothing was dropped and every shard was written in time, and then every point is with as many owners of its shard as the level says |
| `PoolSweep.BoundedPool.constructor` | x/pool.go:82-111 | the initial connections are idle and counted |
| `PoolSweep.NewBoundedPool` | x/pool.go:82-111 | a pool if and only if the capacities make sense and every initial dial succeeds |
| `PoolSweep.BoundedPool.Get` | x/pool.go:158-217 | without interference: the oldest idle connection, else a new one exactly while fewer than the capacity are lent |
| `PoolSweep.BoundedPool.Put` | x/pool.go:221-246 | without interference a returned connection always finds room at the back |
| `PoolSweep.BoundedPool.MarkUnusable` | x/pool.go:357-365 | a lent connection leaves the count |
| `PoolSweep.BoundedPool.CheckOnce` | x/pool.go:113-136 | closes the expired front while more than the initial number are counted, and moves the first one kept to the back |
| `PoolSweep.ClosedIsCount` | x/pool.go:113-136 | in order of use, a sweep closes as many as are expired, or as many as may go |
| `PoolSweep.SweepLeavesExact` | x/pool.go:113-136 | in any list a sweep leaves an expired connection if and only if one has too many in front of it to go, or a kept one in front of it; in order of use, if and only if more are expired than are counted beyond the initial number |
| `PoolSweep.SweepKeepsOrderExact` | x/pool.go:113-136 | a sweep keeps the order of use if and only if it closes all it looks at, or the first one it keeps was last used together with the newest |
| `PoolSweep.SecondSweepCanMiss` | x/pool.go:113-136 | two sweeps after which an expired connection remains |
| `ConnectionPool.StepKeepsInv` | x/pool.go:113-246 | every atomic step keeps the counter equal to the usable connections plus lost races minus stale marks, and every connection in one place |
| `ConnectionPool.RunKeepsInv` | x/pool.go:113-246 | the same over every run; lost races are never taken back |
| `ConnectionPool.PoolBound` | x/pool.go:158-217 | in every interleaving from a new pool the usable connections, dialled ones included, are within the capacity plus the stale marks |
| `ConnectionPool.ReturnFindsRoom` | x/pool.go:221-246 | without stale marks a returned connection never finds the channel full |
| `ConnectionPool.CheckerFindsRoom` | x/pool.go:113-136 | nor does one the idle checker puts back |
| `ConnectionPool.ExclusiveUse` | x/pool.go:158-246 | a connection that a client borrowed, returns or drops is with no other client, not with the idle checker, and not idle |
| `ConnectionPool.LostRacesShrink` | x/pool.go:158-217 | without stale marks no run gets beyond the connections there are, or beyond the capacity less the races lost so far |
| `ConnectionPool.LostRaceHasWinner` | x/pool.go:158-217 | an increment is lost only if another client added between the two looks at the counter |
| `ConnectionPool.CheckerKeepsInitial` | x/pool.go:113-136 | left alone the idle checker closes no connection that the initial number needs |
| `ConnectionPool.StaleMarkBreaksBound` | x/pool.go:331-365 | a run with a mark after closing that exceeds the capacity |
| `ConnectionPool.StarvedForever` | x/pool.go:158-217 | with no connection left and the counter at the capacity no run gets one again |
| `ConnectionPool.RecoversExact` | x/pool.go:158-217 | a pool without connections can get one, without a stale mark, if and only if the counter is below the capacity |
| `ConnectionPool.StarvationReachable` | x/pool.go:158-217 | for every capacity a run from a new pool that starves it |

## Left out

- etcd's raft, the write-ahead log, HTTP handlers and transport: a gap-free log with repeated old entries, and read-index answers no older than the request, are what the model takes from raft.
- The data nodes' metadata cache and cluster leases: the code makes no claim about them that holds across nodes.
- RPC bodies, protobuf and JSON, result merging, influxql and tsdb: foreign types; points and values are opaque here.
- Users, privileges, continuous queries, subscriptions, retention-policy edits, `DropShard`, `TruncateShardGroups`, `PrecreateShardGroups`: delegated to code that is not part of this model.
- Shard copying (services/migrate, services/controller): file and network work.
- Torn writes and file-system errors: the segment format makes no claim about them. Locks are not modelled; a method of a class is atomic.
- `SetMaxSegmentSize`, `Remove`, `Position` of the queue, `consumeRest`, `Close` of the pool, timers, rate limits, statistics, logging: would only add easy members.
- HandoffQueue.Queue.Open: a damaged file that can still be opened is excluded; what the queue makes of its bytes later is not stated.
- HandoffQueue.Queue.LoadSegments: the same exclusion.
- HandoffQueue.Queue.Advance: with a wrong cached size, which a queue without empty records never has, the queue after the call is not stated; `SegmentFile.Segment.Advance` says what the file is then.
- HandoffQueue.Queue.PurgeOlderThan: modification times are a parameter, and a file made during the purge is not older than its cutoff.
- HandoffQueue.Queue.NextSegmentID: the range check of `ParseUint` and the wrap-around of ids at 2^64 are not modelled; ids and counters are unbounded everywhere.
- HandoffRuns.DeliveredIsPrefixOfAccepted: the order is claimed for runs that reopen only where the ids have as many digits; `ReloadOrderExact` says why, and `RunConserves` what holds otherwise.
- HandoffRuns.RunKeepsInv: the same runs.
- IteratorReader.ReadPayload: the terminator must occur only at the end of the stream, because a match is looked for only where a read ends; the repository's unit test drops bytes that come together with end of file, the code returns them, and so does the loop here.
- MetaRuns.RunKeepsInv: legal commands only; `AnyCommands.RunInvExact` is the exact statement over all commands. Starts without meta nodes, which the meta store never adds; with some, `CreateDataNode` could hand out an id twice. Databases and policies are one list, and groups are untruncated.
- MetaRuns.ApplyKeepsInv: the same commands; `AnyCommands.ApplyInvExact` covers all.
- MetaRuns.ReownKeepsInv: owner id 0 is left to `ZeroOwner.AddZeroExact`.
- MetaRuns.CreateGroupKeepsInv: times beyond the largest are left to `CreateGroupInvExact`.
- MetaData.Data.DeleteDataNode: the half-changed data on the error that no owner can be found are not stated; `DeleteDataNodeSafe` proves that it does not occur, and the store throws them away.
- MetaData.Data.CreateShardGroup: `sort.Sort` is an insertion sort here, so groups of equal range keep their order.
- ReplicaRuns.VerifyNeverFails: runs whose prunes agree with the log, without which it is false (`ReachedStates.PruneDivergesRun`); the checksum is the value fed to it.
- ReadData.ReadSeesLog: one life of the process that serves the reader, since sequence numbers and waits do not outlive it, and a snapshot is not restored over a later applied index.
- RaftNode.RaftNode.ProcessEntry: answering the waiting proposal is not modelled.
- LinearizableRead.ReadSeesCommitted: channels and the endless loop are steps of a state machine instead of code updating fields; sequence numbers do not wrap around and do not outlive the process.
- QueryRetry.ExecutePlanWithRetry: no owner has id 0, for which the loop need not end (`EndlessRetry.BoundedExact`); `MetaRuns` proves that no node gets that id.
- QueryRetry.Replan: the same.
- QueryRetry.ExecuteWithRetry: no owner has id 0, as above; the goroutines of the branches share nothing but the result, so they run in some order.
- PointMapping.MapShards: a group without shards, for which choosing one divides by zero, is excluded; `GroupOrder.RunKeepsShards` proves that there is none.
- ConnectionPool.StepKeepsInv: atomics, channel and mutex-guarded flags are steps of a state machine instead of code updating fields, because the property is about interleaving.
