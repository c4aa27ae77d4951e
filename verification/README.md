# A verified model of Holocron

Holocron is a partitioned log broker with consumer groups and a stream-processing library. This
project models its hard parts in Dafny and proves what they promise. Files, locks, channels and
goroutines become plain state and atomic steps; a file is a sequence of bytes; every clock reading
is a parameter.

The project has five parts.

1. **The partition log** (`Bytes`, `Records`, `Codec`, `Wire`, `LogSpec`, `SegmentSpec`, `Segments`,
   `PartitionSpec`, `Directories`, `PartitionRuns`, `Compaction`, `Partitions`, `StoreSpec`,
   `Storage`, `Replay`, `Offsets`, and `CrashFold`, `CrashUnaligned`, `CrashRecovery`,
   `CrashExamples`). Records are framed, indexed, split over segments, recovered, retained and compacted. The simple thing all of it must agree
   with is one list of records with increasing offsets and the table of last values folded from it
   (`LogSpec`).
2. **Publish and subscribe** (`Subscription`, `Dedup`, `DedupRuns`). Every interleaving of
   publishers with one subscriber's pump, and idempotent produce across restarts.
3. **Consumer groups** (`Lexical`, `Assign`, `Sticky`, `Groups`, `Managers`). Three assignment
   algorithms, and a membership and generation state machine with long-poll watchers.
4. **Stream joins and windows** (`JoinSpec`, `JoinRuns`, `JoinPending`, `Joins`, `WindowSpec`,
   `WindowRuns`, `Windows`, `Sessions`).
5. **Follower catch-up** (`Cluster`).

`Seqs` and `Wrappers` hold facts and types that have nothing to do with Holocron.

Code that updates state in place is a class or a method with loops whose `ensures` equates the new
state with a specification function; the theorems are lemmas about those functions, over all runs.

## Main results

- Compaction keeps the table of last values, offsets, order and high water, and is idempotent
  (`PartitionRuns.CompactKeepsMeaning`, `PartitionRuns.CompactTwice`); a replay after any run of
  commits, deletions and compactions rebuilds the live offsets (`Offsets.ReplayRebuildsLiveMap`).
- An indexed read over many segments is the naive read of one list (`PartitionSpec.PartitionReadIsNaive`,
  `SegmentSpec.SegmentReadIsNaive`); recovery of a torn file keeps exactly the whole frames and
  rebuilds the same index (`SegmentSpec.TornTailRecovers`); a directory opens if and only if every
  file but the last ends with a whole frame and no file is malformed (`Partitions.PartitionLog.Open`).
- Over every run segments stay ordered and no offset is given twice (`PartitionRuns.RunInvariant`), and
  the file store answers like the memory store (`StoreSpec.FileRefinesMemory`).
- Compaction crash recovery, for readers of every batch size: safe at every crash point when aligned;
  otherwise, for every crash point, exactly when the partition opens and exactly when it replays to
  the old table (`CrashRecovery.AlignedCrashIsSafe`, `CrashRecovery.UnalignedCrashIff`).
- Subscribers see a contiguous slice of the log under every interleaving (`Subscription.ExactlyOnce`);
  producers' sequences strictly increase along every log, across restarts (`DedupRuns.NoDuplicates`).
- All three assignments are balanced exact covers; the sticky one keeps what it can and is a fixpoint
  (`Assign.AssignCovers`, `Sticky.StickyCovers`, `Sticky.StickyKeeps`, `Sticky.StickyFixpoint`).
- Group runs: exclusive ownership per generation, cover whenever clean, no lost wake-up
  (`Groups.ExclusiveOwnership`, `Groups.AlwaysCovered`, `Groups.NoLostWakeUp`).
- Joins: every pair exactly once despite pruning, and exactly what an outer join emits alone and when
  (`JoinRuns.InnerJoinIsExact`, `JoinPending.OuterJoinEmits`).
- Windows conserve counts (`WindowRuns.WindowsConserve`); sessions are the maximal runs
  (`Sessions.SessionsAreMaximalRuns`).
- Follower catch-up converges to the replicated log (`Cluster.CatchUpConverges`).
- Every codec round-trips; the disk's and the wire's own encoders and decoders write the same frames
  and read them alike (`Codec.BodyParsesIff`, `Codec.EncodeRecord`, `Codec.EncodeFramedRecord`,
  `Codec.DiskAndWireReadersAgree`, `Wire.BatchRoundTrip`, `Wire.FetchRoundTrip`).

## What the code does not promise

Some statements one would expect are false of the code. Each is shown to fail, and the exact
condition under which it holds is proved.

- `broker/internal/log/compact.go:192-203` promises that recovery after a crash restores a
  consistent log. It does when the new base is the base of a sealed segment, at every crash point
  (`CrashRecovery.AlignedCrashIsSafe`). Otherwise the placeholder is renamed between older segments
  and becomes a sealed segment. If it ends inside a frame, the tail cannot be cut off a file opened
  read-only and the partition does not open (`CrashExamples.TornPlaceholderRefuses`). If it opens, a
  replay can skip a tombstone, so that a deleted key comes back, depending on where its batches end
  (`CrashExamples.UnalignedCrashResurrects`, `CrashExamples.BatchEndResurrects`), or skip a live
  record that the placeholder does not have yet (`CrashExamples.EmptyPlaceholderLoses`).
  `CrashRecovery.UnalignedCrashIff` says exactly when.
- `FileStore.Append` reads the high water and appends in two steps. Two callers that both read first
  are given the same offset (`StoreSpec.RacingAppends`).
- `SyncPartitionFromPeer` returns a nil error also when the stream closes before the target
  (`Cluster.EarlyCloseIsNil`), after which replication can diverge (`Cluster.EarlyCloseDiverges`). A
  nil error together with a count that makes up for what was missing is exact (`Cluster.SyncCopies`).
- The catch-up loop of a subscription advances by the number of records read. It is exact if and
  only if no offset between the start and the high water is missing (`Subscription.CatchUpIff`); a
  hole in the middle repeats records (`Subscription.HoleRepeats`) and a hole at the end stops the
  subscription (`Subscription.HoleAtEndStops`).
- `broker/internal/log/frame.go:168-182` compares a length with a buffer size truncated to 32 bits
  and computes the end of the field in 32 bits, which panics for the four largest lengths
  (`Codec.BlobParsesIff`, `Codec.LargestBlobsPanic`). The wire reader does the same with a frame's
  body, the disk reader does not (`Codec.DiskAndWireReadersAgree`, `Codec.LargestFramesPanic`).
- A retry is recognised exactly while the producer's checkpoint is not older than the TTL
  (`DedupRuns.RetryIff`), and not after a crash between the append and the checkpoint write
  (`DedupRuns.LostCheckpointDuplicates`).
- Two overlapping offset commits can leave the map and the topic in disagreement
  (`Offsets.RacingCommits`). Names that contain NUL break the offset key (`Offsets.KeySplitsIff`).
- A join by a new member or for a new topic, in a clean group in which nobody expires, leaves a
  clean group without a cover if and only if some topic has no partition count
  (`Groups.StepCovers`, `Groups.FailsCleanIff`, `Groups.FailedJoinLeavesGap`).
- Outer joins identify a pending record by event time and offset, which two partitions can share
  (`JoinPending.SharedIdentityConfuses`, `JoinPending.ConfusedFirstNeverAlone`,
  `Joins.RemovesItselfIff`).
- Window starts are computed with truncating division, so some negative times land in a window that
  does not cover them (`WindowSpec.HoppingStartsIff`, `WindowSpec.TumblingBucketIff`).
- A batch with an unknown codec is encoded and then refused by the decoder (`Wire.BatchRoundTrip`).

Where code and documentation disagree the model follows the code: the comments at
`streams/join.go:123-126` and `streams/join.go:190-196` say that unmatched records are emitted on
arrival, while the code defers them until the watermark closes their window.

## Model

| member | source | states |
|---|---|---|
| Codec.BlobParsesIff | broker/internal/log/frame.go:168-182 | a length-prefixed field followed by any bytes reads back exactly when neither the 32-bit length comparison nor the 32-bit end of the slice wraps, and panics exactly when only the latter does |
| Codec.LargestBlobsPanic | broker/internal/log/frame.go:173-180 | a field of 4 GiB less four bytes is all there and panics |
| Codec.BodyNeverPanics | broker/internal/log/frame.go:113-166 | no body that fits a frame makes a decoder panic |
| Codec.BodySound | broker/internal/log/frame.go:113-166 | whatever the body parser accepts is the encoding of the record it returns, followed by the bytes it reports unread |
| Codec.BodyParsesIff | broker/internal/log/frame.go:113-166 | below 4 GiB a body parses to a record exactly when it starts with that record's encoding; nothing else is accepted |
| Codec.FrameReads | broker/internal/log/frame.go:72-111 | a frame followed by any bytes reads back as its record (empty value as nil) and its exact length |
| Codec.CutFrameIsTorn | broker/internal/log/frame.go:72-111 | every non-empty strict prefix of a frame reads as an unexpected end of file |
| Codec.EncodeRecord | broker/internal/log/frame.go:41-61 | the disk encoder, field by field with its header loop and its placeholder patching, appends exactly the frame |
| Codec.AppendBytes | broker/internal/log/frame.go:63-66 | appends the length-prefixed field |
| Codec.EncodeFramedRecord | proto/wire.go:629-637 | the wire framer appends the same bytes as the disk encoder for every record |
| Codec.EncodeWireRecord | proto/wire.go:1728-1739 | the wire record encoder appends exactly the record body |
| Codec.DecodeHeaders | broker/internal/log/frame.go:141-165 | the disk decoder's header loop computes the recursive header parser |
| Codec.DecodeBody | broker/internal/log/frame.go:113-166 | the disk body decoder, a cursor moving field by field, computes the body parser with all its failures |
| Codec.ReadBytes | broker/internal/log/frame.go:168-182 | the disk field reader, like the wire's decodeBytes, computes the field parser and the width consumed, 32-bit sums included |
| Codec.ReadRecordFrom | broker/internal/log/frame.go:72-111 | reading length, body and checksum in turn computes the frame reader, which tells a clean end from a short, a corrupt and a malformed frame |
| Codec.DecodeString | proto/wire.go:1714-1723 | the wire's string reader, which slices empty strings too, computes the same field parser |
| Codec.DecodeWireHeaders | proto/wire.go:1767-1784 | the wire decoder's header loop computes the recursive header parser |
| Codec.DecodeWireRecord | proto/wire.go:1741-1793 | the wire record decoder, with its own cursor, returns the body parser's record and the exact number of bytes consumed, and one error for every failure |
| Codec.DecodeFramedRecord | proto/wire.go:641-660 | the wire frame decoder computes the framed parser, the 32-bit end of the body included |
| Codec.DiskAndWireReadersAgree | proto/wire.go:641-660 | the wire reader accepts exactly the frames the disk reader accepts, with the same record and length, except the four largest bodies, at which it panics |
| Codec.LargestFramesPanic | proto/wire.go:646-650 | a record that fits the log and reads back from disk, and at whose frame the wire reader panics |
| Bytes.I64RoundTrip | proto/wire.go:1741-1793 | two's-complement 64-bit integers survive the unsigned big-endian round trip |
| Records.NormEncodes | broker/internal/log/frame.go:168-182 | a record and its normal form (empty value read as nil) have the same encoding |
| Wire.BatchEncode | proto/wire.go:401-429 | the batch encoder, with the codec byte overwritten on the incompressible fallback, produces the batch encoding |
| Wire.BatchRoundTrip | proto/wire.go:431-478 | a batch decodes to itself through both codecs and the fallback; a codec the decoder does not know is refused |
| Wire.RecordsParse | proto/wire.go:431-478 | a list of encoded records parses back to the list, normalised |
| Wire.FetchPayloadEncode | proto/wire.go:564-570 | the fetch payload loop produces the count and the framed records |
| Wire.FetchRoundTrip | proto/wire.go:591-623 | a fetch response decodes to its records through both codecs and the fallback |
| Wire.I32RoundTrip | proto/wire.go:431-478 | partition numbers survive the unsigned 32-bit round trip |
| SegmentSpec.LookupIsFloor | broker/internal/log/index.go:49-60 | the lookup returns the position of the last entry at or below the offset, or zero |
| SegmentSpec.LookupLoop | broker/internal/log/index.go:49-60 | the binary search computes the lookup |
| SegmentSpec.IndexPoints | broker/internal/log/segment.go:203-219 | every index entry the append path adds points at the frame of its record |
| SegmentSpec.SegmentReadIsNaive | broker/internal/log/segment.go:223-259 | an indexed read of a segment is the first max records at or after the offset, for logs with gaps too |
| SegmentSpec.TornTailScan | broker/internal/log/segment.go:162-198 | a scan of whole frames followed by a cut one stops exactly after the whole ones |
| SegmentSpec.TornTailRecovers | broker/internal/log/segment.go:162-198 | recovery of records followed by any strict prefix of a frame keeps exactly the records and rebuilds the index that appending them builds |
| SegmentSpec.IndexSizeIsFileSize | broker/internal/log/segment.go:203-219 | the size the index bookkeeping counts is the length of the file |
| Segments.Segment.Create | broker/internal/log/segment.go:97-121 | a new segment is valid and empty |
| Segments.Segment.Reopen | broker/internal/log/segment.go:129-158 | a reopened segment starts with the file and nothing else known |
| Segments.Segment.Recover | broker/internal/log/segment.go:162-198 | the replay loop succeeds exactly when no frame is malformed and, on a sealed segment, the file ends at a frame boundary; it then truncates the file to the scanned frames and sets records, high water, index and byte counters to what the scan found |
| Segments.Segment.Append | broker/internal/log/segment.go:203-219 | append adds one frame and one record, keeps the segment valid, and refuses a sealed segment |
| Segments.Segment.ReadFrom | broker/internal/log/segment.go:223-259 | the seek and scan loop computes the indexed read, hence the naive read |
| Segments.Segment.Seal | broker/internal/log/segment.go:294-306 | sealing changes nothing but the flag |
| PartitionSpec.PartitionReadIsNaive | broker/internal/log/partition.go:216-241 | a read across segments is the first max records at or after the offset in the concatenation of all segments |
| PartitionSpec.StartPartUnique | broker/internal/log/partition.go:216-241 | the segment a read starts in is the only one that can hold the offset |
| Directories.HeldOpens | broker/internal/log/partition.go:40-77 | a directory whose files hold parts, the last one possibly with a torn tail, opens to exactly those parts |
| Directories.ReopenFinds | broker/internal/log/partition.go:40-77 | the files of an ordered log, whatever part of one frame was left unfinished at the end, open to the log |
| PartitionRuns.AppendKeepsOrder | broker/internal/log/partition.go:195-212 | an append, rolling over or not, keeps segments ordered and disjoint and adds exactly the normalised record |
| PartitionRuns.TimeDropExact | broker/internal/log/partition.go:282-310 | time retention drops exactly the longest run of leading sealed segments whose last record is too old |
| PartitionRuns.SizeDropExact | broker/internal/log/partition.go:316-346 | size retention drops the fewest leading segments that bring the partition under its cap, never the active one |
| PartitionRuns.DropKeepsOrder | broker/internal/log/partition.go:282-346 | dropping leading segments keeps order and high water and removes a prefix of the records |
| PartitionRuns.CompactKeepsMeaning | broker/internal/log/compact.go:68-180 | compaction keeps order, high water, the active segment and the last-value-wins table of the whole log |
| PartitionRuns.CompactTwice | broker/internal/log/compact.go:68-180 | a second compaction changes nothing |
| PartitionRuns.RunInvariant | broker/internal/log/partition.go:195-361 | over every run of appends, retention, compaction and reopens from the files, torn tails included, segments stay ordered, the high water never decreases and the offsets handed out are consecutive |
| Partitions.OpenSegments | broker/internal/log/partition.go:40-77 | opening succeeds exactly when every file recovers, all but the last read-only; the segments hold what the scans found, and are valid when the files hold the parts of a log |
| Partitions.PartitionLog.constructor | broker/internal/log/partition.go:40-77 | an empty directory opens as a log with one empty segment at offset zero |
| Partitions.PartitionLog.Open | broker/internal/log/partition.go:40-77 | a directory opens exactly when every file recovers, and then as the log its files hold |
| Partitions.PartitionLog.ReopenFindsParts | broker/internal/log/partition.go:40-77 | the files of a valid log object hold its parts, so opening them finds the log again |
| Partitions.PartitionLog.HighWater | broker/internal/log/partition.go:80-87 | returns the active segment's high water |
| Partitions.PartitionLog.Append | broker/internal/log/partition.go:195-212 | the segment list becomes the spec's append, rollover included |
| Partitions.PartitionLog.Roll | broker/internal/log/partition.go:350-361 | rollover seals the active segment and opens an empty one at the next offset |
| Partitions.PartitionLog.Read | broker/internal/log/partition.go:216-241 | the segment loop returns the naive read of the whole log |
| Partitions.PartitionLog.Compact | broker/internal/log/compact.go:68-180 | the segment list becomes the compacted one |
| Partitions.PartitionLog.StreamSealed | broker/internal/log/compact.go:18-36 | streaming the sealed segments in batches visits exactly their records in order |
| Partitions.PartitionLog.EnforceTimeRetention | broker/internal/log/partition.go:282-310 | the loop deletes exactly as many segments as time retention asks for |
| Partitions.PartitionLog.EnforceSizeRetention | broker/internal/log/partition.go:316-346 | the loop deletes exactly as many segments as size retention asks for |
| Compaction.StreamSegment | broker/internal/log/compact.go:18-36 | one segment read in batches of 256 is visited completely and in order |
| Compaction.LatestOffsets | broker/internal/log/compact.go:78-91 | pass 1 computes the offset of the last value of every live key |
| Compaction.LowestOffset | broker/internal/log/compact.go:105-113 | the new base is the lowest offset retained |
| Compaction.WriteCompacted | broker/internal/log/compact.go:115-148 | pass 2 writes exactly the retained records, at their own offsets and in order |
| LogSpec.FoldIsTable | broker/internal/log/compact.go:38-67 | every entry of the fold is a record of the log under its own non-empty key, with a value |
| LogSpec.FoldIsLast | broker/internal/log/compact.go:38-67 | a key is in the fold if and only if its last record has a value, and its entry is that record |
| LogSpec.CompactionPreservesFold | broker/internal/log/compact.go:68-180 | the retained records fold to the same table, in increasing offset order |
| LogSpec.CompactedIsExact | broker/internal/log/compact.go:68-180 | a record is retained exactly when it is the table's record for its key; keys are distinct |
| LogSpec.CompactionIsIdempotent | broker/internal/log/compact.go:68-180 | compacting the retained records retains all of them |
| Replay.ReplayOrdered | broker/internal/groups/topic_offsets.go:68-91 | replaying an ordered log in batches sees each record from the cursor on once and in order |
| CrashRecovery.RecoverCompactingSegments | broker/internal/log/compact.go:204-231 | both file kinds: a leftover is renamed unless the canonical file exists, otherwise deleted |
| CrashRecovery.RecoveredListing | broker/internal/log/compact.go:204-231 | what discovery lists after recovery: the old files with the placeholder inserted exactly when no file has its base |
| CrashRecovery.CutFileHolds | broker/internal/log/segment.go:162-198 | any prefix of a file of frames holds the records of its whole frames when opened for writing, and recovers read-only if and only if it ends with one of them |
| CrashRecovery.AlignedCrashIsSafe | broker/internal/log/compact.go:118-176 | when the new base is a sealed segment's base, recovery from a crash at any point opens and replays to the same table as before, for every batch size |
| CrashRecovery.BaseFallsInside | broker/internal/log/compact.go:105-116 | the new base lies in some sealed segment, at its base or strictly inside, so the aligned and the unaligned result cover every compaction that keeps something |
| CrashRecovery.UnalignedCrash | broker/internal/log/compact.go:204-231 | after an unaligned crash the partition opens if and only if the placeholder ends with a whole frame, and then as the old segments with the retained records written so far in between, or in front once the segment below is gone |
| CrashRecovery.UnalignedCrashIff | broker/internal/log/compact.go:192-231 | from an unaligned crash at any point to the table, for every batch size: exactly when the partition opens, and exactly when its replay rebuilds the old table |
| CrashFold.OverlapFold | broker/internal/log/compact.go:118-176 | the complete placeholder in front of any suffix of the old segments replays to the same table |
| CrashFold.DroppedPrefixIsDead | broker/internal/log/segment.go:350-378 | while all retained records lie in the segments that are left, the removed ones held nothing that matters |
| CrashRecovery.SuffixIsSafe | broker/internal/log/compact.go:93-103 | with the retained records all in the segments left, or nothing retained at all, any suffix of the old segments replays to the same table |
| CrashFold.LeaveBounds | broker/internal/log/partition.go:216-241 | a batched replay leaves a run of segments either read to its end or at a batch end at or above the next base, never before and never past the end |
| CrashFold.ReplayLeaves | broker/internal/log/partition.go:216-241 | a batched replay of a list that begins with a run of segments is the run's records up to where it leaves the run and then what follows from there |
| CrashFold.OverlapReplay | broker/internal/log/partition.go:216-241 | with a first segment that overlaps the ordered rest the replay is its records up to where it is left and the rest's from there on |
| CrashUnaligned.InterleavedReplay | broker/internal/log/partition.go:216-241 | what a replay of the interleaved list sees and what it skips, for every batch size |
| CrashUnaligned.UnalignedRecoveryIff | broker/internal/log/compact.go:192-231 | a replay of the recovered log in batches of any size folds to the old table if and only if no key live where the replay leaves the interrupted segment is dead where it is back in the old ones and unmentioned after, and no retained record in between is missing from the placeholder and unmentioned after |
| CrashUnaligned.ResurrectedComesBack | broker/internal/log/compact.go:192-231 | a key the condition names as resurrected is in the replayed table and was not in the old one |
| CrashUnaligned.LostIsGone | broker/internal/log/compact.go:192-231 | a record the condition names as lost was its key's entry in the old table and is not in the replayed one |
| CrashUnaligned.CompleteLosesNothing | broker/internal/log/compact.go:150-176 | once the placeholder is complete no record can be lost |
| CrashExamples.ExampleCompacts | broker/internal/log/compact.go:68-180 | the records and the new base of the counterexamples are what compaction computes |
| CrashExamples.UnalignedCrashResurrects | broker/internal/log/compact.go:192-203 | the unrestricted recovery promise fails: from a valid crash point on disk, through recovery, listing and opening, a replay brings a deleted key back |
| CrashExamples.BatchEndResurrects | broker/internal/log/compact.go:192-203 | the same when a batch ends at the placeholder's base and the tombstone lies further on in the interrupted segment |
| CrashExamples.EmptyPlaceholderLoses | broker/internal/log/compact.go:192-203 | after a crash before the first byte of the placeholder a replay misses a live record |
| CrashExamples.TornPlaceholderRefuses | broker/internal/log/compact.go:192-203 | after a crash inside the placeholder's first frame the partition does not open |
| StoreSpec.FileRefinesMemory | broker/internal/storage/file.go:56-96 | over every run of appends, reads, high-water queries and reopens from the files, torn tails included, the file store answers exactly like the memory store, values normalised |
| StoreSpec.EmptyStoresMatch | broker/internal/storage/file.go:40-53 | two new stores are related, so the result holds from the start |
| StoreSpec.RacingAppends | broker/internal/storage/file.go:64-68 | two appends that both read the high water before either writes store two records with the same offset |
| StoreSpec.GaplessRead | broker/internal/storage/memory.go:53-76 | on a gapless log the naive read is the slice the memory store returns |
| Storage.MemoryStore.Append | broker/internal/storage/memory.go:35-48 | assigns the next offset, stamps a zero timestamp and appends |
| Storage.MemoryStore.Read | broker/internal/storage/memory.go:53-76 | returns the slice, refuses negative offsets, answers nothing for a missing partition |
| Storage.MemoryStore.HighWater | broker/internal/storage/memory.go:80-91 | returns the number of records, zero for a missing partition |
| Storage.FileAppend | broker/internal/storage/file.go:56-69 | assigns the log's high water, stamps the clock and appends to the segments |
| Storage.FileReadFrom | broker/internal/storage/file.go:72-84 | refuses negative offsets and otherwise reads the log naively |
| Offsets.SplitNulLoop | broker/internal/groups/offsets.go:248-259 | the loop splits at every NUL |
| Offsets.KeySplitsIff | broker/internal/groups/offsets.go:230-246 | a joined key splits back into its three parts exactly when group and topic contain no NUL |
| Offsets.KeyRoundTrip | broker/internal/groups/offsets.go:230-246 | group, topic and partition survive the key round trip when the names contain no NUL |
| Offsets.ReplayRebuildsLiveMap | broker/internal/groups/topic_offsets.go:68-151 | after any run of commits and group deletions with compactions interleaved, replay rebuilds exactly the live map |
| Offsets.OffsetStepInSync | broker/internal/groups/topic_offsets.go:95-151 | every operation keeps the live map equal to the topic's last values |
| Offsets.FreshStoreInSync | broker/internal/groups/topic_offsets.go:68-91 | a new topic and an empty map agree |
| Offsets.RacingCommits | broker/internal/groups/topic_offsets.go:95-105 | two overlapping commits of one key leave map and topic in agreement exactly when they commit the same offset |
| Offsets.DeleteGroupIsExact | broker/internal/groups/offsets.go:207-246 | deleting a group selects exactly its own keys when names contain no NUL |
| Offsets.TopicOffsetStore.Replay | broker/internal/groups/topic_offsets.go:68-91 | the batched loop fills the map with the replay of the whole topic |
| Offsets.TopicOffsetStore.Commit | broker/internal/groups/topic_offsets.go:95-105 | appends the encoded offset and updates the map |
| Offsets.TopicOffsetStore.Lookup | broker/internal/groups/topic_offsets.go:109-116 | returns the stored offset or the no-offset marker |
| Offsets.TopicOffsetStore.DeleteGroup | broker/internal/groups/topic_offsets.go:130-151 | writes a tombstone for every key of the group, in any order, and forgets exactly those keys |
| Subscription.StepKeeps | broker/internal/broker/broker.go:185-514 | every publisher and pump step keeps the delivery invariant |
| Subscription.ExactlyOnce | broker/internal/broker/broker.go:452-514 | after any interleaving, on a partition without holes from the subscribed offset on, the output is a contiguous in-order slice of the log from that offset, complete once nothing is in flight |
| Subscription.CatchUpLoop | broker/internal/broker/broker.go:475-498 | the catch-up loop on a quiet log computes the catch-up function |
| Subscription.CatchUpIff | broker/internal/broker/broker.go:475-498 | catch-up delivers exactly the log from the offset on and goes live if and only if no offset up to the high water is missing |
| Subscription.HoleRepeats | broker/internal/broker/broker.go:475-498 | a hole in the middle delivers a record twice |
| Subscription.HoleAtEndStops | broker/internal/broker/broker.go:475-498 | a hole at the end ends the subscription |
| Dedup.ProducerIdempKey | broker/internal/broker/broker.go:684-707 | the header loop finds the last id and sequence headers and accepts only a non-empty id with an eight-byte sequence |
| Dedup.KeyDecodesIff | broker/internal/broker/broker.go:602-641 | the key decoder returns a slot exactly when the bytes start with that slot's encoding and its fields fit |
| Dedup.KeyRoundTrip | broker/internal/broker/broker.go:602-641 | every slot whose fields fit survives the key round trip |
| Dedup.ValueRoundTrip | broker/internal/broker/broker.go:645-663 | every checkpoint whose fields fit survives the value round trip |
| DedupRuns.BrokerNode.EvictStale | broker/internal/broker/broker.go:544-554 | the loop drops exactly the stale checkpoints of the partition |
| DedupRuns.BrokerNode.Publish | broker/internal/broker/broker.go:185-246 | publishing computes the step: evict, answer a duplicate from the table, or append, remember and persist |
| DedupRuns.BrokerNode.HydrateFromTopic | broker/embed/bootstrap.go:25-51 | the batched startup loop fills the table with the hydration of the whole topic |
| DedupRuns.HydrateIsFold | broker/embed/bootstrap.go:25-51 | hydration is the topic's last-value table, decoded |
| DedupRuns.RestartFindsDurable | broker/embed/bootstrap.go:25-51 | a restart rebuilds exactly the last checkpoints persisted |
| DedupRuns.RestartIsInvisible | broker/embed/bootstrap.go:25-51 | without eviction a restart changes nothing |
| DedupRuns.PublishKeeps | broker/internal/broker/broker.go:205-246 | a publish keeps the invariant tying logs, table and topic together |
| DedupRuns.RunKeeps | broker/internal/broker/broker.go:185-246 | every run of publishes, topic compactions and restarts keeps it |
| DedupRuns.NoDuplicates | broker/internal/broker/broker.go:205-246 | over every run in which no producer outlives the TTL, each producer's sequences strictly increase along each partition |
| DedupRuns.RetryIff | broker/internal/broker/broker.go:205-216 | a retry leaves the log unchanged if and only if the checkpoint is not stale; it then returns the producer's last offset, its own exactly when it was the last |
| DedupRuns.LostCheckpointDuplicates | broker/internal/broker/broker.go:123-137 | a crash between append and checkpoint write makes a retry a duplicate |
| Assign.RangeAssign | broker/internal/groups/assign.go:31-58 | the loop with its moving cursor computes the range assignment |
| Assign.RangeFoldAt | broker/internal/groups/assign.go:31-58 | each member owns one contiguous slice, from its start to the next member's |
| Assign.RoundRobinAssign | broker/internal/groups/assign.go:94-112 | the loop computes the round-robin assignment |
| Assign.RoundRobinAt | broker/internal/groups/assign.go:94-112 | each member owns exactly the partitions congruent to its rank |
| Assign.AssignByTopic | broker/internal/groups/assign.go:62-132 | both topic loops merge the per-topic assignments and fail at the first failed lookup |
| Assign.TopicIsCovered | broker/internal/groups/assign.go:31-112 | for one topic the members together own exactly its partitions |
| Assign.TopicIsBalanced | broker/internal/groups/assign.go:31-112 | the i-th member in lexical order owns exactly its floor or ceiling share |
| Assign.AssignCovers | broker/internal/groups/assign.go:62-132 | the assignment fails exactly when a count is missing and otherwise hands out every partition of every topic once |
| Assign.AssignDeterministic | broker/internal/groups/assign.go:24-30 | the assignment does not depend on the order members are listed in |
| Assign.CoverIsExact | broker/internal/groups/assign.go:62-132 | covering as a multiset means: no partition twice, none with two owners, all of them owned |
| Assign.AllPartitionsDistinct | broker/internal/groups/assign.go:229-241 | the partition list of distinct topics has no repetition and holds exactly the existing partitions |
| Lexical.SortSorts | broker/internal/groups/assign.go:37-38 | sorting yields an ascending permutation |
| Lexical.SortDeterministic | broker/internal/groups/assign.go:24-30 | sorting forgets the order it was given |
| Sticky.AllPartitionsLoop | broker/internal/groups/assign.go:229-241 | the loop computes the list of all partitions or fails |
| Sticky.StickyLoop | broker/internal/groups/assign.go:154-224 | the four steps compute the sticky assignment |
| Sticky.RetainLoop | broker/internal/groups/assign.go:192-203 | the inner loop with its break keeps the first free valid prior partitions up to the target |
| Sticky.GiveLoop | broker/internal/groups/assign.go:215-222 | the free partitions go one by one to the first member below target |
| Sticky.StickyCovers | broker/internal/groups/assign.go:154-224 | every partition goes to exactly one member and every member gets exactly its target; fails exactly when a count is missing |
| Sticky.StickyKeeps | broker/internal/groups/assign.go:134-153 | on a prior without overlaps each member keeps the first min(target, still valid) of its partitions, at the front of its list |
| Sticky.StickyFixpoint | broker/internal/groups/assign.go:134-153 | fed its own output it moves nothing |
| Sticky.PlaceFixpoint | broker/internal/groups/assign.go:134-153 | any balanced exact cover is left as it is |
| Groups.MergeTopicsIs | broker/internal/groups/manager.go:525-539 | the merge is the sorted duplicate-free union, and its length tells whether a topic is new |
| Groups.StepWakes | broker/internal/groups/manager.go:301-339 | every call keeps the watcher invariant and signals every watcher it leaves outdated |
| Groups.NoLostWakeUp | broker/internal/groups/manager.go:252-339 | in every reachable state, with any clock and any lookup failures, no wake-up is lost |
| Groups.ComputedCovers | broker/internal/groups/manager.go:496-521 | whatever the strategy, a rebalance fails exactly when a count is missing and otherwise is an exact cover |
| Groups.StepCovers | broker/internal/groups/manager.go:149-233 | a call keeps the exact-cover invariant if and only if it is not a join, in a clean group in which nobody expires, by a new member or for a new topic, with a topic that has no partition count |
| Groups.FailsCleanIff | broker/internal/groups/manager.go:169-185 | that condition on the group and the call is exactly the case of a failed lookup in a group that stays clean |
| Groups.AlwaysCovered | broker/internal/groups/manager.go:149-233 | in every state reached without such a call a clean group covers every partition exactly once, skipped rebalances included |
| Groups.LookupsSucceed | broker/internal/groups/manager.go:496-521 | with partition counts for every topic no run contains such a call |
| Groups.FailedJoinLeavesGap | broker/internal/groups/manager.go:169-185 | a failing first join leaves a clean uncovered group, and joining again succeeds with nothing |
| Groups.StepProgresses | broker/internal/groups/manager.go:474-521 | a call keeps the generation and at most removes members, or moves to the next generation with a disjoint assignment |
| Groups.HistoryKeeps | broker/internal/groups/manager.go:149-339 | the generation never decreases and every issued result is backed by its generation's assignment |
| Groups.ExclusiveOwnership | broker/internal/groups/manager.go:149-201 | two join results of different members at one generation never share a partition |
| Managers.MergeTopicsLoop | broker/internal/groups/manager.go:525-539 | the set-building loops compute the merge |
| Managers.Manager.Join | broker/internal/groups/manager.go:149-201 | the call performs the join step on the named group, creating it on first use, and answers the committed offset of each partition or, after the group has changed, that one lookup failed |
| Managers.CommittedOffsets | broker/internal/groups/manager.go:187-195 | the loop returns one offset per partition in order, and fails exactly when some lookup does |
| Managers.Manager.EvictStale | broker/internal/groups/manager.go:474-489 | the loop evicts exactly the stale members and wakes all watchers if there were any |
| Managers.Manager.NotifyWatchers | broker/internal/groups/manager.go:306-314 | every watcher is signalled once and the list cleared |
| Managers.Manager.Rebalance | broker/internal/groups/manager.go:496-521 | recomputes by strategy, bumps the generation and notifies; a failed lookup changes nothing |
| Managers.Manager.Heartbeat | broker/internal/groups/manager.go:206-233 | performs the heartbeat step |
| Managers.Manager.HeartbeatWait | broker/internal/groups/manager.go:252-266 | performs the heartbeat and registers the watcher exactly when there is nothing to report |
| Managers.Manager.RemoveWatcher | broker/internal/groups/manager.go:286-299 | removes the first watcher with the channel |
| Managers.Manager.Leave | broker/internal/groups/manager.go:319-339 | performs the leave step; the last member takes the group with it |
| JoinRuns.BuffersReached | streams/join.go:363-386 | the buffers hold exactly the arrivals no later arrival has pruned |
| JoinRuns.PairsEmitted | streams/join.go:291-332 | in every run an arrival pairs with exactly the earlier matching arrivals that survived pruning, each once and in order |
| JoinRuns.InnerJoinIsExact | streams/join.go:277-389 | on timely runs the inner join emits every matching pair exactly once, at the later arrival, and nothing else |
| JoinRuns.LateArrivalLosesPair | streams/join.go:363-369 | timeliness is needed: one watermark too far ahead loses a match |
| JoinPending.PendingReached | streams/join.go:334-361 | the pending lists hold exactly the eligible unpaired arrivals whose window is still open |
| JoinPending.OuterJoinEmits | streams/join.go:277-427 | everything an outer join emits: the surviving pairs, then the unpaired records whose window this watermark is the first to close |
| JoinPending.EmittedIff | streams/join.go:277-427 | output by output, what each event of a run emits |
| JoinPending.PairedNeverAlone | streams/join.go:314-323 | along every run a record emitted in a pair is emitted alone neither at that event nor at a later one |
| JoinPending.AloneOnce | streams/join.go:396-427 | along every run no record is emitted alone at two events |
| JoinPending.ClosedIsSettled | streams/join.go:396-427 | once a watermark closes its window, an eligible unpaired record has been emitted alone |
| JoinPending.WaitingIsBuffered | streams/join.go:242-247 | with non-negative lateness a pending record is still buffered |
| JoinPending.SharedIdentityConfuses | streams/join.go:429-440 | when event time and offset are not unique, a record is emitted alone after it was paired, and the other record is no longer pending |
| JoinPending.ConfusedFirstNeverAlone | streams/join.go:429-440 | that other record is not emitted alone at any later event, whatever happens |
| Joins.RemovesItselfIff | streams/join.go:433-440 | removal by event time and offset takes out the paired record itself if and only if no earlier pending record shares them |
| Joins.JoinPipeline.OnRecord | streams/join.go:277-389 | the method performs the join step |
| Joins.JoinPipeline.PairLoop | streams/join.go:299-332 | the match loop emits the pairs and removes the counterparts from their pending list |
| Joins.JoinPipeline.FlushPending | streams/join.go:396-427 | closes the windows on both pending lists |
| Joins.FlushSide | streams/join.go:403-422 | keeps what is after the cutoff, emits the rest in order |
| Joins.PruneLoop | streams/join.go:370-384 | keeps the entries at or above the cutoff and drops empty keys |
| Joins.RemovePendingLoop | streams/join.go:433-440 | removes the first pending record with the given event time and offset |
| WindowSpec.CountRoundTrip | streams/topology.go:833-852 | a 64-bit count survives its encoding |
| WindowSpec.KeyRoundTrip | streams/window.go:320-334 | key and window start survive the state-key round trip |
| WindowSpec.KeyRebuilds | streams/window.go:320-334 | every key that parses is rebuilt byte for byte |
| WindowSpec.HoppingStartsIff | streams/window.go:189-198 | the hopping loop visits exactly the covering windows, each once, if and only if the time is not within one advance below zero |
| WindowSpec.TumblingBucketIff | streams/window.go:100-106 | the tumbling bucket covers the time exactly when the time is not negative or a multiple of the size |
| WindowRuns.TumblesAreHops | streams/window.go:97-115 | for non-negative times a tumbling record is a hopping record advancing by its own size |
| WindowRuns.StepConserves | streams/window.go:137-201 | one step moves counts between store and output and adds exactly the record's windows |
| WindowRuns.WindowsConserve | streams/window.go:137-201 | over every run emitted plus stored counts equal the number of records in the window |
| WindowRuns.NotBeforeItsEnd | streams/window.go:149-158 | no window is emitted before the highest time seen reaches its end |
| WindowRuns.PunctuationSweeps | streams/window.go:176-183 | after a punctuation no finished window is left |
| Windows.EncodeCountLoop | streams/topology.go:833-840 | the loop writes the big-endian count |
| Windows.DecodeCountLoop | streams/topology.go:843-852 | the loop reads it back; other lengths count as zero |
| Windows.CountWindows.AdvanceWatermark | streams/topology.go:160-170 | the watermark becomes the maximum |
| Windows.CountWindows.CloseOnePartition | streams/window.go:137-174 | lists every closed window once with its count and deletes exactly those |
| Windows.CountWindows.TumblingRecord | streams/window.go:97-115 | performs the tumbling step |
| Windows.CountWindows.HoppingRecord | streams/window.go:185-201 | the backward loop performs the hopping step |
| Windows.CountWindows.Punctuate | streams/window.go:176-183 | raises the watermark and sweeps |
| Sessions.SessionRoundTrip | streams/window.go:300-316 | session state survives its encoding |
| Sessions.MaximalRunsUnique | streams/window.go:204-211 | there is exactly one way to cut times into maximal runs |
| Sessions.SessionsAreMaximalRuns | streams/window.go:265-297 | for in-order times and no punctuator the emitted sessions and the open one are the maximal runs, with first time, last time and count |
| Sessions.SessionsConserve | streams/window.go:218-297 | with a punctuator and times in any order, emitted and open counts add up to the records |
| Windows.SessionWindows.OnRecord | streams/window.go:265-297 | performs the session step |
| Windows.SessionWindows.CloseOnePartition | streams/window.go:218-254 | emits every expired session once and deletes exactly those |
| Cluster.SyncPartitionFromPeer | broker/internal/cluster/sync.go:37-94 | the loop performs the sync on the partition and touches no other |
| Cluster.SyncCopies | broker/internal/cluster/sync.go:37-94 | from a prefix of the peer's log every outcome leaves a prefix of it; a nil error and a count that makes up for what was missing mean exactly that the log is the peer's up to the target; a nil error without that count means that the stream closed |
| Cluster.EarlyCloseIsNil | broker/internal/cluster/sync.go:68-71 | a stream that closes before the target also returns a nil error |
| Cluster.FSM.ApplyAppend | broker/internal/cluster/fsm.go:79-102 | performs the guarded append |
| Cluster.ApplyIff | broker/internal/cluster/fsm.go:85-101 | a stamped command keeps a prefix of the log exactly when it is not ahead of the high water, or carries the very record that belongs there |
| Cluster.ReplicationIsExact | broker/internal/cluster/fsm.go:79-102 | commands in order with any replays in between yield exactly a prefix of the replicated log |
| Cluster.CatchUpConverges | broker/internal/cluster/sync.go:21-36 | a sync with a nil error and the full count, followed by the commands from anywhere at or before its target, yields exactly the replicated log |
| Cluster.CatchUpFrom | broker/internal/cluster/sync.go:21-36 | after any sync, commands from anywhere at or before what was copied yield exactly the replicated log |
| Cluster.EarlyCloseDiverges | broker/internal/cluster/sync.go:68-71 | after a nil error at an early close the next command beyond the gap leaves a log that is no prefix of the replicated one, unless the two records are the same |
| Cluster.UnstampedDuplicates | broker/internal/cluster/fsm.go:85-96 | an unstamped command replayed stores its record again |

## Left out

- Segments.Segment.Append: writes land at the end of the file; the write buffer, its flush and the missing O_APPEND flag of reopened files (broker/internal/log/segment.go:132-136) are not modelled, and neither is the shared read position.
- Segments.Segment.ReadFrom: index entries are 32-bit in the code; the naive-read result assumes that segment size and offset span stay below 2^32.
- Index files: their contents are written but never used on open, so only the index in memory is modelled.
- I/O errors, fsync and the order in which a crash persists writes: operations take effect in program order, one file operation at a time.
- StoreSpec.FileRefinesMemory: the file store's map of lazily opened logs is a map of values; update in place is modelled for one partition's log (Partitions, Storage). Appends are atomic in this result, although the code reads the high water and appends without one lock (broker/internal/storage/file.go:64-68); what goes wrong without it is StoreSpec.RacingAppends.
- Storage.FileAppend: one step for the same two; the callers' own locks are not modelled.
- Offsets.TopicOffsetStore.Commit: the append to the topic is one step in the same way; commits of one key that overlap are Offsets.RacingCommits.
- DedupRuns.BrokerNode.Publish: the append and the checkpoint write are one step each, under the partition lock.
- Records.Crc32c: a concrete bitwise definition; nothing about it is used except that it is a function of the bytes.
- LZ4: an assumed pair of functions that undo each other, with a compressor that may refuse.
- Subscription.ExactlyOnce: assumes a partition without holes from the subscribed offset on, no publisher whose context is cancelled during fan-out and no cluster mode; channel capacity is not modelled, so a send is always enabled.
- DedupRuns.NoDuplicates: assumes that checkpoint writes succeed, that clients do not publish to the checkpoint topic, that clocks do not go back and that no producer is silent longer than the TTL; the table is one map keyed by producer and partition instead of one map per partition.
- Offsets.TopicOffsetStore.DeleteGroup: the Sscanf fallback for malformed keys is a parameter.
- Managers.Manager.Join: the offset lookup and the generated member id are parameters; the generation is unbounded instead of 32-bit.
- Managers.Manager.HeartbeatWait: the wait itself is a registered watcher; a timeout or cancellation is a later RemoveWatcher.
- Group deletion by an operator (broker/internal/groups/manager.go:428-440): drops a group without notifying its watchers.
- JoinSpec.OnRecord: event-time arithmetic is unbounded; the caller's join function is represented by what it is called with.
- WindowRuns.WindowsConserve: window ends are unbounded integers, runs are shorter than 2^64 events, and the read and the write of a counter are one step, although a punctuator runs in its own goroutine.
- Sessions.SessionsAreMaximalRuns: assumes non-decreasing times per key and no punctuator; for other runs only the counts are proved conserved.
- Cluster.SyncPartitionFromPeer: the local store is the memory store, whose calls do not fail.
- JoinPending.PairedNeverAlone, JoinPending.AloneOnce: outputs are told apart by their records, so no record may arrive twice on a side; without unique event times and offsets they fail (JoinPending.SharedIdentityConfuses).
- Cluster.CatchUpConverges: assumes timestamps already set and a subscription that delivers the peer's log in order; Raft itself, snapshots and leader stamping are left out.
- Memory and JSON offset stores, registry, SDK, server, transports, TLS, authentication, command line and metrics: plumbing or easy members.
- Segment snapshots and bootstrap copies (broker/internal/log/partition.go:115-190, broker/embed/bootstrap.go:88-167): byte copying.
