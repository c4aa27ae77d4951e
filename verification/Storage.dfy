/** The stores as objects (broker/internal/storage/memory.go, broker/internal/storage/file.go). */
module Storage {
  import opened Bytes
  import opened Seqs
  import opened Records
  import opened LogSpec
  import opened SegmentSpec
  import opened PartitionSpec
  import opened PartitionRuns
  import opened StoreSpec
  import opened Segments
  import opened Partitions

  class MemoryStore {
    var partitions: map<PartitionRef, seq<Record>>

    constructor ()
      ensures partitions == map[]
    {
      partitions := map[];
    }

    method Append(p: PartitionRef, r: Record, now: int) returns (offset: int)
      modifies this
      ensures (partitions, Offset(offset)) == MemStep(old(partitions), StoreOp.Append(p, r, now))
    {
      var log := if p in partitions then partitions[p] else [];
      offset := |log|;
      var stamped := r.(offset := offset);
      if stamped.timestamp == 0 { stamped := stamped.(timestamp := now); }
      partitions := partitions[p := log + [stamped]];
    }

    method Read(p: PartitionRef, from: int, max: int) returns (out: StoreOut)
      ensures (partitions, out) == MemStep(partitions, StoreOp.Read(p, from, max))
    {
      if from < 0 { return NegativeOffset; }
      if max <= 0 { return Batch([]); }
      if p !in partitions { return Batch([]); }
      var log := partitions[p];
      if from >= |log| { return Batch([]); }
      var end := if from + max < |log| then from + max else |log|;
      out := Batch(log[from..end]);
    }

    method HighWater(p: PartitionRef) returns (hw: int)
      ensures (partitions, Offset(hw)) == MemStep(partitions, StoreOp.HighWater(p))
    {
      hw := if p in partitions then |partitions[p]| else 0;
    }
  }

  // ----- FileStore, once openLog has returned the partition's log -----

  /** Assigns the next offset, stamps the clock and hands the record to the log. */
  method FileAppend(log: PartitionLog, r: Record, now: int) returns (offset: int)
    requires log.Valid() && Fits(Stamp(r, LogHighWater(log.Parts()), now))
    modifies log, log.segments[|log.segments| - 1]
    ensures log.Valid() && fresh(set s | s in log.segments && s !in old(log.segments))
    ensures offset == LogHighWater(old(log.Parts()))
    ensures log.Parts() == AppendParts(old(log.Parts()), Stamp(r, offset, now), log.maxBytes)
  {
    hide PartitionLog.Valid, Fits, AppendParts;
    offset := log.HighWater();
    var stamped := r.(offset := offset);
    if stamped.timestamp == 0 { stamped := stamped.(timestamp := now); }
    log.Append(stamped);
  }

  method FileReadFrom(log: PartitionLog, from: int, max: int) returns (out: StoreOut)
    requires log.Valid() && AllIndexable(log.Parts())
    ensures out == FileRead(log.Parts(), from, max)
  {
    hide PartitionLog.Valid, NaiveRead;
    if from < 0 { return NegativeOffset; }
    var rs := log.Read(from, max);
    out := Batch(rs);
  }
}
