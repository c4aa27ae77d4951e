/** The two implementations of storage.Store as state machines over their partitions, and the
    proof that the file-backed one answers every run exactly like the in-memory one. */
module StoreSpec {
  import opened Bytes
  import opened Seqs
  import opened Records
  import opened LogSpec
  import opened SegmentSpec
  import opened PartitionSpec
  import opened Directories
  import opened PartitionRuns

  datatype StoreOp =
    | Append(p: PartitionRef, r: Record, now: int)
    | Read(p: PartitionRef, from: int, max: int)
    | HighWater(p: PartitionRef)
    | Reopen(torn: map<PartitionRef, bytes>)

  datatype StoreOut = Offset(n: int) | Batch(rs: seq<Record>) | NegativeOffset | Reopened

  /** A zero timestamp is replaced by the clock at append time. */
  function Stamp(r: Record, offset: int, now: int): Record {
    r.(offset := offset, timestamp := if r.timestamp == 0 then now else r.timestamp)
  }

  // ----- MemoryStore: one growing slice per partition -----

  type MemState = map<PartitionRef, seq<Record>>

  function MemLog(m: MemState, p: PartitionRef): seq<Record> { if p in m then m[p] else [] }

  function MemRead(rs: seq<Record>, from: int, max: int): StoreOut {
    if from < 0 then NegativeOffset
    else if max <= 0 || from >= |rs| then Batch([])
    else Batch(rs[from..if from + max < |rs| then from + max else |rs|])
  }

  function MemStep(m: MemState, op: StoreOp): (MemState, StoreOut) {
    match op
    case Append(p, r, now) =>
      var log := MemLog(m, p);
      (m[p := log + [Stamp(r, |log|, now)]], Offset(|log|))
    case Read(p, from, max) => (m, MemRead(MemLog(m, p), from, max))
    case HighWater(p) => (m, Offset(|MemLog(m, p)|))
    case Reopen(_) => (m, Reopened)
  }

  // ----- FileStore: one segmented log per partition, opened on first use -----

  type FileState = f: map<PartitionRef, seq<Part>> | forall p :: p in f ==> f[p] != []

  function FileLog(f: FileState, p: PartitionRef): (parts: seq<Part>)
    ensures parts != []
  {
    if p in f then f[p] else [Part(0, [])]
  }

  function FileRead(parts: seq<Part>, from: int, max: int): StoreOut {
    if from < 0 then NegativeOffset else Batch(NaiveRead(Contents(parts), from, max))
  }

  /** Every partition is opened again from its files, the last one of each with what was left
      unfinished there. */
  function ReopenAll(f: FileState, torn: map<PartitionRef, bytes>): FileState {
    map p | p in f :: OpenedParts(FilesOf(f[p], TailOf(torn, p)))
  }

  function TailOf(torn: map<PartitionRef, bytes>, p: PartitionRef): bytes { if p in torn then torn[p] else [] }

  function FileStep(f: FileState, op: StoreOp, segmentBytes: int): (FileState, StoreOut) {
    match op
    case Append(p, r, now) =>
      var parts := FileLog(f, p);
      var hw := LogHighWater(parts);
      (f[p := AppendParts(parts, Stamp(r, hw, now), segmentBytes)], Offset(hw))
    case Read(p, from, max) => (f[p := FileLog(f, p)], FileRead(FileLog(f, p), from, max))
    case HighWater(p) => (f[p := FileLog(f, p)], Offset(LogHighWater(FileLog(f, p))))
    case Reopen(torn) => (ReopenAll(f, torn), Reopened)
  }

  // ----- Simulation -----

  /** The file log of a partition holds, normalised, what memory holds, without gaps from 0. */
  ghost predicate LogMatches(parts: seq<Part>, rs: seq<Record>) {
    && parts != [] && Ordered(parts)
    && Contents(parts) == NormAll(rs)
    && LogHighWater(parts) == |rs|
    && forall i :: 0 <= i < |rs| ==> rs[i].offset == i
  }

  ghost predicate Matches(f: FileState, m: MemState) {
    forall p :: LogMatches(FileLog(f, p), MemLog(m, p))
  }

  function NormOut(o: StoreOut): StoreOut { if o.Batch? then Batch(NormAll(o.rs)) else o }

  lemma EmptyStoresMatch()
    ensures Matches(map[], map[])
  {
    hide Storable;
    NothingStored();
    ConcatMapOne(RecsOf, Part(0, []));
    assert NormAll([]) == [];
    assert LogMatches([Part(0, [])], []);
  }

  lemma NormAllSnoc(rs: seq<Record>, r: Record)
    ensures NormAll(rs + [r]) == NormAll(rs) + [Norm(r)]
  {}

  lemma AppendMatches(parts: seq<Part>, rs: seq<Record>, r: Record, now: int, segmentBytes: int)
    requires LogMatches(parts, rs) && Fits(Stamp(r, |rs|, now))
    ensures LogMatches(AppendParts(parts, Stamp(r, |rs|, now), segmentBytes), rs + [Stamp(r, |rs|, now)])
  {
    hide Ordered, AppendParts, Fits, Contents, LogHighWater;
    AppendKeepsOrder(parts, Stamp(r, |rs|, now), segmentBytes);
    NormAllSnoc(rs, Stamp(r, |rs|, now));
  }

  /** On a gapless log the naive read is a slice. */
  lemma GaplessRead(log: seq<Record>, from: nat, max: int)
    requires forall i :: 0 <= i < |log| ==> log[i].offset == i
    ensures Batch(NaiveRead(log, from, max)) == MemRead(log, from, max)
  {
    var k := if from < |log| then from else |log|;
    AtOrAfterCut(log, k, from);
  }

  lemma ReadMatches(parts: seq<Part>, rs: seq<Record>, from: int, max: int)
    requires LogMatches(parts, rs)
    ensures FileRead(parts, from, max) == NormOut(MemRead(rs, from, max))
  {
    hide Ordered, Contents, LogHighWater;
    if from >= 0 {
      GaplessRead(NormAll(rs), from, max);
      if max > 0 && from < |rs| {
        var end := if from + max < |rs| then from + max else |rs|;
        assert NormAll(rs)[from..end] == NormAll(rs[from..end]);
      } else {
        assert NormAll([]) == [];
      }
    }
  }

  ghost predicate OpFits(m: MemState, op: StoreOp) {
    && (op.Append? ==> Fits(Stamp(op.r, |MemLog(m, op.p)|, op.now)))
    && (op.Reopen? ==> forall p :: p in op.torn ==> PartialFrame(op.torn[p]))
  }

  lemma ReopenMatches(f: FileState, m: MemState, torn: map<PartitionRef, bytes>)
    requires Matches(f, m) && forall p :: p in torn ==> PartialFrame(torn[p])
    ensures Matches(ReopenAll(f, torn), m)
  {
    hide Ordered, Contents, LogHighWater, PartialFrame, OpenedParts, FilesOf;
    NothingTorn();
    forall p ensures FileLog(ReopenAll(f, torn), p) == FileLog(f, p) {
      assert LogMatches(FileLog(f, p), MemLog(m, p));
      if p in f { ReopenFinds(f[p], TailOf(torn, p)); }
    }
    forall p ensures LogMatches(FileLog(ReopenAll(f, torn), p), MemLog(m, p)) {
      assert LogMatches(FileLog(f, p), MemLog(m, p));
    }
  }

  lemma StepMatches(f: FileState, m: MemState, op: StoreOp, segmentBytes: int)
    requires Matches(f, m) && OpFits(m, op)
    ensures var (f', out) := FileStep(f, op, segmentBytes); var (m', out') := MemStep(m, op);
            Matches(f', m') && out == NormOut(out')
  {
    hide LogMatches, FileRead, MemRead, Matches, FileLog, MemLog, AppendParts, Fits, LogHighWater, ReopenAll;
    match op
    case Append(p, r, now) =>
      MatchesAt(f, m, p);
      AppendMatches(FileLog(f, p), MemLog(m, p), r, now, segmentBytes);
      var r' := Stamp(r, |MemLog(m, p)|, now);
      UpdateMatches(f, m, p, AppendParts(FileLog(f, p), r', segmentBytes), MemLog(m, p) + [r']);
    case Read(p, from, max) =>
      MatchesAt(f, m, p);
      ReadMatches(FileLog(f, p), MemLog(m, p), from, max);
    case HighWater(p) => MatchesAt(f, m, p);
    case Reopen(torn) => ReopenMatches(f, m, torn);
  }

  lemma MatchesAt(f: FileState, m: MemState, p: PartitionRef)
    requires Matches(f, m)
    ensures LogMatches(FileLog(f, p), MemLog(m, p)) && LogHighWater(FileLog(f, p)) == |MemLog(m, p)|
    ensures Matches(f[p := FileLog(f, p)], m)
  {
    hide Ordered, Contents, LogHighWater;
    forall q ensures LogMatches(FileLog(f[p := FileLog(f, p)], q), MemLog(m, q)) {
      assert LogMatches(FileLog(f, q), MemLog(m, q));
    }
  }

  lemma UpdateMatches(f: FileState, m: MemState, p: PartitionRef, parts: seq<Part>, rs: seq<Record>)
    requires Matches(f, m) && parts != [] && LogMatches(parts, rs)
    ensures Matches(f[p := parts], m[p := rs])
  {
    hide LogMatches;
    var f': FileState, m' := f[p := parts], m[p := rs];
    forall q ensures LogMatches(FileLog(f', q), MemLog(m', q)) {
      assert LogMatches(FileLog(f, q), MemLog(m, q));
    }
  }

  /** An append is two steps in the file store: the high water is read, then the record is appended
      at it. Two callers who both read before either appends give out the same offset twice, and
      the log stops being increasing. */
  lemma RacingAppends(parts: seq<Part>, r1: Record, r2: Record, now: int, segmentBytes: int)
    requires parts != [] && Ordered(parts)
    ensures var hw := LogHighWater(parts);
            var both := AppendParts(AppendParts(parts, Stamp(r1, hw, now), segmentBytes), Stamp(r2, hw, now), segmentBytes);
            && Contents(both) == Contents(parts) + [Norm(Stamp(r1, hw, now)), Norm(Stamp(r2, hw, now))]
            && !Increasing(Contents(both))
  {
    hide Ordered, AppendParts, Contents, LogHighWater;
    var hw := LogHighWater(parts);
    var a, b := Norm(Stamp(r1, hw, now)), Norm(Stamp(r2, hw, now));
    var once := AppendParts(parts, Stamp(r1, hw, now), segmentBytes);
    AppendContents(parts, Stamp(r1, hw, now), segmentBytes);
    AppendContents(once, Stamp(r2, hw, now), segmentBytes);
    assert Contents(parts) + [a] + [b] == Contents(parts) + [a, b];
    var n := |Contents(parts)|;
    var log := Contents(parts) + [a, b];
    assert log[n] == a && log[n + 1] == b && a.offset == b.offset;
  }

  /** An append adds its record at the end, whatever its offset. */
  lemma AppendContents(parts: seq<Part>, r: Record, maxBytes: int)
    requires parts != []
    ensures Contents(AppendParts(parts, r, maxBytes)) == Contents(parts) + [Norm(r)]
  {
    hide Frames;
    var a := Active(parts);
    var grown := Part(a.base, a.recs + [Norm(r)]);
    var kept := Sealed(parts) + [grown];
    assert parts == Sealed(parts) + [a];
    ConcatMapSnoc(RecsOf, Sealed(parts), a);
    ConcatMapSnoc(RecsOf, Sealed(parts), grown);
    Assoc(Contents(Sealed(parts)), a.recs, [Norm(r)]);
    ConcatMapSnoc(RecsOf, kept, Part(r.offset + 1, []));
    assert Contents(kept) + [] == Contents(kept);
  }

  function MemRun(m: MemState, ops: seq<StoreOp>): seq<StoreOut>
    decreases |ops|
  {
    if ops == [] then [] else var (m', out) := MemStep(m, ops[0]); [out] + MemRun(m', ops[1..])
  }

  function FileRun(f: FileState, ops: seq<StoreOp>, segmentBytes: int): seq<StoreOut>
    decreases |ops|
  {
    if ops == [] then [] else
      var (f', out) := FileStep(f, ops[0], segmentBytes); [out] + FileRun(f', ops[1..], segmentBytes)
  }

  ghost predicate RunFits(m: MemState, ops: seq<StoreOp>)
    decreases |ops|
  {
    ops != [] ==> OpFits(m, ops[0]) && RunFits(MemStep(m, ops[0]).0, ops[1..])
  }

  ghost predicate SameAnswers(a: seq<StoreOut>, b: seq<StoreOut>) {
    |a| == |b| && forall i :: 0 <= i < |a| ==> a[i] == NormOut(b[i])
  }

  lemma NoAnswers()
    ensures SameAnswers([], [])
  {}

  lemma SameAnswersCons(x: StoreOut, y: StoreOut, a: seq<StoreOut>, b: seq<StoreOut>)
    requires x == NormOut(y) && SameAnswers(a, b)
    ensures SameAnswers([x] + a, [y] + b)
  {
    hide NormOut;
  }

  /** Refinement: any interleaving of appends, reads, high-water queries and reopens, also with
      torn tails, over any number of partitions gets the same offsets and the same records from the file store as
      from the memory store, whatever the segment size. */
  lemma {:induction false} FileRefinesMemory(f: FileState, m: MemState, ops: seq<StoreOp>, segmentBytes: int)
    requires Matches(f, m) && RunFits(m, ops)
    ensures SameAnswers(FileRun(f, ops, segmentBytes), MemRun(m, ops))
    decreases |ops|
  {
    hide Matches, FileStep, MemStep, OpFits, NormOut, SameAnswers;
    if ops == [] { NoAnswers(); }
    if ops != [] {
      StepMatches(f, m, ops[0], segmentBytes);
      var (f', out) := FileStep(f, ops[0], segmentBytes);
      var (m', out') := MemStep(m, ops[0]);
      FileRefinesMemory(f', m', ops[1..], segmentBytes);
      SameAnswersCons(out, out', FileRun(f', ops[1..], segmentBytes), MemRun(m', ops[1..]));
    }
  }
}
