/** The partition log object (broker/internal/log/partition.go, broker/internal/log/compact.go):
    a list of segment objects of which the last is open for writing. */
module Partitions {
  import opened Bytes
  import opened Seqs
  import opened Records
  import opened Codec
  import opened LogSpec
  import opened SegmentSpec
  import opened PartitionSpec
  import opened Directories
  import opened PartitionRuns
  import opened Segments
  import opened Compaction

  const DEFAULT_SEGMENT_BYTES := 0x4000_0000

  /** The value a list of segment objects stands for. */
  ghost function PartsOf(segs: seq<Segment>): (parts: seq<Part>)
    reads segs
    ensures |parts| == |segs| && forall i :: 0 <= i < |segs| ==> parts[i] == Part(segs[i].base, segs[i].recs)
  {
    if segs == [] then [] else
      PartsOf(segs[..|segs| - 1]) + [Part(segs[|segs| - 1].base, segs[|segs| - 1].recs)]
  }

  ghost predicate ValidSegments(segs: seq<Segment>)
    reads segs
  {
    && (forall i, j :: 0 <= i < j < |segs| ==> segs[i] != segs[j])
    && (forall i :: 0 <= i < |segs| ==> segs[i].Valid())
  }

  lemma ValidSnoc(segs: seq<Segment>, s: Segment)
    requires ValidSegments(segs) && s.Valid() && s !in segs
    ensures ValidSegments(segs + [s])
    ensures PartsOf(segs + [s]) == PartsOf(segs) + [Part(s.base, s.recs)]
  {
    hide Segment.Valid;
    assert (segs + [s])[..|segs|] == segs;
  }

  method OpenSegment(f: LogFile, maxBytes: int, forAppend: bool, ghost p: Part) returns (ok: bool, s: Segment)
    ensures fresh(s) && s.base == f.base && s.sealed == !forAppend && s.maxBytes == maxBytes
    ensures ok == Recovers(f.contents, !forAppend)
    ensures ok ==> s.recs == ScanFile(f.contents).recs
    ensures ok && Holds(f, p, !forAppend) && WellFormed(p.base, p.recs) ==> s.Valid()
  {
    hide ScanFile, Frame, Fits, Holds;
    s := new Segment.Reopen(f.base, maxBytes, f.contents, forAppend);
    ok := s.Recover();
    if Holds(f, p, !forAppend) && WellFormed(p.base, p.recs) {
      HeldRecovers(f, p, !forAppend);
      HeldBase(f, p, !forAppend);
    }
  }

  /** Opens the listed files in order. Any file that does not recover refuses the directory; an
      empty directory starts a log at offset 0. */
  method OpenSegments(files: seq<LogFile>, maxBytes: int, ghost parts: seq<Part>) returns (ok: bool, segs: seq<Segment>)
    ensures ok == Opens(files)
    ensures ok ==> fresh(segs) && segs != [] && !segs[|segs| - 1].sealed && segs[|segs| - 1].maxBytes == maxBytes
    ensures ok ==> PartsOf(segs) == if files == [] then [Part(0, [])] else OpenedParts(files)
    ensures ok && AllHeld(files, parts) && Ordered(parts) ==> ValidSegments(segs) && Ordered(PartsOf(segs))
  {
    hide Segment.Valid, Holds, WellFormed, ValidSegments, PartsOf, Ordered, Recovers, AllHeld, OpenedParts, Storable, ScanFile;
    NoSegments();
    segs := [];
    if files == [] {
      var first := FirstSegment(maxBytes);
      return true, [first];
    }
    ghost var held := AllHeld(files, parts) && Ordered(parts);
    if held { HeldEach(files, parts); }
    for i := 0 to |files|
      invariant fresh(segs) && |segs| == i
      invariant forall k :: 0 <= k < i ==> Recovers(files[k].contents, k + 1 < |files|)
      invariant PartsOf(segs) == OpenedParts(files)[..i]
      invariant held ==> ValidSegments(segs)
      invariant i == |files| ==> !segs[i - 1].sealed && segs[i - 1].maxBytes == maxBytes
    {
      var recovered, s := OpenSegment(files[i], maxBytes, i == |files| - 1, if held then parts[i] else Part(0, []));
      if !recovered { return false, []; }
      OpenedNext(files, i);
      PartsSnoc(segs, s);
      if held { ValidSnoc(segs, s); }
      segs := segs + [s];
    }
    assert OpenedParts(files)[..|files|] == OpenedParts(files);
    ok := true;
  }

  /** A log that starts. */
  method FirstSegment(maxBytes: int) returns (first: Segment)
    ensures fresh(first) && !first.sealed && first.maxBytes == maxBytes
    ensures PartsOf([first]) == [Part(0, [])] && ValidSegments([first]) && Ordered(PartsOf([first]))
  {
    hide Segment.Valid, ValidSegments, PartsOf, Ordered;
    NoSegments();
    FreshLogOrdered();
    first := new Segment.Create(0, maxBytes);
    ValidSnoc([], first);
    assert [] + [first] == [first];
  }

  lemma HeldEach(files: seq<LogFile>, parts: seq<Part>)
    requires AllHeld(files, parts) && Ordered(parts)
    ensures |files| == |parts| && OpenedParts(files) == parts
    ensures forall i :: 0 <= i < |files| ==> Holds(files[i], parts[i], i + 1 < |files|) && WellFormed(parts[i].base, parts[i].recs)
  {
    AllWellFormed(parts);
    hide Holds, WellFormed, Storable, Ordered;
    HeldOpens(files, parts);
  }

  lemma OpenedNext(files: seq<LogFile>, i: nat)
    requires i < |files|
    ensures OpenedParts(files)[..i + 1] == OpenedParts(files)[..i] + [Part(files[i].base, ScanFile(files[i].contents).recs)]
  {
    hide ScanFile;
  }

  lemma PartsSnoc(segs: seq<Segment>, s: Segment)
    ensures PartsOf(segs + [s]) == PartsOf(segs) + [Part(s.base, s.recs)]
  {
    assert (segs + [s])[..|segs|] == segs;
  }

  lemma FreshLogOrdered()
    ensures Ordered([Part(0, [])])
  {
    hide Storable;
    NothingStored();
  }

  lemma NoSegments()
    ensures ValidSegments([]) && PartsOf([]) == []
  {}

  class PartitionLog {
    const maxBytes: int
    var segments: seq<Segment>

    ghost function Parts(): seq<Part>
      reads this, segments
    {
      PartsOf(segments)
    }

    ghost predicate Valid()
      reads this, segments
    {
      && segments != [] && ValidSegments(segments) && Ordered(Parts())
      && !segments[|segments| - 1].sealed && segments[|segments| - 1].maxBytes == maxBytes
    }

    /** A fresh directory: one empty segment at offset 0. */
    constructor (maxBytes: int)
      ensures Valid() && fresh(segments) && Parts() == [Part(0, [])]
      ensures this.maxBytes == if maxBytes <= 0 then DEFAULT_SEGMENT_BYTES else maxBytes
    {
      var cap := if maxBytes <= 0 then DEFAULT_SEGMENT_BYTES else maxBytes;
      this.maxBytes := cap;
      var first := new Segment.Create(0, cap);
      segments := [first];
    }

    constructor Over(segs: seq<Segment>, maxBytes: int)
      ensures segments == segs && this.maxBytes == maxBytes
    {
      segments := segs;
      this.maxBytes := maxBytes;
    }

    /** Opens the segment files of a directory in base order, the last one for append. When the
        files hold the parts of a log (every file whole frames, the last one possibly followed by
        the beginning of one that was never finished) the log comes back. */
    static method Open(files: seq<LogFile>, maxBytes: int, ghost parts: seq<Part>) returns (log: PartitionLog?)
      ensures log != null <==> Opens(files)
      ensures log != null ==> && fresh(log) && fresh(log.segments)
                              && log.maxBytes == (if maxBytes <= 0 then DEFAULT_SEGMENT_BYTES else maxBytes)
                              && log.Parts() == (if files == [] then [Part(0, [])] else OpenedParts(files))
      ensures AllHeld(files, parts) && Ordered(parts) ==>
                log != null && log.Valid() && log.Parts() == if files == [] then [Part(0, [])] else parts
    {
      hide Segment.Valid, AllHeld, Ordered, ValidSegments, PartsOf, Opens, OpenedParts;
      var cap := if maxBytes <= 0 then DEFAULT_SEGMENT_BYTES else maxBytes;
      if AllHeld(files, parts) { HeldOpens(files, parts); }
      var ok, segs := OpenSegments(files, cap, parts);
      if !ok { return null; }
      log := new PartitionLog.Over(segs, cap);
    }

    /** The .log files of the log as it stands. */
    ghost function Files(): (files: seq<LogFile>)
      reads this, segments
    {
      seq(|segments|, i requires 0 <= i < |segments| reads this, segments => LogFile(segments[i].base, segments[i].file))
    }

    /** Closing and opening again is the identity on the log: the files of a valid log hold its
        parts, so Open finds them whatever the log went through. */
    lemma ReopenFindsParts()
      requires Valid()
      ensures AllHeld(Files(), Parts()) && Opens(Files()) && OpenedParts(Files()) == Parts()
    {
      AllWellFormed(Parts());
      hide Ordered, Frames;
      forall i | 0 <= i < |segments| ensures Holds(Files()[i], Parts()[i], i + 1 < |segments|) && Storable(Parts()[i].recs) {
        assert segments[i].Valid();
        WholeHolds(Files()[i], Parts()[i], i + 1 < |segments|);
      }
      HeldOpens(Files(), Parts());
    }

    method HighWater() returns (hw: int)
      requires Valid()
      ensures hw == LogHighWater(Parts())
    {
      hw := segments[|segments| - 1].highWater;
    }

    /** Writes to the active segment and rolls over when it has reached its cap. */
    method Append(r: Record)
      requires Valid() && Fits(r) && r.offset >= LogHighWater(Parts())
      modifies this, segments[|segments| - 1]
      ensures Valid() && fresh(set s | s in segments && s !in old(segments))
      ensures Parts() == AppendParts(old(Parts()), r, maxBytes)
    {
      hide Fits, Frames, Segment.Valid, Ordered, ValidSegments, PartsOf, Contents;
      ghost var parts := Parts();
      AppendToActive(r);
      AppendKeepsOrder(parts, r, maxBytes);
      ActiveHighWater();
      var active := segments[|segments| - 1];
      if active.ShouldRoll() { Roll(); }
    }

    method AppendToActive(r: Record)
      requires Valid() && Fits(r) && r.offset >= LogHighWater(Parts())
      modifies segments[|segments| - 1]
      ensures Valid()
      ensures Parts() == Sealed(old(Parts())) + [Part(Active(old(Parts())).base, Active(old(Parts())).recs + [Norm(r)])]
    {
      hide Fits, Frame, Segment.Valid, Ordered, PartsOf, LogHighWater;
      ghost var parts := Parts();
      ghost var n := |segments| - 1;
      var active := segments[|segments| - 1];
      ActiveSegment();
      ActiveHighWater();
      var _ := active.Append(r);
      assert forall i :: 0 <= i < n ==> segments[i].Valid();
      assert Parts() == Sealed(parts) + [Part(Active(parts).base, Active(parts).recs + [Norm(r)])];
      GrownOrdered(parts, r);
    }

    /** Seals the active segment and opens the next one at the current high water. */
    method Roll()
      requires Valid()
      modifies this, segments[|segments| - 1]
      ensures Valid() && |segments| == |old(segments)| + 1 && segments[..|old(segments)|] == old(segments)
      ensures fresh(segments[|old(segments)|])
      ensures Parts() == old(Parts()) + [Part(LogHighWater(old(Parts())), [])]
    {
      hide Segment.Valid, Ordered, LogHighWater, ValidSegments, PartsOf;
      ghost var parts := Parts();
      SealActive();
      var next := new Segment.Create(segments[|segments| - 1].highWater, maxBytes);
      ValidSnoc(segments, next);
      OpenNext(parts, Part(LogHighWater(parts), []));
      segments := segments + [next];
    }

    method SealActive()
      requires Valid()
      modifies segments[|segments| - 1]
      ensures unchanged(this)
      ensures ValidSegments(segments) && Parts() == old(Parts()) && Ordered(Parts())
      ensures segments[|segments| - 1].highWater == LogHighWater(Parts())
    {
      hide Segment.Valid, Ordered;
      ActiveHighWater();
      var active := segments[|segments| - 1];
      active.Seal();
    }

    /** sort.Search over the segment bases, as the loop it is. */
    method FindSegment(from: int) returns (k: nat)
      requires Valid()
      ensures k < |segments| && k == StartPart(Parts(), from)
    {
      hide Segment.Valid, WellFormed, StartPart;
      ghost var parts := Parts();
      OrderedBases(parts);
      var lo, hi := 0, |segments|;
      while lo < hi
        invariant 0 <= lo <= hi <= |segments|
        invariant forall j :: 0 <= j < lo ==> parts[j].base <= from
        invariant forall j :: hi <= j < |parts| ==> parts[j].base > from
      {
        var mid := (lo + hi) / 2;
        if segments[mid].base > from { hi := mid; } else { lo := mid + 1; }
      }
      k := if lo == 0 then 0 else lo - 1;
      StartPartUnique(parts, from, k);
    }

    /** Up to `max` records from `from` on, across segments. */
    method Read(from: int, max: int) returns (out: seq<Record>)
      requires Valid() && AllIndexable(Parts())
      ensures out == NaiveRead(Contents(Parts()), from, max)
    {
      hide Segment.Valid, NaiveRead, Ordered, Indexable, StartPart, ReadParts, PartitionRead, Contents, ValidSegments, PartsOf, AllIndexable;
      ghost var parts := Parts();
      PartitionReadIsNaive(parts, from, max);
      out := [];
      if max <= 0 { NaiveReadNothing(Contents(parts), from, max); return; }
      var idx := FindSegment(from);
      var cursor := from;
      ReadPartsStart(parts, from, max);
      ghost var whole := PartitionRead(parts, from, max);
      while idx < |segments| && |out| < max
        invariant idx <= |segments| && |out| <= max
        invariant out + ReadParts(parts[idx..], cursor, max - |out|) == whole
      {
        var batch := ReadSegment(idx, cursor, max - |out|);
        ReadPartsStep(parts, idx, cursor, max - |out|, out);
        out := out + batch;
        if |batch| > 0 { cursor := batch[|batch| - 1].offset + 1; }
        idx := idx + 1;
      }
      ReadPartsEnd(parts[idx..], cursor, max - |out|, out);
    }

    method ReadSegment(idx: nat, from: int, max: int) returns (out: seq<Record>)
      requires Valid() && AllIndexable(Parts()) && idx < |segments|
      ensures out == NaiveRead(Parts()[idx].recs, from, max) && (max >= 0 ==> |out| <= max)
    {
      hide WellFormed, Ordered, Frames, IndexOf;
      var res := segments[idx].ReadFrom(from, max);
      out := res.recs;
    }

    /** streamSealedRecords: every record of every sealed segment, in offset order. */
    method StreamSealed() returns (visited: seq<Record>)
      requires Valid() && AllIndexable(Parts())
      ensures visited == Contents(Sealed(Parts()))
    {
      hide Segment.Valid, Ordered, Indexable;
      ghost var parts := Parts();
      visited := [];
      for i := 0 to |segments| - 1
        invariant visited == Contents(parts[..i])
      {
        assert parts[..i + 1] == parts[..i] + [parts[i]];
        ConcatMapSnoc(RecsOf, parts[..i], parts[i]);
        var rs := StreamSegment(segments[i]);
        visited := visited + rs;
      }
    }

    /** Rewrites the sealed segments into one that holds the last value of each live key. */
    method Compact()
      requires Valid() && AllIndexable(Parts())
      modifies this`segments
      ensures Valid() && Parts() == CompactParts(old(Parts()))
      ensures segments[|segments| - 1] == old(segments[|segments| - 1])
      ensures fresh(set s | s in segments && s !in old(segments))
    {
      hide Segment.Valid, Ordered, Indexable, Contents, Compacted, ValidSegments, PartsOf, CompactParts, AllIndexable;
      if |segments| <= 1 { CompactSingle(Parts()); return; }
      ghost var parts := Parts();
      CompactKeepsMeaning(parts);
      var active := segments[|segments| - 1];
      ActiveSegment();
      var rewritten := Rewrite();
      ValidSnoc(rewritten, active);
      CompactSwap(parts, PartsOf(rewritten));
      segments := rewritten + [active];
    }

    /** The passes up to the swap: what replaces the sealed segments. */
    method Rewrite() returns (rewritten: seq<Segment>)
      requires Valid() && AllIndexable(Parts()) && |segments| > 1
      ensures fresh(rewritten) && ValidSegments(rewritten)
      ensures var kept := Compacted(Contents(Sealed(Parts())));
              PartsOf(rewritten) == if kept == [] then [] else [Part(kept[0].offset, kept)]
    {
      hide Segment.Valid, Ordered, Indexable, Contents, Compacted, Fold, ValidSegments, PartsOf;
      var sealed := StreamSealed();
      SealedContents(Parts());
      var latest := LatestOffsets(sealed);
      NothingKept(sealed);
      if latest == map[] {
        NoSegments();
        return [];
      }
      var newBase := LowestOffset(latest);
      LowestIsFirst(sealed, newBase);
      var newSeg := WriteSealed(latest, newBase);
      NoSegments();
      ValidSnoc([], newSeg);
      rewritten := [newSeg];
      assert [] + [newSeg] == rewritten;
    }

    /** Pass 2: streams the sealed records again into a new segment. */
    method WriteSealed(latest: map<bytes, int>, newBase: int) returns (newSeg: Segment)
      requires Valid() && AllIndexable(Parts()) && |segments| > 1
      requires latest == Offsets(Fold(Contents(Sealed(Parts())))) && forall k :: k in latest ==> newBase <= latest[k]
      ensures fresh(newSeg) && newSeg.Valid() && newSeg.base == newBase
           && newSeg.recs == Compacted(Contents(Sealed(Parts())))
    {
      hide Segment.Valid, Ordered, Indexable, Contents, Compacted, Fold, ValidSegments, PartsOf;
      SealedContents(Parts());
      var again := StreamSealed();
      newSeg := WriteCompacted(again, latest, newBase, maxBytes);
      newSeg.Seal();
    }

    /** Drops leading sealed segments while their newest record is older than the cutoff. */
    method EnforceTimeRetention(cutoff: int) returns (deleted: nat)
      requires Valid() && AllIndexable(Parts())
      modifies this`segments
      ensures Valid() && deleted == TimeDrop(old(Parts()), cutoff)
      ensures segments == old(segments)[deleted..] && Parts() == old(Parts())[deleted..]
    {
      hide Segment.Valid, Ordered, Indexable, NaiveRead, TimeDrop, ValidSegments, PartsOf, AllIndexable;
      ghost var parts := Parts();
      deleted := 0;
      var expired := OldestExpired(cutoff);
      while expired
        invariant deleted < |parts| && segments == old(segments)[deleted..] && Valid()
        invariant Parts() == parts[deleted..] && AllIndexable(Parts())
        invariant TimeDrop(parts, cutoff) == deleted + TimeDrop(parts[deleted..], cutoff)
        invariant expired == (TimeDrop(Parts(), cutoff) > 0)
        decreases |segments|
      {
        expired := DropExpired(parts, deleted, cutoff);
        assert old(segments)[deleted..][1..] == old(segments)[deleted + 1..];
        deleted := deleted + 1;
      }
    }

    /** One round of the loop: drops the oldest segment and looks at the next one. */
    method DropExpired(ghost parts: seq<Part>, ghost deleted: nat, cutoff: int) returns (expired: bool)
      requires Valid() && AllIndexable(Parts()) && deleted < |parts| && Parts() == parts[deleted..]
            && TimeDrop(Parts(), cutoff) > 0
      modifies this`segments
      ensures Valid() && segments == old(segments)[1..] && deleted + 1 < |parts| && Parts() == parts[deleted + 1..]
      ensures AllIndexable(Parts()) && expired == (TimeDrop(Parts(), cutoff) > 0)
      ensures TimeDrop(parts[deleted..], cutoff) == 1 + TimeDrop(parts[deleted + 1..], cutoff)
    {
      hide Segment.Valid, Ordered, Indexable, NaiveRead, TimeDrop, ValidSegments, PartsOf, AllIndexable;
      TimeDropNext(parts, deleted, cutoff);
      IndexableTail(parts, deleted);
      DropOldest(parts, deleted);
      expired := OldestExpired(cutoff);
    }

    /** The guard of the retention loop: a sealed segment whose newest record is too old. */
    method OldestExpired(cutoff: int) returns (b: bool)
      requires Valid() && AllIndexable(Parts())
      ensures b == (TimeDrop(Parts(), cutoff) > 0)
      ensures b ==> |segments| > 1
    {
      hide Segment.Valid, Ordered, Indexable, NaiveRead, TimeDrop, ValidSegments, AllIndexable;
      TimeDropStep(Parts(), cutoff);
      if |segments| <= 1 { return false; }
      OldestHighWater();
      var recs := ReadSegment(0, segments[0].highWater - 1, 1);
      b := |recs| > 0 && recs[0].timestamp < cutoff;
    }

    /** Drops leading sealed segments while the partition is larger than the cap. */
    method EnforceSizeRetention(cap: int) returns (deleted: nat)
      requires Valid()
      modifies this`segments
      ensures Valid() && deleted == SizeDrop(old(Parts()), cap)
      ensures segments == old(segments)[deleted..] && Parts() == old(Parts())[deleted..]
    {
      hide Segment.Valid, Ordered, ValidSegments, Frames;
      ghost var parts := Parts();
      deleted := 0;
      if cap <= 0 { return; }
      var total := TotalSize();
      while total > cap && |segments| > 1
        invariant deleted < |parts| && segments == old(segments)[deleted..] && Valid()
        invariant Parts() == parts[deleted..] && total == TotalBytes(Parts())
        invariant SizeDrop(parts, cap) == deleted + SizeDrop(parts[deleted..], cap)
        decreases |segments|
      {
        OldestHighWater();
        var dropped := segments[0].size;
        DropOldest(parts, deleted);
        assert parts[deleted..][1..] == parts[deleted + 1..];
        total := total - dropped;
        deleted := deleted + 1;
      }
    }

    method TotalSize() returns (total: nat)
      requires Valid()
      ensures total == TotalBytes(Parts())
    {
      hide Segment.Valid, Ordered, Frames;
      ghost var parts := Parts();
      total := 0;
      for i := 0 to |segments|
        invariant total + TotalBytes(parts[i..]) == TotalBytes(parts)
      {
        assert parts[i..][1..] == parts[i + 1..];
        SegmentSize(i);
        total := total + segments[i].size;
      }
    }

    lemma SegmentSize(i: nat)
      requires Valid() && i < |segments|
      ensures segments[i].size == |Frames(Parts()[i].recs)|
    {
      hide Ordered;
      IndexSizeIsFileSize(segments[i].base, segments[i].recs);
    }

    method DropOldest(ghost parts: seq<Part>, ghost deleted: nat)
      requires Valid() && |segments| > 1 && deleted < |parts| && Parts() == parts[deleted..]
      modifies this`segments
      ensures Valid() && segments == old(segments)[1..] && Parts() == parts[deleted + 1..]
    {
      hide Segment.Valid, Ordered;
      DropKeepsOrder(Parts(), 1);
      assert parts[deleted..][1..] == parts[deleted + 1..];
      segments := segments[1..];
      assert Parts() == parts[deleted + 1..];
    }

    lemma OldestHighWater()
      requires Valid()
      ensures segments[0].highWater == Parts()[0].HighWater() && segments[0].size == |Frames(Parts()[0].recs)|
    {
      SegmentSize(0);
    }

    lemma ActiveSegment()
      requires Valid()
      ensures segments[|segments| - 1].Valid() && |Parts()| == |segments|
      ensures Active(Parts()) == Part(segments[|segments| - 1].base, segments[|segments| - 1].recs)
    {
      hide Segment.Valid, Ordered;
    }

    lemma ActiveHighWater()
      requires Valid()
      ensures segments[|segments| - 1].highWater == LogHighWater(Parts())
      ensures segments[|segments| - 1].size == |Frames(segments[|segments| - 1].recs)|
    {
      IndexSizeIsFileSize(segments[|segments| - 1].base, segments[|segments| - 1].recs);
    }
  }

  lemma SealedContents(parts: seq<Part>)
    requires |parts| > 1 && Ordered(parts)
    ensures Increasing(Contents(Sealed(parts))) && Storable(Contents(Sealed(parts)))
  {
    assert parts == Sealed(parts) + [Active(parts)];
    OrderedParts(Sealed(parts), [Active(parts)]);
    ContentsBounded(Sealed(parts), parts[0].base);
  }

  lemma CompactSingle(parts: seq<Part>)
    requires |parts| == 1
    ensures CompactParts(parts) == parts
  {}

  lemma CompactSwap(parts: seq<Part>, rewritten: seq<Part>)
    requires |parts| > 1
    requires var kept := Compacted(Contents(Sealed(parts)));
             rewritten == if kept == [] then [] else [Part(kept[0].offset, kept)]
    ensures rewritten + [Active(parts)] == CompactParts(parts)
  {
    hide Compacted, Contents;
  }

  lemma IndexableTail(parts: seq<Part>, n: nat)
    requires n < |parts| && AllIndexable(parts[n..])
    ensures AllIndexable(parts[n + 1..]) && parts[n..][1..] == parts[n + 1..]
  {
    hide Indexable;
    assert parts[n..][1..] == parts[n + 1..];
  }

  lemma TimeDropStep(parts: seq<Part>, cutoff: int)
    requires parts != []
    ensures var newest := NaiveRead(parts[0].recs, parts[0].HighWater() - 1, 1);
            TimeDrop(parts, cutoff) == if |parts| <= 1 || newest == [] || newest[0].timestamp >= cutoff then 0
                                       else 1 + TimeDrop(parts[1..], cutoff)
  {}

  lemma TimeDropNext(parts: seq<Part>, n: nat, cutoff: int)
    requires n < |parts| && TimeDrop(parts[n..], cutoff) > 0
    ensures n + 1 < |parts| && TimeDrop(parts[n..], cutoff) == 1 + TimeDrop(parts[n + 1..], cutoff)
  {
    hide NaiveRead, TimeDrop;
    TimeDropStep(parts[n..], cutoff);
    assert parts[n..][1..] == parts[n + 1..];
  }

  lemma NaiveReadNothing(rs: seq<Record>, from: int, max: int)
    requires max <= 0
    ensures NaiveRead(rs, from, max) == []
  {}

  lemma ReadPartsStart(parts: seq<Part>, from: int, max: int)
    ensures [] + ReadParts(parts[StartPart(parts, from)..], from, max) == PartitionRead(parts, from, max)
  {}

  lemma ReadPartsEnd(parts: seq<Part>, from: int, max: int, out: seq<Record>)
    requires parts == [] || max <= 0
    ensures out + ReadParts(parts, from, max) == out
  {
    assert out + [] == out;
  }

  lemma ReadPartsStep(parts: seq<Part>, idx: nat, from: int, max: nat, out: seq<Record>)
    requires idx < |parts| && max > 0
    ensures var rs := NaiveRead(parts[idx].recs, from, max);
            out + ReadParts(parts[idx..], from, max) == out + rs + ReadParts(parts[idx + 1..], NextOffset(from, rs), max - |rs|)
  {
    hide NaiveRead;
    var rs := NaiveRead(parts[idx].recs, from, max);
    assert parts[idx..][1..] == parts[idx + 1..];
    Assoc(out, rs, ReadParts(parts[idx + 1..], NextOffset(from, rs), max - |rs|));
  }

  lemma GrownOrdered(parts: seq<Part>, r: Record)
    requires parts != [] && Ordered(parts) && Fits(r) && r.offset >= LogHighWater(parts)
    ensures Ordered(Sealed(parts) + [Part(Active(parts).base, Active(parts).recs + [Norm(r)])])
  {
    hide Fits, WellFormed, Ordered;
    OrderedActive(parts);
    GrownWellFormed(Active(parts).base, Active(parts).recs, r);
    ReplaceActive(parts, Part(Active(parts).base, Active(parts).recs + [Norm(r)]));
  }

  lemma OrderedActive(parts: seq<Part>)
    requires parts != [] && Ordered(parts)
    ensures WellFormed(Active(parts).base, Active(parts).recs)
  {}
}
