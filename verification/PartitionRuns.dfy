/** Every operation on a partition as a step on its segment list, and what whole runs keep. */
module PartitionRuns {
  import opened Bytes
  import opened Seqs
  import opened Records
  import opened Codec
  import opened LogSpec
  import opened SegmentSpec
  import opened PartitionSpec
  import opened Directories

  // ----- Append and rollover -----

  function Active(parts: seq<Part>): Part
    requires parts != []
  {
    parts[|parts| - 1]
  }

  function Sealed(parts: seq<Part>): seq<Part>
    requires parts != []
  {
    parts[..|parts| - 1]
  }

  /** The record goes to the last segment; once that has reached its size cap a new one is opened. */
  function AppendParts(parts: seq<Part>, r: Record, maxBytes: int): (parts': seq<Part>)
    requires parts != []
    ensures parts' != []
  {
    var grown := Part(Active(parts).base, Active(parts).recs + [Norm(r)]);
    var kept := Sealed(parts) + [grown];
    if |Frames(grown.recs)| >= maxBytes then kept + [Part(r.offset + 1, [])] else kept
  }

  lemma ReplaceActive(parts: seq<Part>, p: Part)
    requires parts != [] && Ordered(parts) && WellFormed(p.base, p.recs) && p.base == Active(parts).base
    ensures Ordered(Sealed(parts) + [p])
  {
    hide WellFormed;
    assert parts == Sealed(parts) + [Active(parts)];
    OrderedParts(Sealed(parts), [Active(parts)]);
  }

  lemma OpenNext(parts: seq<Part>, p: Part)
    requires parts != [] && Ordered(parts) && p == Part(LogHighWater(parts), [])
    ensures Ordered(parts + [p])
  {
    hide Storable;
    NothingStored();
    forall i | 0 <= i < |parts| ensures parts[i].HighWater() <= p.base {
      PartBounds(Active(parts).base, Active(parts).recs);
    }
  }

  lemma AppendKeepsOrder(parts: seq<Part>, r: Record, maxBytes: int)
    requires parts != [] && Ordered(parts) && Fits(r) && r.offset >= LogHighWater(parts)
    ensures var parts' := AppendParts(parts, r, maxBytes);
            && parts' != [] && Ordered(parts')
            && LogHighWater(parts') == r.offset + 1
            && Contents(parts') == Contents(parts) + [Norm(r)]
  {
    hide Frames, Fits;
    var a := Active(parts);
    var grown := Part(a.base, a.recs + [Norm(r)]);
    GrownWellFormed(a.base, a.recs, r);
    ReplaceActive(parts, grown);
    var kept := Sealed(parts) + [grown];
    assert parts == Sealed(parts) + [a];
    ConcatMapSnoc(RecsOf, Sealed(parts), a);
    ConcatMapSnoc(RecsOf, Sealed(parts), grown);
    Assoc(Contents(Sealed(parts)), a.recs, [Norm(r)]);
    var next := Part(r.offset + 1, []);
    OpenNext(kept, next);
    ConcatMapSnoc(RecsOf, kept, next);
    assert Contents(kept) + [] == Contents(kept);
  }

  lemma GrownWellFormed(base: int, rs: seq<Record>, r: Record)
    requires WellFormed(base, rs) && Fits(r) && r.offset >= NextOffset(base, rs)
    ensures WellFormed(base, rs + [Norm(r)]) && NextOffset(base, rs + [Norm(r)]) == r.offset + 1
  {
    NormEncodes(r);
    assert Storable([Norm(r)]) by { assert StorableRecord(Norm(r)); }
    hide StorableRecord, Fits;
    StorableParts(rs, [Norm(r)]);
  }

  // ----- Retention -----

  /** Appends a value through a store, which assigns the offset and stamps the clock. */
  function AppendValue(parts: seq<Part>, key: bytes, value: Value, now: int, segmentBytes: int): (parts': seq<Part>)
    requires parts != []
    ensures parts' != []
  {
    AppendParts(parts, Record(LogHighWater(parts), now, key, value, []), segmentBytes)
  }

  /** The newest record of a segment, read back through readFrom. */
  function Newest(p: Part): seq<Record> { NaiveRead(p.recs, p.HighWater() - 1, 1) }

  /** How many leading segments time retention drops. */
  function TimeDrop(parts: seq<Part>, cutoff: int): (n: nat)
    ensures n <= |parts| && (parts != [] ==> n < |parts|)
  {
    if |parts| <= 1 || Newest(parts[0]) == [] || Newest(parts[0])[0].timestamp >= cutoff then 0
    else 1 + TimeDrop(parts[1..], cutoff)
  }

  lemma NewestIsLast(p: Part)
    requires WellFormed(p.base, p.recs)
    ensures Newest(p) == if p.recs == [] then [] else [p.recs[|p.recs| - 1]]
  {
    hide Storable;
    if p.recs != [] {
      var n := |p.recs| - 1;
      AtOrAfterCut(p.recs, n, p.HighWater() - 1);
    }
  }

  /** Time retention removes exactly the longest run of leading sealed segments whose last record
      is older than the cutoff; the active segment always survives. */
  lemma {:induction false} TimeDropExact(parts: seq<Part>, cutoff: int)
    requires parts != [] && Ordered(parts)
    ensures var n := TimeDrop(parts, cutoff);
            && (forall i :: 0 <= i < n ==> parts[i].recs != [] && parts[i].recs[|parts[i].recs| - 1].timestamp < cutoff)
            && (n == |parts| - 1 || parts[n].recs == [] || parts[n].recs[|parts[n].recs| - 1].timestamp >= cutoff)
  {
    hide Newest, WellFormed;
    NewestIsLast(parts[0]);
    if TimeDrop(parts, cutoff) > 0 {
      assert parts == [parts[0]] + parts[1..];
      OrderedParts([parts[0]], parts[1..]);
      TimeDropExact(parts[1..], cutoff);
    }
  }

  function TotalBytes(parts: seq<Part>): nat {
    if parts == [] then 0 else |Frames(parts[0].recs)| + TotalBytes(parts[1..])
  }

  /** How many leading segments size retention drops; a cap of zero or less disables it. */
  function SizeDrop(parts: seq<Part>, cap: int): (n: nat)
    ensures n <= |parts| && (parts != [] ==> n < |parts|)
  {
    if cap <= 0 || |parts| <= 1 || TotalBytes(parts) <= cap then 0 else 1 + SizeDrop(parts[1..], cap)
  }

  /** Size retention drops the fewest segments that bring the partition under its cap, and never
      the active one. */
  lemma {:induction false} SizeDropExact(parts: seq<Part>, cap: int)
    requires parts != [] && cap > 0
    ensures var n := SizeDrop(parts, cap);
            && (n < |parts| - 1 ==> TotalBytes(parts[n..]) <= cap)
            && (forall i :: 0 <= i < n ==> TotalBytes(parts[i..]) > cap)
  {
    hide TotalBytes;
    var n := SizeDrop(parts, cap);
    assert parts[0..] == parts;
    if n > 0 {
      SizeDropExact(parts[1..], cap);
      forall i | 0 < i <= n ensures parts[i..] == parts[1..][i - 1..] {}
      forall i | 0 <= i < n ensures TotalBytes(parts[i..]) > cap {
        if i > 0 { assert TotalBytes(parts[1..][i - 1..]) > cap; }
      }
    }
  }

  lemma DropKeepsOrder(parts: seq<Part>, n: nat)
    requires Ordered(parts) && n < |parts|
    ensures Ordered(parts[n..]) && LogHighWater(parts[n..]) == LogHighWater(parts)
    ensures Contents(parts) == Contents(parts[..n]) + Contents(parts[n..])
  {
    hide WellFormed;
    assert parts == parts[..n] + parts[n..];
    OrderedParts(parts[..n], parts[n..]);
    ConcatMapAppend(RecsOf, parts[..n], parts[n..]);
  }

  // ----- Compaction -----

  /** All sealed segments become one holding the compacted records, or none at all. */
  function CompactParts(parts: seq<Part>): (parts': seq<Part>)
    requires parts != []
    ensures parts' != []
  {
    if |parts| == 1 then parts else
      var kept := Compacted(Contents(Sealed(parts)));
      if kept == [] then [Active(parts)] else [Part(kept[0].offset, kept), Active(parts)]
  }

  lemma CompactedPart(sealed: seq<Part>, bound: int)
    requires Ordered(sealed) && forall i :: 0 <= i < |sealed| ==> sealed[i].HighWater() <= bound
    ensures var kept := Compacted(Contents(sealed));
            kept != [] ==> WellFormed(kept[0].offset, kept) && NextOffset(kept[0].offset, kept) <= bound
  {
    var rs := Contents(sealed);
    var kept := Compacted(rs);
    if kept != [] {
      var lo := if sealed == [] then 0 else sealed[0].base;
      ContentsBounded(sealed, lo);
      CompactionPreservesFold(rs);
      StorableSubset(kept, rs);
      hide Compacted, Storable;
      assert kept[|kept| - 1] in rs;
    }
  }

  lemma StorableSubset(a: seq<Record>, b: seq<Record>)
    requires Storable(b) && forall r :: r in a ==> r in b
    ensures Storable(a)
  {
    forall i | 0 <= i < |a| ensures StorableRecord(a[i]) {
      assert a[i] in b;
      var j :| 0 <= j < |b| && b[j] == a[i];
      assert StorableRecord(b[j]);
    }
  }

  /** Compaction of the segment list: order, high water and meaning are kept, the records left are
      the compacted sealed ones followed by the untouched active ones. */
  lemma CompactKeepsMeaning(parts: seq<Part>)
    requires parts != [] && Ordered(parts)
    ensures var parts' := CompactParts(parts);
            && parts' != [] && Ordered(parts') && Active(parts') == Active(parts)
            && LogHighWater(parts') == LogHighWater(parts)
            && Fold(Contents(parts')) == Fold(Contents(parts))
            && (|parts| > 1 ==> Contents(parts') == Compacted(Contents(Sealed(parts))) + Active(parts).recs)
  {
    if |parts| > 1 {
      var sealed, active := Sealed(parts), Active(parts);
      assert parts == sealed + [active];
      OrderedParts(sealed, [active]);
      ContentsBounded(sealed, sealed[0].base);
      CompactedPart(sealed, active.base);
      ConcatMapSnoc(RecsOf, sealed, active);
      CompactionPreservesLog(Contents(sealed), active.recs);
      ConcatMapOne(RecsOf, active);
      hide Compacted, WellFormed, Fold;
      var kept := Compacted(Contents(sealed));
      if kept == [] {
        assert [] + active.recs == active.recs;
      } else {
        var p := Part(kept[0].offset, kept);
        assert [p, active] == [p] + [active];
        ConcatMapSnoc(RecsOf, [p], active);
        ConcatMapOne(RecsOf, p);
      }
    }
  }

  /** Compaction adds no record. */
  lemma CompactKeepsSubset(parts: seq<Part>)
    requires parts != [] && Ordered(parts)
    ensures forall r :: r in Contents(CompactParts(parts)) ==> r in Contents(parts)
  {
    hide Ordered, FoldFrom, Contents;
    CompactKeepsMeaning(parts);
    if |parts| > 1 {
      CompactedSubset(Contents(Sealed(parts)));
      hide CompactParts;
      SealedThenActive(parts);
    }
  }

  lemma CompactedSubset(rs: seq<Record>)
    ensures forall r :: r in Compacted(rs) ==> r in rs
  {
    FilterMembers(Current(Fold(rs)), rs);
  }

  lemma SealedThenActive(parts: seq<Part>)
    requires parts != []
    ensures Contents(parts) == Contents(Sealed(parts)) + Active(parts).recs
  {
    assert parts == Sealed(parts) + [Active(parts)];
    ConcatMapSnoc(RecsOf, Sealed(parts), Active(parts));
  }

  /** A second compaction in a row changes nothing at all. */
  lemma CompactTwice(parts: seq<Part>)
    requires parts != [] && Ordered(parts)
    ensures CompactParts(parts) != [] && CompactParts(CompactParts(parts)) == CompactParts(parts)
  {
    if |parts| > 1 {
      var sealed, active := Sealed(parts), Active(parts);
      assert parts == sealed + [active];
      OrderedParts(sealed, [active]);
      ContentsBounded(sealed, sealed[0].base);
      CompactionIsIdempotent(Contents(sealed));
      var kept := Compacted(Contents(sealed));
      hide Compacted, Ordered;
      if kept != [] {
        var p := Part(kept[0].offset, kept);
        assert Sealed([p, active]) == [p];
        ConcatMapOne(RecsOf, p);
      }
    }
  }

  // ----- Whole runs -----

  /** The operations a partition sees. An append gets the next offset, as FileStore assigns it; a
      reopen finds the files as they are, the last one with whatever of a frame was never finished. */
  datatype Op =
    | Append(r: Record)
    | TimeRetention(cutoff: int)
    | SizeRetention(cap: int)
    | Compact
    | Reopen(torn: bytes)

  function Stamped(parts: seq<Part>, r: Record): Record
    requires parts != []
  {
    r.(offset := LogHighWater(parts))
  }

  function Step(parts: seq<Part>, op: Op, maxBytes: int): (parts': seq<Part>)
    requires parts != []
    ensures parts' != []
  {
    match op
    case Append(r) => AppendParts(parts, Stamped(parts, r), maxBytes)
    case TimeRetention(cutoff) => parts[TimeDrop(parts, cutoff)..]
    case SizeRetention(cap) => parts[SizeDrop(parts, cap)..]
    case Compact => CompactParts(parts)
    case Reopen(torn) => OpenedParts(FilesOf(parts, torn))
  }

  function Run(parts: seq<Part>, ops: seq<Op>, maxBytes: int): (parts': seq<Part>)
    requires parts != []
    ensures parts' != []
    decreases |ops|
  {
    if ops == [] then parts else Run(Step(parts, ops[0], maxBytes), ops[1..], maxBytes)
  }

  /** Every appended record fits a frame at the offset it is given, and no more than a part of one
      frame is ever left unfinished. */
  ghost predicate StepFits(parts: seq<Part>, op: Op)
    requires parts != []
  {
    (op.Append? ==> Fits(Stamped(parts, op.r))) && (op.Reopen? ==> PartialFrame(op.torn))
  }

  ghost predicate Feasible(parts: seq<Part>, ops: seq<Op>, maxBytes: int)
    requires parts != []
    decreases |ops|
  {
    ops != [] ==>
      && StepFits(parts, ops[0])
      && Feasible(Step(parts, ops[0], maxBytes), ops[1..], maxBytes)
  }

  /** The offsets handed out along a run, in order. */
  function Assigned(parts: seq<Part>, ops: seq<Op>, maxBytes: int): seq<int>
    requires parts != []
    decreases |ops|
  {
    if ops == [] then [] else
      (if ops[0].Append? then [LogHighWater(parts)] else []) + Assigned(Step(parts, ops[0], maxBytes), ops[1..], maxBytes)
  }

  lemma StepKeepsOrder(parts: seq<Part>, op: Op, maxBytes: int)
    requires parts != [] && Ordered(parts) && StepFits(parts, op)
    ensures var parts' := Step(parts, op, maxBytes);
            Ordered(parts') && LogHighWater(parts') == LogHighWater(parts) + (if op.Append? then 1 else 0)
  {
    hide Ordered, AppendParts, TimeDrop, SizeDrop, CompactParts, Fits, PartialFrame, FilesOf;
    match op
    case Append(r) => AppendKeepsOrder(parts, Stamped(parts, r), maxBytes);
    case TimeRetention(cutoff) => DropKeepsOrder(parts, TimeDrop(parts, cutoff));
    case SizeRetention(cap) => DropKeepsOrder(parts, SizeDrop(parts, cap));
    case Compact => CompactKeepsMeaning(parts);
    case Reopen(torn) => ReopenFinds(parts, torn);
  }

  /** Over every run of appends (with rollover), retention, compaction and reopens, also with a torn
      tail, the segments stay ordered and disjoint, the high water never decreases, and no offset is ever
      assigned twice: the offsets handed out are consecutive. */
  lemma {:induction false} RunInvariant(parts: seq<Part>, ops: seq<Op>, maxBytes: int)
    requires parts != [] && Ordered(parts) && Feasible(parts, ops, maxBytes)
    ensures var parts' := Run(parts, ops, maxBytes); var given := Assigned(parts, ops, maxBytes);
            && Ordered(parts')
            && LogHighWater(parts') == LogHighWater(parts) + |given|
            && forall i :: 0 <= i < |given| ==> given[i] == LogHighWater(parts) + i
    decreases |ops|
  {
    hide Ordered, Step, StepFits;
    if ops != [] {
      StepKeepsOrder(parts, ops[0], maxBytes);
      RunInvariant(Step(parts, ops[0], maxBytes), ops[1..], maxBytes);
    }
  }
}
