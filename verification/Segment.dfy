/** The segment object: one .log file with its in-memory state (broker/internal/log/segment.go). */
module Segments {
  import opened Bytes
  import opened Seqs
  import opened Records
  import opened Codec
  import opened LogSpec
  import opened SegmentSpec

  class Segment {
    const base: int
    const maxBytes: int

    /** Bytes of the .log file, buffered ones included; writes land at its end. */
    var file: bytes
    var entries: seq<Entry>
    var size: nat
    var since: nat
    var highWater: int
    var sealed: bool

    /** The records the file holds. */
    ghost var recs: seq<Record>

    ghost predicate Valid()
      reads this
    {
      && WellFormed(base, recs)
      && file == Frames(recs)
      && IndexState(entries, since, size) == IndexOf(base, recs)
      && highWater == NextOffset(base, recs)
    }

    constructor Create(base: int, maxBytes: int)
      ensures this.base == base && this.maxBytes == maxBytes && !sealed
      ensures Valid() && recs == []
    {
      this.base, this.maxBytes := base, maxBytes;
      file, entries, size, since, highWater, sealed := [], [], 0, 0, base, false;
      recs := [];
    }

    /** The segment object openSegment starts from: a file of unknown content, nothing replayed. */
    constructor Reopen(base: int, maxBytes: int, contents: bytes, forAppend: bool)
      ensures this.base == base && this.maxBytes == maxBytes && file == contents && sealed == !forAppend
      ensures entries == [] && size == 0 && since == 0 && highWater == base && recs == []
    {
      this.base, this.maxBytes := base, maxBytes;
      file, entries, size, since, highWater, sealed := contents, [], 0, 0, base, !forAppend;
      recs := [];
    }

    /** Replays the file, truncating at the first frame that is short or fails its checksum, which
        fails on a sealed segment. A body that does not parse is refused, unless a field overruns
        it (see ReadFrame). */
    method Recover() returns (ok: bool)
      requires entries == [] && highWater == base
      modifies this
      ensures ok == Recovers(old(file), sealed) && sealed == old(sealed)
      ensures !ok ==> file == old(file)
      ensures ok ==> var scan := ScanFile(old(file));
                && file == old(file)[..scan.end]
                && recs == scan.recs
                && highWater == NextOffset(base, scan.recs)
                && IndexState(entries, since, size) == IndexFold(WrittenAs(base, scan.recs, scan.sizes))
    {
      hide ScanFile, ReadFrame, Replayed;
      var pos: nat, bytesSinceIndex: nat := 0, 0;
      ghost var done: seq<Record>, sizes: seq<nat> := [], [];
      ReplayStart(base, file);
      while ReadFrame(file[pos..]).Got?
        invariant pos <= |file| && file == old(file) && sealed == old(sealed)
        invariant Replayed(base, file, pos, done, sizes, IndexState(entries, bytesSinceIndex, pos), highWater)
        decreases |file| - pos
      {
        var res := ReadFrame(file[pos..]);
        ReplayStep(base, file, pos, done, sizes, IndexState(entries, bytesSinceIndex, pos), highWater);
        if pos == 0 || bytesSinceIndex >= INDEX_INTERVAL {
          entries := entries + [Entry((res.rec.offset - base) % TWO32, pos % TWO32)];
          bytesSinceIndex := 0;
        }
        pos := pos + res.size;
        bytesSinceIndex := bytesSinceIndex + res.size;
        highWater := res.rec.offset + 1;
        done, sizes := done + [res.rec], sizes + [res.size];
      }
      ReplayEnd(base, file, pos, done, sizes, IndexState(entries, bytesSinceIndex, pos), highWater);
      var stop := ReadFrame(file[pos..]);
      if stop.Malformed? { return false; }
      if !stop.EOF? {
        if sealed { return false; }
        file := file[..pos];
      }
      recs := done;
      size := pos;
      since := bytesSinceIndex;
      ok := true;
    }

    /** Writes one frame and keeps the index in step; the caller chose the offset. */
    method Append(r: Record) returns (ok: bool)
      modifies this
      ensures ok == !old(sealed) && sealed == old(sealed)
      ensures !ok ==> unchanged(this)
      ensures ok ==> recs == old(recs) + [Norm(r)] && file == old(file) + Frame(r) && highWater == r.offset + 1
      ensures ok && old(Valid()) && Fits(r) && r.offset >= old(highWater) ==> Valid()
    {
      hide Frame, IndexStep, Fits, WellFormed, Frames, IndexOf, NextOffset, Norm;
      if sealed { return false; }
      ghost var rs, before, wasValid := recs, IndexState(entries, since, size), Valid();
      var frame := EncodeRecord([], r);
      assert frame == Frame(r);
      IndexStepCases(before, r.offset - base, |frame|);
      if since == 0 || since >= INDEX_INTERVAL {
        entries := entries + [Entry((r.offset - base) % TWO32, size % TWO32)];
        since := 0;
      }
      file := file + frame;
      size := size + |frame|;
      since := since + |frame|;
      highWater := r.offset + 1;
      recs := recs + [Norm(r)];
      if wasValid && Fits(r) && r.offset >= old(highWater) { AppendKeeps(base, rs, r, before); }
      ok := true;
    }

    /** Up to `max` records from `from` on. */
    method ReadFrom(from: int, max: int) returns (res: ReadOutcome)
      ensures res == SegmentRead(base, file, entries, highWater, from, max)
      ensures Valid() && Indexable(base, recs) ==> res == Records(NaiveRead(recs, from, max))
    {
      hide ScanRead, ReadFrame, Frame, Lookup, IndexOf, NaiveRead, Storable;
      if Valid() && Indexable(base, recs) { SegmentReadIsNaive(base, recs, from, max); }
      if max <= 0 { return Records([]); }
      if from >= highWater { return Records([]); }
      var from' := if from < base then base else from;
      var start := LookupLoop(entries, (from' - base) % TWO32);
      if start < 0 || start > |file| { return Records([]); }
      res := ScanFrom(start, from', max);
    }

    method ScanFrom(start: nat, from: int, max: nat) returns (res: ReadOutcome)
      requires start <= |file|
      ensures res == ScanRead(file[start..], from, max)
    {
      hide ReadFrame;
      var pos := start;
      var out: seq<Record> := [];
      ghost var all := ScanRead(file[start..], from, max);
      assert PrependAll([], all) == all by { if all.Records? { assert [] + all.recs == all.recs; } }
      while |out| < max
        invariant start <= pos <= |file| && |out| <= max
        invariant PrependAll(out, ScanRead(file[pos..], from, max - |out|)) == all
        decreases |file| - pos
      {
        var r := ReadFrame(file[pos..]);
        if r.Got? { assert file[pos..][r.size..] == file[pos + r.size..]; }
        match r
        case EOF => break;
        case UnexpectedEOF => break;
        case Torn => return ReadFailed;
        case Malformed => return ReadFailed;
        case Got(rec, n) =>
          if rec.offset >= from {
            PrependOne(out, rec, ScanRead(file[pos + n..], from, max - |out| - 1));
            out := out + [rec];
          }
          pos := pos + n;
      }
      assert out + [] == out;
      res := Records(out);
    }

    predicate ShouldRoll()
      reads this
    {
      size >= maxBytes
    }

    method Seal()
      modifies this`sealed
      ensures sealed && Valid() == old(Valid())
    {
      sealed := true;
    }
  }

  // ----- Steps of the replay loop -----

  function ScanPrepend(done: seq<Record>, sizes: seq<nat>, pos: nat, more: Scan): Scan {
    Scan(done + more.recs, sizes + more.sizes, pos + more.end, more.status)
  }

  lemma ScanPrepend0(s: Scan)
    ensures ScanPrepend([], [], 0, s) == s
  {
    assert [] + s.recs == s.recs && [] + s.sizes == s.sizes;
  }

  lemma ScanPrependSnoc(done: seq<Record>, sizes: seq<nat>, pos: nat, r: Record, n: nat, more: Scan)
    ensures ScanPrepend(done, sizes, pos, ScanPrepend([r], [n], n, more)) == ScanPrepend(done + [r], sizes + [n], pos + n, more)
  {
    Assoc(done, [r], more.recs);
    Assoc(sizes, [n], more.sizes);
  }

  lemma ScanStep(file: bytes, pos: nat)
    requires pos <= |file|
    ensures match ReadFrame(file[pos..])
            case Got(r, n) => 8 <= n && pos + n <= |file| && ScanFile(file[pos..]) == ScanPrepend([r], [n], n, ScanFile(file[pos + n..]))
            case stop => ScanFile(file[pos..]) == Scan([], [], 0, stop)
  {
    hide ReadFrame;
    match ReadFrame(file[pos..])
    case Got(r, n) => assert file[pos..][n..] == file[pos + n..];
    case stop =>
  }

  /** Invariant of the replay loop: what is left of the file completes what was read to the scan
      of the whole, and the index fields are those of the frames read. */
  ghost predicate Replayed(base: int, file: bytes, pos: nat, done: seq<Record>, sizes: seq<nat>, idx: IndexState,
                           hw: int) {
    && pos <= |file| && |sizes| == |done|
    && ScanPrepend(done, sizes, pos, ScanFile(file[pos..])) == ScanFile(file)
    && idx == IndexFold(WrittenAs(base, done, sizes))
    && (idx.since == 0 <==> pos == 0)
    && hw == NextOffset(base, done)
  }

  lemma ReplayStart(base: int, file: bytes)
    ensures Replayed(base, file, 0, [], [], IndexState([], 0, 0), base)
  {
    hide ScanFile;
    assert file[0..] == file;
    ScanPrepend0(ScanFile(file));
  }

  lemma ReplayStep(base: int, file: bytes, pos: nat, done: seq<Record>, sizes: seq<nat>, idx: IndexState, hw: int)
    requires Replayed(base, file, pos, done, sizes, idx, hw) && idx.size == pos && ReadFrame(file[pos..]).Got?
    ensures var r := ReadFrame(file[pos..]);
            var due := pos == 0 || idx.since >= INDEX_INTERVAL;
            var entries := if due then idx.entries + [Entry((r.rec.offset - base) % TWO32, pos % TWO32)] else idx.entries;
            && pos + r.size <= |file| && r.size > 0
            && Replayed(base, file, pos + r.size, done + [r.rec], sizes + [r.size],
                        IndexState(entries, (if due then 0 else idx.since) + r.size, pos + r.size), r.rec.offset + 1)
  {
    hide ScanFile, ReadFrame, IndexFold, IndexStep, WrittenAs;
    var r := ReadFrame(file[pos..]);
    ScanStep(file, pos);
    IndexStepCases(idx, r.rec.offset - base, r.size);
    WrittenSnoc(base, done, sizes, r.rec, r.size);
    IndexFoldSnoc(WrittenAs(base, done, sizes), Written(r.rec.offset - base, r.size));
    ScanPrependSnoc(done, sizes, pos, r.rec, r.size, ScanFile(file[pos + r.size..]));
  }

  lemma ReplayEnd(base: int, file: bytes, pos: nat, done: seq<Record>, sizes: seq<nat>, idx: IndexState, hw: int)
    requires Replayed(base, file, pos, done, sizes, idx, hw) && !ReadFrame(file[pos..]).Got?
    ensures ScanFile(file) == Scan(done, sizes, pos, ReadFrame(file[pos..]))
    ensures idx == IndexFold(WrittenAs(base, done, sizes)) && hw == NextOffset(base, done)
    ensures ReadFrame(file[pos..]).EOF? ==> file[..pos] == file
  {
    hide ScanFile, IndexFold;
    ScanStep(file, pos);
    assert done + [] == done && sizes + [] == sizes;
  }

  lemma IndexStepCases(st: IndexState, rel: int, len: nat)
    ensures var due := st.since == 0 || st.since >= INDEX_INTERVAL;
            IndexStep(st, rel, len) ==
            IndexState(if due then st.entries + [Entry(rel % TWO32, st.size % TWO32)] else st.entries,
                       (if due then 0 else st.since) + len, st.size + len)
  {}

  lemma AppendKeeps(base: int, rs: seq<Record>, r: Record, idx: IndexState)
    requires WellFormed(base, rs) && Fits(r) && r.offset >= NextOffset(base, rs) && idx == IndexOf(base, rs)
    ensures WellFormed(base, rs + [Norm(r)])
    ensures Frames(rs + [Norm(r)]) == Frames(rs) + Frame(r)
    ensures IndexOf(base, rs + [Norm(r)]) == IndexStep(idx, r.offset - base, |Frame(r)|)
    ensures NextOffset(base, rs + [Norm(r)]) == r.offset + 1
  {
    hide Frame, Fits, StorableRecord;
    NormFrame(r);
    IndexSnoc(base, rs, Norm(r));
    ConcatMapSnoc(Frame, rs, Norm(r));
    AppendWellFormed(base, rs, Norm(r));
  }

  lemma NormFrame(r: Record)
    ensures Frame(Norm(r)) == Frame(r) && Norm(r).offset == r.offset && (Fits(r) ==> StorableRecord(Norm(r)))
  {
    NormEncodes(r);
  }

  lemma AppendWellFormed(base: int, rs: seq<Record>, r: Record)
    requires WellFormed(base, rs) && StorableRecord(r) && r.offset >= NextOffset(base, rs)
    ensures WellFormed(base, rs + [r])
  {
    hide StorableRecord;
    StorableParts(rs, [r]);
    assert Storable([r]);
  }
}
