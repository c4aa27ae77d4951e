/** The passes of compaction (broker/internal/log/compact.go), one method each. */
module Compaction {
  import opened Bytes
  import opened Seqs
  import opened Records
  import opened Codec
  import opened LogSpec
  import opened SegmentSpec
  import opened Segments

  const BATCH := 256

  /** One segment of streamSealedRecords: batched reads, each continuing past the last record. */
  method StreamSegment(s: Segment) returns (visited: seq<Record>)
    requires s.Valid() && Indexable(s.base, s.recs)
    ensures visited == s.recs
  {
    hide IndexOf, Frames, Storable, NaiveRead, SegmentRead, NextOffset;
    visited := [];
    var cursor := s.base;
    var n := 0;
    StreamStart(s.base, s.recs);
    var res := s.ReadFrom(cursor, BATCH);
    while |res.recs| > 0
      invariant n <= |s.recs| && visited == s.recs[..n] && cursor == NextOffset(s.base, visited)
      invariant res == ReadOutcome.Records(NaiveRead(s.recs, cursor, BATCH))
      decreases |s.recs| - n
    {
      var batch := res.recs;
      BatchContinues(s.base, s.recs, n, BATCH);
      visited := visited + batch;
      n := n + |batch|;
      cursor := batch[|batch| - 1].offset + 1;
      res := s.ReadFrom(cursor, BATCH);
    }
    BatchContinues(s.base, s.recs, n, BATCH);
  }

  lemma StreamStart(base: int, rs: seq<Record>)
    ensures rs[..0] == [] && NextOffset(base, rs[..0]) == base
  {}

  /** A batched read that starts just past the first `n` records returns the next ones. */
  lemma BatchContinues(base: int, rs: seq<Record>, n: nat, max: nat)
    requires Increasing(rs) && NoneBefore(rs, base) && n <= |rs| && max > 0
    ensures var batch := NaiveRead(rs, NextOffset(base, rs[..n]), max);
            && n + |batch| <= |rs| && rs[..n] + batch == rs[..n + |batch|]
            && (batch == [] ==> rs[..n] == rs)
            && (batch != [] ==> NextOffset(base, rs[..n + |batch|]) == batch[|batch| - 1].offset + 1)
  {
    PastPrefix(base, rs, n);
    hide AtOrAfter, Increasing, NoneBefore;
    var batch := NaiveRead(rs, NextOffset(base, rs[..n]), max);
    assert rs[..n] + batch == rs[..n + |batch|];
    assert batch == [] ==> rs[n..] == [];
  }

  lemma PastPrefix(base: int, rs: seq<Record>, n: nat)
    requires Increasing(rs) && NoneBefore(rs, base) && n <= |rs|
    ensures AtOrAfter(rs, NextOffset(base, rs[..n])) == rs[n..]
  {
    var from := NextOffset(base, rs[..n]);
    assert AllBefore(rs[..n], from) && NoneBefore(rs[n..], from);
    AtOrAfterCut(rs, n, from);
  }

  /** The offsets pass 1 remembers. */
  ghost function Offsets(t: Table): map<bytes, int> { map k | k in t :: t[k].offset }

  /** Pass 1: the offset of the last value of each key; a tombstone forgets its key. */
  method LatestOffsets(rs: seq<Record>) returns (latest: map<bytes, int>)
    ensures latest == Offsets(Fold(rs))
  {
    latest := map[];
    for i := 0 to |rs|
      invariant latest == Offsets(Fold(rs[..i]))
    {
      var r := rs[i];
      assert rs[..i + 1] == rs[..i] + [r];
      FoldSnoc(map[], rs[..i], r);
      OffsetsApply(Fold(rs[..i]), r);
      hide Fold;
      if |r.key| == 0 {
      } else if r.value.Nil? {
        latest := latest - {r.key};
      } else {
        latest := latest[r.key := r.offset];
      }
    }
    assert rs[..|rs|] == rs;
  }

  lemma OffsetsApply(t: Table, r: Record)
    ensures Offsets(Apply(t, r)) == if r.key == [] then Offsets(t) else if r.value.Nil? then Offsets(t) - {r.key} else Offsets(t)[r.key := r.offset]
  {}

  /** The lowest retained offset, found by walking the map in whatever order it is stored. */
  method LowestOffset(latest: map<bytes, int>) returns (low: int)
    requires latest != map[]
    ensures IsLowest(latest, low)
  {
    var first :| first in latest;
    low := latest[first];
    var rest := latest.Keys;
    while rest != {}
      invariant rest <= latest.Keys
      invariant exists k :: k in latest && latest[k] == low
      invariant forall k :: k in latest && k !in rest ==> low <= latest[k]
      decreases |rest|
    {
      var k :| k in rest;
      if latest[k] < low { low := latest[k]; }
      rest := rest - {k};
    }
  }

  /** What pass 2 tests of each record. */
  predicate Wanted(latest: map<bytes, int>, r: Record) { r.key != [] && r.key in latest && latest[r.key] == r.offset }

  lemma WantedIsCurrent(t: Table, r: Record)
    ensures Wanted(Offsets(t), r) == Current(t)(r)
  {}

  /** Pass 2: a new segment holding the records whose offset is still the latest of their key. */
  method WriteCompacted(rs: seq<Record>, latest: map<bytes, int>, base: int, maxBytes: int) returns (s: Segment)
    requires Storable(rs) && Increasing(rs) && latest == Offsets(Fold(rs)) && forall k :: k in latest ==> base <= latest[k]
    ensures fresh(s) && s.Valid() && s.base == base && s.maxBytes == maxBytes && !s.sealed
    ensures s.recs == Compacted(rs)
  {
    hide Fold, IndexOf, Frames, StorableRecord, WellFormed;
    s := new Segment.Create(base, maxBytes);
    ghost var t := Fold(rs);
    for i := 0 to |rs|
      invariant fresh(s) && s.Valid() && s.base == base && s.maxBytes == maxBytes && !s.sealed
      invariant s.recs == Filter(Current(t), rs[..i])
      invariant i < |rs| ==> NextOffset(base, s.recs) <= rs[i].offset || s.recs == []
    {
      var r := rs[i];
      assert rs[..i + 1] == rs[..i] + [r];
      FilterSnoc(Current(t), rs[..i], r);
      WantedIsCurrent(t, r);
      if Wanted(latest, r) {
        assert StorableRecord(rs[i]);
        StoredAsIs(r);
        var _ := s.Append(r);
      }
    }
    assert rs[..|rs|] == rs;
  }

  lemma StoredAsIs(r: Record)
    requires StorableRecord(r)
    ensures Fits(r) && Norm(r) == r
  {}

  /** Nothing is kept exactly when nothing is live. */
  lemma NothingKept(rs: seq<Record>)
    requires Increasing(rs)
    ensures Offsets(Fold(rs)) == map[] <==> Compacted(rs) == []
  {
    var t, c := Fold(rs), Compacted(rs);
    CompactedIsExact(rs);
    FoldIsTable(rs);
    hide Fold, Compacted;
    if c != [] { assert c[0] in c; }
    if t != map[] {
      var k :| k in t;
      assert t[k] in c;
      assert k in Offsets(t);
    }
  }

  ghost predicate IsLowest(latest: map<bytes, int>, low: int) {
    (exists k :: k in latest && latest[k] == low) && forall k :: k in latest ==> low <= latest[k]
  }

  /** The lowest live offset belongs to the first record kept. */
  lemma LowestIsFirst(rs: seq<Record>, low: int)
    requires Increasing(rs) && IsLowest(Offsets(Fold(rs)), low)
    ensures Compacted(rs) != [] && Compacted(rs)[0].offset == low
  {
    var t, c := Fold(rs), Compacted(rs);
    CompactedIsExact(rs);
    FoldIsTable(rs);
    CompactionPreservesFold(rs);
    hide Fold, Compacted;
    var k :| k in Offsets(t) && Offsets(t)[k] == low;
    assert t[k] in c;
    assert c[0] in c;
    assert c[0].key in Offsets(t);
  }
}
