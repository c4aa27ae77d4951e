/** A partition as an ordered list of segments: the read that walks them, and what append,
    rollover, retention, compaction and reopening do to the list. */
module PartitionSpec {
  import opened Bytes
  import opened Seqs
  import opened Records
  import opened Codec
  import opened LogSpec
  import opened SegmentSpec

  /** One segment: the base offset in its file name and the records in its file. */
  datatype Part = Part(base: int, recs: seq<Record>) {
    function HighWater(): int { NextOffset(base, recs) }
  }

  function RecsOf(p: Part): seq<Record> { p.recs }

  function Contents(parts: seq<Part>): seq<Record> { ConcatMap(RecsOf, parts) }

  function LogHighWater(parts: seq<Part>): int
    requires parts != []
  {
    parts[|parts| - 1].HighWater()
  }

  /** Segments are well formed, ordered by base and disjoint. */
  ghost predicate Ordered(parts: seq<Part>) {
    && (forall i :: 0 <= i < |parts| ==> WellFormed(parts[i].base, parts[i].recs))
    && (forall i, j :: 0 <= i < j < |parts| ==> parts[i].HighWater() <= parts[j].base)
  }

  ghost predicate AllIndexable(parts: seq<Part>) {
    forall i :: 0 <= i < |parts| ==> Indexable(parts[i].base, parts[i].recs)
  }

  // ----- Shape of an ordered list -----

  lemma PartBounds(base: int, rs: seq<Record>)
    requires Increasing(rs) && NoneBefore(rs, base)
    ensures base <= NextOffset(base, rs) && AllBefore(rs, NextOffset(base, rs))
  {}

  lemma OrderedParts(a: seq<Part>, b: seq<Part>)
    requires Ordered(a + b)
    ensures Ordered(a) && Ordered(b)
    ensures forall i, j :: 0 <= i < |a| && 0 <= j < |b| ==> a[i].HighWater() <= b[j].base
  {
    var c := a + b;
    assert forall i :: 0 <= i < |a| ==> c[i] == a[i];
    assert forall j :: 0 <= j < |b| ==> c[|a| + j] == b[j];
  }

  lemma IncreasingConcat(a: seq<Record>, b: seq<Record>, bound: int)
    requires Increasing(a) && Increasing(b) && AllBefore(a, bound) && NoneBefore(b, bound)
    ensures Increasing(a + b)
  {}

  /** The records of an ordered list form one log with increasing offsets between its bounds. */
  lemma {:induction false} ContentsBounded(parts: seq<Part>, lo: int)
    requires Ordered(parts) && (parts != [] ==> lo <= parts[0].base)
    ensures Increasing(Contents(parts)) && NoneBefore(Contents(parts), lo) && Storable(Contents(parts))
    ensures parts != [] ==> AllBefore(Contents(parts), LogHighWater(parts)) && lo <= LogHighWater(parts)
  {
    hide Storable, StorableRecord;
    if parts == [] {
      NothingStored();
    } else {
      var p, rest := parts[0], parts[1..];
      assert parts == [p] + rest;
      OrderedParts([p], rest);
      PartBounds(p.base, p.recs);
      ContentsBounded(rest, p.HighWater());
      IncreasingConcat(p.recs, Contents(rest), p.HighWater());
      StorableParts(p.recs, Contents(rest));
      if rest != [] { assert LogHighWater(rest) == LogHighWater(parts); }
    }
  }

  lemma NothingStored()
    ensures Storable([])
  {}

  // ----- Read across segments -----

  /** The loop of PartitionLog.Read over a list of segments, from the first one on. */
  function ReadParts(parts: seq<Part>, from: int, max: int): seq<Record> {
    if parts == [] || max <= 0 then [] else
      var rs := NaiveRead(parts[0].recs, from, max);
      rs + ReadParts(parts[1..], NextOffset(from, rs), max - |rs|)
  }

  /** The segment the read starts in: the last one whose base is not above `from`, else the first. */
  function StartPart(parts: seq<Part>, from: int): (k: nat)
    ensures k <= |parts|
  {
    if |parts| <= 1 || parts[1].base > from then 0 else 1 + StartPart(parts[1..], from)
  }

  function PartitionRead(parts: seq<Part>, from: int, max: int): seq<Record> {
    ReadParts(parts[StartPart(parts, from)..], from, max)
  }

  /** Reading on from just past what was found is the same as reading on from `from`. */
  lemma ReadOn(a: seq<Record>, b: seq<Record>, from: int, max: int, bound: int)
    requires Increasing(a) && AllBefore(a, bound) && NoneBefore(b, bound)
    ensures var rs := NaiveRead(a, from, max);
            NaiveRead(a + b, from, max) == rs + NaiveRead(b, NextOffset(from, rs), max - |rs|)
  {
    var rs, next := NaiveRead(a, from, max), NextOffset(from, NaiveRead(a, from, max));
    AtOrAfterConcat(a, b, from);
    TakeAppend(AtOrAfter(a, from), AtOrAfter(b, from), max);
    if |rs| < max {
      FilterMembers(NotBefore(from), a);
      if rs != [] {
        assert rs[|rs| - 1] in a;
        AtOrAfterAll(b, from);
        AtOrAfterAll(b, next);
      }
    }
  }

  lemma {:induction false} ReadPartsIsNaive(parts: seq<Part>, from: int, max: int)
    requires Ordered(parts)
    ensures ReadParts(parts, from, max) == NaiveRead(Contents(parts), from, max)
  {
    if parts != [] && max > 0 {
      var p, rest := parts[0], parts[1..];
      assert parts == [p] + rest;
      OrderedParts([p], rest);
      PartBounds(p.base, p.recs);
      ContentsBounded(rest, p.HighWater());
      var rs := NaiveRead(p.recs, from, max);
      ReadPartsIsNaive(rest, NextOffset(from, rs), max - |rs|);
      ReadOn(p.recs, Contents(rest), from, max, p.HighWater());
    }
  }

  lemma {:induction false} SkippedPartsAreBefore(parts: seq<Part>, from: int)
    requires Ordered(parts)
    ensures AllBefore(Contents(parts[..StartPart(parts, from)]), from)
  {
    var k := StartPart(parts, from);
    if k > 0 {
      var p, rest := parts[0], parts[1..];
      assert parts == [p] + rest;
      OrderedParts([p], rest);
      PartBounds(p.base, p.recs);
      SkippedPartsAreBefore(rest, from);
      assert parts[..k] == [p] + rest[..k - 1];
      ConcatMapAppend(RecsOf, [p], rest[..k - 1]);
      ConcatMapOne(RecsOf, p);
    }
  }

  /** Indexed, multi-segment reading equals the naive specification, for logs with offset gaps
      and for any starting offset, below the first base and past the end included. */
  lemma PartitionReadIsNaive(parts: seq<Part>, from: int, max: int)
    requires Ordered(parts)
    ensures PartitionRead(parts, from, max) == NaiveRead(Contents(parts), from, max)
  {
    var k := StartPart(parts, from);
    assert parts == parts[..k] + parts[k..];
    OrderedParts(parts[..k], parts[k..]);
    ReadPartsIsNaive(parts[k..], from, max);
    SkippedPartsAreBefore(parts, from);
    ConcatMapAppend(RecsOf, parts[..k], parts[k..]);
    AtOrAfterConcat(Contents(parts[..k]), Contents(parts[k..]), from);
    AtOrAfterNone(Contents(parts[..k]), from);
    assert [] + AtOrAfter(Contents(parts[k..]), from) == AtOrAfter(Contents(parts[k..]), from);
  }

  /** StartPart is what a binary search over the bases finds. */
  lemma {:induction false} StartPartUnique(parts: seq<Part>, from: int, k: nat)
    requires k < |parts| && (k == 0 || parts[k].base <= from)
    requires forall j :: k < j < |parts| ==> parts[j].base > from
    requires forall i, j :: 0 <= i < j < |parts| ==> parts[i].base <= parts[j].base
    ensures StartPart(parts, from) == k
  {
    if k > 0 { StartPartUnique(parts[1..], from, k - 1); }
  }

  lemma OrderedBases(parts: seq<Part>)
    requires Ordered(parts)
    ensures forall i, j :: 0 <= i < j < |parts| ==> parts[i].base <= parts[j].base
  {
    hide Storable;
    forall i, j | 0 <= i < j < |parts| ensures parts[i].base <= parts[j].base {
      PartBounds(parts[i].base, parts[i].recs);
    }
  }
}
