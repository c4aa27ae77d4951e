/** Reading a whole log in bounded batches, each continuing one past the last record returned:
    the loop shared by every consumer that rebuilds state from a topic. */
module Replay {
  import opened Bytes
  import opened Seqs
  import opened Records
  import opened LogSpec
  import opened SegmentSpec
  import opened PartitionSpec

  lemma NaiveReadMembers(rs: seq<Record>, from: int, max: int)
    ensures forall r :: r in NaiveRead(rs, from, max) ==> r in rs && r.offset >= from
  {
    FilterMembers(NotBefore(from), rs);
  }

  lemma {:induction false} ReadPartsMembers(parts: seq<Part>, from: int, max: int)
    ensures forall r :: r in ReadParts(parts, from, max) ==> r in Contents(parts) && r.offset >= from
    decreases |parts|
  {
    hide NaiveRead;
    if parts != [] && max > 0 {
      var rs := NaiveRead(parts[0].recs, from, max);
      NaiveReadMembers(parts[0].recs, from, max);
      if rs != [] { assert rs[|rs| - 1] in rs; }
      ReadPartsMembers(parts[1..], NextOffset(from, rs), max - |rs|);
    }
  }

  lemma BatchInRange(parts: seq<Part>, from: int, max: int)
    ensures forall r :: r in PartitionRead(parts, from, max) ==> r in AtOrAfter(Contents(parts), from)
  {
    hide ReadParts;
    var k := StartPart(parts, from);
    ReadPartsMembers(parts[k..], from, max);
    assert parts == parts[..k] + parts[k..];
    ConcatMapAppend(RecsOf, parts[..k], parts[k..]);
    FilterMembers(NotBefore(from), Contents(parts));
  }

  /** Fewer records remain past an offset at which there was one. */
  lemma Shrinks(rs: seq<Record>, from: int, r: Record)
    requires r in AtOrAfter(rs, from)
    ensures |AtOrAfter(rs, r.offset + 1)| < |AtOrAfter(rs, from)|
  {
    FilterMembers(NotBefore(from), rs);
    FilterShrinks(NotBefore(r.offset + 1), NotBefore(from), rs, r);
  }

  lemma {:induction false} FilterShrinks<T>(p: T -> bool, q: T -> bool, s: seq<T>, x: T)
    requires forall y :: p(y) ==> q(y)
    ensures |Filter(p, s)| <= |Filter(q, s)|
    ensures x in s && q(x) && !p(x) ==> |Filter(p, s)| < |Filter(q, s)|
  {
    if s != [] {
      FilterShrinks(p, q, s[1..], x);
      assert s == [s[0]] + s[1..];
    }
  }

  /** All records a replay loop sees on a list of segments, which need not be disjoint. */
  function ReplayParts(parts: seq<Part>, cursor: int, max: nat): seq<Record>
    requires max > 0
    decreases |AtOrAfter(Contents(parts), cursor)|
  {
    var batch := PartitionRead(parts, cursor, max);
    if batch == [] then [] else
      BatchInRange(parts, cursor, max);
      var last := batch[|batch| - 1];
      Shrinks(Contents(parts), cursor, last);
      batch + ReplayParts(parts, last.offset + 1, max)
  }

  lemma ReplayStep(parts: seq<Part>, cursor: int, max: nat)
    requires max > 0
    ensures var batch := PartitionRead(parts, cursor, max);
            if batch == [] then ReplayParts(parts, cursor, max) == [] else
              var last := batch[|batch| - 1];
              && ReplayParts(parts, cursor, max) == batch + ReplayParts(parts, last.offset + 1, max)
              && |AtOrAfter(Contents(parts), last.offset + 1)| < |AtOrAfter(Contents(parts), cursor)|
  {
    hide PartitionRead, Contents, AtOrAfter;
    var batch := PartitionRead(parts, cursor, max);
    if batch != [] {
      BatchInRange(parts, cursor, max);
      Shrinks(Contents(parts), cursor, batch[|batch| - 1]);
    }
  }

  /** The same loop over the naive reads of a single log. */
  function ReplayLog(rs: seq<Record>, cursor: int, max: nat): seq<Record>
    requires max > 0
    decreases |AtOrAfter(rs, cursor)|
  {
    var batch := NaiveRead(rs, cursor, max);
    if batch == [] then [] else
      var last := batch[|batch| - 1];
      Shrinks(rs, cursor, last);
      batch + ReplayLog(rs, last.offset + 1, max)
  }

  lemma ReadThenRest(rs: seq<Record>, cursor: int, max: nat)
    requires Increasing(rs) && max > 0
    ensures var batch := NaiveRead(rs, cursor, max);
            if batch == [] then AtOrAfter(rs, cursor) == []
            else AtOrAfter(rs, cursor) == batch + AtOrAfter(rs, batch[|batch| - 1].offset + 1)
  {
    var batch := NaiveRead(rs, cursor, max);
    if batch != [] {
      var n := FirstAtOrAfter(rs, cursor, 0);
      AtOrAfterCut(rs, n, cursor);
      var m := n + |batch|;
      assert batch == rs[n..m];
      AtOrAfterCut(rs, m, rs[m - 1].offset + 1);
    }
  }

  /** Batched replay sees exactly the records from the cursor on, each once and in order. */
  lemma {:induction false} ReplayLogIsComplete(rs: seq<Record>, cursor: int, max: nat)
    requires Increasing(rs) && max > 0
    ensures ReplayLog(rs, cursor, max) == AtOrAfter(rs, cursor)
    decreases |AtOrAfter(rs, cursor)|
  {
    hide NaiveRead;
    var batch := NaiveRead(rs, cursor, max);
    ReadThenRest(rs, cursor, max);
    if batch != [] {
      var last := batch[|batch| - 1];
      assert last in AtOrAfter(rs, cursor);
      Shrinks(rs, cursor, last);
      ReplayLogIsComplete(rs, last.offset + 1, max);
    }
  }

  lemma {:induction false} ReplayPartsIsReplayLog(parts: seq<Part>, cursor: int, max: nat)
    requires Ordered(parts) && max > 0
    ensures ReplayParts(parts, cursor, max) == ReplayLog(Contents(parts), cursor, max)
    decreases |AtOrAfter(Contents(parts), cursor)|
  {
    hide NaiveRead, PartitionRead, Ordered;
    PartitionReadIsNaive(parts, cursor, max);
    var batch := PartitionRead(parts, cursor, max);
    if batch != [] {
      BatchInRange(parts, cursor, max);
      Shrinks(Contents(parts), cursor, batch[|batch| - 1]);
      ReplayPartsIsReplayLog(parts, batch[|batch| - 1].offset + 1, max);
    }
  }

  /** Over segments: a replay of an ordered list from `cursor` is the log from `cursor` on. */
  lemma ReplayOrdered(parts: seq<Part>, cursor: int, max: nat)
    requires parts != [] && Ordered(parts) && max > 0
    ensures ReplayParts(parts, cursor, max) == AtOrAfter(Contents(parts), cursor)
  {
    hide Storable;
    ReplayPartsIsReplayLog(parts, cursor, max);
    ContentsBounded(parts, parts[0].base);
    ReplayLogIsComplete(Contents(parts), cursor, max);
  }
}
