/** What a reader sees, and what it folds to, on the segment lists that a crash during compaction
    and the recovery of the next start can leave behind (broker/internal/log/compact.go). */
module CrashFold {
  import opened Bytes
  import opened Seqs
  import opened Records
  import opened LogSpec
  import opened SegmentSpec
  import opened PartitionSpec
  import opened PartitionRuns
  import opened Replay

  // ----- Last value wins, key by key -----

  ghost predicate SameAt(a: Table, b: Table, k: bytes) {
    (k in a <==> k in b) && (k in a ==> a[k] == b[k])
  }

  ghost predicate Touches(rs: seq<Record>, k: bytes) { k != [] && exists i :: 0 <= i < |rs| && rs[i].key == k }

  lemma {:induction false} FoldUntouched(t: Table, rs: seq<Record>, k: bytes)
    requires !Touches(rs, k)
    ensures SameAt(FoldFrom(t, rs), t, k)
  {
    if rs != [] {
      var init := rs[..|rs| - 1];
      FoldUntouched(t, init, k);
      if k != [] { assert rs[|rs| - 1].key != k; }
    }
  }

  lemma {:induction false} FoldTouched(t: Table, u: Table, rs: seq<Record>, k: bytes)
    requires Touches(rs, k)
    ensures SameAt(FoldFrom(t, rs), FoldFrom(u, rs), k)
  {
    var init, last := rs[..|rs| - 1], rs[|rs| - 1];
    if last.key != k {
      assert Touches(init, k) by { var i :| 0 <= i < |rs| && rs[i].key == k; assert init[i].key == k; }
      FoldTouched(t, u, init, k);
    }
  }

  lemma SameAfterAt(t: Table, u: Table, rs: seq<Record>, k: bytes)
    ensures SameAt(FoldFrom(t, rs), FoldFrom(u, rs), k) <==> (Touches(rs, k) || SameAt(t, u, k))
  {
    hide FoldFrom;
    if Touches(rs, k) { FoldTouched(t, u, rs, k); } else { FoldUntouched(t, rs, k); FoldUntouched(u, rs, k); }
  }

  /** Two tables become one under the same records exactly when they agree on every key those
      records leave alone. */
  lemma SameAfter(t: Table, u: Table, rs: seq<Record>)
    ensures FoldFrom(t, rs) == FoldFrom(u, rs) <==> forall k :: Touches(rs, k) || SameAt(t, u, k)
  {
    hide FoldFrom, Touches;
    var ft, fu := FoldFrom(t, rs), FoldFrom(u, rs);
    if ft == fu {
      forall k ensures Touches(rs, k) || SameAt(t, u, k) { SameAfterAt(t, u, rs, k); }
    } else if forall k :: Touches(rs, k) || SameAt(t, u, k) {
      forall k ensures SameAt(ft, fu, k) { SameAfterAt(t, u, rs, k); }
      SameEverywhere(ft, fu);
      assert false;
    }
  }

  lemma SameEverywhere(a: Table, b: Table)
    requires forall k :: SameAt(a, b, k)
    ensures a == b
  {
    forall k ensures k in a <==> k in b { assert SameAt(a, b, k); }
    assert a.Keys == b.Keys;
    forall k | k in a ensures a[k] == b[k] { assert SameAt(a, b, k); }
  }

  lemma TouchesConcat(a: seq<Record>, b: seq<Record>, k: bytes)
    ensures Touches(a + b, k) <==> Touches(a, k) || Touches(b, k)
  {
    if Touches(a, k) { var i :| 0 <= i < |a| && a[i].key == k; assert (a + b)[i].key == k; }
    if Touches(b, k) { var i :| 0 <= i < |b| && b[i].key == k; assert (a + b)[|a| + i].key == k; }
  }

  lemma TouchesSubset(a: seq<Record>, b: seq<Record>, k: bytes)
    requires Touches(a, k) && forall r :: r in a ==> r in b
    ensures Touches(b, k)
  {
    var i :| 0 <= i < |a| && a[i].key == k;
    assert a[i] in b;
  }

  /** A key the second half leaves alone has in the whole the state it had after the first. */
  lemma FoldPrefix(a: seq<Record>, b: seq<Record>, k: bytes)
    requires !Touches(b, k)
    ensures SameAt(Fold(a + b), Fold(a), k)
  {
    hide FoldFrom;
    FoldConcat(map[], a, b);
    FoldUntouched(Fold(a), b, k);
  }

  // ----- Splitting a log at an offset -----

  function Earlier(c: int): Record -> bool { (r: Record) => r.offset < c }

  function Before(rs: seq<Record>, c: int): seq<Record> { Filter(Earlier(c), rs) }

  lemma SplitAt(rs: seq<Record>, c: int)
    requires Increasing(rs)
    ensures rs == Before(rs, c) + AtOrAfter(rs, c)
    ensures AllBefore(Before(rs, c), c) && NoneBefore(AtOrAfter(rs, c), c)
  {
    var n := FirstAtOrAfter(rs, c, 0);
    AtOrAfterCut(rs, n, c);
    assert rs == rs[..n] + rs[n..];
    FilterAppend(Earlier(c), rs[..n], rs[n..]);
    FilterAll(Earlier(c), rs[..n]);
    FilterNone(Earlier(c), rs[n..]);
  }

  // ----- Where the records of a partition about to be compacted lie -----

  /** A partition with at least one sealed segment, seen as removed segments, the ones still
      there, and the active one. */
  ghost predicate Compacting(parts: seq<Part>, kept: seq<Record>) {
    |parts| > 1 && Ordered(parts) && kept == Compacted(Contents(Sealed(parts)))
  }

  lemma SplitParts(a: seq<Part>, b: seq<Part>)
    requires Ordered(a + b) && b != []
    ensures Contents(a + b) == Contents(a) + Contents(b)
    ensures Ordered(a) && Ordered(b)
    ensures AllBefore(Contents(a), b[0].base) && NoneBefore(Contents(b), b[0].base)
    ensures Increasing(Contents(a)) && Increasing(Contents(b)) && Increasing(Contents(a + b))
  {
    hide WellFormed, Storable;
    OrderedParts(a, b);
    ConcatMapAppend(RecsOf, a, b);
    ContentsBounded(b, b[0].base);
    if a == [] {
      assert a + b == b;
    } else {
      ContentsBounded(a, a[0].base);
      WeakenBound(Contents(a), LogHighWater(a), b[0].base);
      IncreasingConcat(Contents(a), Contents(b), b[0].base);
    }
  }

  lemma WeakenBound(rs: seq<Record>, a: int, b: int)
    requires AllBefore(rs, a) && a <= b
    ensures AllBefore(rs, b)
  {}

  /** The log as what the first `g` segments held, the sealed rest, and the active segment. */
  lemma Pieces(parts: seq<Part>, g: nat)
    requires |parts| > 1 && Ordered(parts) && g < |parts|
    ensures var m := |parts| - 1;
            var gone, rest := Contents(parts[..g]), Contents(parts[g..m]);
            && Contents(parts[g..]) == rest + Active(parts).recs
            && Contents(Sealed(parts)) == gone + rest
            && Contents(parts) == gone + Contents(parts[g..])
            && Contents(parts) == Contents(Sealed(parts)) + Active(parts).recs
  {
    hide Ordered, Contents;
    var m := |parts| - 1;
    assert parts == parts[..g] + parts[g..];
    ContentsAppend(parts[..g], parts[g..]);
    assert Sealed(parts) == parts[..g] + parts[g..m];
    ContentsAppend(parts[..g], parts[g..m]);
    assert Sealed(parts[g..]) == parts[g..m];
    SealedThenActive(parts[g..]);
    SealedThenActive(parts);
  }

  lemma ContentsAppend(a: seq<Part>, b: seq<Part>)
    ensures Contents(a + b) == Contents(a) + Contents(b)
  {
    ConcatMapAppend(RecsOf, a, b);
  }

  lemma PieceBounds(parts: seq<Part>, g: nat)
    requires |parts| > 1 && Ordered(parts) && g < |parts|
    ensures Ordered(parts[g..]) && Increasing(Contents(parts[g..])) && Increasing(Contents(parts))
         && Increasing(Contents(Sealed(parts)))
    ensures AllBefore(Contents(parts[..g]), parts[g].base) && NoneBefore(Contents(parts[g..]), parts[g].base)
    ensures AllBefore(Contents(Sealed(parts)), Active(parts).base) && NoneBefore(Active(parts).recs, Active(parts).base)
  {
    hide Ordered;
    assert parts == parts[..g] + parts[g..];
    SplitParts(parts[..g], parts[g..]);
    assert parts == Sealed(parts) + [Active(parts)];
    SplitParts(Sealed(parts), [Active(parts)]);
    ConcatMapOne(RecsOf, Active(parts));
  }

  // ----- Leading segments removed, placeholder discarded -----

  lemma NothingLiveInRemoved(parts: seq<Part>, kept: seq<Record>, g: nat, k: bytes)
    requires Compacting(parts, kept) && g < |parts| && NoneBefore(kept, parts[g].base)
    requires !Touches(Contents(parts[g..]), k)
    ensures k !in Fold(Contents(parts[..g]))
  {
    hide Ordered, Fold, Compacted, Contents;
    var gone, rest := Contents(parts[..g]), Contents(parts[g..|parts| - 1]);
    Pieces(parts, g);
    PieceBounds(parts, g);
    if k in Fold(gone) {
      CompactedIsExact(Contents(Sealed(parts)));
      FoldIsTable(gone);
      TouchesConcat(rest, Active(parts).recs, k);
      FoldPrefix(gone, rest, k);
      assert false;
    }
  }

  /** While every retained record lies at or after the first segment that is left, the removed
      segments held nothing that still matters. */
  lemma DroppedPrefixIsDead(parts: seq<Part>, kept: seq<Record>, g: nat)
    requires Compacting(parts, kept) && g < |parts| && NoneBefore(kept, parts[g].base)
    ensures Fold(Contents(parts[g..])) == Fold(Contents(parts))
  {
    hide Compacting, FoldFrom, Contents;
    var gone, left := Contents(parts[..g]), Contents(parts[g..]);
    assert Compacting(parts, kept);
    CompactingIsOrdered(parts, kept);
    Pieces(parts, g);
    FoldConcat(map[], gone, left);
    forall k ensures Touches(left, k) || SameAt(Fold(gone), map[], k) {
      if !Touches(left, k) { NothingLiveInRemoved(parts, kept, g, k); }
    }
    SameAfter(Fold(gone), map[], left);
  }

  lemma CompactingIsOrdered(parts: seq<Part>, kept: seq<Record>)
    requires Compacting(parts, kept)
    ensures |parts| > 1 && Ordered(parts)
  {}

  // ----- Placeholder renamed in front of segments it overlaps -----

  /** Past the first segment's records, or inside the rest, a read answers from the rest alone. */
  lemma ReadPastFirst(p: Part, rest: seq<Part>, c: int, max: nat)
    requires rest != [] && Ordered(rest) && max > 0 && (c >= rest[0].base || AllBefore(p.recs, c))
    ensures PartitionRead([p] + rest, c, max) == NaiveRead(Contents(rest), c, max)
  {
    hide Ordered, Contents;
    var l := [p] + rest;
    assert l[1..] == rest;
    if c >= rest[0].base {
      PartitionReadIsNaive(rest, c, max);
      assert l[1 + StartPart(rest, c)..] == rest[StartPart(rest, c)..];
    } else {
      ReadPartsIsNaive(rest, c, max);
      AtOrAfterNone(p.recs, c);
      assert l[0..] == l;
    }
  }

  lemma {:induction false} ReplayPastFirst(p: Part, rest: seq<Part>, c: int, max: nat)
    requires rest != [] && Ordered(rest) && max > 0 && (c >= rest[0].base || AllBefore(p.recs, c))
    ensures ReplayParts([p] + rest, c, max) == ReplayLog(Contents(rest), c, max)
    decreases |AtOrAfter(Contents([p] + rest), c)|
  {
    hide Ordered, Contents, PartitionRead, NaiveRead;
    var l := [p] + rest;
    ReadPastFirst(p, rest, c, max);
    var batch := PartitionRead(l, c, max);
    if batch != [] {
      var last := batch[|batch| - 1];
      BatchInRange(l, c, max);
      FilterMembers(NotBefore(c), Contents(l));
      assert last in batch;
      Shrinks(Contents(l), c, last);
      if c < rest[0].base { WeakenBound(p.recs, c, last.offset + 1); }
      ReplayPastFirst(p, rest, last.offset + 1, max);
    }
  }

  lemma ReplayRest(p: Part, rest: seq<Part>, c: int, max: nat)
    requires rest != [] && Ordered(rest) && max > 0 && (c >= rest[0].base || AllBefore(p.recs, c))
    ensures ReplayParts([p] + rest, c, max) == AtOrAfter(Contents(rest), c)
  {
    hide Storable;
    ReplayPastFirst(p, rest, c, max);
    ContentsBounded(rest, rest[0].base);
    ReplayLogIsComplete(Contents(rest), c, max);
  }

  function Between(rs: seq<Record>, from: int, to: int): seq<Record> { Before(AtOrAfter(rs, from), to) }

  lemma BetweenNone(rs: seq<Record>, c: int)
    ensures Between(rs, c, c) == []
  {
    FilterMembers(NotBefore(c), rs);
    var later := AtOrAfter(rs, c);
    forall i | 0 <= i < |later| ensures !Earlier(c)(later[i]) { assert later[i] in later; }
    FilterNone(Earlier(c), later);
  }

  lemma BetweenAll(rs: seq<Record>, from: int, to: int)
    requires AllBefore(rs, to)
    ensures Between(rs, from, to) == AtOrAfter(rs, from)
  {
    FilterMembers(NotBefore(from), rs);
    forall i | 0 <= i < |AtOrAfter(rs, from)| ensures AtOrAfter(rs, from)[i].offset < to { assert AtOrAfter(rs, from)[i] in rs; }
    FilterAll(Earlier(to), AtOrAfter(rs, from));
  }

  lemma BetweenStep(rs: seq<Record>, from: int, max: nat, to: int)
    requires Increasing(rs) && max > 0 && NaiveRead(rs, from, max) != []
    requires var batch := NaiveRead(rs, from, max); to >= batch[|batch| - 1].offset + 1
    ensures var batch := NaiveRead(rs, from, max);
            Between(rs, from, to) == batch + Between(rs, batch[|batch| - 1].offset + 1, to)
  {
    hide NaiveRead;
    var batch := NaiveRead(rs, from, max);
    ReadThenRest(rs, from, max);
    FilterIncreasing(NotBefore(from), rs);
    FilterAppend(Earlier(to), batch, AtOrAfter(rs, batch[|batch| - 1].offset + 1));
    forall i | 0 <= i < |batch| ensures Earlier(to)(batch[i]) {
      assert batch[i] == AtOrAfter(rs, from)[i] && batch[|batch| - 1] == AtOrAfter(rs, from)[|batch| - 1];
    }
    FilterAll(Earlier(to), batch);
  }

  lemma ReadToTheEnd(rs: seq<Record>, cursor: int, max: nat)
    requires Increasing(rs) && |NaiveRead(rs, cursor, max)| < max
    ensures NaiveRead(rs, cursor, max) == AtOrAfter(rs, cursor)
    ensures AllBefore(rs, NextOffset(cursor, AtOrAfter(rs, cursor)))
    ensures cursor <= NextOffset(cursor, AtOrAfter(rs, cursor))
    ensures NextOffset(cursor, AtOrAfter(rs, cursor)) == cursor || NextOffset(cursor, AtOrAfter(rs, cursor)) == NextOffset(cursor, rs)
  {
    var n := FirstAtOrAfter(rs, cursor, 0);
    AtOrAfterCut(rs, n, cursor);
  }

  // ----- Where a batched replay leaves a run of segments -----

  /** The cursor at which a replay leaves some segments, and how much room its batch has left:
      none if a batch ended there. */
  datatype Exit = Exit(cursor: int, room: nat)

  /** Where a replay at `cursor` with `room` left in its batch leaves segments holding `rs` when
      the next segment's base is `bound`. Inside a batch it reads them to their end; a new batch
      starts in them only while the cursor is below `bound`. */
  function Leave(rs: seq<Record>, bound: int, cursor: int, room: nat, max: nat): Exit
    requires max > 0
    decreases |AtOrAfter(rs, cursor)|, if room == 0 then 1 else 0
  {
    if room == 0 then
      if cursor >= bound then Exit(cursor, 0) else Leave(rs, bound, cursor, max, max)
    else
      var batch := NaiveRead(rs, cursor, room);
      if |batch| < room then Exit(NextOffset(cursor, batch), room - |batch|) else
        var last := batch[|batch| - 1];
        assert last in AtOrAfter(rs, cursor);
        Shrinks(rs, cursor, last);
        Leave(rs, bound, last.offset + 1, 0, max)
  }

  lemma FullBatch(rs: seq<Record>, cursor: int, room: nat)
    requires Increasing(rs) && room > 0 && |NaiveRead(rs, cursor, room)| >= room
    ensures var batch := NaiveRead(rs, cursor, room);
            && |batch| == room && batch[|batch| - 1] in rs && batch[|batch| - 1].offset >= cursor
            && |AtOrAfter(rs, batch[|batch| - 1].offset + 1)| < |AtOrAfter(rs, cursor)|
            && rs != [] && rs[|rs| - 1].offset >= batch[|batch| - 1].offset
  {
    var batch := NaiveRead(rs, cursor, room);
    var last := batch[|batch| - 1];
    assert last in AtOrAfter(rs, cursor);
    Shrinks(rs, cursor, last);
    FilterMembers(NotBefore(cursor), rs);
    var i :| 0 <= i < |rs| && rs[i] == last;
  }

  /** It moves forward, never past the end of the records, and leaves either because they are read
      to the end or because a batch ended at or above the bound. */
  lemma {:induction false} LeaveBounds(rs: seq<Record>, bound: int, cursor: int, room: nat, max: nat)
    requires Increasing(rs) && max > 0
    ensures var e := Leave(rs, bound, cursor, room, max);
            && e.cursor >= cursor && (e.cursor == cursor || e.cursor <= NextOffset(cursor, rs))
            && (if e.room == 0 then e.cursor >= bound else AllBefore(rs, e.cursor))
            && (rs != [] && rs[|rs| - 1].offset >= bound ==> e.cursor >= bound)
    decreases |AtOrAfter(rs, cursor)|, if room == 0 then 1 else 0
  {
    hide NaiveRead, AtOrAfter, Increasing;
    if room == 0 {
      if cursor < bound { LeaveBounds(rs, bound, cursor, max, max); }
    } else {
      var batch := NaiveRead(rs, cursor, room);
      if |batch| < room {
        ReadToTheEnd(rs, cursor, room);
      } else {
        FullBatch(rs, cursor, room);
        LeaveBounds(rs, bound, batch[|batch| - 1].offset + 1, 0, max);
      }
    }
  }

  /** The rest of a replay that is about to read from the `i`-th segment on in a batch with `room`
      left. */
  function Continue(l: seq<Part>, i: nat, cursor: int, room: nat, max: nat): seq<Record>
    requires max > 0 && i <= |l|
  {
    var more := ReadParts(l[i..], cursor, room);
    more + ReplayParts(l, NextOffset(cursor, more), max)
  }

  lemma NewBatch(l: seq<Part>, i: nat, cursor: int, max: nat)
    requires max > 0 && i <= |l|
    ensures Continue(l, i, cursor, 0, max) == ReplayParts(l, cursor, max)
  {
    hide ReplayParts;
    assert ReadParts(l[i..], cursor, 0) == [];
  }

  /** Segments that are read as the one log they hold: ordered ones, or a single one. */
  ghost predicate ReadAsOne(a: seq<Part>) { a != [] && (Ordered(a) || (|a| == 1 && Increasing(a[0].recs))) }

  lemma RunIncreasing(a: seq<Part>)
    requires ReadAsOne(a)
    ensures Increasing(Contents(a))
  {
    hide Storable;
    if Ordered(a) { ContentsBounded(a, a[0].base); } else { ConcatMapOne(RecsOf, a[0]); assert a == [a[0]]; }
  }

  lemma {:induction false} ReadThrough(a: seq<Part>, rest: seq<Part>, c: int, m: int)
    requires Ordered(a)
    ensures var rs := NaiveRead(Contents(a), c, m);
            ReadParts(a + rest, c, m) == rs + ReadParts(rest, NextOffset(c, rs), m - |rs|)
  {
    hide *;
    if a == [] {
      NothingFirst(a, rest, c, m);
    } else {
      var p, a' := a[0], a[1..];
      assert a == [p] + a';
      Assoc([p], a', rest);
      FirstOfOrdered(p, a');
      var rs := NaiveRead(p.recs, c, m);
      var next := NextOffset(c, rs);
      ReadOne(p, a' + rest, c, m);
      ReadThrough(a', rest, next, m - |rs|);
      ReadOn(p.recs, Contents(a'), c, m, p.HighWater());
      var more := NaiveRead(Contents(a'), next, m - |rs|);
      NextOfTwo(c, rs, more);
      assert m - |rs + more| == m - |rs| - |more|;
      Assoc(rs, more, ReadParts(rest, NextOffset(next, more), m - |rs| - |more|));
    }
  }

  lemma NothingFirst(a: seq<Part>, rest: seq<Part>, c: int, m: int)
    requires a == []
    ensures NaiveRead(Contents(a), c, m) == [] && ReadParts(a + rest, c, m) == [] + ReadParts(rest, NextOffset(c, []), m - 0)
  {
    hide ReadParts;
    assert a + rest == rest;
  }

  lemma FirstOfOrdered(p: Part, a: seq<Part>)
    requires Ordered([p] + a)
    ensures Ordered(a) && Contents([p] + a) == p.recs + Contents(a)
    ensures Increasing(p.recs) && AllBefore(p.recs, p.HighWater()) && NoneBefore(Contents(a), p.HighWater())
  {
    hide Storable;
    OrderedParts([p], a);
    assert ([p] + a)[0] == p && forall i :: 0 <= i < |a| ==> ([p] + a)[i + 1] == a[i];
    PartBounds(p.base, p.recs);
    ContentsBounded(a, p.HighWater());
    ContentsAppend([p], a);
    OneHolds(p);
  }

  lemma NextOfTwo(c: int, a: seq<Record>, b: seq<Record>)
    ensures NextOffset(c, a + b) == NextOffset(NextOffset(c, a), b)
  {
    if b == [] { assert a + b == a; }
  }

  lemma {:induction false} StartsInRun(a: seq<Part>, rest: seq<Part>, c: int)
    requires a != [] && rest != [] && c < rest[0].base
    ensures StartPart(a + rest, c) == StartPart(a, c) < |a|
  {
    var l := a + rest;
    if |a| == 1 {
      assert l[1] == rest[0];
    } else {
      assert l[1..] == a[1..] + rest;
      StartsInRun(a[1..], rest, c);
    }
  }

  /** A read that starts below the next base finds the run's records first, wherever in the run it
      starts. */
  lemma ReadFromRun(a: seq<Part>, rest: seq<Part>, c: int, m: int)
    requires ReadAsOne(a)
    ensures var rs := NaiveRead(Contents(a), c, m);
            && ReadParts(a + rest, c, m) == rs + ReadParts(rest, NextOffset(c, rs), m - |rs|)
            && (rest != [] && c < rest[0].base ==> PartitionRead(a + rest, c, m) == ReadParts(a + rest, c, m))
  {
    if Ordered(a) {
      hide *;
      ReadThrough(a, rest, c, m);
      if rest != [] && c < rest[0].base { StartInside(a, rest, c, m); }
    } else {
      ReadOne(a[0], rest, c, m);
      assert a == [a[0]];
    }
  }

  lemma StartInside(a: seq<Part>, rest: seq<Part>, c: int, m: int)
    requires a != [] && Ordered(a) && rest != [] && c < rest[0].base
    ensures var rs := NaiveRead(Contents(a), c, m);
            PartitionRead(a + rest, c, m) == rs + ReadParts(rest, NextOffset(c, rs), m - |rs|)
  {
    hide Ordered, StartPart, ReadParts, NaiveRead, Contents;
    var k := StartPart(a, c);
    StartsInRun(a, rest, c);
    assert (a + rest)[k..] == a[k..] + rest && a == a[..k] + a[k..];
    OrderedParts(a[..k], a[k..]);
    SuffixReadsSame(a, k, c, m);
    ReadThrough(a[k..], rest, c, m);
  }

  lemma SuffixReadsSame(a: seq<Part>, k: nat, c: int, m: int)
    requires Ordered(a) && k == StartPart(a, c)
    ensures NaiveRead(Contents(a[k..]), c, m) == NaiveRead(Contents(a), c, m)
  {
    assert a == a[..k] + a[k..];
    SkippedPartsAreBefore(a, c);
    ContentsAppend(a[..k], a[k..]);
    hide Ordered, Contents, StartPart;
    AtOrAfterConcat(Contents(a[..k]), Contents(a[k..]), c);
    AtOrAfterNone(Contents(a[..k]), c);
    assert [] + AtOrAfter(Contents(a[k..]), c) == AtOrAfter(Contents(a[k..]), c);
  }

  lemma ReadOne(p: Part, rest: seq<Part>, c: int, m: int)
    ensures var rs := NaiveRead(p.recs, c, m);
            && Contents([p]) == p.recs && ReadParts([p] + rest, c, m) == rs + ReadParts(rest, NextOffset(c, rs), m - |rs|)
            && (rest != [] && c < rest[0].base ==> PartitionRead([p] + rest, c, m) == ReadParts([p] + rest, c, m))
  {
    OneHolds(p);
    hide NaiveRead, Contents, NextOffset;
    ReadFirst(p, rest, c, m);
    hide ReadParts;
    var l := [p] + rest;
    assert l[0..] == l;
  }

  lemma ReadFirst(p: Part, rest: seq<Part>, c: int, m: int)
    ensures var rs := NaiveRead(p.recs, c, m);
            ReadParts([p] + rest, c, m) == rs + ReadParts(rest, NextOffset(c, rs), m - |rs|)
  {
    hide NaiveRead, NextOffset;
    assert ([p] + rest)[1..] == rest;
    if m <= 0 {
      TakeNothing(p.recs, c, m);
      assert ReadParts(rest, NextOffset(c, []), m - 0) == [];
    }
  }

  lemma TakeNothing(rs: seq<Record>, c: int, m: int)
    requires m <= 0
    ensures NaiveRead(rs, c, m) == []
  {}

  /** A new batch below the next base starts over at the front of the run. */
  lemma BatchFromRun(a: seq<Part>, rest: seq<Part>, c: int, max: nat)
    requires ReadAsOne(a) && rest != [] && c < rest[0].base && max > 0
    ensures ReplayParts(a + rest, c, max) == Continue(a + rest, 0, c, max, max)
  {
    hide *;
    ReadFromRun(a, rest, c, max);
    ReplayStep(a + rest, c, max);
    ContinueDef(a + rest, c, max, max);
  }

  lemma ContinueDef(l: seq<Part>, c: int, room: nat, max: nat)
    requires max > 0
    ensures var more := ReadParts(l, c, room);
            Continue(l, 0, c, room, max) ==
            if more == [] then ReplayParts(l, c, max) else more + ReplayParts(l, more[|more| - 1].offset + 1, max)
  {
    hide ReplayParts, ReadParts;
    assert l[0..] == l;
  }

  /** A replay of a list that begins with a run: the run's records up to where it leaves the run,
      then what follows from there. */
  lemma {:induction false} ReplayLeaves(a: seq<Part>, rest: seq<Part>, cursor: int, room: nat, max: nat)
    requires ReadAsOne(a) && rest != [] && max > 0
    ensures var e := Leave(Contents(a), rest[0].base, cursor, room, max);
            Continue(a + rest, 0, cursor, room, max) ==
            Between(Contents(a), cursor, e.cursor) + Continue(a + rest, |a|, e.cursor, e.room, max)
    decreases |AtOrAfter(Contents(a), cursor)|, if room == 0 then 1 else 0
  {
    hide ReadAsOne, Continue, Contents, NaiveRead, Between, ReplayParts, ReadParts, AtOrAfter;
    var l, rs, bound := a + rest, Contents(a), rest[0].base;
    RunIncreasing(a);
    if room == 0 {
      NewBatch(l, 0, cursor, max);
      if cursor >= bound {
        NewBatch(l, |a|, cursor, max);
        BetweenNone(rs, cursor);
      } else {
        BatchFromRun(a, rest, cursor, max);
        ReplayLeaves(a, rest, cursor, max, max);
      }
    } else if |NaiveRead(rs, cursor, room)| < room {
      RunExhausted(a, rest, cursor, room, max);
    } else {
      FullBatch(rs, cursor, room);
      var batch := NaiveRead(rs, cursor, room);
      var next := batch[|batch| - 1].offset + 1;
      ReplayLeaves(a, rest, next, 0, max);
      RunFillsBatch(a, rest, cursor, room, max);
    }
  }

  /** The run ends inside the batch. */
  lemma RunExhausted(a: seq<Part>, rest: seq<Part>, cursor: int, room: nat, max: nat)
    requires ReadAsOne(a) && max > 0 && |NaiveRead(Contents(a), cursor, room)| < room
    ensures var batch := NaiveRead(Contents(a), cursor, room);
            var c := NextOffset(cursor, batch);
            Continue(a + rest, 0, cursor, room, max) ==
            Between(Contents(a), cursor, c) + Continue(a + rest, |a|, c, room - |batch|, max)
  {
    hide ReadAsOne, Contents, NaiveRead, AtOrAfter, Between, ReplayParts, ReadParts, Increasing, NextOffset, AllBefore;
    var l, rs := a + rest, Contents(a);
    var batch := NaiveRead(rs, cursor, room);
    var c := NextOffset(cursor, batch);
    assert l[0..] == l && l[|a|..] == rest;
    RunIncreasing(a);
    ReadFromRun(a, rest, cursor, room);
    ReadToTheEnd(rs, cursor, room);
    BetweenAll(rs, cursor, c);
    var more := ReadParts(rest, c, room - |batch|);
    NextOfTwo(cursor, batch, more);
    Assoc(batch, more, ReplayParts(l, NextOffset(c, more), max));
  }

  /** The batch ends inside the run. */
  lemma RunFillsBatch(a: seq<Part>, rest: seq<Part>, cursor: int, room: nat, max: nat)
    requires ReadAsOne(a) && rest != [] && max > 0 && room > 0 && |NaiveRead(Contents(a), cursor, room)| >= room
    requires var batch := NaiveRead(Contents(a), cursor, room);
             var next := batch[|batch| - 1].offset + 1;
             var e := Leave(Contents(a), rest[0].base, next, 0, max);
             Continue(a + rest, 0, next, 0, max) ==
             Between(Contents(a), next, e.cursor) + Continue(a + rest, |a|, e.cursor, e.room, max)
    ensures var e := Leave(Contents(a), rest[0].base, cursor, room, max);
            Continue(a + rest, 0, cursor, room, max) ==
            Between(Contents(a), cursor, e.cursor) + Continue(a + rest, |a|, e.cursor, e.room, max)
  {
    hide *;
    var l, rs := a + rest, Contents(a);
    RunIncreasing(a);
    FullBatch(rs, cursor, room);
    var batch := NaiveRead(rs, cursor, room);
    var next := batch[|batch| - 1].offset + 1;
    var e := Leave(rs, rest[0].base, next, 0, max);
    LeaveFull(rs, rest[0].base, cursor, room, max);
    LeaveBounds(rs, rest[0].base, next, 0, max);
    ReadFromRun(a, rest, cursor, room);
    NoRoom(rest, NextOffset(cursor, batch));
    assert batch + [] == batch;
    ContinueDef(l, cursor, room, max);
    NewBatch(l, 0, next, max);
    BetweenStep(rs, cursor, room, e.cursor);
    Assoc(batch, Between(rs, next, e.cursor), Continue(l, |a|, e.cursor, e.room, max));
  }

  lemma LeaveFull(rs: seq<Record>, bound: int, cursor: int, room: nat, max: nat)
    requires max > 0 && room > 0 && |NaiveRead(rs, cursor, room)| >= room
    ensures var batch := NaiveRead(rs, cursor, room);
            Leave(rs, bound, cursor, room, max) == Leave(rs, bound, batch[|batch| - 1].offset + 1, 0, max)
  {
    hide NaiveRead, AtOrAfter;
  }

  lemma NoRoom(parts: seq<Part>, c: int)
    ensures ReadParts(parts, c, 0) == []
  {}

  // ----- Placeholder in front of the ordered rest -----

  /** Once the first segment is left, a replay reads the rest from there on. */
  lemma ContinueInRest(p: Part, rest: seq<Part>, c: int, room: nat, max: nat)
    requires rest != [] && Ordered(rest) && max > 0 && (c >= rest[0].base || AllBefore(p.recs, c))
    ensures Continue([p] + rest, 1, c, room, max) == AtOrAfter(Contents(rest), c)
  {
    hide *;
    var l := [p] + rest;
    if room == 0 {
      NewBatch(l, 1, c, max);
      ReplayRest(p, rest, c, max);
    } else {
      RestIncreasing(rest);
      ReadPartsIsNaive(rest, c, room);
      ReadThenRest(Contents(rest), c, room);
      ContinueSecond(p, rest, c, room, max);
      var more := NaiveRead(Contents(rest), c, room);
      if more == [] {
        ReplayRest(p, rest, c, max);
      } else {
        var next := more[|more| - 1].offset + 1;
        LaterStill(p.recs, Contents(rest), c, room);
        ReplayRest(p, rest, next, max);
      }
    }
  }

  lemma ContinueSecond(p: Part, rest: seq<Part>, c: int, room: nat, max: nat)
    requires max > 0
    ensures var more := ReadParts(rest, c, room);
            Continue([p] + rest, 1, c, room, max) ==
            if more == [] then ReplayParts([p] + rest, c, max)
            else more + ReplayParts([p] + rest, more[|more| - 1].offset + 1, max)
  {
    hide ReplayParts, ReadParts;
    assert ([p] + rest)[1..] == rest;
  }

  lemma LaterStill(first: seq<Record>, rs: seq<Record>, c: int, m: int)
    requires NaiveRead(rs, c, m) != []
    ensures var more := NaiveRead(rs, c, m);
            more[|more| - 1].offset + 1 >= c && (AllBefore(first, c) ==> AllBefore(first, more[|more| - 1].offset + 1))
  {
    var more := NaiveRead(rs, c, m);
    NaiveReadMembers(rs, c, m);
    assert more[|more| - 1] in more;
  }

  /** A list whose first segment overlaps the ordered rest is replayed as its own records up to
      where the replay leaves it and then the rest's from there on. */
  lemma OverlapReplay(p: Part, rest: seq<Part>, cursor: int, room: nat, max: nat)
    requires Increasing(p.recs) && rest != [] && Ordered(rest) && max > 0
    ensures var c := Leave(p.recs, rest[0].base, cursor, room, max).cursor;
            Continue([p] + rest, 0, cursor, room, max) == Between(p.recs, cursor, c) + AtOrAfter(Contents(rest), c)
  {
    ConcatMapOne(RecsOf, p);
    assert ReadAsOne([p]);
    hide *;
    var e := Leave(p.recs, rest[0].base, cursor, room, max);
    LeaveBounds(p.recs, rest[0].base, cursor, room, max);
    ReplayLeaves([p], rest, cursor, room, max);
    OneHolds(p);
    ContinueInRest(p, rest, e.cursor, e.room, max);
  }

  lemma OneHolds(p: Part)
    ensures Contents([p]) == p.recs
  {
    ConcatMapOne(RecsOf, p);
  }

  lemma RestIncreasing(rest: seq<Part>)
    requires rest != [] && Ordered(rest)
    ensures Increasing(Contents(rest))
  {
    hide Storable;
    ContentsBounded(rest, rest[0].base);
  }

  // ----- What such a replay folds to -----

  /** A key that no sealed record at or after `c` and no active record mentions: the retained
      records below `c` and the whole log below `c` agree on it. */
  lemma AgreeBelow(sealed: seq<Record>, active: seq<Record>, kept: seq<Record>, c: int, k: bytes)
    requires Increasing(sealed) && Increasing(sealed + active) && kept == Compacted(sealed) && NoneBefore(active, c)
    requires !Touches(AtOrAfter(sealed + active, c), k)
    ensures SameAt(Fold(Before(kept, c)), Fold(Before(sealed + active, c)), k)
  {
    CompactionPreservesFold(sealed);
    AtOrAfterConcat(sealed, active, c);
    AtOrAfterAll(active, c);
    SubsetAtOrAfter(kept, sealed, c);
    hide *;
    TouchesConcat(AtOrAfter(sealed, c), active, k);
    if Touches(AtOrAfter(kept, c), k) { TouchesSubset(AtOrAfter(kept, c), AtOrAfter(sealed, c), k); }
    SplitAt(kept, c);
    FoldPrefix(Before(kept, c), AtOrAfter(kept, c), k);
    SplitAt(sealed + active, c);
    FoldPrefix(Before(sealed + active, c), AtOrAfter(sealed + active, c), k);
    FoldPrefix(sealed, active, k);
    SameAtChain(Fold(Before(kept, c)), Fold(sealed), Fold(sealed + active), Fold(Before(sealed + active, c)), k);
  }

  lemma SubsetAtOrAfter(a: seq<Record>, b: seq<Record>, c: int)
    requires forall r :: r in a ==> r in b
    ensures forall r :: r in AtOrAfter(a, c) ==> r in AtOrAfter(b, c)
  {
    FilterMembers(NotBefore(c), a);
    FilterMembers(NotBefore(c), b);
  }

  lemma SameAtChain(a: Table, b: Table, c: Table, d: Table, k: bytes)
    requires SameAt(b, a, k) && SameAt(c, b, k) && SameAt(c, d, k)
    ensures SameAt(a, d, k)
  {}

  /** Switching to the rest at `c`, inside it. */
  lemma SwitchInside(parts: seq<Part>, kept: seq<Record>, g: nat, c: int)
    requires Compacting(parts, kept) && g < |parts| && parts[g].base <= c <= Active(parts).base
    ensures Fold(Before(kept, c) + AtOrAfter(Contents(parts[g..]), c)) == Fold(Contents(parts))
  {
    CompactingIsOrdered(parts, kept);
    Pieces(parts, g);
    PieceBounds(parts, g);
    var all, sealed, active, gone, left := Contents(parts), Contents(Sealed(parts)), Active(parts).recs, Contents(parts[..g]), Contents(parts[g..]);
    hide Ordered, Contents, Compacted, FoldFrom, Increasing, Before;
    WeakenBound(gone, parts[g].base, c);
    AtOrAfterConcat(gone, left, c);
    AtOrAfterNone(gone, c);
    assert [] + AtOrAfter(left, c) == AtOrAfter(left, c);
    SplitAt(all, c);
    var high := AtOrAfter(left, c);
    hide *;
    FoldConcat(map[], Before(kept, c), high);
    FoldConcat(map[], Before(all, c), high);
    forall k ensures Touches(high, k) || SameAt(Fold(Before(kept, c)), Fold(Before(all, c)), k) {
      if !Touches(high, k) { AgreeAt(parts, kept, c, k); }
    }
    SameAfter(Fold(Before(kept, c)), Fold(Before(all, c)), high);
    FoldDef(Before(kept, c));
    FoldDef(Before(all, c));
    FoldDef(Before(kept, c) + high);
    FoldDef(all);
  }

  lemma FoldDef(rs: seq<Record>)
    ensures Fold(rs) == FoldFrom(map[], rs)
  {}

  lemma AgreeAt(parts: seq<Part>, kept: seq<Record>, c: int, k: bytes)
    requires Compacting(parts, kept) && c <= Active(parts).base && !Touches(AtOrAfter(Contents(parts), c), k)
    ensures SameAt(Fold(Before(kept, c)), Fold(Before(Contents(parts), c)), k)
  {
    CompactingIsOrdered(parts, kept);
    Pieces(parts, 0);
    PieceBounds(parts, 0);
    hide Ordered, Contents, Fold, Touches, Before, Compacted;
    AgreeBelow(Contents(Sealed(parts)), Active(parts).recs, kept, c, k);
  }

  /** Switching to the rest once all retained records have been read. */
  lemma SwitchAtEnd(parts: seq<Part>, kept: seq<Record>, g: nat)
    requires Compacting(parts, kept) && g < |parts|
    ensures Fold(kept + Contents(parts[g..])) == Fold(Contents(parts))
  {
    CompactingIsOrdered(parts, kept);
    Pieces(parts, g);
    PieceBounds(parts, g);
    CompactionPreservesFold(Contents(Sealed(parts)));
    var gone, left, rest := Contents(parts[..g]), Contents(parts[g..]), Contents(parts[g..|parts| - 1]);
    hide *;
    FoldConcat(map[], kept, left);
    FoldConcat(map[], gone, left);
    forall k ensures Touches(left, k) || SameAt(Fold(kept), Fold(gone), k) {
      TouchesConcat(rest, Active(parts).recs, k);
      if !Touches(left, k) { FoldPrefix(gone, rest, k); }
    }
    SameAfter(Fold(kept), Fold(gone), left);
    FoldDef(kept);
    FoldDef(gone);
    FoldDef(kept + left);
    FoldDef(Contents(parts));
  }

  /** A placeholder renamed in front of any suffix of the old segments: a reader that starts at or
      below the first offset rebuilds the right table, whatever its batch size and although it
      meets retained records twice. */
  lemma OverlapFold(parts: seq<Part>, kept: seq<Record>, base: int, g: nat, cursor: int, max: nat)
    requires Compacting(parts, kept) && kept != [] && g < |parts| && max > 0 && NoneBefore(Contents(parts), cursor)
    ensures Fold(ReplayParts([Part(base, kept)] + parts[g..], cursor, max)) == Fold(Contents(parts))
  {
    CompactingIsOrdered(parts, kept);
    Pieces(parts, g);
    PieceBounds(parts, g);
    CompactionPreservesFold(Contents(Sealed(parts)));
    KeptBounds(parts, kept, cursor);
    var p := Part(base, kept);
    hide *;
    assert p.recs == kept;
    var c := Leave(kept, parts[g].base, cursor, 0, max).cursor;
    OverlapReplay(p, parts[g..], cursor, 0, max);
    NewBatch([p] + parts[g..], 0, cursor, max);
    LeaveBounds(kept, parts[g].base, cursor, 0, max);
    AtOrAfterAll(kept, cursor);
    BetweenFrom(kept, cursor, c);
    if c >= parts[g].base {
      SwitchInside(parts, kept, g, c);
    } else {
      BeforeAll(kept, c);
      NoneBeforeLower(Contents(parts[g..]), parts[g].base, c);
      AtOrAfterAll(Contents(parts[g..]), c);
      SwitchAtEnd(parts, kept, g);
    }
  }

  lemma KeptBounds(parts: seq<Part>, kept: seq<Record>, cursor: int)
    requires Compacting(parts, kept) && kept != [] && NoneBefore(Contents(parts), cursor)
    ensures NoneBefore(kept, cursor) && cursor <= Active(parts).base && NextOffset(cursor, kept) <= Active(parts).base
  {
    hide Compacted, Ordered, Contents, Fold;
    CompactingIsOrdered(parts, kept);
    Pieces(parts, 0);
    PieceBounds(parts, 0);
    CompactionPreservesFold(Contents(Sealed(parts)));
    hide *;
    BoundsOfSubset(kept, Contents(Sealed(parts)), Active(parts).recs, cursor, Active(parts).base);
  }

  lemma BoundsOfSubset(kept: seq<Record>, sealed: seq<Record>, active: seq<Record>, cursor: int, bound: int)
    requires kept != [] && (forall r :: r in kept ==> r in sealed) && NoneBefore(sealed + active, cursor) && AllBefore(sealed, bound)
    ensures NoneBefore(kept, cursor) && cursor <= bound && NextOffset(cursor, kept) <= bound
  {
    forall i | 0 <= i < |kept| ensures cursor <= kept[i].offset < bound {
      assert kept[i] in sealed;
      var j :| 0 <= j < |sealed| && sealed[j] == kept[i];
      assert (sealed + active)[j] == sealed[j];
    }
    assert cursor <= kept[0].offset < bound;
  }

  lemma BetweenFrom(rs: seq<Record>, from: int, to: int)
    requires AtOrAfter(rs, from) == rs
    ensures Between(rs, from, to) == Before(rs, to)
  {}

  lemma BeforeAll(rs: seq<Record>, c: int)
    requires AllBefore(rs, c)
    ensures Before(rs, c) == rs
  {
    FilterAll(Earlier(c), rs);
  }

  lemma NoneBeforeLower(rs: seq<Record>, a: int, b: int)
    requires NoneBefore(rs, a) && b <= a
    ensures NoneBefore(rs, b)
  {}
}
