/** A placeholder whose base is not the base of an existing segment is renamed into the middle of
    the old segments. A batched replay of such a list skips records, and this module says exactly
    when that loses a live key or brings a deleted one back. */
module CrashUnaligned {
  import opened Bytes
  import opened Seqs
  import opened Records
  import opened LogSpec
  import opened SegmentSpec
  import opened PartitionSpec
  import opened PartitionRuns
  import opened Replay
  import opened CrashFold

  /** The old segments from `g` on with the placeholder's records `ph` between segment `j` and the next. */
  function Interleaved(parts: seq<Part>, g: nat, j: nat, base: int, ph: seq<Record>): seq<Part>
    requires g <= j < |parts|
  {
    parts[g..j + 1] + ([Part(base, ph)] + parts[j + 1..])
  }

  lemma {:induction false} StartsPastPrefix(a: seq<Part>, l: seq<Part>, c: int)
    requires l != [] && l[0].base <= c && forall i :: 0 <= i < |a| ==> a[i].base <= c
    ensures StartPart(a + l, c) == |a| + StartPart(l, c)
  {
    if a == [] {
      assert a + l == l;
    } else {
      assert (a + l)[1..] == a[1..] + l;
      assert (a + l)[1] == if |a| > 1 then a[1] else l[0];
      StartsPastPrefix(a[1..], l, c);
    }
  }

  /** From the base of a segment on, what lies before the segment is never read. */
  lemma {:induction false} ReplaysPastPrefix(a: seq<Part>, l: seq<Part>, c: int, max: nat)
    requires l != [] && l[0].base <= c && (forall i :: 0 <= i < |a| ==> a[i].base <= l[0].base) && max > 0
    ensures ReplayParts(a + l, c, max) == ReplayParts(l, c, max)
    decreases |AtOrAfter(Contents(l), c)|
  {
    hide ReplayParts, AtOrAfter, Contents, ReadParts, StartPart;
    StartsPastPrefix(a, l, c);
    assert (a + l)[|a| + StartPart(l, c)..] == l[StartPart(l, c)..];
    ReplayStep(l, c, max);
    ReplayStep(a + l, c, max);
    var batch := PartitionRead(l, c, max);
    if batch != [] {
      BatchInRange(l, c, max);
      FilterMembers(NotBefore(c), Contents(l));
      AtOrAfterDef(Contents(l), c);
      assert batch[|batch| - 1] in batch;
      ReplaysPastPrefix(a, l, batch[|batch| - 1].offset + 1, max);
    }
  }

  lemma AtOrAfterDef(rs: seq<Record>, c: int)
    ensures AtOrAfter(rs, c) == Filter(NotBefore(c), rs)
  {}

  lemma ContinuesPastPrefix(a: seq<Part>, l: seq<Part>, c: int, room: nat, max: nat)
    requires l != [] && l[0].base <= c && (forall i :: 0 <= i < |a| ==> a[i].base <= l[0].base) && max > 0
    ensures Continue(a + l, |a|, c, room, max) == Continue(l, 0, c, room, max)
  {
    hide ReplayParts, ReadParts;
    assert (a + l)[|a|..] == l && l[0..] == l;
    var more := ReadParts(l, c, room);
    ReadPartsMembers(l, c, room);
    if more != [] { assert more[|more| - 1] in more; }
    ReplaysPastPrefix(a, l, NextOffset(c, more), max);
  }

  /** Where a replay leaves the segments up to `j` for a placeholder at `base`. */
  function LeavesOld(through: seq<Record>, base: int, from: int, max: nat): Exit
    requires max > 0
  {
    Leave(through, base, from, 0, max)
  }

  /** Where it then leaves the placeholder for the old segments from base `next` on. */
  function LeavesPlaceholder(through: seq<Record>, base: int, ph: seq<Record>, next: int, from: int, max: nat): Exit
    requires max > 0
  {
    var e := LeavesOld(through, base, from, max);
    Leave(ph, next, e.cursor, e.room, max)
  }

  /** What a batched replay of the interleaved list sees, for every batch size: the old segments
      until a batch ends at or above the placeholder's base or they are read to the end, the
      placeholder from there until a batch ends at or above the next old base or it is read to
      the end, and the old segments from there on. */
  lemma InterleavedReplay(parts: seq<Part>, g: nat, j: nat, base: int, ph: seq<Record>, from: int, max: nat)
    requires |parts| > 1 && Ordered(parts) && g <= j < |parts| - 1 && Increasing(ph) && max > 0
    requires parts[j].base <= base && exists r :: r in Contents(parts[g..j + 1]) && r.offset >= base
    ensures var through := Contents(parts[g..j + 1]);
            var c := LeavesOld(through, base, from, max).cursor;
            var c2 := LeavesPlaceholder(through, base, ph, parts[j + 1].base, from, max).cursor;
            ReplayParts(Interleaved(parts, g, j, base, ph), from, max) ==
            Between(through, from, c) + (Between(ph, c, c2) + AtOrAfter(Contents(parts[j + 1..]), c2))
  {
    hide *;
    var a, b, p := parts[g..j + 1], parts[j + 1..], Part(base, ph);
    var l, through := [p] + b, Contents(a);
    OldSegments(parts, g, j);
    var e := LeavesOld(through, base, from, max);
    LastAtLeast(through, base);
    LeaveBounds(through, base, from, 0, max);
    LeavesDef(through, base, ph, parts[j + 1].base, from, max);
    ReplayLeaves(a, l, from, 0, max);
    NewBatch(a + l, 0, from, max);
    ContinuesPastPrefix(a, l, e.cursor, e.room, max);
    OverlapReplay(p, b, e.cursor, e.room, max);
    InterleavedDef(parts, g, j, base, ph);
  }

  lemma OldSegments(parts: seq<Part>, g: nat, j: nat)
    requires |parts| > 1 && Ordered(parts) && g <= j < |parts| - 1
    ensures ReadAsOne(parts[g..j + 1]) && Increasing(Contents(parts[g..j + 1])) && Ordered(parts[j + 1..])
    ensures var a := parts[g..j + 1]; forall i :: 0 <= i < |a| ==> a[i].base <= parts[j].base
  {
    ThreePieces(parts, g, j);
    OrderedBases(parts);
    hide Ordered, Contents;
    RunIncreasing(parts[g..j + 1]);
  }

  lemma InterleavedDef(parts: seq<Part>, g: nat, j: nat, base: int, ph: seq<Record>)
    requires g <= j < |parts|
    ensures Interleaved(parts, g, j, base, ph) == parts[g..j + 1] + ([Part(base, ph)] + parts[j + 1..])
  {}

  lemma LeavesDef(through: seq<Record>, base: int, ph: seq<Record>, next: int, from: int, max: nat)
    requires max > 0
    ensures var e := LeavesOld(through, base, from, max);
            && e == Leave(through, base, from, 0, max)
            && LeavesPlaceholder(through, base, ph, next, from, max) == Leave(ph, next, e.cursor, e.room, max)
  {
    hide Leave;
  }

  lemma LastAtLeast(rs: seq<Record>, base: int)
    requires Increasing(rs) && exists r :: r in rs && r.offset >= base
    ensures rs != [] && rs[|rs| - 1].offset >= base
  {
    var r :| r in rs && r.offset >= base;
    var i :| 0 <= i < |rs| && rs[i] == r;
  }

  lemma ThreePieces(parts: seq<Part>, g: nat, j: nat)
    requires |parts| > 1 && Ordered(parts) && g <= j < |parts| - 1
    ensures var gone, through, later := Contents(parts[..g]), Contents(parts[g..j + 1]), Contents(parts[j + 1..]);
            && Contents(parts) == gone + (through + later)
            && Ordered(parts[g..j + 1]) && Ordered(parts[j + 1..])
            && AllBefore(gone, parts[g].base) && AllBefore(through, parts[j + 1].base) && NoneBefore(later, parts[j + 1].base)
            && Increasing(gone + through) && Increasing(later)
  {
    hide Ordered;
    var a, b := parts[..g], parts[g..];
    assert parts == a + b;
    SplitParts(a, b);
    assert b == parts[g..j + 1] + parts[j + 1..];
    SplitParts(parts[g..j + 1], parts[j + 1..]);
    assert parts == parts[..j + 1] + parts[j + 1..];
    SplitParts(parts[..j + 1], parts[j + 1..]);
    assert parts[..j + 1] == a + parts[g..j + 1];
    ConcatMapAppend(RecsOf, a, parts[g..j + 1]);
  }

  // ----- When the replay folds to the wrong table -----

  /** The log and what a replay of it saw, split at the offset `c` where the replay left the old
      segments and the offset `c2` where it was back in them: `through` was read, then the
      placeholder's records between the two, then everything from `c2` on. */
  datatype Cut = Cut(gone: seq<Record>, through: seq<Record>, later: seq<Record>,
                     sealed: seq<Record>, active: seq<Record>, kept: seq<Record>, ph: seq<Record>, c: int, c2: int) {
    function Log(): seq<Record> { gone + (through + later) }
    function Seen(): seq<Record> { Between(ph, c, c2) }
    function Skipped(): seq<Record> { Before(Log(), c2) }
    function Rest(): seq<Record> { AtOrAfter(later, c2) }

    ghost predicate Valid() {
      && Increasing(Log()) && Increasing(sealed) && Log() == sealed + active
      && kept == Compacted(sealed) && ph <= kept && c <= c2
      && AllBefore(gone + through, c) && NoneBefore(later, c) && NoneBefore(active, c2)
      && forall r :: r in kept && r.offset < c ==> r in through
    }
  }

  lemma CutSplits(x: Cut)
    requires x.Valid()
    ensures x.Log() == x.Skipped() + x.Rest()
    ensures x.Skipped() == x.gone + x.through + Before(x.later, x.c2) && NoneBefore(Before(x.later, x.c2), x.c)
    ensures Increasing(x.kept) && (forall r :: r in x.kept ==> r in x.sealed)
    ensures forall r :: r in x.Seen() <==> r in x.ph && x.c <= r.offset < x.c2
    ensures forall r :: r in x.ph ==> r in x.kept
  {
    hide Compacted, Fold, Increasing, AtOrAfter, Before, NoneBefore, AllBefore, Between;
    CompactionPreservesFold(x.sealed);
    BetweenMembers(x.ph, x.c, x.c2);
    SplitLog(x.gone, x.through, x.later, x.c, x.c2);
    PrefixMembers(x.ph, x.kept);
  }

  lemma PrefixMembers(a: seq<Record>, b: seq<Record>)
    requires a <= b
    ensures forall r :: r in a ==> r in b
  {
    forall r | r in a ensures r in b { var i :| 0 <= i < |a| && a[i] == r; assert b[i] == r; }
  }

  lemma BetweenMembers(rs: seq<Record>, from: int, to: int)
    ensures forall r :: r in Between(rs, from, to) <==> r in rs && from <= r.offset < to
  {
    FilterMembers(NotBefore(from), rs);
    FilterMembers(Earlier(to), AtOrAfter(rs, from));
  }

  lemma SplitLog(gone: seq<Record>, through: seq<Record>, later: seq<Record>, c: int, c2: int)
    requires Increasing(gone + (through + later)) && AllBefore(gone + through, c) && NoneBefore(later, c) && c <= c2
    ensures var log := gone + (through + later);
            && log == Before(log, c2) + AtOrAfter(later, c2)
            && Before(log, c2) == gone + through + Before(later, c2) && NoneBefore(Before(later, c2), c)
  {
    hide Before, AtOrAfter, Increasing, NoneBefore, AllBefore;
    var past := gone + through;
    SplitAt(gone + (through + later), c2);
    Assoc(gone, through, later);
    WeakenBound(past, c, c2);
    AtOrAfterConcat(past, later, c2);
    AtOrAfterNone(past, c2);
    assert [] + AtOrAfter(later, c2) == AtOrAfter(later, c2);
    BeforeConcat(past, later, c2);
    BeforeKeepsBound(later, c, c2);
  }

  lemma BeforeConcat(past: seq<Record>, later: seq<Record>, c: int)
    requires AllBefore(past, c)
    ensures Before(past + later, c) == past + Before(later, c)
  {
    FilterAppend(Earlier(c), past, later);
    FilterAll(Earlier(c), past);
  }

  lemma BeforeKeepsBound(rs: seq<Record>, bound: int, c: int)
    requires NoneBefore(rs, bound)
    ensures NoneBefore(Before(rs, c), bound)
  {
    FilterMembers(Earlier(c), rs);
    var m := Before(rs, c);
    forall i | 0 <= i < |m| ensures bound <= m[i].offset { assert m[i] in rs; }
  }

  /** A key untouched after the resume point is live below it exactly if it is retained. */
  lemma LiveBelow(x: Cut, k: bytes)
    requires x.Valid() && !Touches(x.Rest(), k)
    ensures SameAt(Fold(x.Skipped()), Fold(x.sealed), k)
  {
    CutSplits(x);
    AtOrAfterAll(x.active, x.c2);
    ActiveIsRest(x);
    hide *;
    if Touches(x.active, k) { TouchesSubset(x.active, x.Rest(), k); }
    FoldPrefix(x.Skipped(), x.Rest(), k);
    FoldPrefix(x.sealed, x.active, k);
    SameAtSwap(Fold(x.Log()), Fold(x.Skipped()), Fold(x.sealed), k);
    LogIsSealedActive(x);
  }

  lemma LogIsSealedActive(x: Cut)
    requires x.Valid()
    ensures x.Log() == x.sealed + x.active
  {}

  lemma SameAtSwap(a: Table, b: Table, c: Table, k: bytes)
    ensures SameAt(a, b, k) && SameAt(a, c, k) ==> SameAt(b, c, k)
  {}

  lemma ActiveIsRest(x: Cut)
    requires x.Valid()
    ensures forall r :: r in x.active ==> r in x.Rest()
  {
    hide Compacted, Increasing;
    FilterMembers(NotBefore(x.c2), x.later);
    forall r | r in x.active ensures r in x.Rest() {
      var i :| 0 <= i < |x.active| && x.active[i] == r;
      assert (x.sealed + x.active)[|x.sealed| + i] == r;
      assert r in x.gone + (x.through + x.later);
      if r in x.gone + x.through { assert false; }
    }
  }

  /** Records with distinct keys and values fold to themselves. */
  lemma {:induction false} DistinctFold(rs: seq<Record>, r: Record)
    requires forall i, j :: 0 <= i < j < |rs| ==> rs[i].key != rs[j].key
    requires r in rs && forall q :: q in rs ==> q.key != [] && !q.value.Nil?
    ensures r.key in Fold(rs) && Fold(rs)[r.key] == r
  {
    var init, last := rs[..|rs| - 1], rs[|rs| - 1];
    assert rs == init + [last];
    if r != last {
      assert r in init;
      DistinctFold(init, r);
      var i :| 0 <= i < |init| && init[i] == r;
      assert rs[i].key != last.key;
    }
  }

  lemma SeenFolds(x: Cut, r: Record)
    requires x.Valid() && r in x.ph && x.c <= r.offset < x.c2
    ensures r in x.Seen() && r.key in Fold(x.Seen()) && Fold(x.Seen())[r.key] == r && Touches(x.Seen(), r.key)
  {
    CompactedIsExact(x.sealed);
    FoldIsTable(x.sealed);
    CutSplits(x);
    hide Compacted, FoldFrom, Increasing, AtOrAfter, Before, Touches;
    SpanFolds(x.kept, x.ph, x.c, x.c2, r);
  }

  /** A span of distinct records folds to itself. */
  lemma SpanFolds(kept: seq<Record>, ph: seq<Record>, c: int, c2: int, r: Record)
    requires Increasing(kept) && ph <= kept && r in Between(ph, c, c2)
    requires forall i, j :: 0 <= i < j < |kept| ==> kept[i].key != kept[j].key
    requires forall q :: q in kept ==> q.key != [] && !q.value.Nil?
    ensures var seen := Between(ph, c, c2);
            r.key in Fold(seen) && Fold(seen)[r.key] == r && Touches(seen, r.key)
  {
    var seen := Between(ph, c, c2);
    var n, m := SpanIsSlice(ph, c, c2);
    hide FoldFrom, Between;
    forall i, j | 0 <= i < j < |seen| ensures seen[i].key != seen[j].key {
      assert kept[n + i].key != kept[n + j].key;
    }
    forall q | q in seen ensures q.key != [] && !q.value.Nil? {
      var i :| 0 <= i < |seen| && seen[i] == q;
      assert kept[n + i] in kept;
    }
    hide Increasing;
    DistinctFold(seen, r);
  }

  lemma SpanIsSlice(ph: seq<Record>, c: int, c2: int) returns (n: nat, m: nat)
    requires Increasing(ph)
    ensures n <= m <= |ph| && Between(ph, c, c2) == ph[n..m]
  {
    hide AtOrAfter, Before;
    n := SplitIndex(ph, c);
    var k := SplitIndex(ph[n..], c2);
    m := n + k;
    assert ph[n..][..k] == ph[n..m];
  }

  lemma SplitIndex(rs: seq<Record>, c: int) returns (n: nat)
    requires Increasing(rs)
    ensures n <= |rs| && Before(rs, c) == rs[..n] && AtOrAfter(rs, c) == rs[n..]
  {
    n := FirstAtOrAfter(rs, c, 0);
    AtOrAfterCut(rs, n, c);
    assert rs == rs[..n] + rs[n..];
    FilterAppend(Earlier(c), rs[..n], rs[n..]);
    FilterAll(Earlier(c), rs[..n]);
    FilterNone(Earlier(c), rs[n..]);
  }

  /** Nothing of the placeholder that was read mentions a key whose retained record is not among
      what was read, or that has none. */
  lemma SeenSilent(x: Cut, k: bytes)
    requires x.Valid() && !(k in Fold(x.sealed) && Fold(x.sealed)[k] in x.Seen())
    ensures !Touches(x.Seen(), k)
  {
    CutSplits(x);
    CompactedIsExact(x.sealed);
    hide Compacted, Fold, Increasing;
    if Touches(x.Seen(), k) { assert false; }
  }

  /** A live key that the read found only in the segments read through. */
  lemma LiveThrough(x: Cut, k: bytes)
    requires x.Valid() && k in Fold(x.Skipped()) && Fold(x.Skipped())[k].offset < x.c
          && Fold(x.Skipped())[k] in x.through
    ensures SameAt(Fold(x.through), Fold(x.Skipped()), k)
  {
    CutSplits(x);
    var r, m, past := Fold(x.Skipped())[k], Before(x.later, x.c2), x.gone + x.through;
    FoldIsTable(x.Skipped());
    FoldIsTable(m);
    FoldConcat(map[], past, m);
    FoldConcat(map[], x.gone, x.through);
    assert Touches(x.through, k) by { var i :| 0 <= i < |x.through| && x.through[i] == r; }
    hide FoldFrom, Increasing, Compacted;
    FoldTouched(Fold(x.gone), map[], x.through, k);
    if Touches(m, k) {
      FoldTouched(Fold(past), map[], m, k);
      assert false;
    }
    FoldUntouched(Fold(past), m, k);
  }

  /** The key's retained record lies where the placeholder was read instead of the old segments,
      and the placeholder does not have it. */
  ghost predicate Missing(x: Cut, k: bytes) {
    var t := Fold(x.Skipped());
    k in t && t[k].offset >= x.c && t[k] !in x.ph
  }

  /** What a replay of the interleaved list makes of a key that nothing after the resume point
      mentions: it is right unless the key was live where the placeholder interrupts the old
      segments and is dead by the resume point, or its retained record was missed. */
  lemma AgreesUnless(x: Cut, k: bytes)
    requires x.Valid() && !Touches(x.Rest(), k)
    ensures SameAt(Fold(x.through + x.Seen()), Fold(x.Skipped()), k) <==>
            !(k in Fold(x.through) && k !in Fold(x.Skipped())) && !Missing(x, k)
  {
    var t := Fold(x.Skipped());
    LiveBelow(x, k);
    if k in t {
      SkippedBelow(x, k);
      var r := t[k];
      hide *;
      if r.offset < x.c {
        AgreesBelow(x, k, r);
        NotMissing(x, k);
      } else if r in x.ph {
        AgreesSeen(x, k, r);
        NotMissing(x, k);
      } else {
        DisagreesMissing(x, k, r);
      }
    } else {
      SeenSilent(x, k);
      hide FoldFrom;
      FoldPrefix(x.through, x.Seen(), k);
    }
  }

  lemma NotMissing(x: Cut, k: bytes)
    requires k in Fold(x.Skipped()) && (Fold(x.Skipped())[k].offset < x.c || Fold(x.Skipped())[k] in x.ph)
    ensures !Missing(x, k)
  {
    hide Fold;
  }

  lemma AgreesBelow(x: Cut, k: bytes, r: Record)
    requires x.Valid() && k in Fold(x.Skipped()) && Fold(x.Skipped())[k] == r && r.offset < x.c
    requires r in x.kept && k in Fold(x.sealed) && Fold(x.sealed)[k] == r
    ensures SameAt(Fold(x.through + x.Seen()), Fold(x.Skipped()), k)
  {
    hide *;
    CutSplits(x);
    SeenSilent(x, k);
    FoldPrefix(x.through, x.Seen(), k);
    KeptInThrough(x, r);
    LiveThrough(x, k);
    SameAtTrans(Fold(x.through + x.Seen()), Fold(x.through), Fold(x.Skipped()), k);
  }

  lemma AgreesSeen(x: Cut, k: bytes, r: Record)
    requires x.Valid() && k in Fold(x.Skipped()) && Fold(x.Skipped())[k] == r && r.key == k
    requires r in x.ph && x.c <= r.offset < x.c2
    ensures SameAt(Fold(x.through + x.Seen()), Fold(x.Skipped()), k)
  {
    hide *;
    SeenFolds(x, r);
    FoldConcat(map[], x.through, x.Seen());
    FoldTouched(Fold(x.through), map[], x.Seen(), k);
    FoldDef(x.through + x.Seen());
    FoldDef(x.Seen());
    FoldDef(x.through);
    SameAtValue(Fold(x.through + x.Seen()), Fold(x.Seen()), Fold(x.Skipped()), k);
  }

  lemma DisagreesMissing(x: Cut, k: bytes, r: Record)
    requires x.Valid() && k in Fold(x.Skipped()) && Fold(x.Skipped())[k] == r && r.offset >= x.c && r !in x.ph
    requires k in Fold(x.sealed) && Fold(x.sealed)[k] == r
    ensures !SameAt(Fold(x.through + x.Seen()), Fold(x.Skipped()), k) && Missing(x, k)
  {
    FoldIsTable(x.through);
    ThroughBelow(x);
    hide Fold, AtOrAfter, Before, Touches, Cut.Valid, Cut.Seen, Cut.Skipped;
    CutSplits(x);
    SeenSilent(x, k);
    FoldPrefix(x.through, x.Seen(), k);
  }

  lemma ThroughBelow(x: Cut)
    requires x.Valid()
    ensures forall r :: r in x.through ==> r.offset < x.c
  {
    hide Increasing, Compacted, AtOrAfter, Before;
    forall r | r in x.through ensures r.offset < x.c {
      var i :| 0 <= i < |x.through| && x.through[i] == r;
      assert (x.gone + x.through)[|x.gone| + i] == r;
    }
  }

  lemma SkippedBelow(x: Cut, k: bytes)
    requires x.Valid() && k in Fold(x.Skipped()) && SameAt(Fold(x.Skipped()), Fold(x.sealed), k)
    ensures var r := Fold(x.Skipped())[k]; r.key == k && r.offset < x.c2 && r in x.kept && k in Fold(x.sealed) && Fold(x.sealed)[k] == r
  {
    FoldIsTable(x.Skipped());
    FilterMembers(Earlier(x.c2), x.Log());
    CompactedIsExact(x.sealed);
    hide FoldFrom, Compacted, Increasing;
  }

  lemma KeptInThrough(x: Cut, r: Record)
    requires x.Valid() && r in x.kept && r.offset < x.c
    ensures r in x.through
  {}

  lemma SameAtValue(a: Table, b: Table, t: Table, k: bytes)
    requires SameAt(a, b, k) && k in b && k in t && b[k] == t[k]
    ensures SameAt(a, t, k)
  {}

  lemma SameAtTrans(a: Table, b: Table, c: Table, k: bytes)
    requires SameAt(a, b, k) && SameAt(b, c, k)
    ensures SameAt(a, c, k)
  {}

  /** The key was live when the placeholder cut in, is dead at the resume point, and nothing
      after the resume point mentions it again. */
  ghost predicate Resurrected(x: Cut, k: bytes) {
    k in Fold(x.through) && k !in Fold(x.Skipped()) && !Touches(x.Rest(), k)
  }

  /** A retained record between the two points that the placeholder does not have, of a key that
      nothing after the resume point mentions. */
  ghost predicate Lost(x: Cut, r: Record) {
    r in x.kept && x.c <= r.offset < x.c2 && r !in x.ph && !Touches(x.Rest(), r.key)
  }

  /** Neither a resurrected key nor a lost record. */
  ghost predicate Sound(x: Cut) { (forall k :: !Resurrected(x, k)) && (forall r :: !Lost(x, r)) }

  lemma MissingIsLost(x: Cut, k: bytes)
    requires x.Valid() && !Touches(x.Rest(), k)
    ensures Missing(x, k) <==> exists r :: Lost(x, r) && r.key == k
  {
    LiveBelow(x, k);
    CompactedIsExact(x.sealed);
    if Missing(x, k) {
      SkippedBelow(x, k);
      hide Fold, Compacted, Increasing, Touches;
      assert Lost(x, Fold(x.Skipped())[k]);
    }
    if r :| Lost(x, r) && r.key == k {
      hide Fold, Compacted, Increasing, Touches;
      assert k in Fold(x.sealed) && Fold(x.sealed)[k] == r;
    }
  }

  /** Exactly when a replay of an interleaved list folds to the right table. */
  lemma CutFoldIff(x: Cut)
    requires x.Valid()
    ensures Fold(x.through + (x.Seen() + x.Rest())) == Fold(x.Log()) <==> Sound(x)
  {
    CutSplits(x);
    var a, b := x.through + x.Seen(), x.Skipped();
    Assoc(x.through, x.Seen(), x.Rest());
    hide FoldFrom, Increasing, Compacted, Touches, Before, AtOrAfter, Between, Missing, Lost;
    FoldConcat(map[], a, x.Rest());
    FoldConcat(map[], b, x.Rest());
    SameAfter(Fold(a), Fold(b), x.Rest());
    forall k ensures (Touches(x.Rest(), k) || SameAt(Fold(a), Fold(b), k)) <==> (!Resurrected(x, k) && (Touches(x.Rest(), k) || !Missing(x, k))) {
      if !Touches(x.Rest(), k) { AgreesUnless(x, k); }
    }
    LostSomewhere(x);
  }

  lemma LostSomewhere(x: Cut)
    requires x.Valid()
    ensures (forall r :: !Lost(x, r)) <==> (forall k :: Touches(x.Rest(), k) || !Missing(x, k))
  {
    hide Cut.Valid, Cut.Rest, Touches, Missing;
    if r :| Lost(x, r) {
      MissingIsLost(x, r.key);
    }
    if k :| !Touches(x.Rest(), k) && Missing(x, k) {
      MissingIsLost(x, k);
    }
  }

  /** A resurrected key is in the replayed table and was not in the old one. */
  lemma ResurrectedComesBack(x: Cut, k: bytes)
    requires x.Valid() && Resurrected(x, k)
    ensures k in Fold(x.through + (x.Seen() + x.Rest())) && k !in Fold(x.Log())
  {
    CutSplits(x);
    LiveBelow(x, k);
    SeenSilent(x, k);
    hide FoldFrom, Touches, Increasing, Compacted, Before, AtOrAfter;
    Assoc(x.through, x.Seen(), x.Rest());
    FoldPrefix(x.through, x.Seen(), k);
    FoldPrefix(x.through + x.Seen(), x.Rest(), k);
    FoldPrefix(x.Skipped(), x.Rest(), k);
  }

  /** A lost record was its key's entry in the old table and is not in the replayed one. */
  lemma LostIsGone(x: Cut, r: Record)
    requires x.Valid() && Lost(x, r)
    ensures r.key in Fold(x.Log()) && Fold(x.Log())[r.key] == r
    ensures var t := Fold(x.through + (x.Seen() + x.Rest())); !(r.key in t && t[r.key] == r)
  {
    var k := r.key;
    CutSplits(x);
    LiveBelow(x, k);
    MissingIsLost(x, k);
    CompactedIsExact(x.sealed);
    hide FoldFrom, Touches, Increasing, Compacted, Before, AtOrAfter;
    assert Missing(x, k);
    Assoc(x.through, x.Seen(), x.Rest());
    DisagreesMissing(x, k, Fold(x.Skipped())[k]);
    FoldPrefix(x.through + x.Seen(), x.Rest(), k);
    FoldPrefix(x.Skipped(), x.Rest(), k);
  }

  // ----- The interleaved list of a real crash -----

  /** Where a replay is back in the old segments: at their next base if it left the placeholder
      below that. */
  function BackAt(parts: seq<Part>, kept: seq<Record>, ph: seq<Record>, g: nat, j: nat, from: int, max: nat): int
    requires kept != [] && g <= j < |parts| - 1 && max > 0
  {
    var c := LeavesPlaceholder(Contents(parts[g..j + 1]), kept[0].offset, ph, parts[j + 1].base, from, max).cursor;
    if c < parts[j + 1].base then parts[j + 1].base else c
  }

  function CutOf(parts: seq<Part>, kept: seq<Record>, ph: seq<Record>, g: nat, j: nat, from: int, max: nat): Cut
    requires kept != [] && g <= j < |parts| - 1 && max > 0
  {
    var through := Contents(parts[g..j + 1]);
    var c := LeavesOld(through, kept[0].offset, from, max).cursor;
    Cut(Contents(parts[..g]), Before(through, c), AtOrAfter(through, c) + Contents(parts[j + 1..]),
        Contents(Sealed(parts)), Active(parts).recs, kept, ph, c, BackAt(parts, kept, ph, g, j, from, max))
  }

  /** The placeholder's base is the offset of the first retained record, strictly inside segment
      `j`, one of the segments still there; the placeholder holds some of the retained records. */
  ghost predicate Interrupted(parts: seq<Part>, kept: seq<Record>, ph: seq<Record>, g: nat, j: nat) {
    && Compacting(parts, kept) && kept != [] && ph <= kept && g <= j < |parts| - 1
    && parts[j].base < kept[0].offset < parts[j + 1].base
  }

  lemma KeptPrefixBound(kept: seq<Record>, ph: seq<Record>, sealed: seq<Record>, bound: int)
    requires ph <= kept && AllBefore(sealed, bound) && forall r :: r in kept ==> r in sealed
    ensures AllBefore(ph, bound)
  {
    forall i | 0 <= i < |ph| ensures ph[i].offset < bound { assert kept[i] in sealed; }
  }

  lemma KeptAreSealed(parts: seq<Part>, kept: seq<Record>)
    requires Compacting(parts, kept)
    ensures forall r :: r in kept ==> r in Contents(Sealed(parts))
  {
    FilterMembers(Current(Fold(Contents(Sealed(parts)))), Contents(Sealed(parts)));
  }

  lemma LocateKept(parts: seq<Part>, r: Record, g: nat, j: nat)
    requires |parts| > 1 && Ordered(parts) && g <= j < |parts| - 1
    requires r in Contents(Sealed(parts)) && parts[g].base <= r.offset < parts[j + 1].base
    ensures r in Contents(parts[g..j + 1])
  {
    hide Ordered, Contents, AllBefore, NoneBefore, Increasing;
    Pieces(parts, g);
    ThreePieces(parts, g, j);
    hide *;
    InMiddle(r, Contents(Sealed(parts)), Active(parts).recs,
             Contents(parts[..g]), Contents(parts[g..j + 1]), Contents(parts[j + 1..]), parts[g].base, parts[j + 1].base);
  }

  lemma InMiddle(r: Record, sealed: seq<Record>, active: seq<Record>, a: seq<Record>, b: seq<Record>,
                 c: seq<Record>, lo: int, hi: int)
    requires sealed + active == a + (b + c) && r in sealed && AllBefore(a, lo) && NoneBefore(c, hi)
          && lo <= r.offset < hi
    ensures r in b
  {
    assert r in sealed + active;
    assert r in a + (b + c);
  }

  /** The first retained record is one of those in segment `j`, and none precedes it. */
  lemma FirstKept(parts: seq<Part>, kept: seq<Record>, ph: seq<Record>, g: nat, j: nat)
    requires Interrupted(parts, kept, ph, g, j)
    ensures kept[0] in Contents(parts[g..j + 1]) && NoneBefore(kept, kept[0].offset) && Increasing(ph)
    ensures parts[g].base <= parts[j].base && AllBefore(ph, Active(parts).base)
    ensures forall r :: r in kept ==> r in Contents(Sealed(parts))
  {
    CompactingIsOrdered(parts, kept);
    OrderedBases(parts);
    KeptAreSealed(parts, kept);
    PieceBounds(parts, g);
    CompactionPreservesFold(Contents(Sealed(parts)));
    hide Ordered, Contents, Compacted, Fold;
    assert kept[0] in kept;
    LocateKept(parts, kept[0], g, j);
    KeptPrefixBound(kept, ph, Contents(Sealed(parts)), Active(parts).base);
  }

  /** The points where the replay leaves the old segments and is back in them. */
  lemma CutBounds(parts: seq<Part>, kept: seq<Record>, ph: seq<Record>, g: nat, j: nat, from: int, max: nat)
    requires Interrupted(parts, kept, ph, g, j) && NoneBefore(Contents(parts), from) && max > 0
    ensures var x := CutOf(parts, kept, ph, g, j, from, max);
            kept[0].offset <= x.c <= parts[j + 1].base <= x.c2 <= Active(parts).base
  {
    hide Ordered, Contents, Compacted, Leave, Increasing, Before, AtOrAfter;
    CompactingIsOrdered(parts, kept);
    OrderedBases(parts);
    FirstKept(parts, kept, ph, g, j);
    ThreePieces(parts, g, j);
    var through, base, next := Contents(parts[g..j + 1]), kept[0].offset, parts[j + 1].base;
    assert kept[0] in Contents(parts) by { InThree(Contents(parts[..g]), through, Contents(parts[j + 1..]), kept[0]); }
    OldSegments(parts, g, j);
    assert from <= base;
    LastAtLeast(through, base);
    LeaveBounds(through, base, from, 0, max);
    EndBelow(from, through, next);
    var e := LeavesOld(through, base, from, max);
    LeaveBounds(ph, next, e.cursor, e.room, max);
    EndBelow(e.cursor, ph, Active(parts).base);
  }

  lemma InThree(a: seq<Record>, b: seq<Record>, c: seq<Record>, r: Record)
    requires r in b
    ensures r in a + (b + c)
  {}

  lemma EndBelow(from: int, rs: seq<Record>, bound: int)
    requires from <= bound && AllBefore(rs, bound)
    ensures NextOffset(from, rs) <= bound
  {}

  /** The old segments read up to `c` and the ones after them are what the cut is made of. */
  lemma CutIsValid(parts: seq<Part>, kept: seq<Record>, ph: seq<Record>, g: nat, j: nat, from: int, max: nat)
    requires Interrupted(parts, kept, ph, g, j) && NoneBefore(Contents(parts), from) && max > 0
    ensures CutOf(parts, kept, ph, g, j, from, max).Valid()
    ensures CutOf(parts, kept, ph, g, j, from, max).Log() == Contents(parts)
  {
    hide Ordered, Contents, Compacted, Increasing, Leave, LeavesOld, LeavesPlaceholder, BackAt, NoneBefore, AllBefore;
    CompactingIsOrdered(parts, kept);
    Pieces(parts, g);
    PieceBounds(parts, g);
    ThreePieces(parts, g, j);
    OldSegments(parts, g, j);
    FirstKept(parts, kept, ph, g, j);
    CutBounds(parts, kept, ph, g, j, from, max);
    var x := CutOf(parts, kept, ph, g, j, from, max);
    var gone, through, later := Contents(parts[..g]), Contents(parts[g..j + 1]), Contents(parts[j + 1..]);
    CutFields(parts, kept, ph, g, j, from, max);
    hide Before, AtOrAfter;
    CutPieces(gone, through, later, x.c, parts[g].base, parts[j + 1].base);
    NoneBeforeLower(Active(parts).recs, Active(parts).base, x.c2);
    forall r | r in kept && r.offset < x.c ensures r in x.through {
      KeptBelow(parts, kept, ph, g, j, r, x.c);
    }
  }

  lemma KeptBelow(parts: seq<Part>, kept: seq<Record>, ph: seq<Record>, g: nat, j: nat, r: Record, c: int)
    requires Interrupted(parts, kept, ph, g, j) && r in kept && r.offset < c <= parts[j + 1].base
    ensures r in Before(Contents(parts[g..j + 1]), c)
  {
    CompactingIsOrdered(parts, kept);
    FirstKept(parts, kept, ph, g, j);
    hide Ordered, Contents, Compacted, Fold;
    var i :| 0 <= i < |kept| && kept[i] == r;
    LocateKept(parts, r, g, j);
    FilterMembers(Earlier(c), Contents(parts[g..j + 1]));
  }

  lemma CutPieces(gone: seq<Record>, through: seq<Record>, later: seq<Record>, c: int, lo: int, next: int)
    requires Increasing(through) && AllBefore(gone, lo) && NoneBefore(later, next) && lo <= c <= next
    ensures gone + (Before(through, c) + (AtOrAfter(through, c) + later)) == gone + (through + later)
    ensures AllBefore(gone + Before(through, c), c) && NoneBefore(AtOrAfter(through, c) + later, c)
  {
    SplitAt(through, c);
    Assoc(Before(through, c), AtOrAfter(through, c), later);
  }

  /** What the replay of the interleaved list sees, in terms of the cut. */
  lemma CutIsReplay(parts: seq<Part>, kept: seq<Record>, ph: seq<Record>, g: nat, j: nat, from: int, max: nat)
    requires Interrupted(parts, kept, ph, g, j) && NoneBefore(Contents(parts), from) && max > 0
    ensures var x := CutOf(parts, kept, ph, g, j, from, max);
            ReplayParts(Interleaved(parts, g, j, kept[0].offset, ph), from, max) == x.through + (x.Seen() + x.Rest())
  {
    CompactingIsOrdered(parts, kept);
    FirstKept(parts, kept, ph, g, j);
    ThreePieces(parts, g, j);
    var gone, through, later := Contents(parts[..g]), Contents(parts[g..j + 1]), Contents(parts[j + 1..]);
    var base, next := kept[0].offset, parts[j + 1].base;
    OldSegments(parts, g, j);
    CutBounds(parts, kept, ph, g, j, from, max);
    hide *;
    InterleavedReplay(parts, g, j, base, ph, from, max);
    var e := LeavesOld(through, base, from, max);
    var c2 := LeavesPlaceholder(through, base, ph, next, from, max).cursor;
    LeavesDef(through, base, ph, next, from, max);
    LeaveBounds(ph, next, e.cursor, e.room, max);
    SubsetNoneBefore(gone, through, later, from);
    AtOrAfterAll(through, from);
    BetweenFrom(through, from, e.cursor);
    CutFields(parts, kept, ph, g, j, from, max);
    BackInOld(through, later, ph, e.cursor, c2, next);
  }

  lemma CutFields(parts: seq<Part>, kept: seq<Record>, ph: seq<Record>, g: nat, j: nat, from: int, max: nat)
    requires kept != [] && g <= j < |parts| - 1 && max > 0
    ensures var x := CutOf(parts, kept, ph, g, j, from, max);
            var through, later := Contents(parts[g..j + 1]), Contents(parts[j + 1..]);
            var c2 := LeavesPlaceholder(through, kept[0].offset, ph, parts[j + 1].base, from, max).cursor;
            && x.c == LeavesOld(through, kept[0].offset, from, max).cursor
            && x.c2 == (if c2 < parts[j + 1].base then parts[j + 1].base else c2)
            && x.through == Before(through, x.c) && x.Seen() == Between(ph, x.c, x.c2)
            && x.Rest() == AtOrAfter(AtOrAfter(through, x.c) + later, x.c2)
  {
    hide LeavesOld, LeavesPlaceholder, Contents, Before, AtOrAfter;
  }

  /** Leaving the exhausted placeholder below the next base is the same as leaving it there. */
  lemma BackInOld(through: seq<Record>, later: seq<Record>, ph: seq<Record>, c: int, c2: int, next: int)
    requires AllBefore(through, next) && NoneBefore(later, next) && (c2 >= next || AllBefore(ph, c2))
    ensures var back := if c2 < next then next else c2;
            && Between(ph, c, c2) == Between(ph, c, back)
            && AtOrAfter(later, c2) == AtOrAfter(AtOrAfter(through, c) + later, back)
  {
    var back := if c2 < next then next else c2;
    AtOrAfterConcat(AtOrAfter(through, c), later, back);
    FilterMembers(NotBefore(c), through);
    var mid := AtOrAfter(through, c);
    forall i | 0 <= i < |mid| ensures mid[i].offset < back { assert mid[i] in through; }
    AtOrAfterNone(mid, back);
    assert [] + AtOrAfter(later, back) == AtOrAfter(later, back);
    if c2 < next {
      AtOrAfterAll(later, c2);
      AtOrAfterAll(later, next);
      BetweenAll(ph, c, c2);
      BetweenAll(ph, c, next);
    }
  }

  lemma SubsetNoneBefore(a: seq<Record>, b: seq<Record>, c: seq<Record>, from: int)
    requires NoneBefore(a + (b + c), from)
    ensures NoneBefore(b, from)
  {
    forall i | 0 <= i < |b| ensures from <= b[i].offset { assert (a + (b + c))[|a| + i] == b[i]; }
  }

  /** Recovery that renames an unaligned placeholder, holding all or some of the retained records,
      between segment `j` and its successor. A replay of the log in batches of any size rebuilds
      the right table if and only if no key that is live where the replay leaves segment `j` is
      dead where it is back in the old segments and unmentioned after that, and no retained record
      between these two points is missing from the placeholder and unmentioned after them. */
  lemma UnalignedRecoveryIff(parts: seq<Part>, kept: seq<Record>, ph: seq<Record>, g: nat, j: nat, from: int, max: nat)
    requires Interrupted(parts, kept, ph, g, j) && NoneBefore(Contents(parts), from) && max > 0
    ensures Fold(ReplayParts(Interleaved(parts, g, j, kept[0].offset, ph), from, max)) == Fold(Contents(parts)) <==>
            Sound(CutOf(parts, kept, ph, g, j, from, max))
  {
    hide Compacting, CutOf, ReplayParts, Interleaved, Contents, Fold, Sound, NoneBefore, Cut.Valid, Cut.Log, Cut.Seen, Cut.Rest;
    CutIsValid(parts, kept, ph, g, j, from, max);
    CutIsReplay(parts, kept, ph, g, j, from, max);
    CutFoldIff(CutOf(parts, kept, ph, g, j, from, max));
  }

  /** Once the placeholder is complete nothing can be lost. */
  lemma CompleteLosesNothing(x: Cut)
    requires x.ph == x.kept
    ensures forall r :: !Lost(x, r)
  {}
}
