/** Concrete compactions and crash points at which the recovered log does not replay to the old
    table: a deleted key comes back, or a live one is gone (broker/internal/log/compact.go). */
module CrashExamples {
  import opened Bytes
  import opened Seqs
  import opened Records
  import opened Codec
  import opened LogSpec
  import opened SegmentSpec
  import opened PartitionSpec
  import opened PartitionRuns
  import opened Directories
  import opened Replay
  import opened CrashFold
  import opened CrashUnaligned
  import opened CrashRecovery

  const K: bytes := [107]
  const X: bytes := [120]
  const Y: bytes := [121]

  /** k and x are set, k is deleted, y is set. */
  function ExampleLog(): seq<Record> {
    [Record(0, 1, K, Data([1]), []), Record(1, 1, X, Data([2]), []), Record(2, 1, K, Nil, []), Record(3, 1, Y, Data([3]), [])]
  }

  /** The same log cut into two sealed segments after its first `n` records, and an empty active one. */
  function ExampleParts(rs: seq<Record>, n: nat): seq<Part>
    requires n <= |rs|
  {
    [Part(0, rs[..n]), Part(n, rs[n..]), Part(|rs|, [])]
  }

  /** What the proofs use of the example log. */
  ghost predicate Shape(rs: seq<Record>) {
    && |rs| == 4 && (forall i :: 0 <= i < 4 ==> rs[i].offset == i)
    && rs[0].key == K && rs[1].key == X && rs[2].key == K && rs[3].key == Y
    && !rs[0].value.Nil? && !rs[1].value.Nil? && rs[2].value.Nil? && !rs[3].value.Nil?
  }

  function ExampleKept(rs: seq<Record>): seq<Record>
    requires |rs| == 4
  {
    [rs[1], rs[3]]
  }

  lemma ExampleShape()
    ensures Shape(ExampleLog()) && Storable(ExampleLog())
  {
    var rs := ExampleLog();
    forall i | 0 <= i < |rs| ensures StorableRecord(rs[i]) { SmallFits(rs[i]); }
  }

  lemma SmallFits(r: Record)
    requires 0 <= r.offset < 4 && r.timestamp == 1 && |r.key| == 1 && |r.value.Contents()| <= 1 && r.headers == []
    ensures Fits(r)
  {
    hide BE;
    assert EncodeHeaders([]) == [];
  }

  // ----- The example is a compaction on disk -----

  lemma KeysDiffer()
    ensures K != X && K != Y && X != Y && K != [] && X != [] && Y != []
  {
    assert K[0] != X[0] && K[0] != Y[0] && X[0] != Y[0];
  }

  lemma ExampleFolds(rs: seq<Record>)
    requires Shape(rs)
    ensures K in Fold(rs[..1]) && K in Fold(rs[..2])
    ensures var t := Fold(rs); K !in t && X in t && t[X] == rs[1] && Y in t && t[Y] == rs[3]
  {
    KeysDiffer();
    NothingFolds();
    hide FoldFrom;
    assert rs[..0] == [];
    FoldSnoc(map[], rs[..0], rs[0]);
    assert rs[..1] == rs[..0] + [rs[0]];
    FoldSnoc(map[], rs[..1], rs[1]);
    assert rs[..2] == rs[..1] + [rs[1]];
    FoldSnoc(map[], rs[..2], rs[2]);
    assert rs[..3] == rs[..2] + [rs[2]];
    FoldSnoc(map[], rs[..3], rs[3]);
    assert rs == rs[..3] + [rs[3]];
  }

  lemma NothingFolds()
    ensures FoldFrom(map[], []) == map[]
  {}

  lemma NothingFiltered(p: Record -> bool)
    ensures Filter(p, []) == []
  {}

  /** The records compaction retains: the first offset is 1, which is no segment's base. */
  lemma ExampleCompacts(rs: seq<Record>)
    requires Shape(rs)
    ensures Compacted(rs) == ExampleKept(rs)
  {
    ExampleFolds(rs);
    KeysDiffer();
    var p := Current(Fold(rs));
    assert !p(rs[0]) && p(rs[1]) && !p(rs[2]) && p(rs[3]);
    hide Filter, Fold, Current;
    NothingFiltered(p);
    assert rs[..0] == [] && rs[..1] == rs[..0] + [rs[0]] && rs[..2] == rs[..1] + [rs[1]];
    assert rs[..3] == rs[..2] + [rs[2]] && rs == rs[..3] + [rs[3]];
    FilterSnoc(p, rs[..0], rs[0]);
    FilterSnoc(p, rs[..1], rs[1]);
    FilterSnoc(p, rs[..2], rs[2]);
    FilterSnoc(p, rs[..3], rs[3]);
  }

  lemma ExampleContents(rs: seq<Record>, n: nat)
    requires |rs| == 4 && n <= 4
    ensures var parts := ExampleParts(rs, n);
            && Contents(Sealed(parts)) == rs && Active(parts) == Part(4, []) && Contents(parts) == rs
            && Contents(parts[..0]) == [] && Contents(parts[0..1]) == rs[..n] && Contents(parts[1..]) == rs[n..]
  {
    hide Contents;
    var parts := ExampleParts(rs, n);
    var p0, p1, p2 := Part(0, rs[..n]), Part(n, rs[n..]), Part(4, []);
    OneHolds(p0);
    OneHolds(p1);
    OneHolds(p2);
    ContentsAppend([p0], [p1]);
    ContentsAppend([p1], [p2]);
    ContentsAppend([p0, p1], [p2]);
    assert [p0] + [p1] == [p0, p1] == Sealed(parts) && [p1] + [p2] == parts[1..] && [p0, p1] + [p2] == parts;
    assert rs[..n] + rs[n..] == rs && parts[0..1] == [p0] && rs[n..] + [] == rs[n..] && rs + [] == rs;
    assert Contents([]) == [] by { NoContents(); }
    assert parts[..0] == [];
  }

  lemma NoContents()
    ensures Contents([]) == []
  {}

  lemma SliceWellFormed(rs: seq<Record>, a: nat, b: nat)
    requires Shape(rs) && Storable(rs) && a <= b <= 4
    ensures WellFormed(a, rs[a..b]) && NextOffset(a, rs[a..b]) == b
  {
    SliceStorable(rs, a, b);
    hide Storable;
    var s := rs[a..b];
    assert forall i :: 0 <= i < |s| ==> s[i].offset == a + i;
  }

  lemma SliceStorable(rs: seq<Record>, a: nat, b: nat)
    requires Storable(rs) && a <= b <= |rs|
    ensures Storable(rs[a..b])
  {
    hide Storable;
    assert rs == rs[..a] + (rs[a..b] + rs[b..]);
    StorableParts(rs[..a], rs[a..b] + rs[b..]);
    StorableParts(rs[a..b], rs[b..]);
  }

  lemma ExampleOrdered(rs: seq<Record>, n: nat)
    requires Shape(rs) && Storable(rs) && n <= 4
    ensures Ordered(ExampleParts(rs, n))
  {
    var parts := ExampleParts(rs, n);
    SliceWellFormed(rs, 0, n);
    SliceWellFormed(rs, n, 4);
    SliceWellFormed(rs, 4, 4);
    assert rs[0..n] == rs[..n] && rs[n..4] == rs[n..] && rs[4..4] == [];
    hide WellFormed, NextOffset, Storable;
    assert parts[0].HighWater() == n && parts[1].HighWater() == 4;
  }

  function ExamplePlaceholder(rs: seq<Record>): LogFile
    requires |rs| == 4
  {
    LogFile(1, Frames(ExampleKept(rs)))
  }

  /** The compaction of the example crashed at `pt`, and this is what the next start lists. */
  ghost predicate Crashed(files: seq<LogFile>, rs: seq<Record>, n: nat, pt: CrashPoint, listing: seq<LogFile>)
    requires |rs| == 4 && n <= 4
  {
    var ph := ExamplePlaceholder(rs);
    && OnDisk(files, ExampleParts(rs, n), ExampleKept(rs), ph) && ValidPoint(files, ph, pt)
    && Listed(listing, Recovered(Dir(LogsAt(files, ph, pt), map[], LeftoversAt(ph, pt), map[])).log)
  }

  /** The compaction can crash at any byte of the placeholder, and before anything is removed. */
  lemma CrashExists(rs: seq<Record>, n: nat, pt: CrashPoint) returns (files: seq<LogFile>, listing: seq<LogFile>)
    requires Shape(rs) && Storable(rs) && 2 <= n <= 3
    requires if pt.Writing? then pt.written <= |ExamplePlaceholder(rs).contents| else pt == Removing(0)
    ensures Crashed(files, rs, n, pt, listing)
  {
    files := FilesOf(ExampleParts(rs, n), []);
    ExampleOnDisk(rs, n);
    hide *;
    ShapeSize(rs);
    var ph := ExamplePlaceholder(rs);
    var contents := if pt.Writing? then ph.contents[..pt.written] else ph.contents;
    RecoveredListing(files, ph, contents);
    listing := if ph.base in FileMap(files) then files else Place(files, LogFile(ph.base, contents));
    CrashedBy(files, rs, n, pt, contents, listing);
  }

  lemma CrashedBy(files: seq<LogFile>, rs: seq<Record>, n: nat, pt: CrashPoint, contents: bytes, listing: seq<LogFile>)
    requires |rs| == 4 && n <= 4 && OnDisk(files, ExampleParts(rs, n), ExampleKept(rs), ExamplePlaceholder(rs))
    requires var ph := ExamplePlaceholder(rs);
             if pt.Writing? then pt.written <= |ph.contents| && contents == ph.contents[..pt.written]
             else pt == Removing(0) && contents == ph.contents
    requires |files| > 0 && Listed(listing, map[ExamplePlaceholder(rs).base := contents] + FileMap(files))
    ensures Crashed(files, rs, n, pt, listing)
  {
    hide OnDisk, Listed, FileMap, Frames;
    assert files[0..] == files;
  }

  lemma ExampleBases(rs: seq<Record>, n: nat)
    requires |rs| == 4 && 0 < n < 4
    ensures var files := FilesOf(ExampleParts(rs, n), []); |files| == 3 && StrictlyOrdered(files)
  {
    hide Frames;
  }

  lemma ExampleOnDisk(rs: seq<Record>, n: nat)
    requires Shape(rs) && Storable(rs) && 2 <= n <= 3
    ensures var files := FilesOf(ExampleParts(rs, n), []);
            && |files| == 3 && StrictlyOrdered(files)
            && OnDisk(files, ExampleParts(rs, n), ExampleKept(rs), ExamplePlaceholder(rs))
  {
    var parts, kept := ExampleParts(rs, n), ExampleKept(rs);
    hide Frames, Ordered, Contents, Compacted, AllHeld, Storable, FilesOf, StrictlyOrdered, Shape, Opens, OpenedParts;
    ExampleBases(rs, n);
    ExampleOrdered(rs, n);
    NothingTorn();
    ReopenFinds(parts, []);
    ExampleContents(rs, n);
    ExampleCompacts(rs);
    assert Compacting(parts, kept);
  }

  // ----- Stepping through Leave -----

  lemma LeaveStarts(rs: seq<Record>, bound: int, cursor: int, max: nat)
    requires max > 0
    ensures Leave(rs, bound, cursor, 0, max) == if cursor >= bound then Exit(cursor, 0) else Leave(rs, bound, cursor, max, max)
  {
    hide NaiveRead, AtOrAfter;
  }

  lemma LeaveReads(rs: seq<Record>, i: nat, bound: int, cursor: int, room: nat, max: nat)
    requires max > 0 && room > 0 && i <= |rs| && AllBefore(rs[..i], cursor) && NoneBefore(rs[i..], cursor)
    ensures Leave(rs, bound, cursor, room, max) ==
            if |rs| - i < room then Exit(NextOffset(cursor, rs[i..]), room - (|rs| - i))
            else Leave(rs, bound, rs[i + room - 1].offset + 1, 0, max)
  {
    AtOrAfterCut(rs, i, cursor);
    hide AtOrAfter, Leave;
    assert NaiveRead(rs, cursor, room) == if |rs| - i < room then rs[i..] else rs[i..i + room];
    LeaveStep(rs, bound, cursor, room, max);
  }

  lemma LeaveStep(rs: seq<Record>, bound: int, cursor: int, room: nat, max: nat)
    requires max > 0 && room > 0
    ensures var batch := NaiveRead(rs, cursor, room);
            Leave(rs, bound, cursor, room, max) ==
            if |batch| < room then Exit(NextOffset(cursor, batch), room - |batch|)
            else Leave(rs, bound, batch[|batch| - 1].offset + 1, 0, max)
  {
    hide NaiveRead, AtOrAfter;
  }

  /** Both points of the replay, for the example's cut. */
  lemma ExampleCut(rs: seq<Record>, n: nat, ph: seq<Record>, from: int, max: nat, e: Exit, e2: Exit)
    requires Shape(rs) && 2 <= n <= 3 && max > 0
    requires e == Leave(rs[..n], rs[1].offset, from, 0, max) && e2 == Leave(ph, n, e.cursor, e.room, max)
    ensures var x := CutOf(ExampleParts(rs, n), ExampleKept(rs), ph, 0, 0, from, max);
            && x.c == e.cursor && x.c2 == (if e2.cursor < n then n else e2.cursor)
            && x.through == Before(rs[..n], x.c) && x.kept == ExampleKept(rs) && x.ph == ph
            && x.Rest() == AtOrAfter(AtOrAfter(rs[..n], x.c) + rs[n..], x.c2)
  {
    var parts, kept := ExampleParts(rs, n), ExampleKept(rs);
    ExampleContents(rs, n);
    hide Contents, Leave, AtOrAfter, Before;
    LeavesDef(rs[..n], rs[1].offset, ph, n, from, max);
    hide LeavesOld, LeavesPlaceholder;
    CutFields(parts, kept, ph, 0, 0, from, max);
  }

  lemma ExampleInterrupted(rs: seq<Record>, n: nat, ph: seq<Record>, from: int, max: nat)
    requires Shape(rs) && Storable(rs) && 2 <= n <= 3 && ph <= ExampleKept(rs) && from == 0 && max > 0
    ensures var parts, kept := ExampleParts(rs, n), ExampleKept(rs);
            && Interrupted(parts, kept, ph, 0, 0) && NoneBefore(Contents(parts), from)
            && CutOf(parts, kept, ph, 0, 0, from, max).Valid() && CutOf(parts, kept, ph, 0, 0, from, max).Log() == rs
  {
    ExampleContents(rs, n);
    ExampleCompacts(rs);
    ExampleOrdered(rs, n);
    hide Contents, Ordered, Compacted, CutOf, Cut.Valid, Cut.Log, Storable;
    assert Compacting(ExampleParts(rs, n), ExampleKept(rs));
    CutIsValid(ExampleParts(rs, n), ExampleKept(rs), ph, 0, 0, from, max);
  }

  /** What the crash leads to: the partition opens and replays to the cut's records. */
  lemma ExampleReplay(files: seq<LogFile>, rs: seq<Record>, n: nat, pt: CrashPoint, listing: seq<LogFile>, from: int, max: nat)
    requires Shape(rs) && Storable(rs) && 2 <= n <= 3 && from == 0 && max > 0
    requires (pt == Removing(0) || pt == Writing(0)) && Crashed(files, rs, n, pt, listing)
    ensures var x := CutOf(ExampleParts(rs, n), ExampleKept(rs), if pt.Writing? then [] else ExampleKept(rs), 0, 0, from, max);
            && x.Valid() && x.Log() == rs && Contents(ExampleParts(rs, n)) == rs
            && Opens(listing) && ReplayParts(OpenedParts(listing), from, max) == x.through + (x.Seen() + x.Rest())
  {
    var parts, kept, ph := ExampleParts(rs, n), ExampleKept(rs), ExamplePlaceholder(rs);
    var written := if pt.Writing? then [] else kept;
    assert WrittenAt(kept, pt) == written && EndsWithFrame(kept, pt) && GoneAt(files, pt) == 0;
    var d := Dir(LogsAt(files, ph, pt), map[], LeftoversAt(ph, pt), map[]);
    ExampleContents(rs, n);
    hide Contents, OnDisk, Listed, LogsAt, LeftoversAt, FileMap, Opens, OpenedParts, Interleaved, ReplayParts, CutOf, WrittenAt, EndsWithFrame;
    UnalignedCrash(files, parts, kept, ph, 0, pt, d, listing);
    ExampleInterrupted(rs, n, written, from, max);
    CutIsReplay(parts, kept, written, 0, 0, from, max);
  }

  // ----- Three crashes -----

  lemma ResurrectingCut(rs: seq<Record>, n: nat, from: int, max: nat)
    requires Shape(rs) && from == 0 && ((n == 2 && max >= 3) || (n == 3 && max == 1))
    ensures Resurrected(CutOf(ExampleParts(rs, n), ExampleKept(rs), ExampleKept(rs), 0, 0, from, max), K)
  {
    var kept := ExampleKept(rs);
    var e, e2 := ExampleExits(rs, n, from, max);
    ExampleCut(rs, n, kept, from, max, e, e2);
    var x := CutOf(ExampleParts(rs, n), kept, kept, 0, 0, from, max);
    ExampleFolds(rs);
    ExampleContents(rs, n);
    CutFieldsRest(rs, n, kept, from, max);
    hide CutOf, Fold, Leave, AtOrAfter, Before, Contents;
    ExamplePieces(rs, n, e.cursor);
  }

  /** Where the replay of the complete placeholder leaves the first segment, and that it then reads
      the placeholder to its end. */
  lemma ExampleExits(rs: seq<Record>, n: nat, from: int, max: nat) returns (e: Exit, e2: Exit)
    requires Shape(rs) && from == 0 && ((n == 2 && max >= 3) || (n == 3 && max == 1))
    ensures e == Leave(rs[..n], rs[1].offset, from, 0, max) && e2 == Leave(ExampleKept(rs), n, e.cursor, e.room, max)
    ensures e.cursor == (if n == 2 then 2 else 1) && e2.cursor == 4
  {
    hide Leave;
    var kept, a := ExampleKept(rs), rs[..n];
    e := Leave(a, rs[1].offset, from, 0, max);
    LeaveStarts(a, rs[1].offset, from, max);
    LeaveReads(a, 0, rs[1].offset, from, max, max);
    if n == 2 {
      LeaveReads(kept, 1, n, 2, max - 2, max);
      LeaveStarts(kept, n, 4, max);
    } else {
      LeaveStarts(a, rs[1].offset, 1, max);
      LeaveStarts(kept, n, 1, max);
      LeaveReads(kept, 0, n, 1, max, max);
      LeaveStarts(kept, n, 2, max);
      LeaveReads(kept, 1, n, 2, max, max);
      LeaveStarts(kept, n, 4, max);
    }
    e2 := Leave(kept, n, e.cursor, e.room, max);
  }

  lemma CutFieldsRest(rs: seq<Record>, n: nat, ph: seq<Record>, from: int, max: nat)
    requires Shape(rs) && 2 <= n <= 3 && max > 0
    ensures var x := CutOf(ExampleParts(rs, n), ExampleKept(rs), ph, 0, 0, from, max);
            x.Skipped() == Before([] + (x.through + (AtOrAfter(rs[..n], x.c) + rs[n..])), x.c2)
  {
    ExampleContents(rs, n);
    hide Contents, Leave, AtOrAfter, Before;
    CutFields(ExampleParts(rs, n), ExampleKept(rs), ph, 0, 0, from, max);
  }

  lemma ExamplePieces(rs: seq<Record>, n: nat, c: nat)
    requires Shape(rs) && c <= n <= 4
    ensures Before(rs[..n], c) == rs[..c] && AtOrAfter(rs[..n], c) == rs[c..n]
    ensures [] + (rs[..c] + (rs[c..n] + rs[n..])) == rs && Before(rs, 4) == rs && rs[c..n] + rs[n..] == rs[c..]
    ensures AtOrAfter(rs[c..], 4) == [] && (c <= 2 ==> AtOrAfter(rs[c..], 2) == rs[2..])
  {
    hide Before, AtOrAfter, Shape;
    SliceCuts(rs, 0, n, c);
    assert rs[0..n] == rs[..n] && rs[0..c] == rs[..c] && rs[0..4] == rs && rs[c..4] == rs[c..] && rs[2..4] == rs[2..] && rs[4..4] == [];
    SliceCuts(rs, 0, 4, 4);
    SliceCuts(rs, c, 4, 4);
    if c <= 2 { SliceCuts(rs, c, 4, 2); }
    assert rs[c..n] + rs[n..] == rs[c..];
    assert rs[..c] + rs[c..] == rs && [] + rs == rs;
  }

  lemma SliceCuts(rs: seq<Record>, a: nat, b: nat, c: nat)
    requires Shape(rs) && a <= c <= b <= 4
    ensures |rs| == 4 && Before(rs[a..b], c) == rs[a..c] && AtOrAfter(rs[a..b], c) == rs[c..b]
  {
    var low, high := rs[a..c], rs[c..b];
    assert rs[a..b] == low + high;
    assert AllBefore(low, c) && NoneBefore(high, c);
    hide Shape;
    CutBetween(low, high, c);
  }

  lemma CutBetween(low: seq<Record>, high: seq<Record>, c: int)
    requires AllBefore(low, c) && NoneBefore(high, c)
    ensures Before(low + high, c) == low && AtOrAfter(low + high, c) == high
  {
    FilterAppend(Earlier(c), low, high);
    FilterAll(Earlier(c), low);
    FilterNone(Earlier(c), high);
    FilterAppend(NotBefore(c), low, high);
    FilterNone(NotBefore(c), low);
    FilterAll(NotBefore(c), high);
  }

  /** A crash right after the placeholder was written, before anything was removed. Two segments of
      two records: a replay in batches of three or more reads k and x, jumps over the tombstone of
      k into the placeholder and never comes back for it. */
  lemma UnalignedCrashResurrects(max: nat) returns (files: seq<LogFile>, listing: seq<LogFile>)
    requires max >= 3
    ensures Crashed(files, ExampleLog(), 2, Removing(0), listing) && Opens(listing)
    ensures K in Fold(ReplayParts(OpenedParts(listing), 0, max)) && K !in Fold(Contents(ExampleParts(ExampleLog(), 2)))
  {
    files, listing := Resurrects(2, 0, max);
  }

  /** The tombstone inside the interrupted segment itself. A segment of three records and one of
      one: in batches of one the second batch starts at the placeholder's base, so the rest of the
      first segment, the tombstone with it, is never read. */
  lemma BatchEndResurrects() returns (files: seq<LogFile>, listing: seq<LogFile>)
    ensures Crashed(files, ExampleLog(), 3, Removing(0), listing) && Opens(listing)
    ensures K in Fold(ReplayParts(OpenedParts(listing), 0, 1)) && K !in Fold(Contents(ExampleParts(ExampleLog(), 3)))
  {
    files, listing := Resurrects(3, 0, 1);
  }

  lemma Resurrects(n: nat, from: int, max: nat) returns (files: seq<LogFile>, listing: seq<LogFile>)
    requires from == 0 && ((n == 2 && max >= 3) || (n == 3 && max == 1))
    ensures Crashed(files, ExampleLog(), n, Removing(0), listing) && Opens(listing)
    ensures K in Fold(ReplayParts(OpenedParts(listing), from, max)) && K !in Fold(Contents(ExampleParts(ExampleLog(), n)))
  {
    var rs := ExampleLog();
    ExampleShape();
    hide *;
    ShapeSize(rs);
    files, listing := CrashExists(rs, n, Removing(0));
    ExampleReplay(files, rs, n, Removing(0), listing, from, max);
    ResurrectingCut(rs, n, from, max);
    ResurrectedComesBack(CutOf(ExampleParts(rs, n), ExampleKept(rs), ExampleKept(rs), 0, 0, from, max), K);
  }

  lemma ShapeSize(rs: seq<Record>)
    requires Shape(rs)
    ensures |rs| == 4 && ExampleKept(rs) != [] && forall n: nat :: n <= 4 ==> |ExampleParts(rs, n)| == 3
  {}

  /** A crash before the first byte of the placeholder was written. The empty file is renamed into
      place, the second batch of one starts in it, and the replay goes on in the segment after:
      x, which nothing ever deleted, is not in the table. */
  lemma EmptyPlaceholderLoses() returns (files: seq<LogFile>, listing: seq<LogFile>)
    ensures Crashed(files, ExampleLog(), 2, Writing(0), listing) && Opens(listing)
    ensures X in Fold(Contents(ExampleParts(ExampleLog(), 2)))
    ensures var t := Fold(ReplayParts(OpenedParts(listing), 0, 1)); !(X in t && t[X] == Fold(Contents(ExampleParts(ExampleLog(), 2)))[X])
  {
    var rs := ExampleLog();
    ExampleShape();
    hide *;
    ShapeSize(rs);
    files, listing := CrashExists(rs, 2, Writing(0));
    ExampleReplay(files, rs, 2, Writing(0), listing, 0, 1);
    LosingCut(rs, 0, 1);
    LostIsGone(CutOf(ExampleParts(rs, 2), ExampleKept(rs), [], 0, 0, 0, 1), rs[1]);
  }

  lemma LosingCut(rs: seq<Record>, from: int, max: nat)
    requires Shape(rs) && from == 0 && max == 1
    ensures rs[1].key == X && Lost(CutOf(ExampleParts(rs, 2), ExampleKept(rs), [], 0, 0, from, max), rs[1])
  {
    hide CutOf, Leave, AtOrAfter, Before, Touches, Cut.Rest;
    var e := Leave(rs[..2], rs[1].offset, from, 0, max);
    var e2 := Leave([], 2, e.cursor, e.room, max);
    LosingExits(rs, from, max);
    ExampleCut(rs, 2, [], from, max, e, e2);
    ExamplePieces(rs, 2, 1);
    UntouchedAfter(rs);
  }

  lemma LosingExits(rs: seq<Record>, from: int, max: nat)
    requires Shape(rs) && from == 0 && max == 1
    ensures var e := Leave(rs[..2], rs[1].offset, from, 0, max); e == Exit(1, 0) && Leave([], 2, e.cursor, e.room, max).cursor == 1
  {
    hide Leave;
    var a, ph: seq<Record> := rs[..2], [];
    LeaveStarts(a, rs[1].offset, from, max);
    LeaveReads(a, 0, rs[1].offset, from, max, max);
    LeaveStarts(a, rs[1].offset, 1, max);
    LeaveStarts(ph, 2, 1, max);
    LeaveReads(ph, 0, 2, 1, max, max);
  }

  lemma UntouchedAfter(rs: seq<Record>)
    requires Shape(rs)
    ensures !Touches(rs[2..], X)
  {
    KeysDiffer();
  }

  /** A crash after the first byte of the placeholder: it becomes a sealed segment that ends inside
      a frame, which cannot be truncated, and the partition does not open. */
  lemma TornPlaceholderRefuses() returns (files: seq<LogFile>, listing: seq<LogFile>)
    ensures Crashed(files, ExampleLog(), 2, Writing(1), listing) && !Opens(listing)
  {
    var rs := ExampleLog();
    ExampleShape();
    OneByteWritten(rs);
    hide Shape, ExampleLog, Storable, WrittenAt, EndsWithFrame, OnDisk, Listed, LogsAt, LeftoversAt, Frames;
    ShapeSize(rs);
    files, listing := CrashExists(rs, 2, Writing(1));
    var ph := ExamplePlaceholder(rs);
    var d := Dir(LogsAt(files, ph, Writing(1)), map[], LeftoversAt(ph, Writing(1)), map[]);
    UnalignedCrash(files, ExampleParts(rs, 2), ExampleKept(rs), ph, 0, Writing(1), d, listing);
  }

  lemma OneByteWritten(rs: seq<Record>)
    requires Shape(rs)
    ensures 1 <= |ExamplePlaceholder(rs).contents| && !EndsWithFrame(ExampleKept(rs), Writing(1))
  {
    hide Frame;
    FramesCons(ExampleKept(rs));
  }
}
