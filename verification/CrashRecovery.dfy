/** A crash at any point of compaction's file operations, the recovery of leftover `.compacting`
    files at the next start, and the segment list that is then opened
    (broker/internal/log/compact.go, broker/internal/log/segment.go, broker/internal/log/partition.go). */
module CrashRecovery {
  import opened Bytes
  import opened Seqs
  import opened Records
  import opened Codec
  import opened LogSpec
  import opened SegmentSpec
  import opened PartitionSpec
  import opened PartitionRuns
  import opened Replay
  import opened CrashFold
  import opened CrashUnaligned
  import opened Directories

  /** A partition directory: canonical and `.compacting` files of both kinds, by base offset. */
  datatype Dir = Dir(log: map<int, bytes>, idx: map<int, bytes>, logTmp: map<int, bytes>, idxTmp: map<int, bytes>)

  /** A leftover is renamed unless the canonical file exists, and deleted otherwise. */
  function Recovered(d: Dir): Dir { Dir(d.logTmp + d.log, d.idxTmp + d.idx, map[], map[]) }

  /** recoverCompactingSegments over the directory entries of one kind, in directory order. */
  method RecoverKind(canonical: map<int, bytes>, leftover: map<int, bytes>, entries: seq<int>)
    returns (final: map<int, bytes>)
    requires forall b :: b in entries <==> b in leftover
    ensures final == leftover + canonical
  {
    final := canonical;
    for i := 0 to |entries|
      invariant canonical.Keys <= final.Keys <= canonical.Keys + leftover.Keys
      invariant forall b :: b in canonical ==> final[b] == canonical[b]
      invariant forall b :: b in final && b !in canonical ==> b in leftover && final[b] == leftover[b]
      invariant forall k :: 0 <= k < i ==> entries[k] in final
    {
      var b := entries[i];
      if b !in final { final := final[b := leftover[b]]; }
    }
    forall b | b in leftover ensures b in final {
      var k :| 0 <= k < |entries| && entries[k] == b;
    }
    assert final.Keys == (leftover + canonical).Keys;
    assert forall b :: b in final ==> final[b] == (leftover + canonical)[b];
  }

  method RecoverCompactingSegments(d: Dir, logs: seq<int>, idxs: seq<int>) returns (r: Dir)
    requires (forall b :: b in logs <==> b in d.logTmp) && (forall b :: b in idxs <==> b in d.idxTmp)
    ensures r == Recovered(d)
  {
    var log := RecoverKind(d.log, d.logTmp, logs);
    var idx := RecoverKind(d.idx, d.idxTmp, idxs);
    r := Dir(log, idx, map[], map[]);
  }

  // ----- Discovery: the .log files in base order -----

  function FileMap(files: seq<LogFile>): map<int, bytes> {
    if files == [] then map[] else FileMap(files[1..])[files[0].base := files[0].contents]
  }

  ghost predicate StrictlyOrdered(files: seq<LogFile>) {
    forall i, j :: 0 <= i < j < |files| ==> files[i].base < files[j].base
  }

  /** `files` is what discoverSegments lists for a directory holding `log`. */
  ghost predicate Listed(files: seq<LogFile>, log: map<int, bytes>) { StrictlyOrdered(files) && FileMap(files) == log }

  lemma {:induction false} FileMapKeys(files: seq<LogFile>, b: int)
    ensures b in FileMap(files) <==> exists i :: 0 <= i < |files| && files[i].base == b
  {
    if files != [] {
      FileMapKeys(files[1..], b);
      if exists i :: 0 <= i < |files| && files[i].base == b && i > 0 {
        var i :| 0 <= i < |files| && files[i].base == b && i > 0;
        assert files[1..][i - 1].base == b;
      }
    }
  }

  /** A directory has only one listing. */
  lemma {:induction false} ListingUnique(a: seq<LogFile>, b: seq<LogFile>)
    requires StrictlyOrdered(a) && StrictlyOrdered(b) && FileMap(a) == FileMap(b)
    ensures a == b
  {
    if a == [] {
      if b != [] { FileMapTail(b); assert false; }
    } else {
      FileMapKeys(a, a[0].base);
      FileMapKeys(b, a[0].base);
      var j :| 0 <= j < |b| && b[j].base == a[0].base;
      FileMapKeys(b, b[0].base);
      FileMapKeys(a, b[0].base);
      var i :| 0 <= i < |a| && a[i].base == b[0].base;
      assert j == 0;
      FileMapTail(a);
      FileMapTail(b);
      ListingUnique(a[1..], b[1..]);
      assert a == [a[0]] + a[1..] && b == [b[0]] + b[1..];
    }
  }

  lemma FileMapTail(files: seq<LogFile>)
    requires files != [] && StrictlyOrdered(files)
    ensures FileMap(files[1..]) == FileMap(files) - {files[0].base}
         && FileMap(files)[files[0].base] == files[0].contents
    ensures StrictlyOrdered(files[1..])
  {
    FileMapKeys(files[1..], files[0].base);
  }

  // ----- The directory at every crash point -----

  /** Compaction's file operations in program order: the placeholder is written, the old segments
      are removed first to last, the placeholder is renamed. */
  datatype CrashPoint = Writing(written: nat) | Removing(gone: nat) | Renamed

  function LogsAt(files: seq<LogFile>, placeholder: LogFile, pt: CrashPoint): map<int, bytes>
    requires |files| > 0 && (pt.Removing? ==> pt.gone < |files|)
  {
    match pt
    case Writing(_) => FileMap(files)
    case Removing(g) => FileMap(files[g..])
    case Renamed => FileMap([placeholder, files[|files| - 1]])
  }

  function LeftoversAt(placeholder: LogFile, pt: CrashPoint): map<int, bytes>
    requires pt.Writing? ==> pt.written <= |placeholder.contents|
  {
    match pt
    case Writing(n) => map[placeholder.base := placeholder.contents[..n]]
    case Removing(_) => map[placeholder.base := placeholder.contents]
    case Renamed => map[]
  }

  /** Puts a file where its base belongs. */
  function Place(files: seq<LogFile>, f: LogFile): seq<LogFile> {
    if files == [] || f.base < files[0].base then [f] + files else [files[0]] + Place(files[1..], f)
  }

  lemma {:induction false} PlaceListed(files: seq<LogFile>, f: LogFile)
    requires StrictlyOrdered(files) && f.base !in FileMap(files)
    ensures Listed(Place(files, f), FileMap(files)[f.base := f.contents])
    ensures Place(files, f) != [] && (Place(files, f)[0] == f || (files != [] && Place(files, f)[0] == files[0]))
  {
    FileMapKeys(files, f.base);
    if files == [] || f.base < files[0].base {
      assert ([f] + files)[1..] == files;
    } else {
      FileMapTail(files);
      PlaceListed(files[1..], f);
      var rest := Place(files[1..], f);
      assert ([files[0]] + rest)[1..] == rest;
    }
  }

  /** Recovery as seen by discovery: the placeholder is dropped when a segment has its base and
      takes its place in the order otherwise. */
  lemma RecoveredListing(files: seq<LogFile>, placeholder: LogFile, contents: bytes)
    requires StrictlyOrdered(files)
    ensures var log := map[placeholder.base := contents] + FileMap(files);
            if placeholder.base in FileMap(files) then Listed(files, log)
            else Listed(Place(files, LogFile(placeholder.base, contents)), log)
  {
    if placeholder.base in FileMap(files) {
      assert map[placeholder.base := contents] + FileMap(files) == FileMap(files);
    } else {
      PlaceListed(files, LogFile(placeholder.base, contents));
      assert map[placeholder.base := contents] + FileMap(files) == FileMap(files)[placeholder.base := contents];
    }
  }

  // ----- What is opened afterwards -----

  /** Every file holds its part in whole frames. */
  ghost predicate AllWhole(files: seq<LogFile>, parts: seq<Part>) {
    |files| == |parts| && forall i :: 0 <= i < |files| ==> Holds(files[i], parts[i], true) && Storable(parts[i].recs)
  }

  lemma HeldTail(files: seq<LogFile>, parts: seq<Part>, g: nat)
    requires AllHeld(files, parts) && g <= |files| && StrictlyOrdered(files)
    ensures AllHeld(files[g..], parts[g..]) && StrictlyOrdered(files[g..])
  {
    hide Holds, Storable;
  }

  /** All files but the last are sealed. */
  lemma HeldSlice(files: seq<LogFile>, parts: seq<Part>, a: nat, b: nat)
    requires AllHeld(files, parts) && a <= b < |files|
    ensures AllWhole(files[a..b], parts[a..b])
  {
    hide Holds, Storable;
  }

  lemma HeldConcat(f1: seq<LogFile>, p1: seq<Part>, f2: seq<LogFile>, p2: seq<Part>)
    requires AllWhole(f1, p1) && AllHeld(f2, p2) && f2 != []
    ensures AllHeld(f1 + f2, p1 + p2)
  {
    hide Holds, Storable;
    forall i | 0 <= i < |f1 + f2| ensures Holds((f1 + f2)[i], (p1 + p2)[i], i + 1 < |f1 + f2|) && Storable((p1 + p2)[i].recs) {
      if i >= |f1| { assert Holds(f2[i - |f1|], p2[i - |f1|], i - |f1| + 1 < |f2|); }
    }
  }

  lemma OneWhole(f: LogFile, p: Part)
    requires Holds(f, p, true) && Storable(p.recs)
    ensures AllWhole([f], [p])
  {
    hide Holds, Storable;
  }

  lemma FileBases(files: seq<LogFile>, parts: seq<Part>)
    requires AllHeld(files, parts)
    ensures |files| == |parts| && forall i :: 0 <= i < |files| ==> files[i].base == parts[i].base
  {
    hide Storable, Holds;
    forall i | 0 <= i < |files| ensures files[i].base == parts[i].base { HeldBase(files[i], parts[i], i + 1 < |files|); }
  }

  // ----- A file cut anywhere -----

  /** How many whole frames the first `t` bytes of a file of frames contain. */
  function WholeFrames(rs: seq<Record>, t: nat): (n: nat)
    ensures n <= |rs|
  {
    if rs == [] || t < |Frame(rs[0])| then 0 else 1 + WholeFrames(rs[1..], t - |Frame(rs[0])|)
  }

  /** A prefix of a file of frames is whole frames and a strict prefix of one more. */
  lemma {:induction false} CutFile(rs: seq<Record>, t: nat) returns (next: Record, k: nat)
    requires Storable(rs) && t <= |Frames(rs)|
    ensures var n := WholeFrames(rs, t);
            && Storable(rs[..n]) && Fits(next) && k < |Frame(next)| && t == |Frames(rs[..n])| + k
            && Frames(rs)[..t] == Frames(rs[..n]) + Frame(next)[..k]
  {
    hide Frame, Fits, Frames, Storable;
    var n := WholeFrames(rs, t);
    assert rs == rs[..n] + rs[n..];
    StorableParts(rs[..n], rs[n..]);
    if rs == [] {
      next := SmallRecord();
      k := 0;
      NoFrames();
    } else {
      FramesCons(rs);
      FirstStorable(rs);
      if t < |Frame(rs[0])| {
        next, k := rs[0], t;
        NoFrames();
        CutBefore(Frame(rs[0]), Frames(rs[1..]), t);
        assert rs[..n] == [] && [] + Frame(next)[..k] == Frame(next)[..k];
      } else {
        next, k := CutFile(rs[1..], t - |Frame(rs[0])|);
        assert rs[..n][1..] == rs[1..][..n - 1];
        FramesCons(rs[..n]);
        CutInside(Frame(rs[0]), Frames(rs[1..]), t);
        Assoc(Frame(rs[0]), Frames(rs[1..][..n - 1]), Frame(next)[..k]);
      }
    }
  }

  lemma NoFrames()
    ensures Frames([]) == []
  {}

  lemma FramesCons(rs: seq<Record>)
    requires rs != []
    ensures Frames(rs) == Frame(rs[0]) + Frames(rs[1..])
  {
    hide Frame;
  }

  lemma FirstStorable(rs: seq<Record>)
    requires rs != [] && Storable(rs)
    ensures Fits(rs[0]) && Storable(rs[1..])
  {
    assert StorableRecord(rs[0]);
    assert rs == [rs[0]] + rs[1..];
    StorableParts([rs[0]], rs[1..]);
  }

  lemma CutInside<T>(a: seq<T>, b: seq<T>, t: nat)
    requires |a| <= t <= |a| + |b|
    ensures (a + b)[..t] == a + b[..t - |a|]
  {}

  lemma CutBefore<T>(a: seq<T>, b: seq<T>, t: nat)
    requires t <= |a|
    ensures (a + b)[..t] == a[..t]
  {}

  /** Whatever prefix of a file of frames survives: opened for writing it holds the records of its
      whole frames; opened read-only it recovers exactly when it ends with one of them. */
  lemma CutFileHolds(base: int, rs: seq<Record>, t: nat)
    requires Storable(rs) && t <= |Frames(rs)|
    ensures var f, p := LogFile(base, Frames(rs)[..t]), Part(base, rs[..WholeFrames(rs, t)]);
            && Storable(p.recs) && Holds(f, p, false)
            && (Recovers(f.contents, true) <==> |Frames(p.recs)| == t)
            && (|Frames(p.recs)| == t ==> Holds(f, p, true))
    ensures t == |Frames(rs)| ==> rs[..WholeFrames(rs, t)] == rs
  {
    hide Frame, Fits, Frames, Storable, ScanFile, WholeFrames;
    var next, k := CutFile(rs, t);
    var n := WholeFrames(rs, t);
    TornTailScan(rs[..n], next, k);
    assert Frame(next)[..0] == [] && Frames(rs[..n]) + [] == Frames(rs[..n]);
    if t == |Frames(rs)| { AllFrames(rs); }
  }

  lemma {:induction false} AllFrames(rs: seq<Record>)
    ensures WholeFrames(rs, |Frames(rs)|) == |rs|
  {
    hide Frame, Frames;
    if rs != [] {
      FramesCons(rs);
      AllFrames(rs[1..]);
    }
  }

  // ----- Crash safety -----

  /** A partition on disk in the middle of a compaction that keeps `kept`. */
  ghost predicate OnDisk(files: seq<LogFile>, parts: seq<Part>, kept: seq<Record>, placeholder: LogFile) {
    && Compacting(parts, kept) && kept != [] && AllHeld(files, parts) && StrictlyOrdered(files)
    && placeholder == LogFile(kept[0].offset, Frames(kept))
  }

  ghost predicate ValidPoint(files: seq<LogFile>, placeholder: LogFile, pt: CrashPoint) {
    && (pt.Writing? ==> pt.written <= |placeholder.contents|)
    && (pt.Removing? ==> pt.gone < |files|)
  }

  /** How many old segments have lost their .log file. */
  function GoneAt(files: seq<LogFile>, pt: CrashPoint): nat {
    match pt
    case Writing(_) => 0
    case Removing(g) => g
    case Renamed => if |files| == 0 then 0 else |files| - 1
  }

  lemma KeptStorable(parts: seq<Part>, kept: seq<Record>)
    requires Compacting(parts, kept)
    ensures Storable(kept)
  {
    CompactingIsOrdered(parts, kept);
    assert parts == Sealed(parts) + [Active(parts)];
    OrderedParts(Sealed(parts), [Active(parts)]);
    ContentsBounded(Sealed(parts), parts[0].base);
    KeptAreSealed(parts, kept);
    hide Storable, Ordered, Contents, Compacting;
    StorableSubset(kept, Contents(Sealed(parts)));
  }

  /** Either way recovery decides: the old segments that are left, or those with the placeholder
      put in its place. */
  lemma AfterRecovery(files: seq<LogFile>, placeholder: LogFile, pt: CrashPoint, listing: seq<LogFile>)
    requires |files| > 1 && StrictlyOrdered(files) && ValidPoint(files, placeholder, pt)
          && placeholder.base < files[|files| - 1].base
    requires Listed(listing, LeftoversAt(placeholder, pt) + LogsAt(files, placeholder, pt))
    ensures var left := files[GoneAt(files, pt)..];
            if placeholder.base in FileMap(left) then listing == left
            else listing == Place(left, LogFile(placeholder.base, if pt.Writing? then placeholder.contents[..pt.written] else placeholder.contents))
  {
    var left := files[GoneAt(files, pt)..];
    var contents := if pt.Writing? then placeholder.contents[..pt.written] else placeholder.contents;
    assert files[0..] == files;
    RecoveredListing(left, placeholder, contents);
    if pt.Renamed? {
      assert left == [files[|files| - 1]];
      FileMapKeys(left, placeholder.base);
      assert [placeholder, files[|files| - 1]][1..] == left;
      assert map[] + LogsAt(files, placeholder, pt) == LogsAt(files, placeholder, pt);
      assert map[placeholder.base := contents] + FileMap(left) == FileMap(left)[placeholder.base := contents];
    }
    hide FileMap, Place;
    ListingUnique(listing, if placeholder.base in FileMap(left) then left else Place(left, LogFile(placeholder.base, contents)));
  }

  lemma {:induction false} PlaceFirst(files: seq<LogFile>, f: LogFile)
    requires files == [] || f.base < files[0].base
    ensures Place(files, f) == [f] + files
  {}

  lemma {:induction false} PlaceAfter(files: seq<LogFile>, f: LogFile, n: nat)
    requires n <= |files| && (forall i :: 0 <= i < n ==> files[i].base < f.base) && (n < |files| ==> f.base < files[n].base)
    ensures Place(files, f) == files[..n] + ([f] + files[n..])
  {
    if n > 0 {
      PlaceAfter(files[1..], f, n - 1);
      assert files[..n] == [files[0]] + files[1..][..n - 1] && files[1..][n - 1..] == files[n..];
    } else {
      assert files[..0] == [] && files[0..] == files;
    }
  }

  lemma PlaceholderHeld(parts: seq<Part>, kept: seq<Record>, placeholder: LogFile)
    requires Compacting(parts, kept) && kept != [] && placeholder == LogFile(kept[0].offset, Frames(kept))
    ensures AllWhole([placeholder], [Part(placeholder.base, kept)])
    ensures placeholder.base < Active(parts).base
  {
    KeptStorable(parts, kept);
    OneWhole(placeholder, Part(placeholder.base, kept));
    CompactingIsOrdered(parts, kept);
    KeptAreSealed(parts, kept);
    PieceBounds(parts, 0);
    hide Holds, Storable, Ordered, Contents, Compacting, Frames;
    assert kept[0] in Contents(Sealed(parts));
  }

  /** Compaction crash safety. When the new base is the base of the sealed segment `j`, a crash at
      any point, followed by recovery, leaves a log that opens and from which a batched replay
      rebuilds the same table as before the compaction began. */
  lemma AlignedCrashIsSafe(files: seq<LogFile>, parts: seq<Part>, kept: seq<Record>, placeholder: LogFile, j: nat,
                           pt: CrashPoint, d: Dir, listing: seq<LogFile>, cursor: int, max: nat)
    requires OnDisk(files, parts, kept, placeholder) && ValidPoint(files, placeholder, pt)
    requires j < |parts| - 1 && parts[j].base == placeholder.base
    requires d.log == LogsAt(files, placeholder, pt) && d.logTmp == LeftoversAt(placeholder, pt)
    requires Listed(listing, Recovered(d).log)
    requires NoneBefore(Contents(parts), cursor) && max > 0
    ensures Opens(listing) && Fold(ReplayParts(OpenedParts(listing), cursor, max)) == Fold(Contents(parts))
  {
    var g := GoneAt(files, pt);
    OnDiskFacts(files, parts, kept, placeholder);
    AlignedListing(files, parts, placeholder, j, pt, d, listing);
    CompactingFrom(files, parts, kept, placeholder);
    hide *;
    HeldTail(files, parts, g);
    if g <= j {
      HeldOpens(files[g..], parts[g..]);
      NoneBeforeLower(kept, parts[j].base, parts[g].base);
      SuffixIsSafe(parts, kept, g, cursor, max);
    } else {
      HeldConcat([placeholder], [Part(placeholder.base, kept)], files[g..], parts[g..]);
      HeldOpens([placeholder] + files[g..], [Part(placeholder.base, kept)] + parts[g..]);
      OverlapFold(parts, kept, placeholder.base, g, cursor, max);
    }
  }

  lemma CompactingFrom(files: seq<LogFile>, parts: seq<Part>, kept: seq<Record>, placeholder: LogFile)
    requires OnDisk(files, parts, kept, placeholder)
    ensures Compacting(parts, kept) && kept != [] && AllHeld(files, parts) && StrictlyOrdered(files)
  {}

  /** With an aligned base the placeholder is discarded while segment `j` is there and leads the
      remaining segments once it is gone. */
  lemma AlignedListing(files: seq<LogFile>, parts: seq<Part>, placeholder: LogFile, j: nat, pt: CrashPoint, d: Dir,
                       listing: seq<LogFile>)
    requires |files| == |parts| > 1 && StrictlyOrdered(files) && ValidPoint(files, placeholder, pt)
    requires (forall i :: 0 <= i < |files| ==> files[i].base == parts[i].base) && j < |parts| - 1 && parts[j].base == placeholder.base
    requires d.log == LogsAt(files, placeholder, pt) && d.logTmp == LeftoversAt(placeholder, pt)
          && Listed(listing, Recovered(d).log)
    ensures var g := GoneAt(files, pt);
            && g < |files| && parts[if g <= j then g else j].base <= parts[j].base
            && listing == if g <= j then files[g..] else [placeholder] + files[g..]
  {
    var g := GoneAt(files, pt);
    assert files[j].base < files[|files| - 1].base;
    AfterRecovery(files, placeholder, pt, listing);
    FileMapKeys(files[g..], placeholder.base);
    if g <= j {
      assert files[g..][j - g].base == placeholder.base;
      if g < j { assert files[g].base < files[j].base; }
    } else {
      forall i | 0 <= i < |files[g..]| ensures placeholder.base < files[g..][i].base { assert files[j].base < files[g + i].base; }
      PlaceFirst(files[g..], placeholder);
    }
  }

  lemma OnDiskFacts(files: seq<LogFile>, parts: seq<Part>, kept: seq<Record>, placeholder: LogFile)
    requires OnDisk(files, parts, kept, placeholder)
    ensures |parts| > 1 && Ordered(parts) && |files| == |parts| && placeholder.base < files[|files| - 1].base
    ensures forall i :: 0 <= i < |files| ==> files[i].base == parts[i].base
    ensures AllWhole([placeholder], [Part(placeholder.base, kept)])
    ensures NoneBefore(kept, placeholder.base)
  {
    CompactingIsOrdered(parts, kept);
    FileBases(files, parts);
    PlaceholderHeld(parts, kept, placeholder);
    KeptFromFirst(parts, kept);
    hide Compacting, Ordered, Holds, Storable, Frames;
  }

  lemma KeptFromFirst(parts: seq<Part>, kept: seq<Record>)
    requires Compacting(parts, kept) && kept != []
    ensures NoneBefore(kept, kept[0].offset)
  {
    CompactingIsOrdered(parts, kept);
    PieceBounds(parts, 0);
    CompactionPreservesFold(Contents(Sealed(parts)));
    hide Compacted, Ordered, Contents, Fold;
  }

  /** With the placeholder discarded: the suffix of old segments replays to the right table. */
  lemma SuffixIsSafe(parts: seq<Part>, kept: seq<Record>, g: nat, cursor: int, max: nat)
    requires Compacting(parts, kept) && g < |parts| && NoneBefore(kept, parts[g].base) && max > 0
    requires NoneBefore(Contents(parts), cursor)
    ensures Fold(ReplayParts(parts[g..], cursor, max)) == Fold(Contents(parts))
  {
    CompactingIsOrdered(parts, kept);
    Pieces(parts, g);
    PieceBounds(parts, g);
    var gone, left := Contents(parts[..g]), Contents(parts[g..]);
    hide Compacting, Ordered, Contents, ReplayParts, FoldFrom;
    ReplayOrdered(parts[g..], cursor, max);
    forall i | 0 <= i < |left| ensures cursor <= left[i].offset { assert (gone + left)[|gone| + i] == left[i]; }
    AtOrAfterAll(left, cursor);
    DroppedPrefixIsDead(parts, kept, g);
  }

  /** With an unaligned base the placeholder, complete or torn, is always put in its place. */
  lemma UnalignedListing(files: seq<LogFile>, parts: seq<Part>, placeholder: LogFile, j: nat, pt: CrashPoint,
                         d: Dir, listing: seq<LogFile>)
    requires |files| == |parts| > 1 && StrictlyOrdered(files) && ValidPoint(files, placeholder, pt)
    requires (forall i :: 0 <= i < |files| ==> files[i].base == parts[i].base)
    requires j < |parts| - 1 && parts[j].base < placeholder.base < parts[j + 1].base
    requires d.log == LogsAt(files, placeholder, pt) && d.logTmp == LeftoversAt(placeholder, pt)
          && Listed(listing, Recovered(d).log)
    ensures var g := GoneAt(files, pt);
            var f := LogFile(placeholder.base, if pt.Writing? then placeholder.contents[..pt.written] else placeholder.contents);
            && g < |files|
            && listing == if g <= j then files[g..j + 1] + ([f] + files[j + 1..]) else [f] + files[g..]
  {
    var g := GoneAt(files, pt);
    var f := LogFile(placeholder.base, if pt.Writing? then placeholder.contents[..pt.written] else placeholder.contents);
    assert files[j + 1].base <= files[|files| - 1].base;
    UnalignedPlace(files, f, g, j);
    hide LogsAt, LeftoversAt, FileMap, Place;
    AfterRecovery(files, placeholder, pt, listing);
  }

  lemma BasesAround(files: seq<LogFile>, base: int, j: nat)
    requires StrictlyOrdered(files) && j + 1 < |files| && files[j].base < base < files[j + 1].base
    ensures forall i :: 0 <= i < |files| ==> files[i].base != base && (files[i].base < base <==> i <= j)
  {
    forall i | 0 <= i < |files| ensures files[i].base != base && (files[i].base < base <==> i <= j) {
      if i < j { assert files[i].base < files[j].base; }
      if i > j + 1 { assert files[j + 1].base < files[i].base; }
    }
  }

  lemma UnalignedPlace(files: seq<LogFile>, f: LogFile, g: nat, j: nat)
    requires StrictlyOrdered(files) && g < |files| && j + 1 < |files| && files[j].base < f.base < files[j + 1].base
    ensures f.base !in FileMap(files[g..])
    ensures Place(files[g..], f) == if g <= j then files[g..j + 1] + ([f] + files[j + 1..]) else [f] + files[g..]
  {
    hide FileMap, Place;
    var left := files[g..];
    FileMapKeys(left, f.base);
    BasesAround(files, f.base, j);
    hide StrictlyOrdered;
    if g <= j {
      PlaceAfter(left, f, j + 1 - g);
      assert left[..j + 1 - g] == files[g..j + 1] && left[j + 1 - g..] == files[j + 1..];
    } else {
      PlaceFirst(left, f);
    }
  }

  /** The retained records whose frames the placeholder contains. */
  function WrittenAt(kept: seq<Record>, pt: CrashPoint): seq<Record> {
    if pt.Writing? then kept[..WholeFrames(kept, pt.written)] else kept
  }

  /** The crash did not leave the placeholder ending inside a frame. */
  predicate EndsWithFrame(kept: seq<Record>, pt: CrashPoint) {
    pt.Writing? ==> |Frames(WrittenAt(kept, pt))| == pt.written
  }

  /** After an unaligned crash the partition opens if and only if the placeholder ends with a whole
      frame. The opened log is then the old segments with the retained records written so far (all
      of them once writing is over) between segment `j` and its successor, or in front of what is
      left once segment `j` is gone. */
  lemma UnalignedCrash(files: seq<LogFile>, parts: seq<Part>, kept: seq<Record>, placeholder: LogFile, j: nat,
                       pt: CrashPoint, d: Dir, listing: seq<LogFile>)
    requires OnDisk(files, parts, kept, placeholder) && ValidPoint(files, placeholder, pt)
    requires j < |parts| - 1 && parts[j].base < placeholder.base < parts[j + 1].base
    requires d.log == LogsAt(files, placeholder, pt) && d.logTmp == LeftoversAt(placeholder, pt)
          && Listed(listing, Recovered(d).log)
    ensures GoneAt(files, pt) < |parts| && (Opens(listing) <==> EndsWithFrame(kept, pt))
    ensures Opens(listing) ==>
            OpenedParts(listing) ==
            if GoneAt(files, pt) <= j then Interleaved(parts, GoneAt(files, pt), j, placeholder.base, WrittenAt(kept, pt))
            else [Part(placeholder.base, kept)] + parts[GoneAt(files, pt)..]
  {
    hide *;
    var g := GoneAt(files, pt);
    PointFacts(files, placeholder, pt);
    OnDiskFacts(files, parts, kept, placeholder);
    CompactingFrom(files, parts, kept, placeholder);
    KeptStorable(parts, kept);
    UnalignedListing(files, parts, placeholder, j, pt, d, listing);
    PlaceholderIs(files, parts, kept, placeholder);
    var t := if pt.Writing? then pt.written else |placeholder.contents|;
    var f := LogFile(placeholder.base, placeholder.contents[..t]);
    assert !pt.Writing? ==> placeholder.contents[..t] == placeholder.contents;
    WrittenIs(kept, pt, t);
    CutFileHolds(placeholder.base, kept, t);
    if |Frames(WrittenAt(kept, pt))| == t {
      OpenedAround(files, parts, f, Part(placeholder.base, WrittenAt(kept, pt)), g, j);
    } else {
      SealedRefuses(files[g..j + 1], f, files[j + 1..]);
    }
  }

  /** Nothing is removed before the placeholder is complete. */
  lemma PointFacts(files: seq<LogFile>, placeholder: LogFile, pt: CrashPoint)
    requires ValidPoint(files, placeholder, pt)
    ensures pt.Writing? ==> pt.written <= |placeholder.contents| && GoneAt(files, pt) == 0
  {}

  lemma WrittenIs(kept: seq<Record>, pt: CrashPoint, t: nat)
    requires if pt.Writing? then t == pt.written else t == |Frames(kept)|
    ensures WrittenAt(kept, pt) == kept[..WholeFrames(kept, t)]
    ensures EndsWithFrame(kept, pt) <==> |Frames(WrittenAt(kept, pt))| == t
    ensures !pt.Writing? ==> WrittenAt(kept, pt) == kept
  {
    hide Frames, WholeFrames;
    AllFrames(kept);
    assert kept[..|kept|] == kept;
  }

  /** A file that does not end with a whole frame refuses the directory unless it is the last. */
  lemma SealedRefuses(before: seq<LogFile>, f: LogFile, after: seq<LogFile>)
    requires after != [] && !Recovers(f.contents, true)
    ensures !Opens(before + ([f] + after))
  {
    hide Recovers;
    var l := before + ([f] + after);
    assert l[|before|] == f && |before| + 1 < |l|;
  }

  /** Opening a list with one more file in it, between segment `j` and the next or in front. */
  lemma OpenedAround(files: seq<LogFile>, parts: seq<Part>, f: LogFile, p: Part, g: nat, j: nat)
    requires AllHeld(files, parts) && StrictlyOrdered(files) && Holds(f, p, true) && Storable(p.recs)
    requires g < |files| && j + 1 < |files|
    ensures Opens([f] + files[g..]) && OpenedParts([f] + files[g..]) == [p] + parts[g..]
    ensures g <= j ==> var l := files[g..j + 1] + ([f] + files[j + 1..]);
                       Opens(l) && OpenedParts(l) == Interleaved(parts, g, j, p.base, p.recs)
  {
    hide Holds, Storable, OpenedParts, Opens;
    OneWhole(f, p);
    HeldTail(files, parts, g);
    HeldConcat([f], [p], files[g..], parts[g..]);
    HeldOpens([f] + files[g..], [p] + parts[g..]);
    if g <= j {
      HeldTail(files, parts, j + 1);
      HeldSlice(files, parts, g, j + 1);
      HeldConcat([f], [p], files[j + 1..], parts[j + 1..]);
      HeldConcat(files[g..j + 1], parts[g..j + 1], [f] + files[j + 1..], [p] + parts[j + 1..]);
      HeldOpens(files[g..j + 1] + ([f] + files[j + 1..]), parts[g..j + 1] + ([p] + parts[j + 1..]));
    }
  }

  lemma PlaceholderIs(files: seq<LogFile>, parts: seq<Part>, kept: seq<Record>, placeholder: LogFile)
    requires OnDisk(files, parts, kept, placeholder)
    ensures placeholder == LogFile(kept[0].offset, Frames(kept))
  {}

  lemma {:induction false} InSomePart(parts: seq<Part>, r: Record) returns (j: nat)
    requires r in Contents(parts)
    ensures j < |parts| && r in parts[j].recs
  {
    if parts != [] {
      if r in parts[0].recs {
        j := 0;
      } else {
        j := InSomePart(parts[1..], r);
        j := j + 1;
      }
    }
  }

  /** The two cases are all there is: the new base lies in some sealed segment, at its base or
      strictly inside. */
  lemma BaseFallsInside(files: seq<LogFile>, parts: seq<Part>, kept: seq<Record>, placeholder: LogFile) returns (j: nat)
    requires OnDisk(files, parts, kept, placeholder)
    ensures j < |parts| - 1 && parts[j].base <= placeholder.base < parts[j + 1].base
  {
    CompactingFrom(files, parts, kept, placeholder);
    PlaceholderIs(files, parts, kept, placeholder);
    CompactingIsOrdered(parts, kept);
    KeptAreSealed(parts, kept);
    AllWellFormed(parts);
    hide Contents, Compacting, Frames, Storable;
    assert kept[0] in kept;
    j := InSomePart(Sealed(parts), kept[0]);
    PartBounds(parts[j].base, parts[j].recs);
    assert parts[j].HighWater() <= parts[j + 1].base;
  }

  /** From an unaligned crash to the table, in one statement. At every crash point the partition
      opens if and only if the placeholder ends with a whole frame, and if it opens, a replay in
      batches of any size rebuilds the table from before the compaction if and only if segment `j`
      is already gone or the interleaved list resurrects no key and loses no retained record. */
  lemma UnalignedCrashIff(files: seq<LogFile>, parts: seq<Part>, kept: seq<Record>, placeholder: LogFile, j: nat,
                          pt: CrashPoint, d: Dir, listing: seq<LogFile>, cursor: int, max: nat)
    requires OnDisk(files, parts, kept, placeholder) && ValidPoint(files, placeholder, pt)
    requires j < |parts| - 1 && parts[j].base < placeholder.base < parts[j + 1].base
    requires d.log == LogsAt(files, placeholder, pt) && d.logTmp == LeftoversAt(placeholder, pt)
          && Listed(listing, Recovered(d).log)
    requires NoneBefore(Contents(parts), cursor) && max > 0
    ensures Opens(listing) <==> EndsWithFrame(kept, pt)
    ensures Opens(listing) ==>
            (Fold(ReplayParts(OpenedParts(listing), cursor, max)) == Fold(Contents(parts)) <==>
             (GoneAt(files, pt) <= j ==> Sound(CutOf(parts, kept, WrittenAt(kept, pt), GoneAt(files, pt), j, cursor, max))))
  {
    hide *;
    var g := GoneAt(files, pt);
    OnDiskFacts(files, parts, kept, placeholder);
    CompactingFrom(files, parts, kept, placeholder);
    PlaceholderIs(files, parts, kept, placeholder);
    UnalignedCrash(files, parts, kept, placeholder, j, pt, d, listing);
    if Opens(listing) {
      if g <= j {
        WrittenPrefix(kept, pt);
        InterruptedBy(parts, kept, WrittenAt(kept, pt), g, j);
        UnalignedRecoveryIff(parts, kept, WrittenAt(kept, pt), g, j, cursor, max);
      } else {
        OverlapFold(parts, kept, placeholder.base, g, cursor, max);
      }
    }
  }

  lemma WrittenPrefix(kept: seq<Record>, pt: CrashPoint)
    ensures WrittenAt(kept, pt) <= kept
  {
    hide WholeFrames;
  }

  lemma InterruptedBy(parts: seq<Part>, kept: seq<Record>, ph: seq<Record>, g: nat, j: nat)
    requires Compacting(parts, kept) && kept != [] && ph <= kept && g <= j < |parts| - 1
    requires parts[j].base < kept[0].offset < parts[j + 1].base
    ensures Interrupted(parts, kept, ph, g, j)
  {
    hide Compacting;
  }
}
