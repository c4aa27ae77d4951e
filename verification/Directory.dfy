/** The .log files of a partition directory: what they hold, and what opening them in base order
    yields (openSegment and recover in broker/internal/log/segment.go, OpenPartition in
    broker/internal/log/partition.go). */
module Directories {
  import opened Bytes
  import opened Seqs
  import opened Records
  import opened Codec
  import opened LogSpec
  import opened SegmentSpec
  import opened PartitionSpec

  /** A .log file as discovered on disk. */
  datatype LogFile = LogFile(base: int, contents: bytes)

  /** The file holds the part's records; one that is still written to may end in a strict prefix
      of one more frame. */
  ghost predicate Holds(f: LogFile, p: Part, sealed: bool) {
    f.base == p.base &&
    if sealed then f.contents == Frames(p.recs) else
    exists next: Record, k: nat :: Fits(next) && k < |Frame(next)| && f.contents == Frames(p.recs) + Frame(next)[..k]
  }

  /** The files of a directory hold the parts, the last one being open for writing. */
  ghost predicate AllHeld(files: seq<LogFile>, parts: seq<Part>) {
    |files| == |parts| &&
    forall i :: 0 <= i < |files| ==> Holds(files[i], parts[i], i + 1 < |files|) && Storable(parts[i].recs)
  }

  /** Whether OpenPartition succeeds on the listed files. */
  predicate Opens(files: seq<LogFile>) {
    forall i :: 0 <= i < |files| ==> Recovers(files[i].contents, i + 1 < |files|)
  }

  /** The records recovered from each listed file. */
  function OpenedParts(files: seq<LogFile>): (parts: seq<Part>)
    ensures |parts| == |files|
  {
    seq(|files|, i requires 0 <= i < |files| => Part(files[i].base, ScanFile(files[i].contents).recs))
  }

  lemma SmallRecord() returns (r: Record)
    ensures Fits(r)
  {
    r := Record(0, 0, [], Nil, []);
  }

  lemma WholeFileScans(base: int, rs: seq<Record>)
    requires Storable(rs)
    ensures var scan := ScanFile(Frames(rs));
            && scan.status.EOF? && scan.recs == rs && Frames(rs)[..scan.end] == Frames(rs)
            && IndexFold(WrittenAs(base, scan.recs, scan.sizes)) == IndexOf(base, rs)
  {
    hide ScanFile, Frame, Fits, Storable;
    var r := SmallRecord();
    TornTailScan(rs, r, 0);
    TornTailRecovers(base, rs, r, 0);
    assert Frame(r)[..0] == [] && Frames(rs) + [] == Frames(rs);
  }

  /** What a held file recovers to is what was put there. */
  lemma HeldRecovers(f: LogFile, p: Part, sealed: bool)
    requires Holds(f, p, sealed) && Storable(p.recs)
    ensures var scan := ScanFile(f.contents);
            && Recovers(f.contents, sealed) && scan.recs == p.recs && f.contents[..scan.end] == Frames(p.recs)
            && IndexFold(WrittenAs(p.base, scan.recs, scan.sizes)) == IndexOf(p.base, p.recs)
  {
    hide ScanFile, Frame, Fits, Storable;
    if sealed {
      WholeFileScans(p.base, p.recs);
    } else {
      var next: Record, k: nat :| Fits(next) && k < |Frame(next)| && f.contents == Frames(p.recs) + Frame(next)[..k];
      TornTailRecovers(p.base, p.recs, next, k);
    }
  }

  /** A directory that holds parts opens to them. */
  lemma HeldOpens(files: seq<LogFile>, parts: seq<Part>)
    requires AllHeld(files, parts)
    ensures Opens(files) && OpenedParts(files) == parts
  {
    hide Holds, Storable, ScanFile, Recovers;
    forall i | 0 <= i < |files| ensures Recovers(files[i].contents, i + 1 < |files|) && OpenedParts(files)[i] == parts[i] {
      HeldRecovers(files[i], parts[i], i + 1 < |files|);
      HeldBase(files[i], parts[i], i + 1 < |files|);
    }
  }

  lemma HeldBase(f: LogFile, p: Part, sealed: bool)
    requires Holds(f, p, sealed)
    ensures f.base == p.base
  {}

  lemma WholeHolds(f: LogFile, p: Part, sealed: bool)
    requires f == LogFile(p.base, Frames(p.recs))
    ensures Holds(f, p, sealed)
  {
    hide Frame, Fits, Frames;
    var r := SmallRecord();
    assert Frame(r)[..0] == [] && Frames(p.recs) + [] == Frames(p.recs);
    assert Fits(r) && 0 < |Frame(r)| && f.contents == Frames(p.recs) + Frame(r)[..0];
  }

  lemma AllWellFormed(parts: seq<Part>)
    requires Ordered(parts)
    ensures forall i :: 0 <= i < |parts| ==> WellFormed(parts[i].base, parts[i].recs)
  {
  }

  // ----- Closing and opening again -----

  /** The beginning of a frame that was never finished, or nothing. */
  ghost predicate PartialFrame(torn: bytes) {
    exists next: Record, k: nat :: Fits(next) && k < |Frame(next)| && torn == Frame(next)[..k]
  }

  /** The files of a partition whose last one was being written to. */
  function FilesOf(parts: seq<Part>, torn: bytes): (files: seq<LogFile>)
    ensures |files| == |parts|
  {
    seq(|parts|, i requires 0 <= i < |parts| =>
          LogFile(parts[i].base, Frames(parts[i].recs) + if i + 1 < |parts| then [] else torn))
  }

  /** Whatever was left unfinished, the directory of a log opens to the log. */
  lemma ReopenFinds(parts: seq<Part>, torn: bytes)
    requires Ordered(parts) && PartialFrame(torn)
    ensures AllHeld(FilesOf(parts, torn), parts)
    ensures Opens(FilesOf(parts, torn)) && OpenedParts(FilesOf(parts, torn)) == parts
  {
    AllWellFormed(parts);
    hide Frames, Storable, Ordered, Opens, OpenedParts;
    var files := FilesOf(parts, torn);
    forall i | 0 <= i < |files| ensures Holds(files[i], parts[i], i + 1 < |files|) && Storable(parts[i].recs) {
      assert Frames(parts[i].recs) + [] == Frames(parts[i].recs);
    }
    HeldOpens(files, parts);
  }

  lemma NothingTorn()
    ensures PartialFrame([])
  {
    hide Fits, Frame;
    var r := SmallRecord();
    assert Frame(r)[..0] == [];
  }
}
