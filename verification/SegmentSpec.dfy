/** What one .log file and its in-memory sparse index hold, as functions of the records written
    (broker/internal/log/segment.go, broker/internal/log/index.go). */
module SegmentSpec {
  import opened Bytes
  import opened Seqs
  import opened Records
  import opened Codec
  import opened LogSpec

  const INDEX_INTERVAL := 4096

  function Frames(rs: seq<Record>): bytes { ConcatMap(Frame, rs) }

  /** An index entry: 32-bit relative offset and 32-bit file position. */
  datatype Entry = Entry(rel: int, pos: int)

  // ----- The sparse index as a function of what has been written -----

  datatype IndexState = IndexState(entries: seq<Entry>, since: nat, size: nat)

  const EMPTY_INDEX := IndexState([], 0, 0)

  function IndexStep(st: IndexState, rel: int, len: nat): IndexState {
    if st.since == 0 || st.since >= INDEX_INTERVAL
    then IndexState(st.entries + [Entry(rel % TWO32, st.size % TWO32)], len, st.size + len)
    else IndexState(st.entries, st.since + len, st.size + len)
  }

  /** One frame as the index sees it: relative offset and length. */
  datatype Written = Written(rel: int, len: nat)

  function IndexFold(ws: seq<Written>): IndexState {
    if ws == [] then EMPTY_INDEX else
      IndexStep(IndexFold(ws[..|ws| - 1]), ws[|ws| - 1].rel, ws[|ws| - 1].len)
  }

  function WrittenAs(base: int, rs: seq<Record>, sizes: seq<nat>): (ws: seq<Written>)
    requires |sizes| == |rs|
  {
    seq(|rs|, i requires 0 <= i < |rs| => Written(rs[i].offset - base, sizes[i]))
  }

  function FrameSizes(rs: seq<Record>): (ns: seq<nat>)
    ensures |ns| == |rs|
  {
    Sizes(Frame, rs)
  }

  lemma FrameSizesSnoc(rs: seq<Record>, r: Record)
    ensures FrameSizes(rs + [r]) == FrameSizes(rs) + [|Frame(r)|]
  {
    SizesAppend(Frame, rs, [r]);
    SizesOne(Frame, r);
  }

  /** The index that appending `rs` to a fresh segment builds. */
  function IndexOf(base: int, rs: seq<Record>): IndexState { IndexFold(WrittenAs(base, rs, FrameSizes(rs))) }

  function TotalLen(ws: seq<Written>): nat {
    if ws == [] then 0 else TotalLen(ws[..|ws| - 1]) + ws[|ws| - 1].len
  }

  lemma IndexFoldSnoc(ws: seq<Written>, w: Written)
    ensures IndexFold(ws + [w]) == IndexStep(IndexFold(ws), w.rel, w.len)
    ensures TotalLen(ws + [w]) == TotalLen(ws) + w.len
  {
    assert (ws + [w])[..|ws|] == ws;
  }

  lemma WrittenSnoc(base: int, rs: seq<Record>, sizes: seq<nat>, r: Record, n: nat)
    requires |sizes| == |rs|
    ensures WrittenAs(base, rs + [r], sizes + [n]) == WrittenAs(base, rs, sizes) + [Written(r.offset - base, n)]
  {}

  lemma IndexSnoc(base: int, rs: seq<Record>, r: Record)
    ensures IndexOf(base, rs + [r]) == IndexStep(IndexOf(base, rs), r.offset - base, |Frame(r)|)
  {
    hide Frame;
    var n := |Frame(r)|;
    FrameSizesSnoc(rs, r);
    WrittenSnoc(base, rs, FrameSizes(rs), r, n);
    IndexFoldSnoc(WrittenAs(base, rs, FrameSizes(rs)), Written(r.offset - base, n));
  }

  lemma {:induction false} TotalIsFileSize(base: int, rs: seq<Record>)
    ensures TotalLen(WrittenAs(base, rs, FrameSizes(rs))) == |Frames(rs)|
  {
    hide Frame;
    if rs != [] {
      var init, last := rs[..|rs| - 1], rs[|rs| - 1];
      assert rs == init + [last];
      TotalIsFileSize(base, init);
      ConcatMapSnoc(Frame, init, last);
      FrameSizesSnoc(init, last);
      WrittenSnoc(base, init, FrameSizes(init), last, |Frame(last)|);
      IndexFoldSnoc(WrittenAs(base, init, FrameSizes(init)), Written(last.offset - base, |Frame(last)|));
    }
  }

  /** `at` lists the frames the index points at, in increasing order, each with its own
      relative offset and the position its predecessors add up to. */
  ghost predicate Points(ws: seq<Written>, entries: seq<Entry>, at: seq<nat>) {
    && |at| == |entries|
    && (forall j :: 0 <= j < |at| ==> at[j] < |ws|)
    && (forall j :: 0 <= j < |at| ==> entries[j] == Entry(ws[at[j]].rel % TWO32, TotalLen(ws[..at[j]]) % TWO32))
    && (forall i, j :: 0 <= i < j < |at| ==> at[i] < at[j])
  }

  lemma {:induction false} IndexPoints(ws: seq<Written>) returns (at: seq<nat>)
    ensures IndexFold(ws).size == TotalLen(ws)
    ensures Points(ws, IndexFold(ws).entries, at)
  {
    at := [];
    if ws != [] {
      var init := ws[..|ws| - 1];
      at := IndexPoints(init);
      forall k | 0 <= k <= |init| ensures ws[..k] == init[..k] {}
      if IndexFold(ws).entries != IndexFold(init).entries { at := at + [|init|]; }
    }
  }

  // ----- Lookup -----

  ghost predicate SortedEntries(entries: seq<Entry>) {
    forall i, j :: 0 <= i < j < |entries| ==> entries[i].rel <= entries[j].rel
  }

  /** `pos` is where the last entry at or below `rel` points, or the start when there is none. */
  ghost predicate IsFloor(entries: seq<Entry>, rel: int, pos: int) {
    || (pos == 0 && forall j :: 0 <= j < |entries| ==> entries[j].rel > rel)
    || (exists j :: 0 <= j < |entries| && entries[j].rel <= rel && entries[j].pos == pos &&
                    forall i :: j < i < |entries| ==> entries[i].rel > rel)
  }

  /** The position found by the binary search of index.lookup. */
  function Lookup(entries: seq<Entry>, rel: int): int {
    var k := UpperBound(entries, rel, 0, |entries|);
    if k == 0 then 0 else entries[k - 1].pos
  }

  /** sort.Search for the first entry above `rel`. */
  function UpperBound(entries: seq<Entry>, rel: int, lo: nat, hi: nat): (k: nat)
    requires lo <= hi <= |entries|
    ensures lo <= k <= hi
    ensures SortedEntries(entries) && (forall j :: 0 <= j < lo ==> entries[j].rel <= rel) &&
            (forall j :: hi <= j < |entries| ==> entries[j].rel > rel) ==>
            (forall j :: 0 <= j < k ==> entries[j].rel <= rel) && (forall j :: k <= j < |entries| ==> entries[j].rel > rel)
    decreases hi - lo
  {
    if lo == hi then lo else
      var mid := (lo + hi) / 2;
      if entries[mid].rel > rel then UpperBound(entries, rel, lo, mid) else UpperBound(entries, rel, mid + 1, hi)
  }

  lemma LookupIsFloor(entries: seq<Entry>, rel: int)
    requires SortedEntries(entries)
    ensures IsFloor(entries, rel, Lookup(entries, rel))
  {}

  /** index.lookup with sort.Search written out as the loop it is. */
  method LookupLoop(entries: seq<Entry>, rel: int) returns (pos: int)
    ensures pos == Lookup(entries, rel)
  {
    var lo, hi := 0, |entries|;
    while lo < hi
      invariant 0 <= lo <= hi <= |entries|
      invariant UpperBound(entries, rel, lo, hi) == UpperBound(entries, rel, 0, |entries|)
    {
      var mid := (lo + hi) / 2;
      if entries[mid].rel > rel { hi := mid; } else { lo := mid + 1; }
    }
    pos := if lo == 0 then 0 else entries[lo - 1].pos;
  }

  // ----- Scanning a file -----

  /** Everything readRecordFrom yields from the start of `b`, and how the scan ended. */
  datatype Scan = Scan(recs: seq<Record>, sizes: seq<nat>, end: nat, status: ReadResult)

  function ScanFile(b: bytes): (s: Scan)
    ensures s.end <= |b| && |s.sizes| == |s.recs| && !s.status.Got?
    decreases |b|
  {
    match ReadFrame(b)
    case Got(r, n) =>
      var more := ScanFile(b[n..]);
      Scan([r] + more.recs, [n] + more.sizes, n + more.end, more.status)
    case stop => Scan([], [], 0, stop)
  }

  /** Whether recover succeeds. A short or corrupt tail is cut off, which only a file opened for
      writing allows: a sealed segment, opened read-only, has to end at a frame boundary. */
  predicate Recovers(file: bytes, sealed: bool) {
    var status := ScanFile(file).status;
    status.EOF? || (!sealed && !status.Malformed?)
  }

  predicate StorableRecord(r: Record) { Fits(r) && Normal(r) }

  ghost predicate Storable(rs: seq<Record>) {
    forall i {:trigger StorableRecord(rs[i])} :: 0 <= i < |rs| ==> StorableRecord(rs[i])
  }

  lemma StorableParts(a: seq<Record>, b: seq<Record>)
    ensures Storable(a + b) <==> Storable(a) && Storable(b)
  {
    if Storable(a + b) {
      forall i | 0 <= i < |a| ensures StorableRecord(a[i]) { assert StorableRecord((a + b)[i]); }
      forall i | 0 <= i < |b| ensures StorableRecord(b[i]) { assert StorableRecord((a + b)[|a| + i]); }
    }
    if Storable(a) && Storable(b) {
      forall i | 0 <= i < |a + b| ensures StorableRecord((a + b)[i]) {
        if i < |a| { assert StorableRecord(a[i]); } else { assert StorableRecord(b[i - |a|]); }
      }
    }
  }

  lemma ScanFrame(r: Record, rest: bytes)
    requires StorableRecord(r)
    ensures var more := ScanFile(rest);
            ScanFile(Frame(r) + rest) == Scan([r] + more.recs, [|Frame(r)|] + more.sizes, |Frame(r)| + more.end, more.status)
  {
    FrameReads(r, rest);
    Split(Frame(r), rest);
  }

  lemma ScanStops(tail: bytes)
    requires !ReadFrame(tail).Got?
    ensures ScanFile(tail) == Scan([], [], 0, ReadFrame(tail))
  {
    hide ReadFrame;
  }

  /** A file holding whole frames and then anything that does not start with a readable frame. */
  lemma {:induction false} ScanFramesThen(rs: seq<Record>, tail: bytes)
    requires Storable(rs) && !ReadFrame(tail).Got?
    ensures ScanFile(Frames(rs) + tail) == Scan(rs, FrameSizes(rs), |Frames(rs)|, ReadFrame(tail))
  {
    hide Frame, ScanFile, ReadFrame, StorableRecord;
    if rs == [] {
      assert Frames(rs) + tail == tail;
      ScanStops(tail);
    } else {
      assert rs == [rs[0]] + rs[1..];
      StorableParts([rs[0]], rs[1..]);
      assert StorableRecord([rs[0]][0]);
      var rest := Frames(rs[1..]) + tail;
      Assoc(Frame(rs[0]), Frames(rs[1..]), tail);
      ScanFrame(rs[0], rest);
      ScanFramesThen(rs[1..], tail);
      SizesAppend(Frame, [rs[0]], rs[1..]);
      SizesOne(Frame, rs[0]);
    }
  }

  /** Torn tail: after whole frames, any strict prefix of one more frame (none of it included)
      scans to exactly the whole records, and the end of the last whole frame is known. */
  lemma TornTailScan(rs: seq<Record>, next: Record, k: nat)
    requires Storable(rs) && Fits(next) && k < |Frame(next)|
    ensures ScanFile(Frames(rs) + Frame(next)[..k]) ==
            Scan(rs, FrameSizes(rs), |Frames(rs)|, if k == 0 then EOF else UnexpectedEOF)
  {
    if k > 0 { CutFrameIsTorn(next, k); } else { assert Frame(next)[..0] == []; }
    ScanFramesThen(rs, Frame(next)[..k]);
  }

  // ----- readFrom over raw bytes -----

  datatype ReadOutcome = Records(recs: seq<Record>) | ReadFailed

  /** The scan loop of readFrom: skip below `from`, stop at `max` or at the end of the file. */
  function ScanRead(b: bytes, from: int, max: nat): ReadOutcome
    decreases |b|
  {
    if max == 0 then Records([]) else
      match ReadFrame(b)
      case EOF => Records([])
      case UnexpectedEOF => Records([])
      case Torn => ReadFailed
      case Malformed => ReadFailed
      case Got(r, n) =>
        if r.offset < from then ScanRead(b[n..], from, max)
        else Cons(r, ScanRead(b[n..], from, max - 1))
  }

  function Cons(r: Record, o: ReadOutcome): ReadOutcome {
    match o
    case Records(rs) => Records([r] + rs)
    case ReadFailed => ReadFailed
  }

  lemma {:induction false} ScanReadFrames(rs: seq<Record>, from: int, max: nat)
    requires Storable(rs)
    ensures ScanRead(Frames(rs), from, max) == Records(NaiveRead(rs, from, max))
  {
    if rs != [] && max > 0 {
      assert rs == [rs[0]] + rs[1..];
      StorableParts([rs[0]], rs[1..]);
      assert StorableRecord([rs[0]][0]);
      var rest := Frames(rs[1..]);
      FrameReads(rs[0], rest);
      Split(Frame(rs[0]), rest);
      ScanReadFrames(rs[1..], from, if rs[0].offset < from then max else max - 1);
      TakeCons(rs, from, max);
    }
  }

  lemma TakeCons(rs: seq<Record>, from: int, max: nat)
    requires rs != [] && max > 0
    ensures NaiveRead(rs, from, max) ==
            if rs[0].offset < from then NaiveRead(rs[1..], from, max) else [rs[0]] + NaiveRead(rs[1..], from, max - 1)
  {}

  // ----- The indexed read equals the naive one -----

  ghost predicate WellFormed(base: int, rs: seq<Record>) {
    Storable(rs) && Increasing(rs) && NoneBefore(rs, base)
  }

  /** File positions and relative offsets stay within the index's 32-bit words. */
  ghost predicate Indexable(base: int, rs: seq<Record>) {
    |Frames(rs)| < TWO32 && AllBefore(rs, base + TWO32)
  }

  lemma PositionOf(base: int, rs: seq<Record>, k: nat)
    requires k <= |rs|
    ensures TotalLen(WrittenAs(base, rs, FrameSizes(rs))[..k]) == |Frames(rs[..k])|
    ensures Frames(rs) == Frames(rs[..k]) + Frames(rs[k..])
  {
    assert rs == rs[..k] + rs[k..];
    SizesAppend(Frame, rs[..k], rs[k..]);
    assert WrittenAs(base, rs, FrameSizes(rs))[..k] == WrittenAs(base, rs[..k], FrameSizes(rs[..k]));
    TotalIsFileSize(base, rs[..k]);
    ConcatMapAppend(Frame, rs[..k], rs[k..]);
  }

  ghost predicate SmallAndIncreasing(ws: seq<Written>) {
    && (forall i :: 0 <= i < |ws| ==> 0 <= ws[i].rel < TWO32)
    && (forall i, j :: 0 <= i < j < |ws| ==> ws[i].rel < ws[j].rel)
  }

  lemma {:induction false} TotalLenPrefix(ws: seq<Written>, k: nat)
    requires k <= |ws|
    ensures TotalLen(ws[..k]) <= TotalLen(ws)
  {
    if k < |ws| {
      TotalLenPrefix(ws[..|ws| - 1], k);
      assert ws[..|ws| - 1][..k] == ws[..k];
    } else {
      assert ws[..k] == ws;
    }
  }

  /** Nothing wraps while offsets and positions are small: entries hold the true values. */
  lemma EntriesAreExact(ws: seq<Written>, entries: seq<Entry>, at: seq<nat>)
    requires SmallAndIncreasing(ws) && TotalLen(ws) < TWO32 && Points(ws, entries, at)
    ensures forall j :: 0 <= j < |at| ==> entries[j] == Entry(ws[at[j]].rel, TotalLen(ws[..at[j]]))
    ensures SortedEntries(entries)
  {
    forall j | 0 <= j < |at| ensures entries[j] == Entry(ws[at[j]].rel, TotalLen(ws[..at[j]])) {
      TotalLenPrefix(ws, at[j]);
    }
    forall i, j | 0 <= i < j < |entries| ensures entries[i].rel <= entries[j].rel {
      assert at[i] < at[j];
      assert ws[at[i]].rel < ws[at[j]].rel;
    }
  }

  /** Where the index sends a reader: the start of some frame with nothing wanted before it. */
  lemma FloorFrame(ws: seq<Written>, rel: int) returns (k: nat)
    requires SmallAndIncreasing(ws) && TotalLen(ws) < TWO32
    ensures k <= |ws| && forall i :: 0 <= i < k ==> ws[i].rel < rel
    ensures Lookup(IndexFold(ws).entries, rel) == TotalLen(ws[..k])
  {
    var entries := IndexFold(ws).entries;
    var at := IndexPoints(ws);
    EntriesAreExact(ws, entries, at);
    k := FloorOf(ws, entries, at, rel);
  }

  lemma FloorOf(ws: seq<Written>, entries: seq<Entry>, at: seq<nat>, rel: int) returns (k: nat)
    requires SmallAndIncreasing(ws) && |at| == |entries| && SortedEntries(entries)
    requires forall j :: 0 <= j < |at| ==> at[j] < |ws| && entries[j] == Entry(ws[at[j]].rel, TotalLen(ws[..at[j]]))
    ensures k <= |ws| && forall i :: 0 <= i < k ==> ws[i].rel < rel
    ensures Lookup(entries, rel) == TotalLen(ws[..k])
  {
    var n := UpperBound(entries, rel, 0, |entries|);
    if n == 0 { k := 0; } else { k := at[n - 1]; }
  }

  lemma IndexedStart(base: int, rs: seq<Record>, sizes: seq<nat>, from: int) returns (k: nat)
    requires |sizes| == |rs| && Increasing(rs) && NoneBefore(rs, base) && AllBefore(rs, base + TWO32)
    requires TotalLen(WrittenAs(base, rs, sizes)) < TWO32
    ensures k <= |rs| && AllBefore(rs[..k], from)
    ensures Lookup(IndexFold(WrittenAs(base, rs, sizes)).entries, from - base) == TotalLen(WrittenAs(base, rs, sizes)[..k])
  {
    var ws := WrittenAs(base, rs, sizes);
    k := FloorFrame(ws, from - base);
    forall i | 0 <= i < k ensures rs[i].offset < from { assert ws[i].rel < from - base; }
  }

  /** segment.readFrom on its fields. */
  function SegmentRead(base: int, file: bytes, entries: seq<Entry>, highWater: int, from: int, max: int): ReadOutcome
  {
    if max <= 0 || from >= highWater then Records([]) else
      var from' := if from < base then base else from;
      var start := Lookup(entries, (from' - base) % TWO32);
      if 0 <= start <= |file| then ScanRead(file[start..], from', max) else Records([])
  }

  lemma NaiveReadSkips(rs: seq<Record>, k: nat, from: int, max: int)
    requires k <= |rs| && AllBefore(rs[..k], from)
    ensures NaiveRead(rs, from, max) == NaiveRead(rs[k..], from, max)
  {
    assert rs == rs[..k] + rs[k..];
    AtOrAfterConcat(rs[..k], rs[k..], from);
    AtOrAfterNone(rs[..k], from);
  }

  lemma NaiveReadClamps(rs: seq<Record>, base: int, from: int, max: int)
    requires NoneBefore(rs, base) && from <= base
    ensures NaiveRead(rs, from, max) == NaiveRead(rs, base, max)
  {
    AtOrAfterAll(rs, from);
    AtOrAfterAll(rs, base);
  }

  lemma ReadFromFrame(base: int, rs: seq<Record>, k: nat, from: int, max: nat)
    requires Storable(rs) && k <= |rs| && AllBefore(rs[..k], from)
    ensures var start := TotalLen(WrittenAs(base, rs, FrameSizes(rs))[..k]);
            start <= |Frames(rs)| && ScanRead(Frames(rs)[start..], from, max) == Records(NaiveRead(rs, from, max))
  {
    hide ScanRead, Frame, Storable;
    PositionOf(base, rs, k);
    Split(Frames(rs[..k]), Frames(rs[k..]));
    assert rs == rs[..k] + rs[k..];
    StorableParts(rs[..k], rs[k..]);
    ScanReadFrames(rs[k..], from, max);
    NaiveReadSkips(rs, k, from, max);
  }

  lemma SeekAndScan(base: int, rs: seq<Record>, from: int, max: nat)
    requires WellFormed(base, rs) && Indexable(base, rs)
    ensures var start := Lookup(IndexOf(base, rs).entries, from - base);
            0 <= start <= |Frames(rs)| && ScanRead(Frames(rs)[start..], from, max) == Records(NaiveRead(rs, from, max))
  {
    TotalIsFileSize(base, rs);
    var k := IndexedStart(base, rs, FrameSizes(rs), from);
    ReadFromFrame(base, rs, k, from, max);
  }

  lemma ReadVia(base: int, file: bytes, entries: seq<Entry>, highWater: int, from: int, max: int, o: ReadOutcome)
    requires max > 0 && from < highWater
    requires var from' := if from < base then base else from;
             var start := Lookup(entries, from' - base);
             0 <= from' - base < TWO32 && 0 <= start <= |file| && ScanRead(file[start..], from', max) == o
    ensures SegmentRead(base, file, entries, highWater, from, max) == o
  {
    hide ScanRead, Lookup;
  }

  /** The sparse index never changes an answer: seeking through it and scanning forward returns
      the first `max` records at or after `from`, gaps in the offsets included. */
  lemma SegmentReadIsNaive(base: int, rs: seq<Record>, from: int, max: int)
    requires WellFormed(base, rs) && Indexable(base, rs)
    ensures SegmentRead(base, Frames(rs), IndexOf(base, rs).entries, NextOffset(base, rs), from, max)
            == Records(NaiveRead(rs, from, max))
  {
    hide ScanRead, Lookup, IndexOf, Frames, Storable;
    if max > 0 && from >= NextOffset(base, rs) {
      assert AllBefore(rs, from);
      AtOrAfterNone(rs, from);
    } else if max > 0 {
      if from < base { NaiveReadClamps(rs, base, from, max); }
      SeekAndScan(base, rs, if from < base then base else from, max);
      ReadVia(base, Frames(rs), IndexOf(base, rs).entries, NextOffset(base, rs), from, max, Records(NaiveRead(rs, from, max)));
    }
  }

  function PrependAll(rs: seq<Record>, o: ReadOutcome): ReadOutcome {
    match o
    case Records(more) => Records(rs + more)
    case ReadFailed => ReadFailed
  }

  lemma PrependOne(rs: seq<Record>, r: Record, o: ReadOutcome)
    ensures PrependAll(rs, Cons(r, o)) == PrependAll(rs + [r], o)
  {
    if o.Records? { Assoc(rs, [r], o.recs); }
  }

  /** What recovery leaves behind is what appending the surviving records built: for whole frames
      followed by any strict prefix of another, the kept bytes, records, index, spacing and size
      are those of a segment that was only ever given `rs`. */
  lemma TornTailRecovers(base: int, rs: seq<Record>, next: Record, k: nat)
    requires Storable(rs) && Fits(next) && k < |Frame(next)|
    ensures var file := Frames(rs) + Frame(next)[..k];
            var scan := ScanFile(file);
            && !scan.status.Malformed? && scan.recs == rs
            && file[..scan.end] == Frames(rs)
            && IndexFold(WrittenAs(base, scan.recs, scan.sizes)) == IndexOf(base, rs)
  {
    hide ScanFile, Frame;
    TornTailScan(rs, next, k);
    Split(Frames(rs), Frame(next)[..k]);
  }

  lemma IndexSizeIsFileSize(base: int, rs: seq<Record>)
    ensures IndexOf(base, rs).size == |Frames(rs)|
  {
    hide IndexFold, Frames, FrameSizes;
    TotalIsFileSize(base, rs);
    var _ := IndexPoints(WrittenAs(base, rs, FrameSizes(rs)));
  }
}
