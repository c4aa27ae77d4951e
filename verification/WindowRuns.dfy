/** Runs of a windowed count: records, punctuations and watermark advances in any order. */
module WindowRuns {
  import opened Bytes
  import opened Seqs
  import opened WindowSpec

  function Count(st: Store, k: bytes): nat { if k in st then DecodeCount(st[k]) else 0 }

  /** One Get, add one, Put; the counter is an unsigned 64-bit word. */
  function Increment(st: Store, k: bytes): Store { st[k := EncodeCount((Count(st, k) + 1) % TWO64)] }

  function IncrementAll(st: Store, key: bytes, starts: seq<int>): Store {
    if starts == [] then st else Increment(IncrementAll(st, key, starts[..|starts| - 1]), MakeKey(key, starts[|starts| - 1]))
  }

  predicate Closed(k: bytes, size: int, current: int, watermark: int) {
    var w := ParseKey(k);
    w.WindowKey? && w.start + size <= watermark && w.start != current
  }

  /** What a sweep takes out of the store and emits. */
  function Harvest(st: Store, size: int, current: int, watermark: int): Store {
    map k | k in st && Closed(k, size, current, watermark) :: st[k]
  }

  datatype State = State(store: Store, watermark: int)

  /** `Observe` is any advance of the shared watermark, by this pipeline or another. */
  datatype Event = Tally(key: bytes, t: int) | Punctuate(now: int) | Observe(ts: int)

  /** The new state and the counts emitted, by state key. */
  function Step(c: Config, s: State, e: Event): (State, Store)
    requires c.advance > 0
  {
    match e
    case Tally(key, t) =>
      var st := IncrementAll(s.store, key, Starts(c, t));
      var out := Harvest(st, c.size, LatestStart(t, c.advance), s.watermark);
      (State(st - out.Keys, s.watermark), out)
    case Punctuate(now) =>
      var wm := Max(s.watermark, now);
      var out := Harvest(s.store, c.size, -1, wm);
      (State(s.store - out.Keys, wm), out)
    case Observe(ts) => (State(s.store, Max(s.watermark, ts)), map[])
  }

  /** One record of a tumbling count: a single bucket, at the start Go's division gives. */
  function Tumble(size: int, s: State, key: bytes, t: int): (State, Store)
    requires size > 0
  {
    var start := LatestStart(t, size);
    var st := Increment(s.store, MakeKey(key, start));
    var out := Harvest(st, size, start, s.watermark);
    (State(st - out.Keys, s.watermark), out)
  }

  /** For times that are not negative a tumbling count is a hopping count advancing by its own size,
      so everything below holds of both. */
  lemma TumblesAreHops(size: int, s: State, key: bytes, t: int)
    requires size > 0 && t >= 0
    ensures Tumble(size, s, key, t) == Step(Config(size, size), s, Tally(key, t))
  {
    TumblingStarts(size, t);
    var start := LatestStart(t, size);
    hide LatestStart, Starts, Harvest, Increment, Covers;
    assert [start][..0] == [];
    assert IncrementAll(s.store, key, [start]) == Increment(s.store, MakeKey(key, start));
  }

  function Reached(c: Config, s: State, h: seq<Event>): State
    requires c.advance > 0
  {
    if h == [] then s else Step(c, Reached(c, s, h[..|h| - 1]), h[|h| - 1]).0
  }

  /** The sum of the counts emitted under one state key. */
  function Emitted(c: Config, s: State, h: seq<Event>, k: bytes): nat
    requires c.advance > 0
  {
    if h == [] then 0 else
      var init := h[..|h| - 1];
      Emitted(c, s, init, k) + Count(Step(c, Reached(c, s, init), h[|h| - 1]).1, k)
  }

  predicate Belongs(c: Config, e: Event, key: bytes, start: int)
    requires c.advance > 0
  {
    e.Tally? && e.key == key && Covers(c, start, e.t)
  }

  /** How many records of the run belong to a window. */
  function Members(c: Config, h: seq<Event>, key: bytes, start: int): nat
    requires c.advance > 0
  {
    if h == [] then 0 else Members(c, h[..|h| - 1], key, start) + if Belongs(c, h[|h| - 1], key, start) then 1 else 0
  }

  ghost predicate NonNegativeTimes(h: seq<Event>) {
    forall i :: 0 <= i < |h| && h[i].Tally? ==> 0 <= h[i].t < TWO63
  }

  /** Each visited window gains one, nothing else changes. */
  lemma {:induction false} IncrementAllCounts(st: Store, key: bytes, starts: seq<int>, k: bytes, s: int)
    requires Distinct(starts) && IsI64(s) && forall i :: 0 <= i < |starts| ==> IsI64(starts[i])
    requires Count(st, MakeKey(k, s)) + 1 < TWO64
    ensures Count(IncrementAll(st, key, starts), MakeKey(k, s)) == Count(st, MakeKey(k, s)) + if k == key && s in starts then 1 else 0
  {
    hide Count, Increment, MakeKey;
    if starts != [] {
      var init, last := starts[..|starts| - 1], starts[|starts| - 1];
      assert starts == init + [last];
      IncrementAllCounts(st, key, init, k, s);
      KeyInjective(k, s, key, last);
      IncrementAt(IncrementAll(st, key, init), MakeKey(key, last), MakeKey(k, s));
    }
  }

  /** Incrementing one key leaves the others alone, and adds one to its own as long as it fits. */
  lemma IncrementAt(st: Store, k: bytes, k': bytes)
    ensures k != k' ==> Count(Increment(st, k), k') == Count(st, k')
    ensures k == k' && Count(st, k) + 1 < TWO64 ==> Count(Increment(st, k), k') == Count(st, k') + 1
  {
    hide EncodeCount, DecodeCount;
    var n := Count(st, k) + 1;
    if n < TWO64 {
      CountRoundTrip(n);
      assert n % TWO64 == n;
    }
  }

  /** A sweep moves counts from the store to the output. */
  lemma HarvestMoves(st: Store, size: int, current: int, watermark: int, k: bytes)
    ensures var out := Harvest(st, size, current, watermark);
            Count(st - out.Keys, k) + Count(out, k) == Count(st, k)
  {
  }

  lemma StepConserves(c: Config, s: State, e: Event, key: bytes, start: int)
    requires c.Valid() && IsI64(start) && (e.Tally? ==> 0 <= e.t < TWO63)
    requires Count(s.store, MakeKey(key, start)) + 1 < TWO64
    ensures var (s', out) := Step(c, s, e); var k := MakeKey(key, start);
            Count(s'.store, k) + Count(out, k) == Count(s.store, k) + if Belongs(c, e, key, start) then 1 else 0
  {
    hide Count, Harvest, MakeKey, Starts, IncrementAll, LatestStart, Covers;
    var k := MakeKey(key, start);
    match e
    case Tally(key', t) =>
      HoppingStartsIff(c, t);
      forall i | 0 <= i < |Starts(c, t)| ensures IsI64(Starts(c, t)[i]) {
        assert Starts(c, t)[i] in Starts(c, t);
        CoveredIsI64(c, Starts(c, t)[i], t);
      }
      IncrementAllCounts(s.store, key', Starts(c, t), key, start);
      HarvestMoves(IncrementAll(s.store, key', Starts(c, t)), c.size, LatestStart(t, c.advance), s.watermark, k);
    case Punctuate(now) => HarvestMoves(s.store, c.size, -1, Max(s.watermark, now), k);
    case Observe(ts) => assert Count(map[], k) == 0 by { NothingCounted(k); }
  }

  lemma NothingCounted(k: bytes)
    ensures Count(map[], k) == 0
  {
  }

  lemma CoveredIsI64(c: Config, start: int, t: int)
    requires c.advance > 0 && Covers(c, start, t) && t < TWO63
    ensures IsI64(start)
  {
  }

  lemma {:induction false} MembersBound(c: Config, h: seq<Event>, key: bytes, start: int)
    requires c.advance > 0
    ensures Members(c, h, key, start) <= |h|
  {
    if h != [] { MembersBound(c, h[..|h| - 1], key, start); }
  }

  /** Conservation: over any run of records, punctuations and watermark advances, what has been
      emitted for a key and window plus what is stored for it is the number of the run's records in
      that window. */
  lemma {:induction false} WindowsConserve(c: Config, watermark: int, h: seq<Event>, key: bytes, start: int)
    requires c.Valid() && IsI64(start) && NonNegativeTimes(h) && |h| < TWO64
    ensures var s, k := State(map[], watermark), MakeKey(key, start);
            Emitted(c, s, h, k) + Count(Reached(c, s, h).store, k) == Members(c, h, key, start)
  {
    hide MakeKey, Step, Belongs, Count;
    var s, k := State(map[], watermark), MakeKey(key, start);
    if h == [] {
      NothingCounted(k);
    } else {
      var init := h[..|h| - 1];
      WindowsConserve(c, watermark, init, key, start);
      MembersBound(c, init, key, start);
      StepConserves(c, Reached(c, s, init), h[|h| - 1], key, start);
    }
  }

  /** The highest time observed or punctuated so far. */
  function Highest(watermark: int, h: seq<Event>): int {
    if h == [] then watermark else
      var e, w := h[|h| - 1], Highest(watermark, h[..|h| - 1]);
      if e.Tally? then w else Max(w, if e.Punctuate? then e.now else e.ts)
  }

  lemma {:induction false} WatermarkIsHighest(c: Config, s: State, h: seq<Event>)
    requires c.advance > 0
    ensures Reached(c, s, h).watermark == Highest(s.watermark, h)
  {
    hide Harvest, IncrementAll, Starts, LatestStart;
    if h != [] { WatermarkIsHighest(c, s, h[..|h| - 1]); }
  }

  /** No window is emitted before the watermark, the highest time seen, has reached its end. */
  lemma NotBeforeItsEnd(c: Config, s: State, h: seq<Event>, e: Event, key: bytes, start: int)
    requires c.advance > 0 && IsI64(start) && MakeKey(key, start) in Step(c, Reached(c, s, h), e).1
    ensures start + c.size <= Highest(s.watermark, h + [e])
  {
    WatermarkIsHighest(c, s, h);
    KeyRoundTrip(key, start);
    hide Reached, Starts, IncrementAll, MakeKey, ParseKey;
    assert (h + [e])[..|h|] == h;
  }

  /** After a punctuation no window whose end the watermark has reached is left in the store. */
  lemma PunctuationSweeps(c: Config, s: State, now: int, key: bytes, start: int)
    requires c.advance > 0 && start >= 0 && IsI64(start)
    requires MakeKey(key, start) in Step(c, s, Punctuate(now)).0.store
    ensures Step(c, s, Punctuate(now)).0.watermark < start + c.size
  {
    KeyRoundTrip(key, start);
    hide MakeKey, ParseKey;
  }
}
