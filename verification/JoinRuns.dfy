/** What a whole run of the join emits, stated over the arrivals alone. */
module JoinRuns {
  import opened Bytes
  import opened Seqs
  import opened Records
  import opened JoinSpec

  function Cutoff(c: Config, e: Event): int { e.watermark - c.window - c.lateness }

  /** Nothing between the arrival of `j` and event `n` pruned it. */
  ghost predicate Survives(c: Config, h: seq<Event>, j: int, n: int) {
    && 0 <= j < n <= |h| && h[j].Arrive?
    && forall m :: j <= m < n && h[m].Arrive? ==> h[j].t >= Cutoff(c, h[m])
  }

  ghost function Buffering(c: Config, h: seq<Event>, s: Side, key: bytes): int -> bool {
    (j: int) => Survives(c, h, j, |h|) && h[j].side == s && h[j].r.key == key
  }

  ghost function EntryOf(h: seq<Event>): int -> Buffered {
    (j: int) => if 0 <= j < |h| && h[j].Arrive? then Buffered(h[j].t, h[j].r) else Buffered(0, Record(0, 0, [], Nil, []))
  }

  /** The arrivals still buffered, in arrival order. */
  ghost function Live(c: Config, h: seq<Event>, s: Side, key: bytes): seq<int> {
    Filter(Buffering(c, h, s, key), Indices(|h|))
  }

  ghost predicate BufferInv(c: Config, h: seq<Event>, st: State) {
    forall s, key :: Entries(st.Buf(s), key) == Map(EntryOf(h), Live(c, h, s, key))
  }

  lemma LiveMembers(c: Config, h: seq<Event>, s: Side, key: bytes)
    ensures forall j :: j in Live(c, h, s, key) ==> 0 <= j < |h|
  {
    FilterMembers(Buffering(c, h, s, key), Indices(|h|));
  }

  lemma {:induction false} PruneEntries(buf: Buffer, cutoff: int, key: bytes)
    ensures Entries(Prune(buf, cutoff), key) == Filter(AtLeast(cutoff), Entries(buf, key))
  {
  }

  /** Entries do not change as the history grows. */
  lemma EntriesSame(h: seq<Event>, e: Event, js: seq<int>)
    requires forall j :: j in js ==> 0 <= j < |h|
    ensures Map(EntryOf(h + [e]), js) == Map(EntryOf(h), js)
  {
    MapSame(EntryOf(h + [e]), EntryOf(h), js);
  }

  ghost function AliveAt(c: Config, h: seq<Event>, e: Event): int -> bool {
    (j: int) => 0 <= j < |h| && h[j].Arrive? && (e.Arrive? ==> h[j].t >= Cutoff(c, e))
  }

  lemma LiveStep(c: Config, h: seq<Event>, e: Event, s: Side, key: bytes)
    ensures var own := Buffering(c, h + [e], s, key)(|h|);
            && Live(c, h + [e], s, key) == Filter(AliveAt(c, h, e), Live(c, h, s, key)) + (if own then [|h|] else [])
            && (own <==> e.Arrive? && e.side == s && e.r.key == key && e.t >= Cutoff(c, e))
  {
    var h', n := h + [e], |h|;
    forall j | 0 <= j < n ensures Buffering(c, h', s, key)(j) == (Buffering(c, h, s, key)(j) && AliveAt(c, h, e)(j)) {
      if Buffering(c, h, s, key)(j) && AliveAt(c, h, e)(j) {
        forall m | j <= m < n + 1 && h'[m].Arrive? ensures h'[j].t >= Cutoff(c, h'[m]) {
          if m < n { assert h[m].Arrive?; }
        }
      }
      if Buffering(c, h', s, key)(j) {
        assert h'[n] == e;
        forall m | j <= m < n && h[m].Arrive? ensures h[j].t >= Cutoff(c, h[m]) { assert h'[m] == h[m]; }
      }
    }
    FilterIndices(Buffering(c, h, s, key), AliveAt(c, h, e), Buffering(c, h', s, key), n);
  }

  lemma AdmitEntries(c: Config, st: State, e: Event, s: Side, key: bytes)
    requires e.Arrive?
    ensures Entries(Admit(c, st, e.side, e.r, e.t).Buf(s), key) ==
            Entries(st.Buf(s), key) + if s == e.side && key == e.r.key then [Buffered(e.t, e.r)] else []
  {
    hide Matched, RemoveAll;
  }

  lemma StepEntries(c: Config, st: State, e: Event, s: Side, key: bytes)
    requires e.Arrive?
    ensures Entries(Step(c, st, e).0.Buf(s), key) ==
            Filter(AtLeast(Cutoff(c, e)), Entries(Admit(c, st, e.side, e.r, e.t).Buf(s), key))
  {
    hide Admit, Prune, Filter, Entries;
    PruneEntries(Admit(c, st, e.side, e.r, e.t).Buf(s), Cutoff(c, e), key);
  }

  /** The buffers hold exactly the arrivals that no later arrival has pruned. */
  lemma BufferStep(c: Config, h: seq<Event>, st: State, e: Event)
    requires BufferInv(c, h, st)
    ensures BufferInv(c, h + [e], Step(c, st, e).0)
  {
    forall s, key ensures Entries(Step(c, st, e).0.Buf(s), key) == Map(EntryOf(h + [e]), Live(c, h + [e], s, key)) {
      BufferStepAt(c, h, st, e, s, key);
    }
  }

  lemma BufferStepAt(c: Config, h: seq<Event>, st: State, e: Event, s: Side, key: bytes)
    requires Entries(st.Buf(s), key) == Map(EntryOf(h), Live(c, h, s, key))
    ensures Entries(Step(c, st, e).0.Buf(s), key) == Map(EntryOf(h + [e]), Live(c, h + [e], s, key))
  {
    hide Step, Live, Entries, Filter, Admit, Buffering;
    var live := Live(c, h, s, key);
    LiveStep(c, h, e, s, key);
    LiveMembers(c, h, s, key);
    FilterMembers(AliveAt(c, h, e), live);
    var kept := Filter(AliveAt(c, h, e), live);
    EntriesSame(h, e, kept);
    if e.Arrive? {
      StepEntries(c, st, e, s, key);
      AdmitEntries(c, st, e, s, key);
      LiveArrivals(c, h, s, key);
      FilterMap(AtLeast(Cutoff(c, e)), AliveAt(c, h, e), EntryOf(h), live);
      if s == e.side && key == e.r.key {
        FilterSnoc(AtLeast(Cutoff(c, e)), Map(EntryOf(h), live), Buffered(e.t, e.r));
        MapAppend(EntryOf(h + [e]), kept, [|h|]);
        assert Map(EntryOf(h + [e]), [|h|]) == [Buffered(e.t, e.r)];
      } else {
        assert Map(EntryOf(h), live) + [] == Map(EntryOf(h), live);
        assert kept + [] == kept;
      }
    } else {
      PunctuateKeepsBuffers(c, st, e);
      LiveArrivals(c, h, s, key);
      forall i | 0 <= i < |live| ensures AliveAt(c, h, e)(live[i]) { assert live[i] in live; }
      FilterAll(AliveAt(c, h, e), live);
      assert kept + [] == kept;
    }
  }

  lemma LiveArrivals(c: Config, h: seq<Event>, s: Side, key: bytes)
    ensures forall j :: j in Live(c, h, s, key) ==> 0 <= j < |h| && h[j].Arrive?
  {
    FilterMembers(Buffering(c, h, s, key), Indices(|h|));
  }

  lemma PunctuateKeepsBuffers(c: Config, st: State, e: Event)
    requires e.Punctuate?
    ensures forall s: Side :: Step(c, st, e).0.Buf(s) == st.Buf(s)
  {
  }

  lemma ReachedSnoc(c: Config, h: seq<Event>)
    requires h != []
    ensures h == h[..|h| - 1] + [h[|h| - 1]] && Reached(c, h) == Step(c, Reached(c, h[..|h| - 1]), h[|h| - 1]).0
  {
    hide Step;
  }

  lemma {:induction false} BuffersReached(c: Config, h: seq<Event>)
    ensures BufferInv(c, h, Reached(c, h))
  {
    hide *;
    if h == [] {
      NothingBuffered(c, h);
    } else {
      ReachedSnoc(c, h);
      BuffersReached(c, h[..|h| - 1]);
      BufferStep(c, h[..|h| - 1], Reached(c, h[..|h| - 1]), h[|h| - 1]);
    }
  }

  lemma NothingBuffered(c: Config, h: seq<Event>)
    requires h == []
    ensures BufferInv(c, h, Reached(c, h))
  {
    forall s, key ensures Entries(Reached(c, h).Buf(s), key) == Map(EntryOf(h), Live(c, h, s, key)) {
      LiveMembers(c, h, s, key);
    }
  }

  // ----- Pairs -----

  /** The two arrivals belong together: opposite sides, same key, event times within the window. */
  ghost predicate Matches(c: Config, h: seq<Event>, j: int, i: int) {
    && 0 <= j < i < |h| && h[j].Arrive? && h[i].Arrive?
    && h[j].side == h[i].side.Other() && h[j].r.key == h[i].r.key && Abs(h[i].t - h[j].t) <= c.window
  }

  ghost predicate EmitsPair(c: Config, h: seq<Event>, j: int, i: int) { Matches(c, h, j, i) && Survives(c, h, j, i) }

  ghost function Pairing(c: Config, h: seq<Event>, i: int): int -> bool { (j: int) => EmitsPair(c, h, j, i) }

  ghost function PairAt(h: seq<Event>, e: Event): int -> Output
    requires e.Arrive?
  {
    (j: int) => PairWith(e.side, e.r)(EntryOf(h)(j))
  }

  lemma SurvivesPrefix(c: Config, h: seq<Event>, e: Event, j: int, n: int)
    requires n <= |h|
    ensures Survives(c, h + [e], j, n) <==> Survives(c, h, j, n)
  {
    if 0 <= j < n {
      assert forall m :: 0 <= m < n ==> (h + [e])[m] == h[m];
    }
  }

  /** The entries a new arrival pairs with, as a list of earlier arrivals. */
  lemma MatchedIs(c: Config, h: seq<Event>, st: State, e: Event)
    requires e.Arrive? && BufferInv(c, h, st)
    ensures Matched(c, st, e.side, e.r, e.t) == Map(EntryOf(h), Filter(Pairing(c, h + [e], |h|), Indices(|h|)))
  {
    hide Filter;
    var s, key := e.side.Other(), e.r.key;
    var near := (j: int) => Near(c, e.t)(EntryOf(h)(j));
    FilterMap(Near(c, e.t), near, EntryOf(h), Live(c, h, s, key));
    forall j | 0 <= j < |h| ensures Pairing(c, h + [e], |h|)(j) == (Buffering(c, h, s, key)(j) && near(j)) {
      SurvivesPrefix(c, h, e, j, |h|);
    }
    FilterTwice(Buffering(c, h, s, key), near, Pairing(c, h + [e], |h|), Indices(|h|));
  }

  /** In every run, whatever watermarks it sees, an arrival is paired with exactly the earlier
      arrivals it matches that no arrival in between has pruned, each once and in order. */
  lemma PairsEmitted(c: Config, h: seq<Event>, e: Event)
    requires e.Arrive?
    ensures Map(PairWith(e.side, e.r), Matched(c, Reached(c, h), e.side, e.r, e.t)) ==
            Map(PairAt(h, e), Filter(Pairing(c, h + [e], |h|), Indices(|h|)))
  {
    hide Reached, Matched, BufferInv;
    BuffersReached(c, h);
    MatchedIs(c, h, Reached(c, h), e);
    hide Pairing;
    MapTwice(EntryOf(h), PairWith(e.side, e.r), PairAt(h, e), Filter(Pairing(c, h + [e], |h|), Indices(|h|)));
  }

  // ----- The inner join -----

  /** No arrival is later than the lateness allows against any watermark seen before it. */
  ghost predicate Timely(c: Config, h: seq<Event>) {
    forall m, i :: 0 <= m < i < |h| && h[m].Arrive? && h[i].Arrive? ==> h[i].t >= h[m].watermark - c.lateness
  }

  ghost function Matching(c: Config, h: seq<Event>, i: int): int -> bool { (j: int) => Matches(c, h, j, i) }

  /** On timely runs pruning loses nothing: what survives includes every match. */
  lemma TimelySurvives(c: Config, h: seq<Event>, j: int, i: int)
    requires Timely(c, h) && Matches(c, h, j, i)
    ensures Survives(c, h, j, i)
  {
    forall m | j <= m < i && h[m].Arrive? ensures h[j].t >= Cutoff(c, h[m]) {
      assert h[i].t >= h[m].watermark - c.lateness;
    }
  }

  /** The inner join over any timely run: the output of each arrival is the list of its pairs with
      all earlier matching arrivals. Every matching pair of arrivals is therefore emitted exactly
      once, when the later one arrives, and nothing else is. */
  lemma InnerJoinIsExact(c: Config, h: seq<Event>, e: Event)
    requires c.mode == Inner && e.Arrive? && Timely(c, h + [e])
    ensures Step(c, Reached(c, h), e).1 == Map(PairAt(h, e), Filter(Matching(c, h + [e], |h|), Indices(|h|)))
  {
    hide Reached, Matched, Filter, Admit;
    PairsEmitted(c, h, e);
    forall j | 0 <= j < |h| ensures Pairing(c, h + [e], |h|)(j) == Matching(c, h + [e], |h|)(j) {
      if Matches(c, h + [e], j, |h|) { TimelySurvives(c, h + [e], j, |h|); }
    }
    FilterSame(Pairing(c, h + [e], |h|), Matching(c, h + [e], |h|), Indices(|h|));
    var pairs := Map(PairWith(e.side, e.r), Matched(c, Reached(c, h), e.side, e.r, e.t));
    assert pairs + [] == pairs;
  }

  /** Timeliness cannot be dropped: one watermark ahead of a later arrival by more than the lateness
      is enough to lose a match. */
  lemma LateArrivalLosesPair(c: Config, l: Record, r: Record, t: int, watermark: int)
    requires c.mode == Inner && c.window >= 0 && l.key == r.key && t < watermark - c.window - c.lateness
    ensures var h := [Arrive(Left, l, t, watermark), Arrive(Right, r, t, watermark)];
            Matches(c, h, 0, 1) && Step(c, Reached(c, h[..1]), h[1]).1 == []
  {
    var h := [Arrive(Left, l, t, watermark), Arrive(Right, r, t, watermark)];
    assert h == h[..1] + [h[1]];
    PairsEmitted(c, h[..1], h[1]);
    assert h[0].Arrive? && !Survives(c, h, 0, 1);
    FilterNone(Pairing(c, h, 1), Indices(1));
    hide Matched, Reached, Filter;
  }
}
