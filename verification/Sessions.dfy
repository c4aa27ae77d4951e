/** Session windows: one count per key and burst of activity (SessionCount in streams/window.go). */
module Sessions {
  import opened Bytes
  import opened Seqs
  import opened Wrappers
  import opened WindowSpec

  datatype Session = Session(start: int, end: int, count: nat)

  predicate SessionFits(s: Session) { IsI64(s.start) && IsI64(s.end) && s.count < TWO64 }

  function EncodeSession(s: Session): bytes { BE(s.start, 8) + (BE(s.end, 8) + BE(s.count, 8)) }

  function DecodeSession(b: bytes): Option<Session> {
    if |b| != 24 then None else Some(Session(I64(b[..8]), I64(b[8..16]), FromBE(b[16..24])))
  }

  lemma SessionRoundTrip(s: Session)
    requires SessionFits(s)
    ensures DecodeSession(EncodeSession(s)) == Some(s)
  {
    I64RoundTrip(s.start);
    I64RoundTrip(s.end);
    U64RoundTrip(s.count);
    hide BE, FromBE, I64;
    Words3(BE(s.start, 8), BE(s.end, 8), BE(s.count, 8));
  }

  /** The session stored for a key, if any. */
  function OpenSession(st: Store, key: bytes): Option<Session> { if key in st then DecodeSession(st[key]) else None }

  /** What a record makes of the open session, and what it closes. */
  function Advance(open: Option<Session>, gap: int, t: int): (Session, Option<Session>) {
    if open.None? then (Session(t, t, 1), None)
    else if t > open.value.end + gap then (Session(t, t, 1), open)
    else (Session(open.value.start, Max(open.value.end, t), (open.value.count + 1) % TWO64), None)
  }

  function OnRecord(st: Store, gap: int, key: bytes, t: int): (Store, Option<Session>) {
    var (s, closed) := Advance(OpenSession(st, key), gap, t);
    (st[key := EncodeSession(s)], closed)
  }

  // ----- Maximal runs -----

  function Last<T>(s: seq<T>): T
    requires s != []
  {
    s[|s| - 1]
  }

  function Flatten(runs: seq<seq<int>>): seq<int> { if runs == [] then [] else Flatten(runs[..|runs| - 1]) + Last(runs) }

  ghost predicate Run(run: seq<int>, gap: int) {
    run != [] && forall i :: 0 < i < |run| ==> run[i] - run[i - 1] <= gap
  }

  /** The times cut into runs: no gap inside one, a gap between one and the next. */
  ghost predicate MaximalRuns(runs: seq<seq<int>>, ts: seq<int>, gap: int) {
    && Flatten(runs) == ts
    && (forall i :: 0 <= i < |runs| ==> Run(runs[i], gap))
    && forall i :: 0 < i < |runs| ==> runs[i][0] - Last(runs[i - 1]) > gap
  }

  function RunsOf(ts: seq<int>, gap: int): (runs: seq<seq<int>>)
    ensures forall i :: 0 <= i < |runs| ==> runs[i] != []
    ensures ts != [] ==> runs != [] && Last(Last(runs)) == Last(ts)
  {
    if ts == [] then [] else
      var runs, t := RunsOf(ts[..|ts| - 1], gap), Last(ts);
      if runs == [] || t > Last(Last(runs)) + gap then runs + [[t]]
      else runs[..|runs| - 1] + [Last(runs) + [t]]
  }

  function Extended(runs: seq<seq<int>>, t: int): seq<seq<int>>
    requires runs != []
  {
    runs[..|runs| - 1] + [Last(runs) + [t]]
  }

  lemma FlattenSnoc(runs: seq<seq<int>>, run: seq<int>)
    ensures Flatten(runs + [run]) == Flatten(runs) + run
  {
    assert (runs + [run])[..|runs|] == runs;
  }

  lemma StartRun(runs: seq<seq<int>>, ts: seq<int>, gap: int, t: int)
    requires MaximalRuns(runs, ts, gap) && (runs != [] ==> t > Last(Last(runs)) + gap)
    ensures MaximalRuns(runs + [[t]], ts + [t], gap)
  {
    hide Flatten;
    FlattenSnoc(runs, [t]);
  }

  lemma ExtendRun(runs: seq<seq<int>>, ts: seq<int>, gap: int, t: int)
    requires runs != [] && MaximalRuns(runs, ts, gap) && t <= Last(Last(runs)) + gap
    ensures MaximalRuns(Extended(runs, t), ts + [t], gap)
  {
    hide Flatten;
    var before, last := runs[..|runs| - 1], Last(runs);
    assert runs == before + [last];
    FlattenSnoc(before, last);
    FlattenSnoc(before, last + [t]);
    Assoc(Flatten(before), last, [t]);
  }

  lemma {:induction false} RunsAreMaximal(ts: seq<int>, gap: int)
    ensures MaximalRuns(RunsOf(ts, gap), ts, gap)
  {
    if ts != [] {
      hide MaximalRuns;
      var init, t := ts[..|ts| - 1], Last(ts);
      assert ts == init + [t];
      RunsAreMaximal(init, gap);
      var runs := RunsOf(init, gap);
      if runs == [] || t > Last(Last(runs)) + gap { StartRun(runs, init, gap, t); } else { ExtendRun(runs, init, gap, t); }
    }
  }

  lemma DropRun(runs: seq<seq<int>>, ts: seq<int>, gap: int)
    requires runs != [] && MaximalRuns(runs, ts, gap) && |Last(runs)| == 1
    ensures var before, t := runs[..|runs| - 1], Last(runs)[0];
            && ts != [] && t == Last(ts) && MaximalRuns(before, ts[..|ts| - 1], gap) && runs == before + [[t]]
            && (before != [] ==> t > Last(Last(before)) + gap)
  {
    var before, t := runs[..|runs| - 1], Last(runs)[0];
    assert Last(runs) == [t];
    assert runs == before + [[t]];
    hide Flatten;
    FlattenSnoc(before, [t]);
  }

  lemma ShortenRun(runs: seq<seq<int>>, ts: seq<int>, gap: int)
    requires runs != [] && MaximalRuns(runs, ts, gap) && |Last(runs)| > 1
    ensures var last := Last(runs);
            var before, shorter, t := runs[..|runs| - 1], last[..|last| - 1], Last(last);
            && ts != [] && t == Last(ts) && MaximalRuns(before + [shorter], ts[..|ts| - 1], gap)
            && runs == before + [shorter + [t]] && t <= Last(shorter) + gap
  {
    var last := Last(runs);
    var before, shorter, t := runs[..|runs| - 1], last[..|last| - 1], Last(last);
    assert runs == before + [last] && last == shorter + [t] && Run(last, gap);
    hide Flatten;
    FlattenSnoc(before, last);
    FlattenSnoc(before, shorter);
    Assoc(Flatten(before), shorter, [t]);
    assert ts == (Flatten(before) + shorter) + [t];
    assert ts[..|ts| - 1] == Flatten(before + [shorter]);
    ShorterRuns(before, last, gap);
  }

  lemma ShorterRuns(before: seq<seq<int>>, last: seq<int>, gap: int)
    requires |last| > 1 && MaximalRuns(before + [last], Flatten(before + [last]), gap)
    ensures var shorter := last[..|last| - 1];
            MaximalRuns(before + [shorter], Flatten(before + [shorter]), gap) && Last(last) <= Last(shorter) + gap
  {
    hide Flatten;
    var runs, shorter := before + [last], last[..|last| - 1];
    assert Run(runs[|before|], gap);
    assert forall i :: 0 <= i < |before| ==> runs[i] == before[i];
    forall i | 0 <= i < |before + [shorter]| ensures Run((before + [shorter])[i], gap) {
      if i < |before| { assert Run(runs[i], gap); }
    }
    forall i | 0 < i < |before + [shorter]| ensures (before + [shorter])[i][0] - Last((before + [shorter])[i - 1]) > gap {
      assert runs[i][0] - Last(runs[i - 1]) > gap;
    }
  }

  /** There is only one way to cut. */
  lemma {:induction false} MaximalRunsUnique(runs: seq<seq<int>>, ts: seq<int>, gap: int)
    requires MaximalRuns(runs, ts, gap)
    ensures runs == RunsOf(ts, gap)
    decreases |ts|
  {
    if runs != [] {
      var last, before := Last(runs), runs[..|runs| - 1];
      assert Run(last, gap);
      hide MaximalRuns;
      var init := ts[..|ts| - 1];
      if |last| == 1 {
        DropRun(runs, ts, gap);
        MaximalRunsUnique(before, init, gap);
      } else {
        ShortenRun(runs, ts, gap);
        MaximalRunsUnique(before + [last[..|last| - 1]], init, gap);
      }
    }
  }

  // ----- Records only -----

  /** A record of a key. */
  datatype Beat = Beat(key: bytes, t: int)

  function Times(es: seq<Beat>, key: bytes): seq<int> {
    if es == [] then [] else Times(es[..|es| - 1], key) + if Last(es).key == key then [Last(es).t] else []
  }

  function Reached(es: seq<Beat>, gap: int): Store {
    if es == [] then map[] else OnRecord(Reached(es[..|es| - 1], gap), gap, Last(es).key, Last(es).t).0
  }

  /** The sessions emitted for one key, in order. */
  function Closed(es: seq<Beat>, gap: int, key: bytes): seq<Session> {
    if es == [] then [] else
      var out := OnRecord(Reached(es[..|es| - 1], gap), gap, Last(es).key, Last(es).t).1;
      Closed(es[..|es| - 1], gap, key) + if Last(es).key == key && out.Some? then [out.value] else []
  }

  function Opened(es: seq<Beat>, gap: int, key: bytes): seq<Session> {
    var s := OpenSession(Reached(es, gap), key);
    if s.Some? then [s.value] else []
  }

  function Summary(run: seq<int>): Session { if run == [] then Session(0, 0, 0) else Session(run[0], Last(run), |run|) }

  ghost predicate NonDecreasing(ts: seq<int>) { forall i :: 0 < i < |ts| ==> ts[i - 1] <= ts[i] }

  ghost predicate AllI64(ts: seq<int>) { forall i :: 0 <= i < |ts| ==> IsI64(ts[i]) }

  /** What the store and the output owe to a key's times. */
  ghost predicate Tracks(open: Option<Session>, closed: seq<Session>, runs: seq<seq<int>>) {
    if runs == [] then open.None? && closed == []
    else open == Some(Summary(Last(runs))) && closed == Map(Summary, runs[..|runs| - 1])
  }

  lemma OpensRun(closed: seq<Session>, runs: seq<seq<int>>, t: int)
    requires runs != [] && Tracks(Some(Summary(Last(runs))), closed, runs)
    ensures Tracks(Some(Session(t, t, 1)), closed + [Summary(Last(runs))], runs + [[t]])
  {
    var before, last := runs[..|runs| - 1], Last(runs);
    assert runs == before + [last];
    MapAppend(Summary, before, [last]);
    assert Map(Summary, [last]) == [Summary(last)];
    assert (runs + [[t]])[..|runs|] == runs;
  }

  lemma GrowsRun(closed: seq<Session>, runs: seq<seq<int>>, t: int)
    requires runs != [] && Last(runs) != [] && Tracks(Some(Summary(Last(runs))), closed, runs)
    ensures var last := Last(runs); Tracks(Some(Session(last[0], t, |last| + 1)), closed, Extended(runs, t))
  {
    assert Extended(runs, t)[..|runs| - 1] == runs[..|runs| - 1];
  }

  /** One record: the open session is the summary of the last run, before and after. */
  lemma AdvanceTracks(open: Option<Session>, closed: seq<Session>, runs: seq<seq<int>>, gap: int, t: int)
    requires Tracks(open, closed, runs) && (runs != [] ==> Last(runs) != [])
    requires runs != [] ==> Last(Last(runs)) <= t && |Last(runs)| + 1 < TWO64
    ensures var (s, out) := Advance(open, gap, t);
            var closed' := closed + if out.Some? then [out.value] else [];
            var runs' := if runs == [] || t > Last(Last(runs)) + gap then runs + [[t]] else Extended(runs, t);
            Tracks(Some(s), closed', runs')
  {
    if runs != [] {
      assert (|Last(runs)| + 1) % TWO64 == |Last(runs)| + 1;
      hide Map, Tracks;
      TracksOpen(open, closed, runs);
      if t > Last(Last(runs)) + gap { OpensRun(closed, runs, t); } else { GrowsRun(closed, runs, t); }
    }
    assert closed + [] == closed;
  }

  lemma TracksOpen(open: Option<Session>, closed: seq<Session>, runs: seq<seq<int>>)
    requires runs != [] && Tracks(open, closed, runs)
    ensures open == Some(Summary(Last(runs)))
  {
  }

  lemma StoredSession(st: Store, gap: int, key: bytes, t: int, k: bytes)
    requires SessionFits(Advance(OpenSession(st, key), gap, t).0)
    ensures OpenSession(OnRecord(st, gap, key, t).0, k) ==
            if k == key then Some(Advance(OpenSession(st, key), gap, t).0) else OpenSession(st, k)
  {
    hide Advance, EncodeSession, DecodeSession;
    SessionRoundTrip(Advance(OpenSession(st, key), gap, t).0);
  }

  lemma {:induction false} TimesBound(es: seq<Beat>, key: bytes)
    ensures |Times(es, key)| <= |es|
  {
    if es != [] { TimesBound(es[..|es| - 1], key); }
  }

  lemma {:induction false} RunsBound(ts: seq<int>, gap: int)
    requires ts != []
    ensures |Last(RunsOf(ts, gap))| <= |ts| && (AllI64(ts) ==> AllI64(Last(RunsOf(ts, gap))))
  {
    if |ts| > 1 { RunsBound(ts[..|ts| - 1], gap); }
  }

  /** Every key's event times arrive in order and fit their field. */
  ghost predicate InOrder(es: seq<Beat>) { forall k :: NonDecreasing(Times(es, k)) && AllI64(Times(es, k)) }

  lemma TimesSnoc(es: seq<Beat>, e: Beat, key: bytes)
    ensures Times(es + [e], key) == Times(es, key) + if e.key == key then [e.t] else []
  {
    assert (es + [e])[..|es|] == es;
  }

  lemma InOrderPrefix(es: seq<Beat>, e: Beat)
    requires InOrder(es + [e])
    ensures InOrder(es)
  {
    forall k ensures NonDecreasing(Times(es, k)) && AllI64(Times(es, k)) {
      TimesSnoc(es, e, k);
      var ts, ts' := Times(es, k), Times(es + [e], k);
      assert NonDecreasing(ts') && AllI64(ts') && forall i :: 0 <= i < |ts| ==> ts[i] == ts'[i];
    }
  }

  lemma RunsSnoc(ts: seq<int>, t: int, gap: int)
    ensures var runs := RunsOf(ts, gap);
            && (ts != [] ==> runs != [] && Last(Last(runs)) == Last(ts))
            && RunsOf(ts + [t], gap) == if runs == [] || t > Last(Last(runs)) + gap then runs + [[t]] else Extended(runs, t)
  {
    assert (ts + [t])[..|ts|] == ts;
  }

  ghost predicate Tracked(es: seq<Beat>, gap: int, key: bytes) {
    Tracks(OpenSession(Reached(es, gap), key), Closed(es, gap, key), RunsOf(Times(es, key), gap))
  }

  /** The session the new record leaves open is the summary of its key's last run, and fits. */
  lemma NewSession(es: seq<Beat>, gap: int, e: Beat)
    requires |es| + 1 < TWO64 && InOrder(es + [e]) && Tracked(es, gap, e.key)
    ensures var (s, out) := Advance(OpenSession(Reached(es, gap), e.key), gap, e.t);
            && Tracks(Some(s), Closed(es, gap, e.key) + (if out.Some? then [out.value] else []), RunsOf(Times(es + [e], e.key), gap))
            && SessionFits(s)
  {
    var ts := Times(es, e.key);
    TimesSnoc(es, e, e.key);
    TimesBound(es, e.key);
    RunsSnoc(ts, e.t, gap);
    RunsBound(ts + [e.t], gap);
    var runs := RunsOf(ts, gap);
    if ts != [] {
      RunsBound(ts, gap);
      var ts' := Times(es + [e], e.key);
      assert ts'[|ts| - 1] <= ts'[|ts|] by { assert NonDecreasing(ts'); }
    }
    assert AllI64(Times(es + [e], e.key));
    hide Times, RunsOf, Reached, Closed, OpenSession;
    AdvanceTracks(OpenSession(Reached(es, gap), e.key), Closed(es, gap, e.key), runs, gap, e.t);
    var (s, out) := Advance(OpenSession(Reached(es, gap), e.key), gap, e.t);
    TracksOpen(Some(s), Closed(es, gap, e.key) + (if out.Some? then [out.value] else []), RunsOf(ts + [e.t], gap));
  }

  lemma ReachedSnoc(es: seq<Beat>, gap: int, e: Beat, key: bytes)
    ensures Reached(es + [e], gap) == OnRecord(Reached(es, gap), gap, e.key, e.t).0
    ensures var out := Advance(OpenSession(Reached(es, gap), e.key), gap, e.t).1;
            Closed(es + [e], gap, key) == Closed(es, gap, key) + if e.key == key && out.Some? then [out.value] else []
  {
    assert (es + [e])[..|es|] == es;
    hide Advance, OpenSession;
  }

  lemma RecordTracks(es: seq<Beat>, gap: int, e: Beat, key: bytes)
    requires |es| + 1 < TWO64 && InOrder(es + [e]) && Tracked(es, gap, key) && Tracked(es, gap, e.key)
    ensures Tracked(es + [e], gap, key)
  {
    hide Reached, Closed, OnRecord, Advance, Tracks, Times, RunsOf, OpenSession, InOrder;
    NewSession(es, gap, e);
    StoredSession(Reached(es, gap), gap, e.key, e.t, key);
    ReachedSnoc(es, gap, e, key);
    TimesSnoc(es, e, key);
    assert Closed(es, gap, key) + [] == Closed(es, gap, key) && Times(es, key) + [] == Times(es, key);
  }

  lemma {:induction false} SessionsTracked(es: seq<Beat>, gap: int, key: bytes)
    requires |es| < TWO64 && InOrder(es)
    ensures Tracked(es, gap, key)
  {
    if es != [] {
      hide Tracked, InOrder;
      var init, e := es[..|es| - 1], Last(es);
      assert es == init + [e];
      InOrderPrefix(init, e);
      SessionsTracked(init, gap, key);
      SessionsTracked(init, gap, e.key);
      RecordTracks(init, gap, e, key);
    }
  }

  /** Sessions without a punctuator: for each key the sessions emitted, followed by the one still open,
      are the maximal runs of its event times, each with its first time, last time and count. */
  lemma SessionsAreMaximalRuns(es: seq<Beat>, gap: int, key: bytes, runs: seq<seq<int>>)
    requires |es| < TWO64 && InOrder(es) && MaximalRuns(runs, Times(es, key), gap)
    ensures Closed(es, gap, key) + Opened(es, gap, key) == Map(Summary, runs)
  {
    SessionsTracked(es, gap, key);
    MaximalRunsUnique(runs, Times(es, key), gap);
    hide Closed, Times, RunsOf, OpenSession, Reached;
    if runs != [] {
      assert runs == runs[..|runs| - 1] + [Last(runs)];
      MapAppend(Summary, runs[..|runs| - 1], [Last(runs)]);
      assert Map(Summary, [Last(runs)]) == [Summary(Last(runs))];
    }
  }

  // ----- Records and punctuations -----

  datatype Event = Arrive(key: bytes, t: int) | Punctuate(watermark: int)

  predicate Expired(b: bytes, gap: int, watermark: int) {
    var s := DecodeSession(b);
    s.Some? && s.value.end + gap <= watermark
  }

  /** What a sweep takes out of the store and emits. */
  function Harvest(st: Store, gap: int, watermark: int): Store { map k | k in st && Expired(st[k], gap,
                   watermark) :: st[k] }

  function Sized(s: Option<Session>): nat { if s.Some? then s.value.count else 0 }

  /** The store after an event, and how many records of a key the sessions it emits hold. */
  function Step(st: Store, gap: int, e: Event, key: bytes): (Store, nat) {
    match e
    case Arrive(k, t) => var (st', out) := OnRecord(st, gap, k, t); (st', if k == key then Sized(out) else 0)
    case Punctuate(watermark) =>
      var out := Harvest(st, gap, watermark); (st - out.Keys, Sized(OpenSession(out, key)))
  }

  function StoreAfter(h: seq<Event>, gap: int, key: bytes): Store {
    if h == [] then map[] else Step(StoreAfter(h[..|h| - 1], gap, key), gap, Last(h), key).0
  }

  function EmittedCount(h: seq<Event>, gap: int, key: bytes): nat {
    if h == [] then 0 else
      EmittedCount(h[..|h| - 1], gap, key) + Step(StoreAfter(h[..|h| - 1], gap, key), gap, Last(h), key).1
  }

  function Arrivals(h: seq<Event>, key: bytes): nat {
    if h == [] then 0 else Arrivals(h[..|h| - 1], key) + if Last(h).Arrive? && Last(h).key == key then 1 else 0
  }

  lemma DecodedFits(b: bytes)
    requires DecodeSession(b).Some?
    ensures SessionFits(DecodeSession(b).value)
  {
    I64Sound(b[..8]);
    I64Sound(b[8..16]);
    Pow256Words();
    hide I64, FromBE;
  }

  lemma AdvanceFits(open: Option<Session>, gap: int, t: int)
    requires (open.Some? ==> SessionFits(open.value)) && IsI64(t)
    ensures SessionFits(Advance(open, gap, t).0)
  {
  }

  lemma StepConserves(st: Store, gap: int, e: Event, key: bytes)
    requires (e.Arrive? ==> IsI64(e.t)) && Sized(OpenSession(st, key)) + 1 < TWO64
    ensures var (st', out) := Step(st, gap, e, key);
            Sized(OpenSession(st', key)) + out == Sized(OpenSession(st, key)) + if e.Arrive? && e.key == key then 1 else 0
  {
    hide OnRecord, Harvest, OpenSession;
    match e
    case Arrive(k, t) => ArriveConserves(st, gap, k, t, key);
    case Punctuate(watermark) => SweepConserves(st, gap, watermark, key);
  }

  lemma ArriveConserves(st: Store, gap: int, k: bytes, t: int, key: bytes)
    requires IsI64(t) && Sized(OpenSession(st, key)) + 1 < TWO64
    ensures var (st', out) := OnRecord(st, gap, k, t);
            Sized(OpenSession(st', key)) + (if k == key then Sized(out) else 0) == Sized(OpenSession(st, key)) + if k == key then 1 else 0
  {
    if k in st && DecodeSession(st[k]).Some? { DecodedFits(st[k]); }
    hide EncodeSession, DecodeSession, SessionFits, Advance;
    AdvanceFits(OpenSession(st, k), gap, t);
    StoredSession(st, gap, k, t, key);
    if k == key { AdvanceConserves(OpenSession(st, k), gap, t); }
  }

  lemma SweepConserves(st: Store, gap: int, watermark: int, key: bytes)
    ensures var out := Harvest(st, gap, watermark);
            Sized(OpenSession(st - out.Keys, key)) + Sized(OpenSession(out, key)) == Sized(OpenSession(st, key))
  {
    hide DecodeSession;
  }

  lemma AdvanceConserves(open: Option<Session>, gap: int, t: int)
    requires Sized(open) + 1 < TWO64
    ensures var (s, out) := Advance(open, gap, t); s.count + Sized(out) == Sized(open) + 1
  {
  }

  lemma {:induction false} ArrivalsBound(h: seq<Event>, key: bytes)
    ensures Arrivals(h, key) <= |h|
  {
    if h != [] { ArrivalsBound(h[..|h| - 1], key); }
  }

  /** With a punctuator and times in any order no record is lost or counted twice: the counts emitted
      for a key plus the one still open add up to the records that arrived for it. */
  lemma {:induction false} SessionsConserve(h: seq<Event>, gap: int, key: bytes)
    requires |h| < TWO64 && forall i :: 0 <= i < |h| && h[i].Arrive? ==> IsI64(h[i].t)
    ensures EmittedCount(h, gap, key) + Sized(OpenSession(StoreAfter(h, gap, key), key)) == Arrivals(h, key)
  {
    hide Step, OpenSession;
    if h == [] {
      NothingOpen(key);
    } else {
      SessionsConserve(h[..|h| - 1], gap, key);
      ArrivalsBound(h[..|h| - 1], key);
      StepConserves(StoreAfter(h[..|h| - 1], gap, key), gap, Last(h), key);
    }
  }

  lemma NothingOpen(key: bytes)
    ensures OpenSession(map[], key) == None
  {
  }
}
