/** Outer joins: which records wait for a counterpart, and when one is emitted alone. */
module JoinPending {
  import opened Bytes
  import opened Seqs
  import opened Records
  import opened JoinSpec
  import opened JoinRuns

  /** A pair with arrival `j` in it was emitted before event `n`. */
  ghost predicate PairedBefore(c: Config, h: seq<Event>, j: int, n: int) {
    exists i :: 0 <= i < n && (EmitsPair(c, h, j, i) || EmitsPair(c, h, i, j))
  }

  /** No watermark between the arrival of `j` and event `n` has closed its window. */
  ghost predicate Open(c: Config, h: seq<Event>, j: int, n: int) {
    0 <= j < |h| && h[j].Arrive? && n <= |h| && forall m :: j <= m < n ==> h[j].t > h[m].watermark - c.window
  }

  /** Arrival `j` still waits just before the windows are closed at event `n`. */
  ghost predicate Unpaired(c: Config, h: seq<Event>, s: Side, j: int, n: int) {
    && 0 <= j < |h| && h[j].Arrive? && h[j].side == s && Eligible(c.mode, s)
    && !PairedBefore(c, h, j, n + 1) && Open(c, h, j, n)
  }

  ghost function Unpaireds(c: Config, h: seq<Event>, s: Side, n: int): int -> bool { (j: int) => Unpaired(c, h, s,
                           j, n) }

  /** Arrival `j` still waits after the whole of `h`. */
  ghost predicate Waits(c: Config, h: seq<Event>, s: Side, j: int) {
    && 0 <= j < |h| && h[j].Arrive? && h[j].side == s && Eligible(c.mode, s)
    && !PairedBefore(c, h, j, |h|) && Open(c, h, j, |h|)
  }

  ghost function Waiting(c: Config, h: seq<Event>, s: Side): int -> bool { (j: int) => Waits(c, h, s, j) }

  /** Arrival `j` is emitted alone at event `n`: it was unpaired then, and this is the first
      watermark to close its window. */
  ghost predicate EmitsAlone(c: Config, h: seq<Event>, s: Side, j: int, n: int) {
    0 <= j <= n < |h| && Unpaired(c, h, s, j, n) && h[j].t <= h[n].watermark - c.window
  }

  ghost function AloneAt(c: Config, h: seq<Event>, s: Side, n: int): int -> bool { (j: int) => EmitsAlone(c, h, s,
                         j, n) }

  ghost predicate PendingInv(c: Config, h: seq<Event>, st: State) {
    forall s :: st.Pending(s) == Map(EntryOf(h), Filter(Waiting(c, h, s), Indices(|h|)))
  }

  /** Event time and offset identify an arrival on its side. */
  ghost predicate UniqueIds(h: seq<Event>) {
    forall i, j :: 0 <= i < j < |h| && h[i].Arrive? && h[j].Arrive? && h[i].side == h[j].side ==>
      h[i].t != h[j].t || h[i].r.offset != h[j].r.offset
  }

  // ----- How the waiting records change -----

  lemma EmitsPairPrefix(c: Config, h: seq<Event>, e: Event, j: int, i: int)
    requires i < |h|
    ensures EmitsPair(c, h + [e], j, i) <==> EmitsPair(c, h, j, i)
  {
    SurvivesPrefix(c, h, e, j, i);
    if 0 <= j < i { assert (h + [e])[i] == h[i] && (h + [e])[j] == h[j]; }
  }

  lemma PairedStep(c: Config, h: seq<Event>, e: Event, j: int)
    requires 0 <= j < |h|
    ensures PairedBefore(c, h + [e], j, |h| + 1) <==> PairedBefore(c, h, j, |h|) || EmitsPair(c, h + [e], j, |h|)
  {
    hide EmitsPair;
    var h', n := h + [e], |h|;
    forall i | 0 <= i < n
      ensures EmitsPair(c, h', j, i) <==> EmitsPair(c, h, j, i)
      ensures EmitsPair(c, h', i, j) <==> EmitsPair(c, h, i, j)
    {
      EmitsPairPrefix(c, h, e, j, i);
      EmitsPairPrefix(c, h, e, i, j);
    }
    assert !EmitsPair(c, h', n, j) by { NotBackwards(c, h', n, j); }
    if i :| 0 <= i < n + 1 && (EmitsPair(c, h', j, i) || EmitsPair(c, h', i, j)) {
      if i < n { assert EmitsPair(c, h, j, i) || EmitsPair(c, h, i, j); }
    }
    if i :| 0 <= i < n && (EmitsPair(c, h, j, i) || EmitsPair(c, h, i, j)) {
      assert EmitsPair(c, h', j, i) || EmitsPair(c, h', i, j);
    }
    if EmitsPair(c, h', j, n) { assert 0 <= n < n + 1; }
  }

  lemma NotBackwards(c: Config, h: seq<Event>, j: int, i: int)
    requires i <= j
    ensures !EmitsPair(c, h, j, i)
  {
  }

  lemma OpenPrefix(c: Config, h: seq<Event>, e: Event, j: int)
    requires 0 <= j < |h|
    ensures Open(c, h + [e], j, |h|) <==> Open(c, h, j, |h|)
    ensures Open(c, h + [e], j, |h| + 1) <==> Open(c, h, j, |h|) && h[j].Arrive? && h[j].t > e.watermark - c.window
  {
    var h', n := h + [e], |h|;
    assert forall m :: 0 <= m < n ==> h'[m] == h[m];
    assert h'[n] == e;
    if Open(c, h, j, n) && h[j].t > e.watermark - c.window {
      forall m | j <= m < n + 1 ensures h'[j].t > h'[m].watermark - c.window {}
    }
    if Open(c, h', j, n + 1) {
      forall m | j <= m < n ensures h[j].t > h[m].watermark - c.window { assert h'[m] == h[m]; }
    }
    if Open(c, h', j, n) {
      forall m | j <= m < n ensures h[j].t > h[m].watermark - c.window { assert h'[m] == h[m]; }
    }
  }

  ghost function NotPairing(c: Config, h: seq<Event>, i: int): int -> bool { (j: int) => !EmitsPair(c, h, j, i) }

  /** Just before the windows are closed at the new event: the waiting records it does not pair, and
      itself if it pairs with nothing. */
  lemma UnpairedStep(c: Config, h: seq<Event>, e: Event, s: Side)
    ensures var h', n := h + [e], |h|;
            Filter(Unpaireds(c, h', s, n), Indices(n + 1)) ==
            Filter(NotPairing(c, h', n), Filter(Waiting(c, h, s), Indices(n))) + if Unpaired(c, h', s, n, n) then [n] else []
  {
    var h', n := h + [e], |h|;
    hide PairedBefore, Open, EmitsPair, Filter;
    forall j | 0 <= j < n ensures Unpaireds(c, h', s, n)(j) == (Waiting(c, h, s)(j) && NotPairing(c, h', n)(j)) {
      PairedStep(c, h, e, j);
      OpenPrefix(c, h, e, j);
    }
    FilterIndices(Waiting(c, h, s), NotPairing(c, h', n), Unpaireds(c, h', s, n), n);
  }

  /** Closing the windows: what stays waits, … */
  lemma CloseKeeps(c: Config, h: seq<Event>, e: Event, s: Side)
    ensures var h', n, cutoff := h + [e], |h|, e.watermark - c.window;
            var ps := Map(EntryOf(h'), Filter(Unpaireds(c, h', s, n), Indices(n + 1)));
            Filter(After(cutoff), ps) == Map(EntryOf(h'), Filter(Waiting(c, h', s), Indices(n + 1)))
  {
    var h', n, cutoff := h + [e], |h|, e.watermark - c.window;
    hide PairedBefore, Filter;
    var later := (j: int) => After(cutoff)(EntryOf(h')(j));
    FilterMap(After(cutoff), later, EntryOf(h'), Filter(Unpaireds(c, h', s, n), Indices(n + 1)));
    forall j | j in Indices(n + 1) ensures Waiting(c, h', s)(j) == (Unpaireds(c, h', s, n)(j) && later(j)) {
      OpenLast(c, h', j, n);
    }
    FilterTwice(Unpaireds(c, h', s, n), later, Waiting(c, h', s), Indices(n + 1));
  }

  /** … and what goes is emitted. */
  lemma CloseEmits(c: Config, h: seq<Event>, e: Event, s: Side)
    ensures var h', n, cutoff := h + [e], |h|, e.watermark - c.window;
            var ps := Map(EntryOf(h'), Filter(Unpaireds(c, h', s, n), Indices(n + 1)));
            Filter(NotAfter(cutoff), ps) == Map(EntryOf(h'), Filter(AloneAt(c, h', s, n), Indices(n + 1)))
  {
    var h', n, cutoff := h + [e], |h|, e.watermark - c.window;
    hide PairedBefore, Filter, Open;
    var earlier := (j: int) => NotAfter(cutoff)(EntryOf(h')(j));
    FilterMap(NotAfter(cutoff), earlier, EntryOf(h'), Filter(Unpaireds(c, h', s, n), Indices(n + 1)));
    FilterTwice(Unpaireds(c, h', s, n), earlier, AloneAt(c, h', s, n), Indices(n + 1));
  }

  lemma OpenLast(c: Config, h: seq<Event>, j: int, n: nat)
    requires n < |h| && 0 <= j <= n
    ensures Open(c, h, j, n + 1) <==> Open(c, h, j, n) && h[j].t > h[n].watermark - c.window
  {
  }

  // ----- Removal by event time and offset -----

  function NotIn(js: seq<int>): int -> bool { (x: int) => x !in js }

  predicate SameId(a: Buffered, b: Buffered) { a.eventTime == b.eventTime && a.record.offset == b.record.offset }

  lemma {:induction false} RemoveOne(f: int -> Buffered, js: seq<int>, j: int)
    requires Distinct(js) && Apart(f, js, j)
    ensures RemovePending(Map(f, js), f(j).eventTime, f(j).record.offset) == Map(f, Filter(NotIn([j]), js))
  {
    if js != [] {
      assert js[0] in js && Map(f, js)[1..] == Map(f, js[1..]);
      if js[0] == j {
        FilterAll(NotIn([j]), js[1..]);
      } else {
        RemoveOne(f, js[1..], j);
        MapAppend(f, [js[0]], Filter(NotIn([j]), js[1..]));
      }
    }
  }

  /** Where identities are unique, removal takes out exactly the records that were paired. */
  lemma {:induction false} RemoveAllIs(f: int -> Buffered, js: seq<int>, ms: seq<int>)
    requires Distinct(js) && forall y :: y in ms ==> Apart(f, js, y)
    ensures RemoveAll(Map(f, js), Map(f, ms)) == Map(f, Filter(NotIn(ms), js))
  {
    hide RemovePending, Filter, Map, Apart;
    if ms == [] {
      FilterAll(NotIn(ms), js);
    } else {
      var init, j := ms[..|ms| - 1], ms[|ms| - 1];
      assert ms == init + [j] && j in ms;
      hide *;
      RemoveAllIs(f, js, init);
      RemoveNext(f, js, init, j);
    }
  }

  lemma RemoveNext(f: int -> Buffered, js: seq<int>, init: seq<int>, j: int)
    requires Distinct(js) && Apart(f, js, j)
    requires RemoveAll(Map(f, js), Map(f, init)) == Map(f, Filter(NotIn(init), js))
    ensures RemoveAll(Map(f, js), Map(f, init + [j])) == Map(f, Filter(NotIn(init + [j]), js))
  {
    hide *;
    var kept := Filter(NotIn(init), js);
    ApartFilter(f, js, j, NotIn(init));
    RemoveOne(f, kept, j);
    RemoveAllSnoc(Map(f, js), Map(f, init), f(j));
    MapSnoc(f, init, j);
    NotInSnoc(init, j, js);
  }

  /** No element but `j` itself has the identity of `j`. */
  ghost predicate Apart(f: int -> Buffered, js: seq<int>, j: int) { forall x :: x in js && x != j ==> !SameId(f(x),
                        f(j)) }

  lemma ApartFilter(f: int -> Buffered, js: seq<int>, j: int, p: int -> bool)
    requires Distinct(js) && Apart(f, js, j)
    ensures Distinct(Filter(p, js)) && Apart(f, Filter(p, js), j)
  {
    hide Filter, SameId;
    FilterDistinct(p, js);
    FilterMembers(p, js);
    var kept := Filter(p, js);
    forall x | x in kept && x != j ensures !SameId(f(x), f(j)) { assert x in js; }
  }

  lemma NotInSnoc(init: seq<int>, j: int, js: seq<int>)
    ensures Filter(NotIn([j]), Filter(NotIn(init), js)) == Filter(NotIn(init + [j]), js)
  {
    hide Filter;
    FilterTwice(NotIn(init), NotIn([j]), NotIn(init + [j]), js);
  }

  lemma RemoveAllSnoc(pending: seq<Buffered>, ms: seq<Buffered>, m: Buffered)
    ensures RemoveAll(pending, ms + [m]) == RemovePending(RemoveAll(pending, ms), m.eventTime, m.record.offset)
  {
    assert (ms + [m])[..|ms|] == ms;
  }

  ghost predicate ArrivalsOf(h: seq<Event>, s: Side, js: seq<int>) {
    forall j :: j in js ==> 0 <= j < |h| && h[j].Arrive? && h[j].side == s
  }

  lemma UniqueEntries(h: seq<Event>, s: Side, js: seq<int>, ms: seq<int>)
    requires UniqueIds(h) && ArrivalsOf(h, s, js) && ArrivalsOf(h, s, ms)
    ensures forall y :: y in ms ==> Apart(EntryOf(h), js, y)
  {
    forall x, y | x in js && y in ms && x != y ensures !SameId(EntryOf(h)(x), EntryOf(h)(y)) {
      if x < y { assert h[x].side == h[y].side; }
    }
  }

  // ----- One step -----

  lemma WaitingAre(c: Config, h: seq<Event>, s: Side)
    ensures var js := Filter(Waiting(c, h, s), Indices(|h|));
            Distinct(js) && ArrivalsOf(h, s, js) && (!Eligible(c.mode, s) ==> js == [])
  {
    FilterMembers(Waiting(c, h, s), Indices(|h|));
    FilterDistinct(Waiting(c, h, s), Indices(|h|));
    if !Eligible(c.mode, s) { FilterNone(Waiting(c, h, s), Indices(|h|)); }
  }

  /** The pending list of one side after the new record has been matched, before windows close. */
  lemma AdmitPending(c: Config, h: seq<Event>, st: State, e: Event, s: Side)
    requires e.Arrive? && BufferInv(c, h, st) && PendingInv(c, h, st) && UniqueIds(h)
    ensures var h', n := h + [e], |h|;
            Admit(c, st, e.side, e.r, e.t).Pending(s) == Map(EntryOf(h'), Filter(Unpaireds(c, h', s, n), Indices(n + 1)))
  {
    assert s == e.side || s == e.side.Other();
    hide *;
    UnpairedStep(c, h, e, s);
    if s == e.side { AdmitOwn(c, h, st, e); } else { AdmitOther(c, h, st, e); }
  }

  lemma AdmitOwn(c: Config, h: seq<Event>, st: State, e: Event)
    requires e.Arrive? && BufferInv(c, h, st) && PendingInv(c, h, st)
    ensures var h', n := h + [e], |h|;
            Admit(c, st, e.side, e.r, e.t).Pending(e.side) ==
            Map(EntryOf(h'), Filter(NotPairing(c, h', n), Filter(Waiting(c, h, e.side), Indices(n))) +
                             if Unpaired(c, h', e.side, n, n) then [n] else [])
  {
    var h', n := h + [e], |h|;
    var js := Filter(Waiting(c, h, e.side), Indices(n));
    WaitingAre(c, h, e.side);
    OwnSideStays(c, h, e, js);
    NoMatchIsUnpaired(c, h, st, e);
    AdmitQueues(c, st, e);
    hide Admit, Matched, Filter, Waiting, Unpaired, Eligible, NotPairing;
    EntriesSame(h, e, js);
    MapAppend(EntryOf(h'), js, [n]);
    assert Map(EntryOf(h'), [n]) == [Buffered(e.t, e.r)];
    assert js + [] == js;
  }

  lemma OwnSideStays(c: Config, h: seq<Event>, e: Event, js: seq<int>)
    requires e.Arrive? && ArrivalsOf(h, e.side, js)
    ensures Filter(NotPairing(c, h + [e], |h|), js) == js
  {
    var h', n := h + [e], |h|;
    forall i | 0 <= i < |js| ensures NotPairing(c, h', n)(js[i]) { assert js[i] in js; }
    FilterAll(NotPairing(c, h', n), js);
  }

  lemma AdmitQueues(c: Config, st: State, e: Event)
    requires e.Arrive?
    ensures Admit(c, st, e.side, e.r, e.t).Pending(e.side) ==
            if Matched(c, st, e.side, e.r, e.t) == [] && Eligible(c.mode, e.side) then st.Pending(e.side) + [Buffered(e.t, e.r)]
            else st.Pending(e.side)
  {
    hide Matched, RemoveAll, Entries, Eligible;
  }

  lemma NoMatchIsUnpaired(c: Config, h: seq<Event>, st: State, e: Event)
    requires e.Arrive? && BufferInv(c, h, st)
    ensures Matched(c, st, e.side, e.r, e.t) == [] && Eligible(c.mode, e.side) <==> Unpaired(c, h + [e], e.side, |h|, |h|)
  {
    var h', n := h + [e], |h|;
    MatchedIs(c, h, st, e);
    FilterMembers(Pairing(c, h', n), Indices(n));
    var ms := Filter(Pairing(c, h', n), Indices(n));
    hide Matched, Filter, EmitsPair;
    assert ms == [] <==> !PairedBefore(c, h', n, n + 1) by {
      if ms != [] { assert ms[0] in ms && EmitsPair(c, h', ms[0], n); }
      if i :| 0 <= i < n + 1 && (EmitsPair(c, h', n, i) || EmitsPair(c, h', i, n)) {
        NotBackwards(c, h', n, i);
        NotBackwards(c, h', n, n);
        assert Indices(n)[i] == i && i in ms;
      }
    }
  }

  lemma RemovedIs(c: Config, h: seq<Event>, e: Event)
    requires e.Arrive? && UniqueIds(h)
    ensures var h', n, s := h + [e], |h|, e.side.Other();
            var js, ms := Filter(Waiting(c, h, s), Indices(n)), Filter(Pairing(c, h', n), Indices(n));
            RemoveAll(Map(EntryOf(h), js), Map(EntryOf(h), ms)) == Map(EntryOf(h), Filter(NotPairing(c, h', n), js))
  {
    var h', n, s := h + [e], |h|, e.side.Other();
    var js, ms := Filter(Waiting(c, h, s), Indices(n)), Filter(Pairing(c, h', n), Indices(n));
    WaitingAre(c, h, s);
    PairingAre(c, h, e);
    hide Waiting, Filter, RemoveAll, EmitsPair;
    UniqueEntries(h, s, js, ms);
    RemoveAllIs(EntryOf(h), js, ms);
    forall i | 0 <= i < |js| ensures NotIn(ms)(js[i]) == NotPairing(c, h', n)(js[i]) { assert js[i] in js; }
    FilterSame(NotIn(ms), NotPairing(c, h', n), js);
  }

  lemma PairingAre(c: Config, h: seq<Event>, e: Event)
    requires e.Arrive?
    ensures var h', n := h + [e], |h|; var ms := Filter(Pairing(c, h', n), Indices(n));
            ArrivalsOf(h, e.side.Other(), ms) && forall j :: 0 <= j < n ==> (j in ms <==> EmitsPair(c, h', j, n))
  {
    var h', n := h + [e], |h|;
    FilterMembers(Pairing(c, h', n), Indices(n));
    hide Filter;
    forall j | 0 <= j < n ensures j in Indices(n) { assert Indices(n)[j] == j; }
  }

  lemma AdmitOther(c: Config, h: seq<Event>, st: State, e: Event)
    requires e.Arrive? && BufferInv(c, h, st) && PendingInv(c, h, st) && UniqueIds(h)
    ensures var h', n, s := h + [e], |h|, e.side.Other();
            Admit(c, st, e.side, e.r, e.t).Pending(s) ==
            Map(EntryOf(h'), Filter(NotPairing(c, h', n), Filter(Waiting(c, h, s), Indices(n))) +
                             if Unpaired(c, h', s, n, n) then [n] else [])
  {
    var h', n, s := h + [e], |h|, e.side.Other();
    var js := Filter(Waiting(c, h, s), Indices(n));
    var kept := Filter(NotPairing(c, h', n), js);
    WaitingAre(c, h, s);
    FilterMembers(NotPairing(c, h', n), js);
    assert !Unpaired(c, h', s, n, n);
    AdmitRemoves(c, st, e);
    hide Admit, Filter, Matched, Waiting, NotPairing, EntryOf, Unpaired;
    MatchedIs(c, h, st, e);
    RemovedIs(c, h, e);
    EntriesSame(h, e, kept);
    assert kept + [] == kept;
  }

  lemma AdmitRemoves(c: Config, st: State, e: Event)
    requires e.Arrive? && (c.mode == Inner ==> st.Pending(e.side.Other()) == [])
    ensures Admit(c, st, e.side, e.r, e.t).Pending(e.side.Other()) ==
            RemoveAll(st.Pending(e.side.Other()), Matched(c, st, e.side, e.r, e.t))
  {
    RemoveFromNothing(Matched(c, st, e.side, e.r, e.t));
    hide Matched, RemoveAll, Entries;
  }

  lemma {:induction false} RemoveFromNothing(ms: seq<Buffered>)
    ensures RemoveAll([], ms) == []
  {
    if ms != [] { RemoveFromNothing(ms[..|ms| - 1]); }
  }

  /** The pending list of one side as the windows are about to be closed, whatever the event. */
  ghost function Closing(c: Config, st: State, e: Event): State {
    if e.Arrive? then Admit(c, st, e.side, e.r, e.t) else st
  }

  lemma ClosingPending(c: Config, h: seq<Event>, st: State, e: Event, s: Side)
    requires BufferInv(c, h, st) && PendingInv(c, h, st) && UniqueIds(h)
    ensures var h', n := h + [e], |h|;
            Closing(c, st, e).Pending(s) == Map(EntryOf(h'), Filter(Unpaireds(c, h', s, n), Indices(n + 1)))
  {
    if e.Arrive? {
      AdmitPending(c, h, st, e, s);
    } else {
      var h', n := h + [e], |h|;
      var js := Filter(Waiting(c, h, s), Indices(n));
      UnpairedStep(c, h, e, s);
      WaitingAre(c, h, s);
      FilterAll(NotPairing(c, h', n), js);
      assert !Unpaired(c, h', s, n, n);
      hide Filter, Waiting, Unpaired, NotPairing;
      EntriesSame(h, e, js);
      assert js + [] == js;
    }
  }

  lemma StepFlushes(c: Config, st: State, e: Event)
    ensures var flushed := Flush(c, Closing(c, st, e), e.watermark);
            && (forall s: Side :: Step(c, st, e).0.Pending(s) == flushed.0.Pending(s))
            && Step(c, st, e).1 == (if e.Arrive? then Map(PairWith(e.side, e.r), Matched(c, st, e.side, e.r, e.t)) else []) + flushed.1
  {
    hide Flush, Admit, Matched, Prune;
  }

  lemma PendingStep(c: Config, h: seq<Event>, st: State, e: Event)
    requires BufferInv(c, h, st) && PendingInv(c, h, st) && UniqueIds(h)
    ensures PendingInv(c, h + [e], Step(c, st, e).0)
  {
    hide Step, Waiting, EntryOf, Filter;
    StepFlushes(c, st, e);
    forall s ensures Step(c, st, e).0.Pending(s) == Map(EntryOf(h + [e]), Filter(Waiting(c, h + [e], s), Indices(|h| + 1))) {
      PendingStepAt(c, h, st, e, s);
    }
  }

  lemma PendingStepAt(c: Config, h: seq<Event>, st: State, e: Event, s: Side)
    requires BufferInv(c, h, st) && PendingInv(c, h, st) && UniqueIds(h)
    ensures Flush(c, Closing(c, st, e), e.watermark).0.Pending(s) ==
            Map(EntryOf(h + [e]), Filter(Waiting(c, h + [e], s), Indices(|h| + 1)))
  {
    FlushKeeps(c, Closing(c, st, e), e.watermark, s);
    if c.mode == Inner {
      WaitingAre(c, h + [e], s);
      InnerHasNone(c, h + [e], s, |h|);
    }
    hide Flush, Closing, Filter, UniqueIds, BufferInv, Waiting, Unpaireds, PendingInv;
    ClosingPending(c, h, st, e, s);
    CloseKeeps(c, h, e, s);
  }

  lemma FlushKeeps(c: Config, st: State, watermark: int, s: Side)
    ensures Flush(c, st, watermark).0.Pending(s) ==
            if c.mode == Inner then st.Pending(s) else Filter(After(watermark - c.window), st.Pending(s))
  {
    hide Filter;
  }

  lemma InnerHasNone(c: Config, h: seq<Event>, s: Side, n: nat)
    requires c.mode == Inner
    ensures Filter(Unpaireds(c, h, s, n), Indices(n + 1)) == []
  {
    FilterNone(Unpaireds(c, h, s, n), Indices(n + 1));
  }

  // ----- Whole runs -----

  lemma {:induction false} PendingReached(c: Config, h: seq<Event>)
    requires UniqueIds(h)
    ensures PendingInv(c, h, Reached(c, h))
  {
    hide *;
    if h == [] {
      NothingPending(c, h);
    } else {
      ReachedSnoc(c, h);
      UniquePrefix(h[..|h| - 1], h[|h| - 1]);
      PendingReached(c, h[..|h| - 1]);
      BuffersReached(c, h[..|h| - 1]);
      PendingStep(c, h[..|h| - 1], Reached(c, h[..|h| - 1]), h[|h| - 1]);
    }
  }

  lemma UniquePrefix(h: seq<Event>, e: Event)
    requires UniqueIds(h + [e])
    ensures UniqueIds(h)
  {
    forall i, j | 0 <= i < j < |h| && h[i].Arrive? && h[j].Arrive? && h[i].side == h[j].side
      ensures h[i].t != h[j].t || h[i].r.offset != h[j].r.offset
    {
      assert (h + [e])[i] == h[i] && (h + [e])[j] == h[j];
    }
  }

  lemma NothingPending(c: Config, h: seq<Event>)
    requires h == []
    ensures PendingInv(c, h, Reached(c, h))
  {
    forall s ensures Reached(c, h).Pending(s) == Map(EntryOf(h), Filter(Waiting(c, h, s), Indices(|h|))) {
      WaitingAre(c, h, s);
    }
  }

  ghost function AloneOutput(h: seq<Event>, s: Side): int -> Output {
    (j: int) => if s == Left then LeftOnly(EntryOf(h)(j).record) else RightOnly(EntryOf(h)(j).record)
  }

  /** What one side emits alone at event `n`. */
  ghost function AloneOf(c: Config, h: seq<Event>, s: Side, n: nat): seq<Output> {
    Map(AloneOutput(h, s), Filter(AloneAt(c, h, s, n), Indices(n + 1)))
  }

  ghost function PairsOf(c: Config, h: seq<Event>, e: Event): seq<Output> {
    if e.Arrive? then Map(PairAt(h, e), Filter(Pairing(c, h + [e], |h|), Indices(|h|))) else []
  }

  lemma FlushEmits(c: Config, h: seq<Event>, st: State, e: Event)
    requires BufferInv(c, h, st) && PendingInv(c, h, st) && UniqueIds(h)
    ensures Flush(c, Closing(c, st, e), e.watermark).1 == AloneOf(c, h + [e], Left, |h|) + AloneOf(c, h + [e], Right, |h|)
  {
    FlushParts(c, Closing(c, st, e), e.watermark);
    hide Flush, Closing, BufferInv, PendingInv, UniqueIds, AloneOf;
    FlushEmitsAt(c, h, st, e, Left);
    FlushEmitsAt(c, h, st, e, Right);
  }

  lemma FlushParts(c: Config, st: State, watermark: int)
    ensures var cutoff := watermark - c.window;
            Flush(c, st, watermark).1 ==
            Alone(c.mode, Left, Filter(NotAfter(cutoff), st.Pending(Left))) + Alone(c.mode, Right, Filter(NotAfter(cutoff), st.Pending(Right)))
  {
    hide Filter;
  }

  lemma FlushEmitsAt(c: Config, h: seq<Event>, st: State, e: Event, s: Side)
    requires BufferInv(c, h, st) && PendingInv(c, h, st) && UniqueIds(h)
    ensures Alone(c.mode, s, Filter(NotAfter(e.watermark - c.window), Closing(c, st, e).Pending(s))) == AloneOf(c, h + [e], s, |h|)
  {
    var h', n := h + [e], |h|;
    if !Eligible(c.mode, s) { NoneIneligible(c, h', s, n); }
    hide Closing, BufferInv, PendingInv, UniqueIds, Filter, AloneAt, Unpaireds, Eligible;
    ClosingPending(c, h, st, e, s);
    CloseEmits(c, h, e, s);
    var js := Filter(AloneAt(c, h', s, n), Indices(n + 1));
    var only := (b: Buffered) => if s == Left then LeftOnly(b.record) else RightOnly(b.record);
    assert Alone(c.mode, s, Map(EntryOf(h'), js)) == if Eligible(c.mode, s) then Map(only, Map(EntryOf(h'), js)) else [];
    MapTwice(EntryOf(h'), only, AloneOutput(h', s), js);
  }

  lemma NoneIneligible(c: Config, h: seq<Event>, s: Side, n: nat)
    requires !Eligible(c.mode, s)
    ensures Filter(AloneAt(c, h, s, n), Indices(n + 1)) == []
  {
    FilterNone(AloneAt(c, h, s, n), Indices(n + 1));
  }

  /** Everything a run emits, for inner and outer joins, in terms of the events alone: at each event
      first the surviving matches of the arrival, then, side by side and in arrival order, the
      records whose window this watermark is the first to close and that were never paired. */
  lemma OuterJoinEmits(c: Config, h: seq<Event>, e: Event)
    requires UniqueIds(h)
    ensures Step(c, Reached(c, h), e).1 ==
            PairsOf(c, h, e) + (AloneOf(c, h + [e], Left, |h|) + AloneOf(c, h + [e], Right, |h|))
  {
    hide Reached, Flush, Closing, Matched, BufferInv, PendingInv, UniqueIds, AloneOf, Filter, Step;
    BuffersReached(c, h);
    PendingReached(c, h);
    StepFlushes(c, Reached(c, h), e);
    FlushEmits(c, h, Reached(c, h), e);
    if e.Arrive? { PairsEmitted(c, h, e); }
  }

  // ----- The pending discipline -----

  /** What the join emits at event `n` of a run. */
  ghost function EmittedAt(c: Config, h: seq<Event>, n: nat): seq<Output>
    requires n < |h|
  {
    Step(c, Reached(c, h[..n]), h[n]).1
  }

  /** What is emitted at an event depends on the events up to it. */
  lemma EmitsPairUpTo(c: Config, h: seq<Event>, n: nat, j: int, i: int)
    requires n <= |h| && i < n
    ensures EmitsPair(c, h[..n], j, i) <==> EmitsPair(c, h, j, i)
  {
    if 0 <= j < i {
      assert forall m :: 0 <= m < n ==> h[..n][m] == h[m];
    }
  }

  lemma EmitsAloneUpTo(c: Config, h: seq<Event>, s: Side, j: int, n: nat)
    requires n < |h|
    ensures EmitsAlone(c, h[..n + 1], s, j, n) <==> EmitsAlone(c, h, s, j, n)
  {
    hide EmitsPair;
    if 0 <= j <= n {
      var p := h[..n + 1];
      assert forall m :: 0 <= m <= n ==> p[m] == h[m];
      forall i | 0 <= i < n + 1
        ensures (EmitsPair(c, p, j, i) || EmitsPair(c, p, i, j)) <==> (EmitsPair(c, h, j, i) || EmitsPair(c, h, i, j))
      {
        EmitsPairUpTo(c, h, n + 1, j, i);
        EmitsPairUpTo(c, h, n + 1, i, j);
      }
      assert PairedBefore(c, p, j, n + 1) <==> PairedBefore(c, h, j, n + 1);
    }
  }

  /** What an event emits, output by output. */
  lemma EmittedIff(c: Config, h: seq<Event>, n: nat, o: Output)
    requires UniqueIds(h) && n < |h|
    ensures o in EmittedAt(c, h, n) <==>
            match o
            case LeftOnly(l) => exists j :: EmitsAlone(c, h, Left, j, n) && h[j].r == l
            case RightOnly(r) => exists j :: EmitsAlone(c, h, Right, j, n) && h[j].r == r
            case Pair(l, r) => exists j :: EmitsPair(c, h, j, n) && PairWith(h[n].side, h[n].r)(Buffered(h[j].t, h[j].r)) == o
  {
    var past, e, p := h[..n], h[n], h[..n + 1];
    assert p == past + [e];
    hide Step, Reached, AloneOf, PairsOf, EmitsAlone, EmitsPair;
    OuterJoinEmits(c, past, e);
    AloneMembers(c, h, Left, n, o);
    AloneMembers(c, h, Right, n, o);
    PairMembers(c, h, n, o);
  }

  lemma AloneMembers(c: Config, h: seq<Event>, s: Side, n: nat, o: Output)
    requires n < |h|
    ensures o in AloneOf(c, h[..n + 1], s, n) <==>
            exists j :: EmitsAlone(c, h, s, j, n) && o == if s == Left then LeftOnly(h[j].r) else RightOnly(h[j].r)
  {
    var p := h[..n + 1];
    hide EmitsAlone, Filter;
    FilterMembers(AloneAt(c, p, s, n), Indices(n + 1));
    var js := Filter(AloneAt(c, p, s, n), Indices(n + 1));
    if o in AloneOf(c, p, s, n) {
      var i :| 0 <= i < |js| && o == AloneOutput(p, s)(js[i]);
      var j := js[i];
      assert j in js;
      assert AloneAt(c, p, s, n)(j);
      EmitsAloneUpTo(c, h, s, j, n);
      AloneRange(c, h, s, j, n);
      AloneOutputIs(h, s, j, n);
      assert EmitsAlone(c, h, s, j, n) && o == if s == Left then LeftOnly(h[j].r) else RightOnly(h[j].r);
    }
    if j :| EmitsAlone(c, h, s, j, n) && o == if s == Left then LeftOnly(h[j].r) else RightOnly(h[j].r) {
      AloneRange(c, h, s, j, n);
      AloneOutputIs(h, s, j, n);
      EmitsAloneUpTo(c, h, s, j, n);
      assert Indices(n + 1)[j] == j;
      assert AloneAt(c, p, s, n)(j);
      assert j in js;
      var i :| 0 <= i < |js| && js[i] == j;
      assert AloneOf(c, p, s, n)[i] == o;
    }
  }

  lemma AloneOutputIs(h: seq<Event>, s: Side, j: int, n: nat)
    requires 0 <= j <= n < |h| && h[j].Arrive?
    ensures AloneOutput(h[..n + 1], s)(j) == if s == Left then LeftOnly(h[j].r) else RightOnly(h[j].r)
  {
    var p := h[..n + 1];
    assert p[j] == h[j];
    assert EntryOf(p)(j) == Buffered(p[j].t, p[j].r);
  }

  lemma PairOutputIs(h: seq<Event>, j: int, n: nat)
    requires 0 <= j < n < |h| && h[j].Arrive? && h[n].Arrive?
    ensures PairAt(h[..n], h[n])(j) == PairWith(h[n].side, h[n].r)(Buffered(h[j].t, h[j].r))
  {
    var p := h[..n];
    assert p[j] == h[j];
    assert EntryOf(p)(j) == Buffered(p[j].t, p[j].r);
  }

  lemma AloneRange(c: Config, h: seq<Event>, s: Side, j: int, n: nat)
    requires EmitsAlone(c, h, s, j, n)
    ensures 0 <= j <= n < |h| && h[j].Arrive? && h[j].side == s && !PairedBefore(c, h, j, n + 1)
  {}

  lemma PairMembers(c: Config, h: seq<Event>, n: nat, o: Output)
    requires n < |h|
    ensures o in PairsOf(c, h[..n], h[n]) <==>
            exists j :: EmitsPair(c, h, j, n) && PairWith(h[n].side, h[n].r)(Buffered(h[j].t, h[j].r)) == o
  {
    var past, e, p := h[..n], h[n], h[..n + 1];
    assert p == past + [e];
    hide Filter;
    FilterMembers(Pairing(c, p, n), Indices(n));
    var js := Filter(Pairing(c, p, n), Indices(n));
    if o in PairsOf(c, past, e) {
      var i :| 0 <= i < |js| && o == PairAt(past, e)(js[i]);
      var j := js[i];
      assert j in js;
      assert Pairing(c, p, n)(j);
      EmitsPairUpTo(c, h, n + 1, j, n);
      PairOutputIs(h, j, n);
      assert EmitsPair(c, h, j, n) && PairWith(h[n].side, h[n].r)(Buffered(h[j].t, h[j].r)) == o;
    }
    if j :| EmitsPair(c, h, j, n) && PairWith(h[n].side, h[n].r)(Buffered(h[j].t, h[j].r)) == o {
      EmitsPairUpTo(c, h, n + 1, j, n);
      PairOutputIs(h, j, n);
      assert Indices(n)[j] == j;
      assert Pairing(c, p, n)(j);
      assert j in js;
      var i :| 0 <= i < |js| && js[i] == j;
      assert PairsOf(c, past, e)[i] == o;
    }
  }

  /** No record arrives twice on the same side. */
  ghost predicate DistinctRecords(h: seq<Event>) {
    forall i, j :: 0 <= i < j < |h| && h[i].Arrive? && h[j].Arrive? && h[i].side == h[j].side ==> h[i].r != h[j].r
  }

  /** Along every run, a record emitted in a pair at event `m` is emitted alone neither then nor at
      any later event. */
  lemma PairedNeverAlone(c: Config, h: seq<Event>, m: nat, n: nat, l: Record, r: Record)
    requires UniqueIds(h) && DistinctRecords(h) && m <= n < |h|
    requires Pair(l, r) in EmittedAt(c, h, m)
    ensures LeftOnly(l) !in EmittedAt(c, h, n) && RightOnly(r) !in EmittedAt(c, h, n)
  {
    hide EmittedAt, UniqueIds;
    EmittedIff(c, h, m, Pair(l, r));
    var j :| EmitsPair(c, h, j, m) && PairWith(h[m].side, h[m].r)(Buffered(h[j].t, h[j].r)) == Pair(l, r);
    EmittedIff(c, h, n, LeftOnly(l));
    EmittedIff(c, h, n, RightOnly(r));
    assert PairedBefore(c, h, j, n + 1) && PairedBefore(c, h, m, n + 1);
    hide PairedBefore;
  }

  /** Along every run, no record is emitted alone at two events. */
  lemma AloneOnce(c: Config, h: seq<Event>, m: nat, n: nat, o: Output)
    requires UniqueIds(h) && DistinctRecords(h) && m < |h| && n < |h| && !o.Pair?
    requires o in EmittedAt(c, h, m) && o in EmittedAt(c, h, n)
    ensures m == n
  {
    hide EmittedAt, UniqueIds, PairedBefore;
    EmittedIff(c, h, m, o);
    EmittedIff(c, h, n, o);
  }

  /** Once a watermark has reached the end of an eligible record's window, the record has either
      been paired by then or been emitted alone, at exactly one event. */
  lemma ClosedIsSettled(c: Config, h: seq<Event>, s: Side, j: int, n: int)
    requires 0 <= j <= n < |h| && h[j].Arrive? && h[j].side == s && Eligible(c.mode, s)
    requires h[j].t + c.window <= h[n].watermark && !PairedBefore(c, h, j, n + 1)
    ensures exists m :: j <= m <= n && EmitsAlone(c, h, s, j, m)
    decreases n - j
  {
    hide EmitsPair;
    if Open(c, h, j, n) {
      assert EmitsAlone(c, h, s, j, n);
    } else {
      var m :| j <= m < n && h[j].t <= h[m].watermark - c.window;
      assert !PairedBefore(c, h, j, m + 1);
      ClosedIsSettled(c, h, s, j, m);
    }
  }

  /** With a lateness that is not negative, a record that waits is still buffered. */
  lemma WaitingIsBuffered(c: Config, h: seq<Event>, s: Side, j: int)
    requires Waits(c, h, s, j) && c.lateness >= 0
    ensures j in Live(c, h, s, h[j].r.key)
  {
    FilterMembers(Buffering(c, h, s, h[j].r.key), Indices(|h|));
    assert Indices(|h|)[j] == j;
    forall m | j <= m < |h| && h[m].Arrive? ensures h[j].t >= Cutoff(c, h[m]) {
      assert h[j].t > h[m].watermark - c.window;
    }
  }

  // ----- Identities that are not unique -----

  /** Offsets are per partition, so two left records of different partitions can share event time and
      offset. A right record that pairs with the second then takes the first one out of the pending
      list: the second is emitted alone after it was paired, and the first never is. */
  lemma SharedIdentityConfuses(c: Config, r1: Record, r2: Record, q: Record)
    requires c.mode == LeftOuter && c.window > 0 && c.lateness >= 0
    requires r1.key != r2.key && q.key == r2.key && r1.offset == r2.offset
    ensures var h := [Arrive(Left, r1, 0, 0), Arrive(Left, r2, 0, 0), Arrive(Right, q, 0, 0)];
            && Step(c, Reached(c, h[..2]), h[2]).1 == [Pair(r2, q)]
            && Step(c, Reached(c, h), Punctuate(c.window)).1 == [LeftOnly(r2)]
            && Reached(c, h).pendingLeft == [Buffered(0, r2)]
  {
    hide Step, Quiet;
    var e1, e2, e3 := Arrive(Left, r1, 0, 0), Arrive(Left, r2, 0, 0), Arrive(Right, q, 0, 0);
    var h := [e1, e2, e3];
    assert h[..2][..1] == [e1] && [e1][..0] == [] && h[..2] == [e1, e2];
    StartQuiet(c);
    LeftQueues(c, EMPTY, r1);
    var s1 := Step(c, EMPTY, e1).0;
    assert Reached(c, [e1]) == s1;
    LeftQueues(c, s1, r2);
    var s2 := Step(c, s1, e2).0;
    assert Reached(c, [e1, e2]) == s2;
    var b1, b2 := Buffered(0, r1), Buffered(0, r2);
    assert s1.pendingLeft == [b1] && s1.left == map[r1.key := [b1]] by { assert [] + [b1] == [b1]; }
    assert s2.pendingLeft == [b1, b2] && Entries(s2.left, r2.key) == [b2] by { assert [] + [b2] == [b2]; }
    assert s2.pendingRight == [] by { QuietHas(c, s2); }
    ConfusedThird(c, s2, r1, r2, q);
    assert Reached(c, h) == Step(c, s2, e3).0;
    ConfusedLast(c, Reached(c, h), r2);
  }

  /** The first record is not emitted alone at any later event either. */
  lemma ConfusedFirstNeverAlone(c: Config, r1: Record, r2: Record, q: Record, es: seq<Event>, n: nat)
    requires c.mode == LeftOuter && c.window > 0 && c.lateness >= 0
    requires r1.key != r2.key && q.key == r2.key && r1.offset == r2.offset
    requires n < |es| && NeverArrives(es, r1)
    ensures var h := [Arrive(Left, r1, 0, 0), Arrive(Left, r2, 0, 0), Arrive(Right, q, 0, 0)];
            LeftOnly(r1) !in Step(c, Reached(c, h + es[..n]), es[n]).1
  {
    var h := [Arrive(Left, r1, 0, 0), Arrive(Left, r2, 0, 0), Arrive(Right, q, 0, 0)];
    SharedIdentityConfuses(c, r1, r2, q);
    hide Reached, Step;
    AbsentStays(c, h, es, n, r1);
    AbsentIsSilent(c, Reached(c, h + es[..n]), es[n], r1);
  }

  ghost predicate NeverArrives(es: seq<Event>, l: Record) {
    forall i :: 0 <= i < |es| && es[i].Arrive? && es[i].side == Left ==> es[i].r != l
  }

  ghost predicate NotPending(st: State, l: Record) { forall b :: b in st.pendingLeft ==> b.record != l }

  lemma AdmitAbsent(c: Config, st: State, e: Event, l: Record)
    requires NotPending(st, l) && e.Arrive? && (e.side == Left ==> e.r != l)
    ensures NotPending(Admit(c, st, e.side, e.r, e.t), l)
  {
    hide Matched, RemoveAll;
    RemoveAllSubset(st.pendingLeft, Matched(c, st, e.side, e.r, e.t));
  }

  lemma FlushAbsent(c: Config, st: State, watermark: int, l: Record)
    requires NotPending(st, l)
    ensures NotPending(Flush(c, st, watermark).0, l) && LeftOnly(l) !in Flush(c, st, watermark).1
  {
    hide Filter;
    FilterMembers(After(watermark - c.window), st.pendingLeft);
    FilterMembers(NotAfter(watermark - c.window), st.pendingLeft);
  }

  /** A left record that is not pending and does not arrive is neither emitted alone nor pending. */
  lemma AbsentIsSilent(c: Config, st: State, e: Event, l: Record)
    requires NotPending(st, l) && (e.Arrive? && e.side == Left ==> e.r != l)
    ensures NotPending(Step(c, st, e).0, l) && LeftOnly(l) !in Step(c, st, e).1
  {
    hide Prune, Matched, Admit, Flush;
    if e.Arrive? { AdmitAbsent(c, st, e, l); }
    FlushAbsent(c, if e.Arrive? then Admit(c, st, e.side, e.r, e.t) else st, e.watermark, l);
  }

  lemma {:induction false} RemovePendingSubset(pending: seq<Buffered>, t: int, offset: int)
    ensures forall b :: b in RemovePending(pending, t, offset) ==> b in pending
  {
    if pending != [] {
      assert pending == [pending[0]] + pending[1..];
      RemovePendingSubset(pending[1..], t, offset);
    }
  }

  lemma {:induction false} RemoveAllSubset(pending: seq<Buffered>, ms: seq<Buffered>)
    ensures forall b :: b in RemoveAll(pending, ms) ==> b in pending
  {
    if ms != [] {
      var init, m := ms[..|ms| - 1], ms[|ms| - 1];
      RemoveAllSubset(pending, init);
      RemovePendingSubset(RemoveAll(pending, init), m.eventTime, m.record.offset);
    }
  }

  lemma {:induction false} AbsentStays(c: Config, h: seq<Event>, es: seq<Event>, n: nat, l: Record)
    requires NotPending(Reached(c, h), l) && NeverArrives(es, l) && n <= |es|
    ensures NotPending(Reached(c, h + es[..n]), l)
    decreases n
  {
    hide Step, NotPending;
    if n == 0 {
      assert h + es[..0] == h;
    } else {
      AbsentStays(c, h, es, n - 1, l);
      var past := h + es[..n - 1];
      assert h + es[..n] == past + [es[n - 1]];
      assert (past + [es[n - 1]])[..|past|] == past;
      AbsentIsSilent(c, Reached(c, past), es[n - 1], l);
    }
  }

  /** Everything happened at time zero, on the left. */
  ghost predicate Quiet(c: Config, st: State) {
    && st.right == map[] && st.pendingRight == []
    && (forall k :: k in st.left ==> st.left[k] != [] && forall i :: 0 <= i < |st.left[k]| ==> st.left[k][i].eventTime == 0)
    && forall i :: 0 <= i < |st.pendingLeft| ==> st.pendingLeft[i].eventTime == 0
  }

  lemma QuietHas(c: Config, st: State)
    requires Quiet(c, st)
    ensures st.right == map[] && st.pendingRight == []
  {
  }

  lemma StartQuiet(c: Config)
    ensures Quiet(c, EMPTY)
  {
  }

  lemma PruneNothing(buf: Buffer, cutoff: int)
    requires cutoff <= 0
    requires forall k :: k in buf ==> buf[k] != [] && forall i :: 0 <= i < |buf[k]| ==> buf[k][i].eventTime == 0
    ensures Prune(buf, cutoff) == buf
  {
    forall k | k in buf ensures Filter(AtLeast(cutoff), buf[k]) == buf[k] { FilterAll(AtLeast(cutoff), buf[k]); }
  }

  lemma LeftQueues(c: Config, st: State, r: Record)
    requires c.mode == LeftOuter && c.window > 0 && c.lateness >= 0 && Quiet(c, st)
    ensures var st' := Step(c, st, Arrive(Left, r, 0, 0)).0; var b := Buffered(0, r);
            && Quiet(c, st') && st'.pendingLeft == st.pendingLeft + [b]
            && st'.left == st.left[r.key := Entries(st.left, r.key) + [b]]
  {
    var b := Buffered(0, r);
    var left, pending := st.left[r.key := Entries(st.left, r.key) + [b]], st.pendingLeft + [b];
    var e := Arrive(Left, r, 0, 0);
    QuietGrows(c, st, r);
    QuietHas(c, st);
    hide Prune, Filter, Admit, Step, Quiet, Entries;
    LeftAdmitted(c, st, r);
    StepParts(c, st, e);
    QuietStays(c, State(left, map[], pending, []), Cutoff(c, e));
  }

  lemma QuietStays(c: Config, st: State, cutoff: int)
    requires Quiet(c, st) && cutoff <= 0 && c.window > 0
    ensures Prune(st.left, cutoff) == st.left && Prune(map[], cutoff) == map[]
    ensures Filter(After(0 - c.window), st.pendingLeft) == st.pendingLeft && Filter(After(0 - c.window), []) == []
  {
    FilterAll(After(0 - c.window), st.pendingLeft);
    PruneNothing(st.left, cutoff);
    PruneNothing(map[], cutoff);
  }

  lemma QuietGrows(c: Config, st: State, r: Record)
    requires Quiet(c, st)
    ensures var b := Buffered(0, r);
            Quiet(c, State(st.left[r.key := Entries(st.left, r.key) + [b]], map[], st.pendingLeft + [b], []))
  {
  }

  lemma StepParts(c: Config, st: State, e: Event)
    requires e.Arrive? && c.mode != Inner
    ensures var a, cutoff := Admit(c, st, e.side, e.r, e.t), e.watermark - c.window;
            Step(c, st, e).0 == State(Prune(a.left, Cutoff(c, e)), Prune(a.right, Cutoff(c, e)),
                                      Filter(After(cutoff), a.pendingLeft), Filter(After(cutoff), a.pendingRight))
  {
    hide Admit, Prune, Filter, Matched;
  }

  lemma LeftAdmitted(c: Config, st: State, r: Record)
    requires c.mode == LeftOuter && st.right == map[] && st.pendingRight == []
    ensures var b := Buffered(0, r);
            Admit(c, st, Left, r, 0) == State(st.left[r.key := Entries(st.left, r.key) + [b]], map[], st.pendingLeft + [b], [])
  {
    assert Matched(c, st, Left, r, 0) == [];
    hide Matched;
  }

  lemma ConfusedThird(c: Config, st: State, r1: Record, r2: Record, q: Record)
    requires c.mode == LeftOuter && c.window > 0 && c.lateness >= 0
    requires r1.key != r2.key && q.key == r2.key && r1.offset == r2.offset
    requires var b1, b2 := Buffered(0, r1), Buffered(0, r2);
             Entries(st.left, r2.key) == [b2] && st.pendingLeft == [b1, b2] && st.pendingRight == []
    ensures var (st', out) := Step(c, st, Arrive(Right, q, 0, 0));
            out == [Pair(r2, q)] && st'.pendingLeft == [Buffered(0, r2)] && st'.pendingRight == []
  {
    var b1, b2 := Buffered(0, r1), Buffered(0, r2);
    FilterAll(Near(c, 0), [b2]);
    assert Matched(c, st, Right, q, 0) == [b2];
    assert [b1, b2][1..] == [b2] && [b2][..0] == [];
    assert RemovePending([b1, b2], 0, r2.offset) == [b2];
    assert RemoveAll([b1, b2], []) == [b1, b2];
    assert RemoveAll([b1, b2], [b2]) == [b2];
    assert Filter(After(0 - c.window), [b2]) == [b2];
    assert Filter(NotAfter(0 - c.window), [b2]) == [];
    hide Prune, Matched, RemoveAll, Entries;
  }

  lemma ConfusedLast(c: Config, st: State, r2: Record)
    requires c.mode == LeftOuter && st.pendingLeft == [Buffered(0, r2)] && st.pendingRight == []
    ensures Step(c, st, Punctuate(c.window)).1 == [LeftOnly(r2)]
  {
    assert Filter(NotAfter(0), st.pendingLeft) == st.pendingLeft;
  }
}
