/** The windowing operators' own loops over a partition's store (streams/window.go,
    streams/topology.go). */
module Windows {
  import opened Bytes
  import opened Seqs
  import opened Wrappers
  import opened WindowSpec
  import W = WindowRuns
  import Sessions

  /** EncodeCount: fills the eight bytes from the last one down. */
  method EncodeCountLoop(n: nat) returns (b: bytes)
    ensures b == EncodeCount(n)
  {
    b := [];
    var rest: int, i := n, 7;
    while i >= 0
      invariant -1 <= i <= 7
      invariant BE(n, 8) == BE(rest, i + 1) + b
    {
      BEUnfold(rest, i + 1);
      Assoc(BE(rest / 256, i), [rest % 256], b);
      b := [rest % 256] + b;
      rest := rest / 256;
      i := i - 1;
    }
    assert BE(rest, 0) == [] && [] + b == b;
  }

  lemma BEUnfold(n: int, w: nat)
    requires w > 0
    ensures BE(n, w) == BE(n / 256, w - 1) + [n % 256]
  {
  }

  method DecodeCountLoop(b: bytes) returns (n: nat)
    ensures n == DecodeCount(b)
  {
    if |b| != 8 { return 0; }
    n := 0;
    assert b[..0] == [];
    for i := 0 to 8
      invariant n == FromBE(b[..i])
    {
      assert b[..i + 1][..i] == b[..i];
      n := n * 256 + b[i];
    }
    assert b[..8] == b;
  }

  /** A windowed count over one partition of its store. */
  class CountWindows {
    const config: Config
    var store: Store
    var watermark: int

    ghost function State(): W.State
      reads this
    {
      W.State(store, watermark)
    }

    constructor (config: Config, watermark: int)
      ensures this.config == config && State() == W.State(map[], watermark)
    {
      this.config, this.watermark, store := config, watermark, map[];
    }

    /** Raises the watermark to `ts` unless it is there already. */
    method AdvanceWatermark(ts: int) returns (wm: int)
      modifies this`watermark
      ensures wm == watermark == Max(old(watermark), ts)
    {
      if ts > watermark { watermark := ts; }
      wm := watermark;
    }

    method Increment(key: bytes, start: int)
      modifies this`store
      ensures store == W.Increment(old(store), MakeKey(key, start))
    {
      var k := MakeKey(key, start);
      var cur := DecodeCountLoop(if k in store then store[k] else []);
      var b := EncodeCountLoop((cur + 1) % TWO64);
      store := store[k := b];
    }

    /** Finds the closed windows in one walk of the store, then deletes and emits them. */
    method CloseOnePartition(size: int, current: int, wm: int) returns (out: seq<Emission>)
      modifies this`store
      ensures var closed := W.Harvest(old(store), size, current, wm);
              store == old(store) - closed.Keys && Listed(out, closed)
    {
      hide MakeKey, Listed, Map, W.Harvest;
      out := Collect(size, current, wm);
      ghost var keys := Map(KeyOf(), out);
      KeysListed(out, W.Harvest(store, size, current, wm));
      for i := 0 to |out|
        invariant store == old(store) - set k | k in keys[..i]
      {
        assert keys[..i + 1] == keys[..i] + [keys[i]];
        store := store - {MakeKey(out[i].key, out[i].start)};
      }
      assert keys[..|out|] == keys;
    }

    /** One walk of the store, in any order. */
    method Collect(size: int, current: int, wm: int) returns (out: seq<Emission>)
      ensures Listed(out, W.Harvest(store, size, current, wm))
    {
      hide MakeKey, ParseKey, Listed;
      out := [];
      var todo := store.Keys;
      ghost var found: Store := map[];
      NothingListed();
      while todo != {}
        invariant todo <= store.Keys && Listed(out, found)
        invariant found == map k | k in store && k !in todo && W.Closed(k, size, current, wm) :: store[k]
      {
        var k :| k in todo;
        var w := ParseKey(k);
        if w.WindowKey? && w.start + size <= wm && w.start != current {
          ParsedRebuilds(k);
          var e := Emission(w.key, w.start, store[k]);
          ListedMore(out, found, e);
          out := out + [e];
          found := found[k := store[k]];
        }
        todo := todo - {k};
      }
      assert found == W.Harvest(store, size, current, wm);
    }

    method TumblingRecord(key: bytes, t: int) returns (out: seq<Emission>)
      requires config.size > 0
      modifies this`store
      ensures var (s, closed) := W.Tumble(config.size, old(State()), key, t); State() == s && Listed(out, closed)
    {
      hide LatestStart, W.Increment, W.Harvest;
      var current := LatestStart(t, config.size);
      Increment(key, current);
      out := CloseOnePartition(config.size, current, watermark);
    }

    /** Walks the window starts backwards from the latest one. */
    method HoppingRecord(key: bytes, t: int) returns (out: seq<Emission>)
      requires config.Valid()
      modifies this`store
      ensures var (s, closed) := W.Step(config, old(State()), W.Tally(key, t)); State() == s && Listed(out, closed)
    {
      hide W.Increment, LatestStart, W.Harvest;
      var last := LatestStart(t, config.advance);
      var ws := last;
      ghost var starts := Starts(config, t);
      ghost var done: seq<int> := [];
      assert [] + starts == starts;
      while ws > t - config.size && ws >= 0
        invariant store == W.IncrementAll(old(store), key, done) && watermark == old(watermark)
        invariant starts == done + StartsFrom(ws, t, config.size, config.advance)
        decreases ws
      {
        StartsUnfold(ws, t, config.size, config.advance);
        Assoc(done, [ws], StartsFrom(ws - config.advance, t, config.size, config.advance));
        assert (done + [ws])[..|done|] == done;
        Increment(key, ws);
        done := done + [ws];
        ws := ws - config.advance;
      }
      StartsUnfold(ws, t, config.size, config.advance);
      assert done + [] == done;
      out := CloseOnePartition(config.size, last, watermark);
    }

    method Punctuate(now: int) returns (out: seq<Emission>)
      requires config.advance > 0
      modifies this
      ensures var (s, closed) := W.Step(config, old(State()), W.Punctuate(now)); State() == s && Listed(out, closed)
    {
      var wm := AdvanceWatermark(now);
      out := CloseOnePartition(config.size, -1, wm);
    }
  }

  /** One emitted count. */
  datatype Emission = Emission(key: bytes, start: int, count: bytes)

  function KeyOf(): Emission -> bytes { (e: Emission) => MakeKey(e.key, e.start) }

  /** The list names every closed window once, with its count. */
  ghost predicate Listed(out: seq<Emission>, closed: Store) {
    && Distinct(Map(KeyOf(), out)) && (forall k :: k in closed <==> k in Map(KeyOf(), out))
    && forall i :: 0 <= i < |out| ==> KeyOf()(out[i]) in closed && closed[KeyOf()(out[i])] == out[i].count
  }

  lemma ListedMore(out: seq<Emission>, closed: Store, e: Emission)
    requires Listed(out, closed) && KeyOf()(e) !in closed
    ensures Listed(out + [e], closed[KeyOf()(e) := e.count])
  {
    hide MakeKey;
    var ks := Map(KeyOf(), out);
    MapAppend(KeyOf(), out, [e]);
    assert Map(KeyOf(), [e]) == [KeyOf()(e)];
    assert Map(KeyOf(), out + [e]) == ks + [KeyOf()(e)];
  }

  lemma KeysListed(out: seq<Emission>, closed: Store)
    requires Listed(out, closed)
    ensures (set k | k in Map(KeyOf(), out)) == closed.Keys
  {
  }

  lemma NothingListed()
    ensures Listed([], map[])
  {
  }

  lemma ParsedRebuilds(k: bytes)
    requires ParseKey(k).WindowKey?
    ensures MakeKey(ParseKey(k).key, ParseKey(k).start) == k
  {
    KeyRebuilds(k);
  }

  /** Session counts over one partition of their store. */
  class SessionWindows {
    const gap: int
    var store: Store

    constructor (gap: int)
      ensures this.gap == gap && store == map[]
    {
      this.gap, store := gap, map[];
    }

    method OnRecord(key: bytes, t: int) returns (closed: Option<Sessions.Session>)
      modifies this`store
      ensures (store, closed) == Sessions.OnRecord(old(store), gap, key, t)
    {
      hide Sessions.EncodeSession, Sessions.DecodeSession;
      closed := None;
      if key !in store {
        store := store[key := Sessions.EncodeSession(Sessions.Session(t, t, 1))];
        return;
      }
      var cur := Sessions.DecodeSession(store[key]);
      if cur.None? {
        store := store[key := Sessions.EncodeSession(Sessions.Session(t, t, 1))];
        return;
      }
      var s := cur.value;
      if t > s.end + gap {
        store := store[key := Sessions.EncodeSession(Sessions.Session(t, t, 1))];
        return Some(s);
      }
      var newEnd := if s.end >= t then s.end else t;
      store := store[key := Sessions.EncodeSession(Sessions.Session(s.start, newEnd, (s.count + 1) % TWO64))];
    }

    /** Emits and deletes the sessions the watermark has closed, walking the store in any order. */
    method CloseOnePartition(watermark: int) returns (out: seq<(bytes, Sessions.Session)>)
      modifies this`store
      ensures var closed := Sessions.Harvest(old(store), gap, watermark);
              && store == old(store) - closed.Keys && (forall k :: k in closed <==> exists i :: 0 <= i < |out| && out[i].0 == k)
              && (forall i :: 0 <= i < |out| ==> Sessions.OpenSession(closed, out[i].0) == Some(out[i].1))
              && forall i, j :: 0 <= i < j < |out| ==> out[i].0 != out[j].0
    {
      hide Sessions.DecodeSession;
      ghost var closed := Sessions.Harvest(store, gap, watermark);
      out := [];
      var todo := store.Keys;
      while todo != {}
        invariant todo <= old(store).Keys && store == old(store) - set k | k in closed && k !in todo
        invariant forall i :: 0 <= i < |out| ==> out[i].0 in closed && out[i].0 !in todo && Sessions.OpenSession(closed, out[i].0) == Some(out[i].1)
        invariant forall k :: k in closed && k !in todo ==> exists i :: 0 <= i < |out| && out[i].0 == k
        invariant forall i, j :: 0 <= i < j < |out| ==> out[i].0 != out[j].0
      {
        var k :| k in todo;
        var s := Sessions.DecodeSession(store[k]);
        ghost var before := out;
        if s.Some? && s.value.end + gap <= watermark {
          store := store - {k};
          out := out + [(k, s.value)];
          assert out[|before|].0 == k;
        }
        todo := todo - {k};
        forall k' | k' in closed && k' !in todo ensures exists i :: 0 <= i < |out| && out[i].0 == k' {
          if k' != k {
            var i :| 0 <= i < |before| && before[i].0 == k';
            assert out[i].0 == k';
          }
        }
      }
      assert (set k | k in closed && k !in todo) == closed.Keys;
    }
  }
}
