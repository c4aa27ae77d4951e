/** Tumbling and hopping window counts over one partition's state store
    (TumblingCount and HoppingCount in streams/window.go, the count codec and the watermark in
    streams/topology.go). */
module WindowSpec {
  import opened Bytes
  import opened Seqs

  type Store = map<bytes, bytes>

  function Max(a: int, b: int): int { if a >= b then a else b }

  // ----- Codecs -----

  function EncodeCount(n: nat): bytes { BE(n, 8) }

  /** Anything but eight bytes counts as zero. */
  function DecodeCount(b: bytes): nat { if |b| != 8 then 0 else FromBE(b) }

  function MakeKey(key: bytes, start: int): bytes { BE(start, 8) + key }

  datatype WindowKey = NotAKey | WindowKey(key: bytes, start: int)

  function ParseKey(b: bytes): WindowKey { if |b| < 8 then NotAKey else WindowKey(b[8..], I64(b[..8])) }

  lemma CountRoundTrip(n: nat)
    requires n < TWO64
    ensures DecodeCount(EncodeCount(n)) == n
  {
    U64RoundTrip(n);
  }

  lemma KeyRoundTrip(key: bytes, start: int)
    requires IsI64(start)
    ensures ParseKey(MakeKey(key, start)) == WindowKey(key, start)
  {
    I64RoundTrip(start);
    hide BE, I64;
    Split(BE(start, 8), key);
  }

  /** Parsing loses nothing, so deleting by the rebuilt key deletes the key that was read. */
  lemma KeyRebuilds(b: bytes)
    requires |b| >= 8
    ensures MakeKey(ParseKey(b).key, ParseKey(b).start) == b && IsI64(ParseKey(b).start)
  {
    I64Sound(b[..8]);
    hide BE, I64;
    assert b == b[..8] + b[8..];
  }

  lemma KeyInjective(k: bytes, s: int, k': bytes, s': int)
    requires IsI64(s) && IsI64(s')
    ensures MakeKey(k, s) == MakeKey(k', s') <==> k == k' && s == s'
  {
    hide MakeKey, ParseKey;
    KeyRoundTrip(k, s);
    KeyRoundTrip(k', s');
  }

  // ----- Which windows a record belongs to -----

  /** Go's integer division, which truncates toward zero. */
  function Quotient(a: int, b: int): int
    requires b > 0
  {
    if a >= 0 then a / b else -(-a / b)
  }

  function LatestStart(t: int, advance: int): int
    requires advance > 0
  {
    Quotient(t, advance) * advance
  }

  /** The starts the hopping loop visits from `start` down. */
  function StartsFrom(start: int, t: int, size: int, advance: int): seq<int>
    requires advance > 0
    decreases if start > t - size && start >= 0 then start + 1 else 0
  {
    if start > t - size && start >= 0 then [start] + StartsFrom(start - advance, t, size, advance) else []
  }

  datatype Config = Config(size: int, advance: int) {
    ghost predicate Valid() { 0 < advance <= size }
  }

  function Starts(c: Config, t: int): seq<int>
    requires c.advance > 0
  {
    StartsFrom(LatestStart(t, c.advance), t, c.size, c.advance)
  }

  predicate Multiple(n: int, of: int)
    requires of > 0
  {
    n % of == 0
  }

  /** A non-negative multiple of the advance whose window covers the time. */
  predicate Covers(c: Config, start: int, t: int)
    requires c.advance > 0
  {
    start >= 0 && Multiple(start, c.advance) && start <= t < start + c.size
  }

  lemma MultipleIs(q: int, of: int)
    requires of > 0
    ensures Multiple(of * q, of)
  {
    var a := of * q;
    var d := a / of - q;
    assert of * d == -(a % of) by { assert a == of * (a / of) + a % of; }
    assert d == 0;
  }

  lemma MultipleStep(n: int, of: int)
    requires of > 0 && Multiple(n, of)
    ensures Multiple(n - of, of)
  {
    var q := n / of;
    assert n - of == of * (q - 1) by { assert n == of * q; }
    MultipleIs(q - 1, of);
  }

  /** Between two neighbouring multiples there is no other. */
  lemma NextMultiple(a: int, b: int, of: int)
    requires of > 0 && Multiple(a, of) && Multiple(b, of) && a < b
    ensures a <= b - of
  {
    var p, q := a / of, b / of;
    assert b - a == of * (q - p) by { assert a == of * p && b == of * q; }
    PositiveFactor(of, q - p);
  }

  lemma PositiveFactor(a: int, d: int)
    requires a > 0 && a * d > 0
    ensures a * d >= a
  {
    if d >= 1 { assert a * (d - 1) >= 0; }
  }

  /** The loop visits the multiples from `start` down to the last one whose window covers the time. */
  predicate Visited(c: Config, start: int, t: int, s: int)
    requires c.advance > 0
  {
    Multiple(s, c.advance) && 0 <= s <= start && s > t - c.size
  }

  lemma {:induction false} StartsFromIs(start: int, t: int, c: Config)
    requires c.Valid() && Multiple(start, c.advance)
    ensures Distinct(StartsFrom(start, t, c.size, c.advance))
    ensures forall s :: s in StartsFrom(start, t, c.size, c.advance) <==> Visited(c, start, t, s)
    decreases if start > t - c.size && start >= 0 then start + 1 else 0
  {
    hide Multiple, StartsFrom;
    StartsUnfold(start, t, c.size, c.advance);
    if start > t - c.size && start >= 0 {
      var rest := StartsFrom(start - c.advance, t, c.size, c.advance);
      MultipleStep(start, c.advance);
      StartsFromIs(start - c.advance, t, c);
      forall s: int ensures s in [start] + rest <==> Visited(c, start, t, s) {
        assert s in rest <==> Visited(c, start - c.advance, t, s);
        if Visited(c, start, t, s) && s < start { NextMultiple(s, start, c.advance); }
      }
      assert start !in rest by { assert !Visited(c, start - c.advance, t, start); }
      DistinctCons(start, rest);
    } else {
      forall s: int ensures !Visited(c, start, t, s) {}
    }
  }

  lemma StartsUnfold(start: int, t: int, size: int, advance: int)
    requires advance > 0
    ensures StartsFrom(start, t, size, advance) ==
            if start > t - size && start >= 0 then [start] + StartsFrom(start - advance, t, size, advance) else []
  {
  }

  lemma LatestIs(t: int, advance: int)
    requires advance > 0
    ensures Multiple(LatestStart(t, advance), advance)
    ensures t >= 0 ==> 0 <= LatestStart(t, advance) <= t < LatestStart(t, advance) + advance
    ensures t < 0 ==> LatestStart(t, advance) - advance < t <= LatestStart(t, advance) <= 0
  {
    var q := Quotient(t, advance);
    MultipleIs(q, advance);
    hide Multiple;
    assert LatestStart(t, advance) == advance * q;
    if t >= 0 {
      Division(t, advance);
    } else {
      Division(-t, advance);
      assert advance * q == -(advance * (-t / advance));
    }
  }

  lemma Division(t: nat, advance: int)
    requires advance > 0
    ensures 0 <= advance * (t / advance) <= t < advance * (t / advance) + advance
  {
    assert t == advance * (t / advance) + t % advance;
  }

  /** The hopping loop visits exactly the windows that cover the time, each once, unless the time is
      negative but less than one advance below zero: then it also visits the window that starts at
      zero, which does not cover it. */
  lemma HoppingStartsIff(c: Config, t: int)
    requires c.Valid()
    ensures Distinct(Starts(c, t))
    ensures (forall s :: s in Starts(c, t) <==> Covers(c, s, t)) <==> !(-c.advance < t < 0)
  {
    var latest := LatestStart(t, c.advance);
    LatestIs(t, c.advance);
    StartsFromIs(latest, t, c);
    MultipleIs(0, c.advance);
    hide LatestStart, StartsFrom, Multiple;
    forall s: int ensures s in Starts(c, t) <==> Visited(c, latest, t, s) {}
    if t >= 0 {
      forall s: int ensures Visited(c, latest, t, s) <==> Covers(c, s, t) {
        if Covers(c, s, t) && s > latest { NextMultiple(latest, s, c.advance); }
      }
    } else if t > -c.advance {
      if latest < 0 { NextMultiple(latest, 0, c.advance); }
      assert 0 in Starts(c, t) && !Covers(c, 0, t);
    } else {
      forall s: int ensures !Visited(c, latest, t, s) && !Covers(c, s, t) {}
    }
  }

  /** A tumbling window is a hopping window that advances by its own size: the loop visits the one
      window the tumbling count uses. */
  lemma TumblingStarts(size: int, t: int)
    requires size > 0 && t >= 0
    ensures Starts(Config(size, size), t) == [LatestStart(t, size)]
    ensures Covers(Config(size, size), LatestStart(t, size), t)
  {
    LatestIs(t, size);
    hide *;
    var start := LatestStart(t, size);
    StartsUnfold(start, t, size, size);
    StartsUnfold(start - size, t, size, size);
    TumblingIs(size, t);
  }

  lemma TumblingIs(size: int, t: int)
    requires size > 0 && t >= 0
    ensures var c, start := Config(size, size), LatestStart(t, size);
            Starts(c, t) == StartsFrom(start, t, size, size) && Covers(c, start, t)
  {
    hide LatestStart, Multiple, StartsFrom, Quotient;
    LatestIs(t, size);
  }

  /** The bucket a tumbling count picks covers the record's time exactly when the time is not
      negative or is a multiple of the size: truncation rounds other negative times up. */
  lemma TumblingBucketIff(size: int, t: int)
    requires size > 0
    ensures LatestStart(t, size) <= t < LatestStart(t, size) + size <==> t >= 0 || Multiple(t, size)
  {
    LatestIs(t, size);
    hide LatestStart, Multiple;
    var start := LatestStart(t, size);
    if t < 0 && Multiple(t, size) && t < start { NextMultiple(t, start, size); }
  }
}
