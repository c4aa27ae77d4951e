/** Idempotent produce: the per-producer checkpoint table, its persistence on a log topic and its
    rebuilding at startup (Publish and the dedup members of broker/internal/broker/broker.go,
    hydrateDedupFromTopic in broker/embed/bootstrap.go). */
module Dedup {
  import opened Bytes
  import opened Seqs
  import opened Wrappers
  import opened Records
  import opened LogSpec
  import opened SegmentSpec
  import opened PartitionSpec
  import opened PartitionRuns
  import opened Replay
  import Wire

  /** A partition's address, topic names as bytes. */
  datatype Partition = Partition(topic: bytes, index: int)

  /** One row of the table: a producer on a partition. */
  datatype Slot = Slot(producer: bytes, p: Partition)

  datatype Checkpoint = Checkpoint(lastSeq: nat, lastOffset: int, lastSeen: int)

  // ----- The reserved headers -----

  function Ascii(s: string): (b: bytes)
    ensures |b| == |s|
  {
    seq(|s|, i requires 0 <= i < |s| => s[i] as int % 256)
  }

  const PRODUCER_ID := Ascii("holocron.producer.id")
  const PRODUCER_SEQ := Ascii("holocron.producer.seq")

  /** The last value carried under a header key. */
  function HeaderValue(hs: seq<Header>, key: bytes): Option<bytes> {
    if hs == [] then None
    else if hs[|hs| - 1].key == key then Some(hs[|hs| - 1].value)
    else HeaderValue(hs[..|hs| - 1], key)
  }

  datatype Idemp = Idemp(producer: bytes, seqNo: nat)

  /** Both headers present, the id not empty, the sequence exactly eight bytes. */
  function IdempKey(r: Record): Option<Idemp> {
    var id, sq := HeaderValue(r.headers, PRODUCER_ID), HeaderValue(r.headers, PRODUCER_SEQ);
    if id.None? || sq.None? || |sq.value| != 8 || id.value == [] then None
    else Some(Idemp(id.value, FromBE(sq.value)))
  }

  /** producerIdempKey: one pass over the headers, later ones overwriting earlier ones, then the
      sequence accumulated byte by byte. */
  method ProducerIdempKey(r: Record) returns (res: Option<Idemp>)
    ensures res == IdempKey(r)
  {
    var id: Option<bytes>, sq: Option<bytes> := None, None;
    assert r.headers[..0] == [];
    for i := 0 to |r.headers|
      invariant id == HeaderValue(r.headers[..i], PRODUCER_ID)
      invariant sq == HeaderValue(r.headers[..i], PRODUCER_SEQ)
    {
      var h := r.headers[i];
      assert r.headers[..i + 1][..i] == r.headers[..i];
      if h.key == PRODUCER_ID {
        assert |PRODUCER_ID| == 20 && |PRODUCER_SEQ| == 21;
        id := Some(h.value);
      } else if h.key == PRODUCER_SEQ {
        sq := Some(h.value);
      }
    }
    assert r.headers[..|r.headers|] == r.headers;
    if id.None? || sq.None? || |sq.value| != 8 || id.value == [] { return None; }
    var n: nat := 0;
    assert sq.value[..0] == [];
    for i := 0 to 8
      invariant n == FromBE(sq.value[..i])
    {
      assert sq.value[..i + 1][..i] == sq.value[..i];
      n := n * 256 + sq.value[i];
    }
    assert sq.value[..8] == sq.value;
    res := Some(Idemp(id.value, n));
  }

  // ----- Codec of the persistent topic -----

  predicate SlotFits(s: Slot) {
    |s.producer| < TWO32 && |s.p.topic| < TWO32 && -TWO32 / 2 <= s.p.index < TWO32 / 2
  }

  predicate CheckpointFits(c: Checkpoint) { c.lastSeq < TWO64 && IsI64(c.lastOffset) && IsI64(c.lastSeen) }

  function EncodeKey(s: Slot): bytes { Blob(s.producer) + (Blob(s.p.topic) + BE(s.p.index, 4)) }

  function DecodeKey(b: bytes): Option<Slot> {
    if |b| < 4 then None else
      var n, b1 := FromBE(b[..4]), b[4..];
      if |b1| < n + 4 then None else
        var b2 := b1[n..];
        var m, b3 := FromBE(b2[..4]), b2[4..];
        if |b3| < m + 4 then None else
          Some(Slot(b1[..n], Partition(b3[..m], Wire.I32(b3[m..m + 4]))))
  }

  function EncodeValue(c: Checkpoint): bytes { BE(c.lastSeq, 8) + (BE(c.lastOffset, 8) + BE(c.lastSeen, 8)) }

  function DecodeValue(v: Value): Option<Checkpoint> {
    var b := v.Contents();
    if |b| != 24 then None else Some(Checkpoint(FromBE(b[..8]), I64(b[8..16]), I64(b[16..24])))
  }

  /** The decoder accepts exactly the encodings, with any bytes after them ignored. */
  lemma KeyDecodesIff(b: bytes, s: Slot)
    ensures DecodeKey(b) == Some(s) <==> SlotFits(s) && EncodeKey(s) <= b
  {
    if SlotFits(s) && EncodeKey(s) <= b {
      KeyReads(s, b[|EncodeKey(s)|..]);
      assert b == EncodeKey(s) + b[|EncodeKey(s)|..];
    }
    if DecodeKey(b) == Some(s) { KeySound(b, s); }
  }

  lemma KeyReads(s: Slot, rest: bytes)
    requires SlotFits(s)
    ensures DecodeKey(EncodeKey(s) + rest) == Some(s)
  {
    U32RoundTrip(|s.producer|);
    U32RoundTrip(|s.p.topic|);
    Wire.I32RoundTrip(s.p.index);
    hide BE, FromBE, Wire.I32;
    KeySlices(BE(|s.producer|, 4), s.producer, BE(|s.p.topic|, 4), s.p.topic, BE(s.p.index, 4), rest);
  }

  lemma KeySlices(n: bytes, id: bytes, m: bytes, topic: bytes, index: bytes, rest: bytes)
    requires |n| == |m| == |index| == 4
    ensures var b := ((n + id) + ((m + topic) + index)) + rest;
            && b[..4] == n && b[4..][..|id|] == id
            && b[4..][|id|..][..4] == m && b[4..][|id|..][4..][..|topic|] == topic
            && b[4..][|id|..][4..][|topic|..|topic| + 4] == index
            && |b[4..]| >= |id| + 8 + |topic| && |b[4..][|id|..][4..]| >= |topic| + 4
  {
    var tail := m + (topic + (index + rest));
    var b := ((n + id) + ((m + topic) + index)) + rest;
    assert b == n + (id + tail);
    Split(n, id + tail);
    Split(id, tail);
    Split(m, topic + (index + rest));
    Split(topic, index + rest);
    Split(index, rest);
    assert (topic + (index + rest))[|topic|..|topic| + 4] == index;
  }

  lemma KeySound(b: bytes, s: Slot)
    requires DecodeKey(b) == Some(s)
    ensures SlotFits(s) && EncodeKey(s) <= b
  {
    var n, b1 := FromBE(b[..4]), b[4..];
    var b2 := b1[n..];
    var m, b3 := FromBE(b2[..4]), b2[4..];
    U32Sound(b[..4]);
    U32Sound(b2[..4]);
    Wire.I32Sound(b3[m..m + 4]);
    hide BE, FromBE, Wire.I32;
    KeyPieces(b, n, m);
  }

  lemma KeyPieces(b: bytes, n: nat, m: nat)
    requires |b| >= n + m + 12
    ensures var b3 := b[4..][n..][4..];
            (b[..4] + b[4..][..n]) + ((b[4..][n..][..4] + b3[..m]) + b3[m..m + 4]) <= b
  {
    DropSlice(b, 4, n);
    DropSlice(b, 4 + n, 4);
    DropSlice(b, 8 + n, m);
    DropSlice(b, 8 + n + m, 4);
    var b3 := b[8 + n..];
    assert b3[m..m + 4] == b[8 + n + m..12 + n + m];
    Assoc(b[..4 + n], b[4 + n..8 + n] + b[8 + n..8 + n + m], b[8 + n + m..12 + n + m]);
    Assoc(b[..4 + n], b[4 + n..8 + n], b[8 + n..8 + n + m]);
  }

  lemma KeyRoundTrip(s: Slot)
    requires SlotFits(s)
    ensures DecodeKey(EncodeKey(s)) == Some(s)
  {
    KeyReads(s, []);
    assert EncodeKey(s) + [] == EncodeKey(s);
  }

  lemma ValueRoundTrip(c: Checkpoint)
    requires CheckpointFits(c)
    ensures DecodeValue(Data(EncodeValue(c))) == Some(c)
  {
    U64RoundTrip(c.lastSeq);
    I64RoundTrip(c.lastOffset);
    I64RoundTrip(c.lastSeen);
    hide BE, FromBE, I64;
    Words3(BE(c.lastSeq, 8), BE(c.lastOffset, 8), BE(c.lastSeen, 8));
  }

  lemma KeyInjective(s: Slot, t: Slot)
    requires SlotFits(s) && SlotFits(t) && EncodeKey(s) == EncodeKey(t)
    ensures s == t
  {
    hide EncodeKey, DecodeKey;
    KeyRoundTrip(s);
    KeyRoundTrip(t);
  }
}
