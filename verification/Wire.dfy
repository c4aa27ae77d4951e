/** The two record-carrying messages of the wire protocol, with their optional LZ4 payloads
    (proto/wire.go, proto/lz4.go). The LZ4 block routines are a parameter. */
module Wire {
  import opened Bytes
  import opened Seqs
  import opened Wrappers
  import opened Records
  import opened Codec

  /** The block compressor at a level (None when it fails or declines) and the decompressor. */
  datatype Lz4 = Lz4(block: (bytes, nat) -> Option<bytes>, unblock: (bytes, nat) -> Option<bytes>) {
    function Compress(src: bytes, level: nat): Option<bytes> {
      if src == [] then Some([]) else block(src, level)
    }

    function Decompress(src: bytes, size: nat): Option<bytes> {
      if size == 0 then Some([]) else
        match unblock(src, size)
        case Some(d) => if |d| == size then Some(d) else None
        case None => None
    }

    ghost predicate Inverse() {
      forall src: bytes, level: nat ::
        block(src, level).Some? ==> unblock(block(src, level).value, |src|) == Some(src)
    }

    lemma DecompressesWhatItCompressed(src: bytes, level: nat)
      requires Inverse() && Compress(src, level).Some?
      ensures Decompress(Compress(src, level).value, |src|) == Some(src)
    {
      if src != [] { assert block(src, level).Some?; }
    }
  }

  const CODEC_NONE: byte := 0
  const CODEC_LZ4: byte := 1

  datatype Decoded<+T> = Good(value: T) | Bad

  // ----- Runs of records -----

  function EncodeRecords(rs: seq<Record>): bytes { ConcatMap(EncodeBody, rs) }

  function ParseRecords(b: bytes, count: nat): Decoded<seq<Record>>
    decreases count
  {
    if count == 0 then Good([]) else
      match ParseBody(b)
      case Err(_) => Bad
      case Ok(r, rest) =>
        match ParseRecords(rest, count - 1)
        case Good(more) => Good([r] + more)
        case Bad => Bad
  }

  function EncodeFramedRecords(rs: seq<Record>): bytes { ConcatMap(Frame, rs) }

  function ParseFramedRecords(b: bytes, count: nat): Decoded<seq<Record>>
    decreases count
  {
    if count == 0 then Good([]) else
      match DecodeFramed(b)
      case FramedErr => Bad
      case FramedPanic => Bad
      case FramedOk(r, total) =>
        match ParseFramedRecords(b[total..], count - 1)
        case Good(more) => Good([r] + more)
        case Bad => Bad
  }

  ghost predicate AllFit(rs: seq<Record>) { forall i :: 0 <= i < |rs| ==> Fits(rs[i]) }

  lemma NormAllSplits(rs: seq<Record>)
    requires rs != []
    ensures NormAll(rs) == [Norm(rs[0])] + NormAll(rs[1..])
  {}

  lemma {:induction false} RecordsParse(rs: seq<Record>)
    requires AllFit(rs) && |EncodeRecords(rs)| < TWO32
    ensures ParseRecords(EncodeRecords(rs), |rs|) == Good(NormAll(rs))
  {
    if rs != [] {
      BodyParses(rs[0], EncodeRecords(rs[1..]));
      RecordsParse(rs[1..]);
      NormAllSplits(rs);
    }
  }

  lemma {:induction false} FramedRecordsParse(rs: seq<Record>)
    requires AllFit(rs) && |EncodeFramedRecords(rs)| < TWO32
    ensures ParseFramedRecords(EncodeFramedRecords(rs), |rs|) == Good(NormAll(rs))
  {
    hide Frame, DecodeFramed, ReadFrame;
    if rs != [] {
      var rest := EncodeFramedRecords(rs[1..]);
      FrameReads(rs[0], rest);
      DiskAndWireReadersAgree(Frame(rs[0]) + rest);
      Split(Frame(rs[0]), rest);
      FramedRecordsParse(rs[1..]);
      NormAllSplits(rs);
    }
  }

  lemma CountBounded(rs: seq<Record>)
    ensures |rs| <= |EncodeRecords(rs)| && |rs| <= |EncodeFramedRecords(rs)|
  {
    ConcatMapLength(EncodeBody, rs);
    ConcatMapLength(Frame, rs);
  }

  // ----- ProduceBatchRequest -----

  datatype Batch = Batch(topic: bytes, partition: int, codec: byte, records: seq<Record>, level: nat)

  /** The codec that ends up on the wire: LZ4 falls back to none when compression is refused. */
  function WireCodec(z: Lz4, m: Batch): byte {
    if m.codec == CODEC_LZ4 && z.Compress(EncodeRecords(m.records), m.level).None? then CODEC_NONE else m.codec
  }

  function BatchPayload(z: Lz4, m: Batch): bytes {
    var raw := EncodeRecords(m.records);
    if WireCodec(z, m) == CODEC_LZ4 then BE(|raw|, 4) + z.Compress(raw, m.level).value else raw
  }

  function EncodeBatch(z: Lz4, m: Batch): bytes {
    Blob(m.topic) + (BE(m.partition, 4) + ([WireCodec(z, m)] + (BE(|m.records|, 4) + BatchPayload(z, m))))
  }

  /** The encoder as written: the codec byte is appended first and overwritten on fallback. */
  method BatchEncode(z: Lz4, m: Batch) returns (b: bytes)
    ensures b == EncodeBatch(z, m)
  {
    hide EncodeBody, BE;
    b := Blob(m.topic);
    b := b + BE(m.partition, 4);
    ghost var head := b;
    b := b + [m.codec];
    b := b + BE(|m.records|, 4);
    var raw: bytes := [];
    for i := 0 to |m.records|
      invariant raw == EncodeRecords(m.records[..i])
    {
      ConcatMapSnoc(EncodeBody, m.records[..i], m.records[i]);
      assert m.records[..i + 1] == m.records[..i] + [m.records[i]];
      raw := EncodeWireRecord(raw, m.records[i]);
    }
    assert m.records[..|m.records|] == m.records;
    if m.codec == CODEC_LZ4 {
      var compressed := z.Compress(raw, m.level);
      if compressed.None? {
        b := b[|b| - 5 := CODEC_NONE];
        assert b == head + [CODEC_NONE] + BE(|m.records|, 4);
        b := b + raw;
      } else {
        b := b + BE(|raw|, 4);
        b := b + compressed.value;
        Assoc(head + [m.codec] + BE(|m.records|, 4), BE(|raw|, 4), compressed.value);
      }
    } else {
      b := b + raw;
    }
    BatchPieces(Blob(m.topic), BE(m.partition, 4), [WireCodec(z, m)], BE(|m.records|, 4), BatchPayload(z, m));
  }

  lemma BatchPieces<T>(a: seq<T>, b: seq<T>, c: seq<T>, d: seq<T>, e: seq<T>)
    ensures a + b + c + d + e == a + (b + (c + (d + e)))
  {
    Assoc(a + b + c, d, e);
    Assoc(a + b, c, d + e);
    Assoc(a, b, c + (d + e));
  }

  function BatchRecordBytes(z: Lz4, codec: byte, b: bytes): Decoded<bytes> {
    if codec == CODEC_LZ4 then
      if |b| < 4 then Bad else
        match z.Decompress(b[4..], FromBE(b[..4]))
        case Some(d) => Good(d)
        case None => Bad
    else if codec == CODEC_NONE then Good(b)
    else Bad
  }

  /** Go's `int32(binary.BigEndian.Uint32(b))`. */
  function I32(b: bytes): int
    requires |b| == 4
  {
    var u := FromBE(b);
    if u >= TWO32 / 2 then u - TWO32 else u
  }

  lemma I32RoundTrip(n: int)
    requires -TWO32 / 2 <= n < TWO32 / 2
    ensures I32(BE(n, 4)) == n
  {
    Pow256Words();
    if n < 0 {
      BEWraps(n, 4);
      BERoundTrip(n + TWO32, 4);
    } else {
      BERoundTrip(n, 4);
    }
  }

  lemma I32Sound(b: bytes)
    requires |b| == 4
    ensures -TWO32 / 2 <= I32(b) < TWO32 / 2 && BE(I32(b), 4) == b
  {
    Pow256Words();
    FromBERoundTrip(b);
    BEWraps(FromBE(b) - TWO32, 4);
  }

  function DecodeBatch(z: Lz4, b: bytes): Decoded<Batch> {
    match ParseBlob(b)
    case Err(_) => Bad
    case Ok(topic, b1) =>
      if |b1| < 9 then Bad else
        var codec := b1[4];
        match BatchRecordBytes(z, codec, b1[9..])
        case Bad => Bad
        case Good(raw) =>
          match ParseRecords(raw, FromBE(b1[5..9]))
          case Bad => Bad
          case Good(rs) => Good(Batch(topic, I32(b1[..4]), codec, rs, 0))
  }

  lemma BatchFields(z: Lz4, m: Batch)
    ensures var b1 := BE(m.partition, 4) + ([WireCodec(z, m)] + (BE(|m.records|, 4) + BatchPayload(z, m)));
            b1[..4] == BE(m.partition, 4) && b1[4] == WireCodec(z, m) &&
            b1[5..9] == BE(|m.records|, 4) && b1[9..] == BatchPayload(z, m)
  {
    var n, pay := BE(|m.records|, 4), BatchPayload(z, m);
    var b2 := [WireCodec(z, m)] + (n + pay);
    Split(BE(m.partition, 4), b2);
    Split3([WireCodec(z, m)], n, pay);
    var b1 := BE(m.partition, 4) + b2;
    assert b1[5..9] == b1[4..][1..5] && b1[9..] == b1[4..][5..];
  }

  /** Round trip through either codec and through the incompressible fallback. The compression
      level is a producer-side hint and does not travel; a codec byte the protocol does not
      define is written as given and then refused by the decoder. */
  lemma BatchRoundTrip(z: Lz4, m: Batch)
    requires z.Inverse() && AllFit(m.records)
    requires -TWO32 / 2 <= m.partition < TWO32 / 2
    requires |EncodeBatch(z, m)| < TWO32 && |EncodeRecords(m.records)| < TWO32
    ensures DecodeBatch(z, EncodeBatch(z, m)) ==
            if m.codec == CODEC_NONE || m.codec == CODEC_LZ4
            then Good(Batch(m.topic, m.partition, WireCodec(z, m), NormAll(m.records), 0))
            else Bad
  {
    hide EncodeBody, BE, FromBE, ParseBlob, ParseRecords, I32;
    var raw := EncodeRecords(m.records);
    var b1 := BE(m.partition, 4) + ([WireCodec(z, m)] + (BE(|m.records|, 4) + BatchPayload(z, m)));
    BlobParses(m.topic, b1);
    BatchFields(z, m);
    I32RoundTrip(m.partition);
    CountBounded(m.records);
    U32RoundTrip(|m.records|);
    RecordsParse(m.records);
    if WireCodec(z, m) == CODEC_LZ4 {
      var c := z.Compress(raw, m.level).value;
      Split(BE(|raw|, 4), c);
      U32RoundTrip(|raw|);
      z.DecompressesWhatItCompressed(raw, m.level);
    }
  }

  // ----- FetchResponse -----

  datatype Fetch = Fetch(records: seq<Record>, codec: byte)

  function FetchPayload(rs: seq<Record>): bytes { BE(|rs|, 4) + EncodeFramedRecords(rs) }

  method FetchPayloadEncode(rs: seq<Record>) returns (b: bytes)
    ensures b == FetchPayload(rs)
  {
    hide Frame, BE;
    b := BE(|rs|, 4);
    for i := 0 to |rs|
      invariant b == BE(|rs|, 4) + EncodeFramedRecords(rs[..i])
    {
      ConcatMapSnoc(Frame, rs[..i], rs[i]);
      assert rs[..i + 1] == rs[..i] + [rs[i]];
      Assoc(BE(|rs|, 4), EncodeFramedRecords(rs[..i]), Frame(rs[i]));
      b := EncodeFramedRecord(b, rs[i]);
    }
    assert rs[..|rs|] == rs;
  }

  function EncodeFetch(z: Lz4, m: Fetch): bytes {
    var payload := FetchPayload(m.records);
    if m.codec != CODEC_LZ4 then [CODEC_NONE] + payload else
      match z.Compress(payload, 0)
      case None => [CODEC_NONE] + payload
      case Some(c) => [CODEC_LZ4] + (BE(|payload|, 4) + c)
  }

  function DecodeFetchPayload(b: bytes, codec: byte): Decoded<Fetch> {
    if |b| < 4 then Bad else
      match ParseFramedRecords(b[4..], FromBE(b[..4]))
      case Bad => Bad
      case Good(rs) => Good(Fetch(rs, codec))
  }

  function DecodeFetch(z: Lz4, b: bytes): Decoded<Fetch> {
    if |b| < 1 then Bad
    else if b[0] == CODEC_LZ4 then
      if |b| < 5 then Bad else
        match z.Decompress(b[5..], FromBE(b[1..5]))
        case None => Bad
        case Some(d) => DecodeFetchPayload(d, CODEC_LZ4)
    else DecodeFetchPayload(b[1..], b[0])
  }

  lemma FetchPayloadParses(rs: seq<Record>, codec: byte)
    requires AllFit(rs) && |FetchPayload(rs)| < TWO32
    ensures DecodeFetchPayload(FetchPayload(rs), codec) == Good(Fetch(NormAll(rs), codec))
  {
    Split(BE(|rs|, 4), EncodeFramedRecords(rs));
    CountBounded(rs);
    U32RoundTrip(|rs|);
    FramedRecordsParse(rs);
  }

  /** Round trip of a fetch response; any codec but LZ4, and an LZ4 refusal, travel uncompressed. */
  lemma FetchRoundTrip(z: Lz4, m: Fetch)
    requires z.Inverse() && AllFit(m.records) && |FetchPayload(m.records)| < TWO32
    ensures DecodeFetch(z, EncodeFetch(z, m)) ==
            Good(Fetch(NormAll(m.records),
                       if m.codec == CODEC_LZ4 && z.Compress(FetchPayload(m.records), 0).Some? then CODEC_LZ4 else CODEC_NONE))
  {
    hide BE, FromBE, DecodeFetchPayload;
    var payload := FetchPayload(m.records);
    CountBounded(m.records);
    FetchPayloadParses(m.records, CODEC_NONE);
    FetchPayloadParses(m.records, CODEC_LZ4);
    Split([CODEC_NONE], payload);
    if m.codec == CODEC_LZ4 && z.Compress(payload, 0).Some? {
      var c := z.Compress(payload, 0).value;
      Split3([CODEC_LZ4], BE(|payload|, 4), c);
      U32RoundTrip(|payload|);
      z.DecompressesWhatItCompressed(payload, 0);
    }
  }
}
