/** Record codecs: the disk frame (broker/internal/log/frame.go) and the record part of the wire
    protocol (proto/wire.go). Parsers return what is left of the input, so that
    "parsing succeeds with r and rest" can be compared with "the input is Encode(r) + rest". */
module Codec {
  import opened Bytes
  import opened Records
  import opened Seqs

  /** SliceBounds is a run-time panic, not an error value. */
  datatype DecodeError = ShortBody | Truncated | ShortHeaderCount | SliceBounds

  datatype Parse<+T> = Ok(value: T, rest: bytes) | Err(error: DecodeError)

  /** readBytes on disk and decodeBytes/decodeString on the wire: the available length is
      truncated to 32 bits before it is compared, and the end of the slice is a 32-bit sum that
      wraps below its start for the four largest lengths. */
  function ParseBlob(b: bytes): Parse<bytes> {
    if |b| < 4 then Err(Truncated) else
      var n := FromBE(b[..4]);
      if (|b| - 4) % TWO32 < n then Err(Truncated)
      else if n >= TWO32 - 4 then Err(SliceBounds)
      else Ok(b[4..4 + n], b[4 + n..])
  }

  function ParseHeader(b: bytes): Parse<Header> {
    match ParseBlob(b)
    case Err(e) => Err(e)
    case Ok(k, rest) =>
      match ParseBlob(rest)
      case Err(e) => Err(e)
      case Ok(v, rest') => Ok(Header(k, v), rest')
  }

  function ParseHeaders(b: bytes, count: nat): Parse<seq<Header>> {
    if count == 0 then Ok([], b) else
      match ParseHeader(b)
      case Err(e) => Err(e)
      case Ok(h, rest) => Prepend([h], ParseHeaders(rest, count - 1))
  }

  function Prepend(hs: seq<Header>, p: Parse<seq<Header>>): Parse<seq<Header>> {
    match p
    case Err(e) => Err(e)
    case Ok(more, rest) => Ok(hs + more, rest)
  }

  function ParseCountedHeaders(b: bytes): Parse<seq<Header>> {
    if |b| < 4 then Err(ShortHeaderCount) else ParseHeaders(b[4..], FromBE(b[..4]))
  }

  function MakeValue(b: bytes): Value { if b == [] then Nil else Data(b) }

  function ParseBody(b: bytes): Parse<Record> {
    if |b| < 16 then Err(ShortBody) else
      match ParseBlob(b[16..])
      case Err(e) => Err(e)
      case Ok(key, b1) =>
        match ParseBlob(b1)
        case Err(e) => Err(e)
        case Ok(value, b2) =>
          match ParseCountedHeaders(b2)
          case Err(e) => Err(e)
          case Ok(headers, b3) =>
            Ok(Record(I64(b[..8]), I64(b[8..16]), key, MakeValue(value), headers), b3)
  }

  // ----- Parsing inverts encoding, and accepts nothing else -----

  /** A length-prefixed blob followed by `rest` reads back exactly when neither the truncated
      length comparison nor the end of the slice wraps; every buffer below 4 GiB is safe. */
  lemma BlobParsesIff(x: bytes, rest: bytes)
    requires |x| < TWO32
    ensures ParseBlob(Blob(x) + rest) == Ok(x, rest) <==> ((|x| + |rest|) % TWO32 >= |x| && |x| < TWO32 - 4)
    ensures ParseBlob(Blob(x) + rest) == Err(SliceBounds) <==> ((|x| + |rest|) % TWO32 >= |x| && |x| >= TWO32 - 4)
  {
    var b := Blob(x) + rest;
    U32RoundTrip(|x|);
    assert b[..4] == BE(|x|, 4);
    assert b[4..] == x + rest;
    if (|x| + |rest|) % TWO32 >= |x| && |x| < TWO32 - 4 {
      assert b[4..4 + |x|] == x;
      assert b[4 + |x|..] == rest;
    }
  }

  /** A field of 4 GiB less four bytes: all of it is there, and slicing it out panics. */
  lemma LargestBlobsPanic()
    ensures ParseBlob(Blob(seq(TWO32 - 4, _ => 0))) == Err(SliceBounds)
  {
    var x: bytes := seq(TWO32 - 4, _ => 0);
    assert Blob(x) + [] == Blob(x);
    hide ParseBlob, Blob;
    BlobParsesIff(x, []);
  }

  lemma BlobParses(x: bytes, rest: bytes)
    requires |Blob(x)| + |rest| < TWO32
    ensures ParseBlob(Blob(x) + rest) == Ok(x, rest)
  {
    BlobParsesIff(x, rest);
  }

  lemma BlobSound(b: bytes)
    requires ParseBlob(b).Ok?
    ensures b == Blob(ParseBlob(b).value) + ParseBlob(b).rest
  {
    hide BE, FromBE;
    U32Sound(b[..4]);
    assert b == b[..4] + b[4..];
  }

  lemma HeaderParses(h: Header, rest: bytes)
    requires |EncodeHeader(h)| + |rest| < TWO32
    ensures ParseHeader(EncodeHeader(h) + rest) == Ok(h, rest)
  {
    Assoc(Blob(h.key), Blob(h.value), rest);
    BlobParses(h.key, Blob(h.value) + rest);
    BlobParses(h.value, rest);
  }

  lemma HeaderSound(b: bytes)
    requires ParseHeader(b).Ok?
    ensures b == EncodeHeader(ParseHeader(b).value) + ParseHeader(b).rest
  {
    var k := ParseBlob(b);
    var v := ParseBlob(k.rest);
    BlobSound(b);
    BlobSound(k.rest);
    Assoc(Blob(k.value), Blob(v.value), v.rest);
  }

  lemma {:induction false} HeadersParse(hs: seq<Header>, rest: bytes)
    requires |EncodeHeaders(hs)| + |rest| < TWO32
    ensures ParseHeaders(EncodeHeaders(hs) + rest, |hs|) == Ok(hs, rest)
  {
    hide ParseHeader, EncodeHeader;
    if hs == [] {
      assert EncodeHeaders(hs) + rest == rest;
    } else {
      var tail := EncodeHeaders(hs[1..]);
      Assoc(EncodeHeader(hs[0]), tail, rest);
      HeaderParses(hs[0], tail + rest);
      HeadersParse(hs[1..], rest);
      assert hs == [hs[0]] + hs[1..];
    }
  }

  lemma {:induction false} HeadersSound(b: bytes, count: nat)
    requires ParseHeaders(b, count).Ok?
    ensures |ParseHeaders(b, count).value| == count
    ensures b == EncodeHeaders(ParseHeaders(b, count).value) + ParseHeaders(b, count).rest
    decreases count
  {
    hide ParseHeader, EncodeHeader;
    if count > 0 {
      var h := ParseHeader(b);
      var more := ParseHeaders(h.rest, count - 1);
      HeaderSound(b);
      HeadersSound(h.rest, count - 1);
      assert ([h.value] + more.value)[1..] == more.value;
      Assoc(EncodeHeader(h.value), EncodeHeaders(more.value), more.rest);
    } else {
      assert b == [] + b;
    }
  }

  /** Round trip: an encoded record followed by any bytes decodes to the record, an empty value
      reading back as nil, and leaves exactly those bytes. */
  lemma BodyParses(r: Record, rest: bytes)
    requires Fits(r) && |EncodeBody(r)| + |rest| < TWO32
    ensures ParseBody(EncodeBody(r) + rest) == Ok(Norm(r), rest)
  {
    hide BE, FromBE, EncodeHeaders, ParseBlob, ParseHeaders;
    var b := EncodeBody(r) + rest;
    var hs := EncodeHeaders(r.headers);
    var b3 := hs + rest;
    var b2 := BE(|r.headers|, 4) + b3;
    var b1 := Blob(r.value.Contents()) + b2;
    var b0 := Blob(r.key) + b1;
    assert b == BE(r.offset, 8) + (BE(r.timestamp, 8) + b0);
    assert b[..8] == BE(r.offset, 8);
    assert b[8..16] == BE(r.timestamp, 8);
    assert b[16..] == b0;
    I64RoundTrip(r.offset);
    I64RoundTrip(r.timestamp);
    BlobParses(r.key, b1);
    BlobParses(r.value.Contents(), b2);
    HeaderCountBound(r.headers);
    U32RoundTrip(|r.headers|);
    assert b2[..4] == BE(|r.headers|, 4) && b2[4..] == b3;
    HeadersParse(r.headers, rest);
  }

  lemma CountedHeadersSound(b: bytes)
    requires ParseCountedHeaders(b).Ok?
    ensures var p := ParseCountedHeaders(b); b == BE(|p.value|, 4) + (EncodeHeaders(p.value) + p.rest)
  {
    U32Sound(b[..4]);
    HeadersSound(b[4..], FromBE(b[..4]));
    assert b == b[..4] + b[4..];
  }

  lemma FixedFieldsSound(b: bytes)
    requires |b| >= 16
    ensures b == BE(I64(b[..8]), 8) + (BE(I64(b[8..16]), 8) + b[16..])
    ensures IsI64(I64(b[..8])) && IsI64(I64(b[8..16]))
  {
    hide BE, I64;
    I64Sound(b[..8]);
    I64Sound(b[8..16]);
    assert b == b[..8] + (b[8..16] + b[16..]);
  }

  /** Nothing but an encoding is accepted: a successful decode determines the consumed bytes. */
  lemma BodySound(b: bytes)
    requires ParseBody(b).Ok?
    ensures b == EncodeBody(ParseBody(b).value) + ParseBody(b).rest
    ensures var r := ParseBody(b).value; Normal(r) && IsI64(r.offset) && IsI64(r.timestamp)
  {
    hide BE, I64, ParseBlob, EncodeHeaders;
    var r := ParseBody(b).value;
    var key := ParseBlob(b[16..]);
    var value := ParseBlob(key.rest);
    FixedFieldsSound(b);
    BlobSound(b[16..]);
    BlobSound(key.rest);
    CountedHeadersSound(value.rest);
    assert r.value.Contents() == value.value;
    Regroup6(BE(r.offset, 8), BE(r.timestamp, 8), Blob(r.key), Blob(r.value.Contents()),
             BE(|r.headers|, 4), EncodeHeaders(r.headers), ParseBody(b).rest);
  }

  /** Below 4 GiB, which is all a frame can hold, no decoder panics. */
  lemma BodyNeverPanics(b: bytes)
    requires |b| < TWO32
    ensures ParseBody(b) != Err(SliceBounds)
  {
    if |b| >= 16 {
      BlobNeverPanics(b[16..]);
      var key := ParseBlob(b[16..]);
      if key.Ok? {
        BlobNeverPanics(key.rest);
        var value := ParseBlob(key.rest);
        if value.Ok? && |value.rest| >= 4 {
          HeadersNeverPanic(value.rest[4..], FromBE(value.rest[..4]));
        }
      }
    }
  }

  lemma BlobNeverPanics(b: bytes)
    requires |b| < TWO32
    ensures ParseBlob(b) != Err(SliceBounds)
    ensures ParseBlob(b).Ok? ==> |ParseBlob(b).rest| <= |b|
  {}

  lemma {:induction false} HeadersNeverPanic(b: bytes, count: nat)
    requires |b| < TWO32
    ensures ParseHeaders(b, count) != Err(SliceBounds)
    decreases count
  {
    if count > 0 {
      BlobNeverPanics(b);
      if ParseBlob(b).Ok? { BlobNeverPanics(ParseBlob(b).rest); }
      if ParseHeader(b).Ok? { HeadersNeverPanic(ParseHeader(b).rest, count - 1); }
    }
  }

  /** Decoding is characterised by encoding, in both directions. */
  lemma BodyParsesIff(b: bytes, r: Record, rest: bytes)
    requires |b| < TWO32
    ensures ParseBody(b) == Ok(r, rest) <==>
            (b == EncodeBody(r) + rest && Normal(r) && IsI64(r.offset) && IsI64(r.timestamp))
  {
    if ParseBody(b) == Ok(r, rest) {
      BodySound(b);
    } else if b == EncodeBody(r) + rest && Normal(r) && IsI64(r.offset) && IsI64(r.timestamp) {
      BodyParses(r, rest);
    }
  }

  // ----- The disk frame -----

  /** Body length, body, checksum. */
  function Frame(r: Record): (f: bytes)
    ensures |f| == |EncodeBody(r)| + 8 && |f| >= 36
  {
    var body := EncodeBody(r);
    BE(|body|, 4) + (body + BE(Crc32c(body), 4))
  }

  datatype ReadResult = Got(rec: Record, size: nat) | EOF | UnexpectedEOF | Torn | Malformed

  /** readRecordFrom on a reader holding `b`. A field that overruns its body wraps
      io.ErrUnexpectedEOF and is indistinguishable from a short file to errors.Is. */
  function ReadFrame(b: bytes): (res: ReadResult)
    ensures res.Got? ==> 8 <= res.size <= |b|
  {
    if |b| == 0 then EOF
    else if |b| < 4 then UnexpectedEOF
    else
      var n := FromBE(b[..4]);
      if |b| < 8 + n then UnexpectedEOF else
        var body := b[4..4 + n];
        if FromBE(b[4 + n..8 + n]) != Crc32c(body) then Torn else
          match ParseBody(body)
          case Ok(rec, _) => Got(rec, 8 + n)
          case Err(Truncated) => UnexpectedEOF
          case Err(_) => Malformed
  }

  lemma FrameParts(r: Record, rest: bytes)
    ensures var body, b := EncodeBody(r), Frame(r) + rest; var n := |body|;
            b[..4] == BE(n, 4) && b[4..4 + n] == body && b[4 + n..8 + n] == BE(Crc32c(body), 4)
  {
    var body := EncodeBody(r);
    var len, crc := BE(|body|, 4), BE(Crc32c(body), 4);
    Assoc(len, body + crc, rest);
    Assoc(body, crc, rest);
    Split3(len, body, crc + rest);
    Split(crc, rest);
    var b := len + (body + (crc + rest));
    assert b[4 + |body|..8 + |body|] == b[4 + |body|..][..4];
  }

  lemma FrameReads(r: Record, rest: bytes)
    requires Fits(r)
    ensures ReadFrame(Frame(r) + rest) == Got(Norm(r), |Frame(r)|)
  {
    hide BE, FromBE, Crc32c, EncodeBody, ParseBody;
    var body := EncodeBody(r);
    FrameParts(r, rest);
    U32RoundTrip(|body|);
    U32RoundTrip(Crc32c(body));
    assert body + [] == body;
    BodyParses(r, []);
  }

  /** A frame cut anywhere short of its end is reported as an unexpected end of file, whatever
      the checksum function: no torn frame is ever mistaken for a record. */
  lemma CutFrameIsTorn(r: Record, k: nat)
    requires Fits(r) && 0 < k < |Frame(r)|
    ensures ReadFrame(Frame(r)[..k]) == UnexpectedEOF
  {
    if k >= 4 {
      var n := |EncodeBody(r)|;
      assert Frame(r)[..k][..4] == BE(n, 4);
      U32RoundTrip(n);
    }
  }

  // ----- The disk codec as written -----

  /** A field as the decoders return it: its bytes and the width it took, or the failure. */
  datatype Field = Field(value: bytes, n: nat) | NoField(error: DecodeError)

  /** `f` says of the bytes from `p` on what ParseBlob says. */
  ghost predicate IsField(b: bytes, p: nat, f: Field)
    requires p <= |b|
  {
    match ParseBlob(b[p..])
    case Err(e) => f == NoField(e)
    case Ok(v, rest) => f == Field(v, 4 + |v|) && p + f.n <= |b| && rest == b[p + f.n..]
  }

  /** readBytes and decodeBytes: an empty field returns before anything is sliced. */
  method ReadBytes(b: bytes) returns (f: Field)
    ensures IsField(b, 0, f)
  {
    assert b[0..] == b;
    if |b| < 4 { return NoField(Truncated); }
    var n := FromBE(b[..4]);
    if (|b| - 4) % TWO32 < n { return NoField(Truncated); }
    if n == 0 { return Field([], 4); }
    var end := (4 + n) % TWO32;
    EndOfSlice(b);
    if end < 4 { return NoField(SliceBounds); }
    f := Field(b[4..end], 4 + n);
  }

  /** decodeString: the same field sliced in every case. */
  method DecodeString(b: bytes) returns (f: Field)
    ensures IsField(b, 0, f)
  {
    assert b[0..] == b;
    if |b| < 4 { return NoField(Truncated); }
    var n := FromBE(b[..4]);
    if (|b| - 4) % TWO32 < n { return NoField(Truncated); }
    var end := (4 + n) % TWO32;
    EndOfSlice(b);
    if end < 4 { return NoField(SliceBounds); }
    f := Field(b[4..end], 4 + n);
  }

  lemma EndOfSlice(b: bytes)
    requires |b| >= 4 && (|b| - 4) % TWO32 >= FromBE(b[..4])
    ensures var n := FromBE(b[..4]);
            && (4 + n) % TWO32 == (if n < TWO32 - 4 then 4 + n else 4 + n - TWO32)
            && 4 + n <= |b|
  {
    Pow256Words();
  }

  lemma FieldAt(b: bytes, p: nat, f: Field)
    requires p <= |b| && IsField(b[p..], 0, f)
    ensures IsField(b, p, f) && (f.Field? ==> p + f.n <= |b|)
  {
    assert b[p..][0..] == b[p..];
    if f.Field? { assert b[p..][f.n..] == b[p + f.n..]; }
  }

  method AppendBytes(buf: bytes, b: bytes) returns (out: bytes)
    ensures out == buf + Blob(b)
  {
    out := buf + BE(|b|, 4);
    out := out + b;
    Assoc(buf, BE(|b|, 4), b);
  }

  lemma SealFrame(buf: bytes, r: Record)
    ensures var body := EncodeBody(r);
            buf + (BE(|body|, 4) + body) + BE(Crc32c(body), 4) == buf + Frame(r)
  {
    var body := EncodeBody(r);
    Assoc(buf, BE(|body|, 4) + body, BE(Crc32c(body), 4));
    Assoc(BE(|body|, 4), body, BE(Crc32c(body), 4));
  }

  /** encodeRecord: grows the buffer with a zero length word, appends field after field, patches
      the length and seals the frame with the checksum. */
  method EncodeRecord(buf: bytes, r: Record) returns (out: bytes)
    ensures out == buf + Frame(r)
  {
    hide BE, EncodeHeaders, EncodeHeader, Blob, Crc32c;
    var bodyStart := |buf| + 4;
    out := buf + [0, 0, 0, 0];
    ghost var grown := out;
    out := out + BE(r.offset, 8) + BE(r.timestamp, 8);
    out := AppendBytes(out, r.key);
    out := AppendBytes(out, r.value.Contents());
    out := out + BE(|r.headers|, 4);
    ghost var fixed := out;
    NoHeaders(fixed);
    for i := 0 to |r.headers|
      invariant out == fixed + EncodeHeaders(r.headers[..i])
    {
      HeaderAppended(fixed, r.headers, i);
      out := AppendBytes(out, r.headers[i].key);
      out := AppendBytes(out, r.headers[i].value);
    }
    assert r.headers[..|r.headers|] == r.headers;
    BodyPieces(grown, BE(r.offset, 8), BE(r.timestamp, 8), Blob(r.key), Blob(r.value.Contents()),
               BE(|r.headers|, 4), EncodeHeaders(r.headers));
    hide EncodeBody, Frame;
    Patch(buf, [0, 0, 0, 0], EncodeBody(r), BE(|EncodeBody(r)|, 4));
    var body := out[bodyStart..];
    out := out[..bodyStart - 4] + BE(|body|, 4) + body;
    out := out + BE(Crc32c(body), 4);
    SealFrame(buf, r);
  }

  lemma NoHeaders(fixed: bytes)
    ensures fixed + EncodeHeaders([]) == fixed
  {}

  /** One turn of either encoder's header loop. */
  lemma HeaderAppended(fixed: bytes, hs: seq<Header>, i: nat)
    requires i < |hs|
    ensures fixed + EncodeHeaders(hs[..i]) + Blob(hs[i].key) + Blob(hs[i].value) == fixed + EncodeHeaders(hs[..i + 1])
  {
    var before := EncodeHeaders(hs[..i]);
    ConcatMapSnoc(EncodeHeader, hs[..i], hs[i]);
    assert hs[..i + 1] == hs[..i] + [hs[i]];
    Assoc(fixed + before, Blob(hs[i].key), Blob(hs[i].value));
    Assoc(fixed, before, EncodeHeader(hs[i]));
  }

  /** The header loop of decodeBody: a cursor that moves past one header at a time. */
  method DecodeHeaders(body: bytes, start: nat, count: nat) returns (res: Parse<seq<Header>>)
    requires start <= |body|
    ensures res == ParseHeaders(body[start..], count)
  {
    hide ParseBlob;
    var p := start;
    var headers: seq<Header> := [];
    ghost var all := ParseHeaders(body[start..], count);
    PrependNothing(all);
    for i := 0 to count
      invariant start <= p <= |body|
      invariant all == Prepend(headers, ParseHeaders(body[p..], count - i))
    {
      var k := ReadBytes(body[p..]);
      FieldAt(body, p, k);
      if k.NoField? { return Err(k.error); }
      var v := ReadBytes(body[p + k.n..]);
      FieldAt(body, p + k.n, v);
      if v.NoField? { return Err(v.error); }
      PrependTwice(headers, [Header(k.value, v.value)], ParseHeaders(body[p + k.n + v.n..], count - i - 1));
      p := p + k.n + v.n;
      headers := headers + [Header(k.value, v.value)];
    }
    assert headers + [] == headers;
    res := Ok(headers, body[p..]);
  }

  lemma PrependNothing(p: Parse<seq<Header>>)
    ensures Prepend([], p) == p
  {
    if p.Ok? { assert [] + p.value == p.value; }
  }

  lemma PrependTwice(a: seq<Header>, b: seq<Header>, p: Parse<seq<Header>>)
    ensures Prepend(a, Prepend(b, p)) == Prepend(a + b, p)
  {
    if p.Ok? { Assoc(a, b, p.value); }
  }

  /** The body parser in terms of the fields a cursor finds. */
  lemma BodyByFields(b: bytes, key: Field, value: Field)
    requires |b| >= 16 && IsField(b, 16, key) && (key.Field? ==> IsField(b, 16 + key.n, value))
    ensures key.NoField? ==> ParseBody(b) == Err(key.error)
    ensures key.Field? && value.NoField? ==> ParseBody(b) == Err(value.error)
    ensures key.Field? && value.Field? ==>
              var p := 16 + key.n + value.n;
              ParseBody(b) ==
              if |b| - p < 4 then Err(ShortHeaderCount) else
                match ParseHeaders(b[p + 4..], FromBE(b[p..p + 4]))
                case Err(e) => Err(e)
                case Ok(hs, rest) => Ok(Record(I64(b[..8]), I64(b[8..16]), key.value, MakeValue(value.value), hs), rest)
  {
    hide ParseBlob, ParseHeaders, I64, FromBE;
    if key.Field? && value.Field? {
      var p := 16 + key.n + value.n;
      if |b| - p >= 4 { assert b[p..][..4] == b[p..p + 4] && b[p..][4..] == b[p + 4..]; }
    }
  }

  lemma ShortBodyFails(b: bytes)
    ensures |b| < 16 ==> ParseBody(b) == Err(ShortBody)
  {}

  /** decodeBody: a cursor over the body, then the header loop. */
  method DecodeBody(body: bytes) returns (res: Parse<Record>)
    ensures res == ParseBody(body)
  {
    hide ParseBody, IsField, ParseHeaders, I64, FromBE, MakeValue;
    ShortBodyFails(body);
    if |body| < 16 { return Err(ShortBody); }
    var p := 16;
    var key := ReadBytes(body[p..]);
    FieldAt(body, p, key);
    if key.NoField? {
      BodyByFields(body, key, key);
      return Err(key.error);
    }
    p := p + key.n;
    var value := ReadBytes(body[p..]);
    FieldAt(body, p, value);
    BodyByFields(body, key, value);
    if value.NoField? { return Err(value.error); }
    p := p + value.n;
    if |body[p..]| < 4 { return Err(ShortHeaderCount); }
    var headers := DecodeHeaders(body, p + 4, FromBE(body[p..p + 4]));
    if headers.Err? { return Err(headers.error); }
    res := Ok(Record(I64(body[..8]), I64(body[8..16]), key.value, MakeValue(value.value), headers.value), headers.rest);
  }

  /** readRecordFrom: the length word, the body and the checksum are read in turn. */
  method ReadRecordFrom(b: bytes) returns (res: ReadResult)
    ensures res == ReadFrame(b)
  {
    hide ParseBody, Crc32c, FromBE;
    if |b| == 0 { return EOF; }
    if |b| < 4 { return UnexpectedEOF; }
    var n := FromBE(b[..4]);
    if |b[4..]| < n { return UnexpectedEOF; }
    var body := b[4..4 + n];
    if |b[4 + n..]| < 4 { return UnexpectedEOF; }
    if FromBE(b[4 + n..8 + n]) != Crc32c(body) { return Torn; }
    var rec := DecodeBody(body);
    res := match rec
      case Ok(r, _) => Got(r, 8 + n)
      case Err(Truncated) => UnexpectedEOF
      case Err(_) => Malformed;
  }

  // ----- Records on the wire -----

  method EncodeWireRecord(buf: bytes, r: Record) returns (out: bytes)
    ensures out == buf + EncodeBody(r)
  {
    hide BE, EncodeHeaders, EncodeHeader, Blob;
    out := buf + BE(r.offset, 8) + BE(r.timestamp, 8);
    out := out + Blob(r.key);
    out := out + Blob(r.value.Contents());
    out := out + BE(|r.headers|, 4);
    ghost var fixed := out;
    NoHeaders(fixed);
    for i := 0 to |r.headers|
      invariant out == fixed + EncodeHeaders(r.headers[..i])
    {
      HeaderAppended(fixed, r.headers, i);
      out := out + Blob(r.headers[i].key);
      out := out + Blob(r.headers[i].value);
    }
    assert r.headers[..|r.headers|] == r.headers;
    BodyPieces(buf, BE(r.offset, 8), BE(r.timestamp, 8), Blob(r.key), Blob(r.value.Contents()),
               BE(|r.headers|, 4), EncodeHeaders(r.headers));
  }

  lemma BodyPieces<T>(z: seq<T>, a: seq<T>, b: seq<T>, c: seq<T>, d: seq<T>, e: seq<T>, f: seq<T>)
    ensures z + a + b + c + d + e + f == z + (a + (b + (c + (d + (e + f)))))
  {
    Assoc(z + a + b + c + d, e, f);
    Assoc(z + a + b + c, d, e + f);
    Assoc(z + a + b, c, d + (e + f));
    Assoc(z + a, b, c + (d + (e + f)));
    Assoc(z, a, b + (c + (d + (e + f))));
  }

  /** encodeFramedRecord: the wire's own copy of the disk envelope. */
  method EncodeFramedRecord(buf: bytes, r: Record) returns (out: bytes)
    ensures out == buf + Frame(r)
  {
    out := EncodeWireRecord(buf + [0, 0, 0, 0], r);
    Patch(buf, [0, 0, 0, 0], EncodeBody(r), BE(|EncodeBody(r)|, 4));
    var bodyStart := |buf| + 4;
    var body := out[bodyStart..];
    out := out[..bodyStart - 4] + BE(|body|, 4) + body;
    out := out + BE(Crc32c(body), 4);
    SealFrame(buf, r);
  }

  /** The header loop of decodeRecord: a cursor that moves past one header at a time. */
  method DecodeWireHeaders(b: bytes, start: nat, count: nat) returns (res: Parse<seq<Header>>)
    requires start <= |b|
    ensures res == ParseHeaders(b[start..], count)
  {
    hide ParseBlob;
    var p := start;
    var headers: seq<Header> := [];
    ghost var all := ParseHeaders(b[start..], count);
    PrependNothing(all);
    for i := 0 to count
      invariant start <= p <= |b|
      invariant all == Prepend(headers, ParseHeaders(b[p..], count - i))
    {
      var k := DecodeString(b[p..]);
      FieldAt(b, p, k);
      if k.NoField? { return Err(k.error); }
      var v := ReadBytes(b[p + k.n..]);
      FieldAt(b, p + k.n, v);
      if v.NoField? { return Err(v.error); }
      PrependTwice(headers, [Header(k.value, v.value)], ParseHeaders(b[p + k.n + v.n..], count - i - 1));
      p := p + k.n + v.n;
      headers := headers + [Header(k.value, v.value)];
    }
    assert headers + [] == headers;
    res := Ok(headers, b[p..]);
  }

  /** decodeRecord: every failure is the same short-read error, and the caller learns how many
      bytes were consumed. */
  datatype WireRecord = WireRecord(rec: Record, n: nat) | ShortRecord | WirePanic

  method DecodeWireRecord(b: bytes) returns (res: WireRecord)
    ensures match ParseBody(b)
            case Err(SliceBounds) => res == WirePanic
            case Err(_) => res == ShortRecord
            case Ok(r, rest) => res.WireRecord? && res.rec == r && res.n <= |b| && rest == b[res.n..]
  {
    hide ParseBody, IsField, ParseHeaders, I64, FromBE, MakeValue;
    ShortBodyFails(b);
    if |b| < 16 { return ShortRecord; }
    var p := 16;
    var key := ReadBytes(b[p..]);
    FieldAt(b, p, key);
    if key.NoField? {
      BodyByFields(b, key, key);
      return if key.error.SliceBounds? then WirePanic else ShortRecord;
    }
    p := p + key.n;
    var value := ReadBytes(b[p..]);
    FieldAt(b, p, value);
    BodyByFields(b, key, value);
    if value.NoField? { return if value.error.SliceBounds? then WirePanic else ShortRecord; }
    p := p + value.n;
    if |b[p..]| < 4 { return ShortRecord; }
    var headers := DecodeWireHeaders(b, p + 4, FromBE(b[p..p + 4]));
    if headers.Err? { return if headers.error.SliceBounds? then WirePanic else ShortRecord; }
    HeadersConsume(b[p + 4..], FromBE(b[p..p + 4]));
    res := WireRecord(Record(I64(b[..8]), I64(b[8..16]), key.value, MakeValue(value.value), headers.value), |b| - |headers.rest|);
  }

  lemma HeadersConsume(b: bytes, count: nat)
    requires ParseHeaders(b, count).Ok?
    ensures var rest := ParseHeaders(b, count).rest; |rest| <= |b| && rest == b[|b| - |rest|..]
  {
    hide ParseHeaders, EncodeHeaders;
    HeadersSound(b, count);
    Split(EncodeHeaders(ParseHeaders(b, count).value), ParseHeaders(b, count).rest);
  }

  datatype Framed = FramedOk(rec: Record, total: nat) | FramedErr | FramedPanic

  /** decodeFramedRecord: the whole frame is already in memory. The end of the body is a 32-bit
      sum, which wraps for the four largest bodies. */
  function DecodeFramed(b: bytes): (res: Framed)
    ensures res.FramedOk? ==> res.total <= |b|
  {
    if |b| < 4 then FramedErr else
      var n := FromBE(b[..4]);
      if |b| < 8 + n then FramedErr
      else if n >= TWO32 - 4 then FramedPanic
      else
        var body := b[4..4 + n];
        if FromBE(b[4 + n..8 + n]) != Crc32c(body) then FramedErr else
          match ParseBody(body)
          case Ok(rec, _) => FramedOk(rec, 8 + n)
          case Err(SliceBounds) => FramedPanic
          case Err(_) => FramedErr
  }

  method DecodeFramedRecord(b: bytes) returns (res: Framed)
    ensures res == DecodeFramed(b)
  {
    hide ParseBody, Crc32c, FromBE;
    if |b| < 4 { return FramedErr; }
    var bodyLen := FromBE(b[..4]);
    assert bodyLen < TWO32 by { U32Sound(b[..4]); }
    var total := 4 + bodyLen + 4;
    if |b| < total { return FramedErr; }
    var end := (4 + bodyLen) % TWO32;
    if end < 4 { return FramedPanic; }
    var body := b[4..end];
    if Crc32c(body) != FromBE(b[end..total]) { return FramedErr; }
    var rec := DecodeWireRecord(body);
    res := match rec
      case WireRecord(r, _) => FramedOk(r, total)
      case ShortRecord => FramedErr
      case WirePanic => FramedPanic;
  }

  /** The disk reader and the wire reader accept the same frames and agree on what they hold, up
      to the four largest bodies, which the disk reader accepts and at which the wire reader panics. */
  lemma DiskAndWireReadersAgree(b: bytes)
    ensures DecodeFramed(b).FramedOk? <==> ReadFrame(b).Got? && ReadFrame(b).size < TWO32 + 4
    ensures DecodeFramed(b).FramedOk? ==> DecodeFramed(b) == FramedOk(ReadFrame(b).rec, ReadFrame(b).size)
    ensures ReadFrame(b).Got? && ReadFrame(b).size >= TWO32 + 4 ==> DecodeFramed(b) == FramedPanic
  {
    hide ParseBody, FromBE, Crc32c;
    if |b| >= 4 { U32Sound(b[..4]); }
  }

  /** A record the log stores and reads back, and whose frame the wire reader cannot decode. */
  lemma LargestFramesPanic()
    ensures var r := Record(0, 0, [], Data(seq(TWO32 - 32, _ => 0)), []);
            Fits(r) && ReadFrame(Frame(r)).Got? && DecodeFramed(Frame(r)) == FramedPanic
  {
    var r := Record(0, 0, [], Data(seq(TWO32 - 32, _ => 0)), []);
    assert |EncodeBody(r)| == TWO32 - 4;
    assert Fits(r) && |Frame(r)| == TWO32 + 4;
    hide *;
    FrameReads(r, []);
    assert Frame(r) + [] == Frame(r);
    DiskAndWireReadersAgree(Frame(r));
  }
}
