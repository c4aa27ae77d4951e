/** The record every layer passes around, and its byte encoding. */
module Records {
  import opened Bytes
  import opened Seqs

  /** A Go byte slice whose nil-ness the broker looks at. A nil value is a tombstone. */
  datatype Value = Nil | Data(b: bytes) {
    function Contents(): bytes { if Nil? then [] else b }
  }

  datatype Header = Header(key: bytes, value: bytes)

  /** Nobody distinguishes a nil key or header value from an empty one, so those are plain bytes. */
  datatype Record = Record(offset: int, timestamp: int, key: bytes, value: Value, headers: seq<Header>)

  datatype PartitionRef = PartitionRef(topic: string, index: int)

  /** What a record becomes once it has been encoded and decoded: an empty value reads back as nil. */
  function Norm(r: Record): Record {
    if r.value == Data([]) then r.(value := Nil) else r
  }

  predicate Normal(r: Record) { r.value != Data([]) }

  function NormAll(rs: seq<Record>): (out: seq<Record>)
    ensures |out| == |rs| && forall i :: 0 <= i < |rs| ==> out[i] == Norm(rs[i])
  {
    seq(|rs|, i requires 0 <= i < |rs| => Norm(rs[i]))
  }

  // ----- Body layout shared by the disk log and the wire -----

  function Blob(b: bytes): bytes { BE(|b|, 4) + b }

  function EncodeHeader(h: Header): bytes { Blob(h.key) + Blob(h.value) }

  function EncodeHeaders(hs: seq<Header>): bytes { ConcatMap(EncodeHeader, hs) }

  function EncodeBody(r: Record): bytes {
    BE(r.offset, 8) + (BE(r.timestamp, 8) + (Blob(r.key) + (Blob(r.value.Contents()) +
      (BE(|r.headers|, 4) + EncodeHeaders(r.headers)))))
  }

  /** The fields a 64-bit broker can hold in a frame whose body length is a 32-bit word. */
  predicate Fits(r: Record) {
    IsI64(r.offset) && IsI64(r.timestamp) && |EncodeBody(r)| < TWO32
  }

  lemma NormEncodes(r: Record)
    ensures EncodeBody(Norm(r)) == EncodeBody(r)
    ensures Normal(Norm(r)) && Norm(r).offset == r.offset && Norm(r).key == r.key
  {}

  lemma HeaderCountBound(hs: seq<Header>)
    ensures |EncodeHeaders(hs)| >= |hs|
  {
    ConcatMapLength(EncodeHeader, hs);
  }

  // ----- CRC32C (Castagnoli), section 12.1 of RFC 3720, bit by bit -----

  type Register = s: seq<bool> | |s| == 32 witness seq(32, _ => false)

  /** The reflected Castagnoli polynomial 0x82F63B78, least significant bit first. */
  const CASTAGNOLI: Register :=
    [false, false, false, true, true, true, true, false,
     true, true, false, true, true, true, false, false,
     false, true, true, false, true, true, true, true,
     false, true, false, false, false, false, false, true]

  function CrcBit(reg: Register, bit: bool): Register {
    var shifted: Register := reg[1..] + [false];
    if reg[0] != bit then seq(32, i requires 0 <= i < 32 => shifted[i] != CASTAGNOLI[i]) else shifted
  }

  function CrcByte(reg: Register, n: int, bits: nat): Register
    decreases bits, n
  {
    if bits == 0 then reg else CrcByte(CrcBit(reg, n % 2 == 1), n / 2, bits - 1)
  }

  function CrcFold(b: bytes): Register {
    if b == [] then seq(32, _ => true) else CrcByte(CrcFold(b[..|b| - 1]), b[|b| - 1], 8)
  }

  /** The register's complement as a number: the algorithm's final inversion. */
  function ComplementToNat(bits: seq<bool>): (n: nat)
  {
    if bits == [] then 0 else (if bits[0] then 0 else 1) + 2 * ComplementToNat(bits[1..])
  }

  /** The checksum of a frame body. Only its being a function of the bytes is ever used. */
  function Crc32c(b: bytes): (n: nat)
    ensures n < TWO32
  {
    ComplementToNat(CrcFold(b)) % TWO32
  }
}
