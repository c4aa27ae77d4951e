/** Byte strings and the big-endian integers every codec of the broker is built from. */
module Bytes {
  type byte = x: int | 0 <= x < 256
  type bytes = seq<byte>

  const TWO32 := 0x1_0000_0000
  const TWO63 := 0x8000_0000_0000_0000
  const TWO64 := 0x1_0000_0000_0000_0000

  function Pow256(w: nat): (p: nat)
    ensures p >= 1
  {
    if w == 0 then 1 else 256 * Pow256(w - 1)
  }

  /** The low `w` bytes of `n`, most significant first. Division is Euclidean, so a negative
      `n` is written in two's complement, exactly as Go's conversion to an unsigned word does. */
  function BE(n: int, w: nat): (b: bytes)
    ensures |b| == w
    decreases w, n
  {
    if w == 0 then [] else BE(n / 256, w - 1) + [n % 256]
  }

  /** The unsigned value of a big-endian byte string. */
  function FromBE(b: bytes): (n: nat)
    ensures n < Pow256(|b|)
  {
    if b == [] then 0 else FromBE(b[..|b| - 1]) * 256 + b[|b| - 1]
  }

  lemma Pow256Words()
    ensures Pow256(4) == TWO32 && Pow256(8) == TWO64
  {
    assert Pow256(1) == 256 && Pow256(2) == 0x1_0000;
    assert Pow256(3) == 0x100_0000;
    assert Pow256(5) == 0x100_0000_0000;
    assert Pow256(6) == 0x1_0000_0000_0000;
    assert Pow256(7) == 0x100_0000_0000_0000;
  }

  lemma {:induction false} BERoundTrip(n: nat, w: nat)
    requires n < Pow256(w)
    ensures FromBE(BE(n, w)) == n
  {
    if w > 0 {
      BERoundTrip(n / 256, w - 1);
      assert BE(n, w)[..w - 1] == BE(n / 256, w - 1);
    }
  }

  lemma {:induction false} FromBERoundTrip(b: bytes)
    ensures BE(FromBE(b), |b|) == b
  {
    if b != [] {
      FromBERoundTrip(b[..|b| - 1]);
      assert b == b[..|b| - 1] + [b[|b| - 1]];
    }
  }

  lemma {:induction false} BEWraps(n: int, w: nat)
    ensures BE(n + Pow256(w), w) == BE(n, w)
    decreases w, n
  {
    if w > 0 {
      assert (n + Pow256(w)) / 256 == n / 256 + Pow256(w - 1);
      BEWraps(n / 256, w - 1);
    }
  }

  /** Go's `int64(binary.BigEndian.Uint64(b))`. */
  function I64(b: bytes): (n: int)
    requires |b| == 8
  {
    var u := FromBE(b);
    if u >= TWO63 then u - TWO64 else u
  }

  predicate IsI64(n: int) { -TWO63 <= n < TWO63 }

  lemma U32RoundTrip(n: nat)
    requires n < TWO32
    ensures FromBE(BE(n, 4)) == n
  {
    Pow256Words();
    BERoundTrip(n, 4);
  }

  lemma U64RoundTrip(n: nat)
    requires n < TWO64
    ensures FromBE(BE(n, 8)) == n
  {
    Pow256Words();
    BERoundTrip(n, 8);
  }

  lemma I64RoundTrip(n: int)
    requires IsI64(n)
    ensures I64(BE(n, 8)) == n
  {
    Pow256Words();
    if n < 0 {
      BEWraps(n, 8);
      BERoundTrip(n + TWO64, 8);
    } else {
      BERoundTrip(n, 8);
    }
  }

  lemma I64Sound(b: bytes)
    requires |b| == 8
    ensures IsI64(I64(b)) && BE(I64(b), 8) == b
  {
    Pow256Words();
    FromBERoundTrip(b);
    BEWraps(FromBE(b) - TWO64, 8);
  }

  lemma U32Sound(b: bytes)
    requires |b| == 4
    ensures FromBE(b) < TWO32 && BE(FromBE(b), 4) == b
  {
    Pow256Words();
    FromBERoundTrip(b);
  }
}
