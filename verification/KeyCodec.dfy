/** Order-preserving keys: eight bytes whose memcmp order is the order of the values. */
module KeyCodec {
  import opened Table
  import opened ByteFormat

  const HALF: int := 0x8000_0000_0000_0000

  /** `n` in `width` bytes, most significant first. */
  function Be(n: nat, width: nat): (b: Bytes)
    ensures |b| == width
  {
    if width == 0 then [] else Be(n / 256, width - 1) + [n % 256]
  }

  function FromBe(b: Bytes): nat {
    if b == [] then 0 else 256 * FromBe(b[..|b| - 1]) + b[|b| - 1]
  }

  lemma {:induction false} FromBeOfBe(n: nat, width: nat)
    requires n < Pow256(width)
    ensures FromBe(Be(n, width)) == n
  {
    if width != 0 {
      FromBeOfBe(n / 256, width - 1);
      assert Be(n, width)[..width - 1] == Be(n / 256, width - 1);
    }
  }

  lemma {:induction false} LessSnoc(a: Bytes, b: Bytes, x: byte, y: byte)
    requires |a| == |b|
    ensures LexLess(a + [x], b + [y]) <==> LexLess(a, b) || (a == b && x < y)
  {
    if a != [] {
      LessSnoc(a[1..], b[1..], x, y);
      assert (a + [x])[1..] == a[1..] + [x] && (b + [y])[1..] == b[1..] + [y];
      assert a == [a[0]] + a[1..] && b == [b[0]] + b[1..];
    }
  }

  /** Byte strings of one length compare as the numbers they spell. */
  lemma {:induction false} BytesOrder(a: Bytes, b: Bytes)
    requires |a| == |b|
    ensures LexLess(a, b) <==> FromBe(a) < FromBe(b)
    ensures a == b <==> FromBe(a) == FromBe(b)
  {
    if a != [] {
      var n := |a| - 1;
      BytesOrder(a[..n], b[..n]);
      LessSnoc(a[..n], b[..n], a[n], b[n]);
      assert a == a[..n] + [a[n]] && b == b[..n] + [b[n]];
    }
  }

  /** Flip the sign bit of the two's complement pattern. */
  function FlipSign(u: u64): u64 {
    if u >= HALF then u - HALF else u + HALF
  }

  function EncodeInt(v: int): (b: Bytes)
    requires -HALF <= v < HALF
    ensures |b| == 8
  {
    Be(FlipSign(v % TWO_64), 8)
  }

  /** A negative double has all its bits flipped, any other its sign bit set. */
  function EncodeDouble(bits: u64): (b: Bytes)
    ensures |b| == 8
  {
    Be(if bits >= HALF then TWO_64 - 1 - bits else bits + HALF, 8)
  }

  /** Where a non-NaN bit pattern stands in numeric order, with -0 just below +0. */
  function Rank(bits: u64): int {
    if bits >= HALF then HALF - 1 - bits else bits
  }

  /** The number an encoded integer spells is the integer, shifted. */
  lemma IntNumber(v: int)
    requires -HALF <= v < HALF
    ensures FromBe(EncodeInt(v)) == v + HALF
  {
    Pow256Values();
    FromBeOfBe(v + HALF, 8);
    assert FlipSign(v % TWO_64) == v + HALF;
  }

  /** Encoded integers compare as the integers do, and differ when they do. */
  lemma IntOrder(v: int, w: int)
    requires -HALF <= v < HALF && -HALF <= w < HALF
    ensures LexLess(EncodeInt(v), EncodeInt(w)) <==> v < w
    ensures EncodeInt(v) == EncodeInt(w) <==> v == w
  {
    IntNumber(v);
    IntNumber(w);
    BytesOrder(EncodeInt(v), EncodeInt(w));
  }

  lemma DoubleOrder(a: u64, b: u64)
    ensures LexLess(EncodeDouble(a), EncodeDouble(b)) <==> Rank(a) < Rank(b)
    ensures EncodeDouble(a) == EncodeDouble(b) <==> a == b
  {
    Pow256Values();
    FromBeOfBe(Rank(a) + HALF, 8);
    FromBeOfBe(Rank(b) + HALF, 8);
    BytesOrder(EncodeDouble(a), EncodeDouble(b));
  }

  /** Last byte first, shifting right by eight bits each time. */
  method PutBigEndian64(dst: array<byte>, v: u64)
    requires dst.Length == 8
    modifies dst
    ensures dst[..] == Be(v, 8)
  {
    var n: nat, i := v, 8;
    assert Be(n, i) + dst[i..] == Be(n, 8);
    while i > 0
      invariant 0 <= i <= 8 && Be(n, i) + dst[i..] == Be(v, 8)
    {
      i := i - 1;
      ghost var tail := dst[i + 1..];
      dst[i] := n % 256;
      assert dst[i..] == [n % 256] + tail;
      assert Be(n, i + 1) + tail == Be(n / 256, i) + ([n % 256] + tail);
      n := n / 256;
    }
    assert Be(n, 0) + dst[0..] == dst[..];
  }
}
