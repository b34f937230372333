/** The MD5 message digest (RFC 1321) over any compression function of 64-byte blocks, and the
    length count that the library keeps in two signed words. */
module Md5Model {
  import opened Bytes

  const BLOCK: nat := 64
  const TWO31: int := 0x8000_0000
  const TWO32: int := 0x1_0000_0000

  /** The longest piece that may be fed at a time: its number of bits fits a signed word. */
  const PIECE_LIMIT: int := 0x1000_0000

  /** The blocks of a message put through the compression function one after the other; what is
      left behind the last whole block is not used. */
  function Digest<D>(transform: (D, seq<Byte>) -> D, d: D, msg: seq<Byte>): D
    decreases |msg|
  {
    if |msg| < BLOCK then d else Digest(transform, transform(d, msg[..BLOCK]), msg[BLOCK..])
  }

  lemma {:induction false} DigestAppend<D>(transform: (D, seq<Byte>) -> D, d: D, a: seq<Byte>, b: seq<Byte>)
    requires |a| % BLOCK == 0
    ensures Digest(transform, d, a + b) == Digest(transform, Digest(transform, d, a), b)
    decreases |a|
  {
    if a == [] {
      assert a + b == b;
    } else {
      assert (a + b)[..BLOCK] == a[..BLOCK] && (a + b)[BLOCK..] == a[BLOCK..] + b;
      DigestAppend(transform, transform(d, a[..BLOCK]), a[BLOCK..], b);
    }
  }

  /** The bytes of a message in whole blocks. */
  function Whole(n: nat): (w: nat)
    ensures w <= n < w + BLOCK && w % BLOCK == 0
  {
    n - n % BLOCK
  }

  function Zeros(n: nat): (z: seq<Byte>)
    ensures |z| == n
  {
    seq(n, _ => 0)
  }

  /** A one bit and zeros up to eight bytes short of a whole block (section 3.1). */
  function Padding(n: nat): (p: seq<Byte>)
    ensures (n + |p|) % BLOCK == 56 && 1 <= |p| <= BLOCK
  {
    [0x80] + Zeros(if n % BLOCK < 56 then 55 - n % BLOCK else 119 - n % BLOCK)
  }

  /** The four bytes of a word, lowest first. */
  function Le4(w: int): (bytes: seq<Byte>)
    ensures |bytes| == 4
  {
    Unsigned4(w % TWO32)
  }

  function Unsigned4(u: int): (bytes: seq<Byte>)
    requires 0 <= u < TWO32
    ensures |bytes| == 4
  {
    [u % 256, u / 256 % 256, u / 65536 % 256, u / 16777216]
  }

  /** The two words of a length in bits, the low one first (section 3.2). */
  function LengthField(lo: int, hi: int): (bytes: seq<Byte>)
    ensures |bytes| == 8
  {
    Le4(lo) + Le4(hi)
  }

  /** The digest of a message with a given length field. */
  function Result<D>(transform: (D, seq<Byte>) -> D, iv: D, msg: seq<Byte>, lo: int, hi: int): D {
    Digest(transform, iv, msg + Padding(|msg|) + LengthField(lo, hi))
  }

  /** The digest as the standard has it: the length is that of the message in bits. */
  function Md5<D>(transform: (D, seq<Byte>) -> D, iv: D, msg: seq<Byte>): D {
    Result(transform, iv, msg, 8 * |msg|, 8 * |msg| / TWO32)
  }

  /** A number in a signed word. */
  function Signed32(x: int): (s: int)
    ensures -TWO31 <= s < TWO31
  {
    (x + TWO31) % TWO32 - TWO31
  }

  /** The high word as the library counts it: one more each time the low word, which is signed,
      comes out smaller than before. */
  function HighCount(bits: nat): int {
    (bits + TWO31) / TWO32
  }

  lemma Counted(bits: nat, more: nat)
    requires more < TWO31
    ensures HighCount(bits + more) == HighCount(bits) + (if Signed32(bits + more) < Signed32(bits) then 1 else 0)
    ensures Signed32(Signed32(bits) + more) == Signed32(bits + more)
  {
  }

  lemma SignedSame(x: int)
    ensures Signed32(x) % TWO32 == x % TWO32
  {
  }

  lemma LeSigned(x: int)
    ensures Le4(Signed32(x)) == Le4(x)
  {
    hide Unsigned4, Signed32;
    SignedSame(x);
  }

  /** The number with these base-256 digits, lowest first. */
  function ValueOf(a: int, b: int, c: int, d: int): int {
    a + 256 * (b + 256 * (c + 256 * d))
  }

  lemma Digits(u: int)
    requires 0 <= u
    ensures u / 65536 == u / 256 / 256 && u / 16777216 == u / 256 / 256 / 256
  {
  }

  lemma LeValue(u: int)
    requires 0 <= u < TWO32
    ensures ValueOf(Unsigned4(u)[0], Unsigned4(u)[1], Unsigned4(u)[2], Unsigned4(u)[3]) == u
  {
    Digits(u);
    var p := u / 256;
    var q := p / 256;
    var r := q / 256;
    assert u == u % 256 + 256 * p && p == p % 256 + 256 * q && q == q % 256 + 256 * r;
  }

  lemma LeSame(x: int, y: int)
    ensures Le4(x) == Le4(y) <==> x % TWO32 == y % TWO32
  {
    hide Unsigned4;
    LeValue(x % TWO32);
    LeValue(y % TWO32);
  }

  /** The high word is right exactly when the low word, taken as signed, is not negative: bit
      31 of the number of bits is clear. */
  lemma HighExact(bits: nat)
    ensures LengthField(Signed32(bits), Signed32(HighCount(bits))) == LengthField(bits, bits / TWO32)
      <==> bits % TWO32 < TWO31
  {
    LeSigned(bits);
    LeSigned(HighCount(bits));
    HighOff(bits);
    LeSame(HighCount(bits), bits / TWO32);
    var a, b := LengthField(Signed32(bits), Signed32(HighCount(bits))), LengthField(bits, bits / TWO32);
    assert a == b <==> a[4..] == b[4..] by {
      assert a[..4] == b[..4] && a == a[..4] + a[4..] && b == b[..4] + b[4..];
    }
    assert a[4..] == Le4(HighCount(bits)) && b[4..] == Le4(bits / TWO32);
  }

  lemma HighOff(bits: nat)
    ensures HighCount(bits) == bits / TWO32 + (if bits % TWO32 < TWO31 then 0 else 1)
  {
  }

  /** The length field is the number of bits, lowest byte first over all eight bytes. */
  lemma LengthStandard(n: nat)
    requires n < TWO32 * TWO32
    ensures var f := LengthField(n, n / TWO32);
      ValueOf(f[0], f[1], f[2], f[3]) + 0x1_0000_0000 * ValueOf(f[4], f[5], f[6], f[7]) == n
  {
    hide Unsigned4, ValueOf;
    LeValue(n % TWO32);
    LeValue(n / TWO32);
    assert n / TWO32 % TWO32 == n / TWO32;
  }

  /** The padding is one bit and then as few zeros as leave eight bytes of a whole block. */
  lemma PaddingStandard(n: nat)
    ensures var p := Padding(n);
      && p[0] == 128 && (forall k | 1 <= k < |p| :: p[k] == 0) && 1 <= |p| <= 64 && (n + |p| + 8) % 64 == 0
  {
  }
}
