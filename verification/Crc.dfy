/** The cyclic redundancy check of the link: a table of byte remainders, the two forms of the
    calculation, and the division they stand for. */
module Crc {
  type Word = bv32
  type Byte = b: Word | b <= 255 witness 0

  const CRC_POLYNOMIAL: Word := 1443300200

  // ----- division

  predicate Top(r: Word) {
    r >= 0x8000_0000
  }

  /** The word moved up by one bit, with the given bit at the bottom. */
  function MoveIn(r: Word, bit: bool): Word {
    if bit then (r << 1) | 1 else r << 1
  }

  function Xor(a: Word, b: Word): Word {
    a ^ b
  }

  /** Dividing bit by bit: the next bit goes in at the bottom, and the divisor, x^32 and the
      polynomial, comes off when a one goes out at the top. */
  function Divide(r: Word, bit: bool): Word {
    if Top(r) then Xor(MoveIn(r, bit), CRC_POLYNOMIAL) else MoveIn(r, bit)
  }

  /** The remainder of a polynomial with the given coefficients, highest first. */
  function Remainder(r: Word, bits: seq<bool>): Word
    decreases |bits|
  {
    if bits == [] then r else Remainder(Divide(r, bits[0]), bits[1..])
  }

  function Bit(b: Byte, k: nat): bool {
    match k
    case 0 => b & 128 != 0 case 1 => b & 64 != 0 case 2 => b & 32 != 0 case 3 => b & 16 != 0
    case 4 => b & 8 != 0 case 5 => b & 4 != 0 case 6 => b & 2 != 0 case _ => b & 1 != 0
  }

  /** The bits of a message, highest first. */
  function Bits(msg: seq<Byte>): (bits: seq<bool>)
    ensures |bits| == 8 * |msg|
  {
    if msg == [] then [] else seq(8, k requires 0 <= k < 8 => Bit(msg[0], k)) + Bits(msg[1..])
  }

  function Zeros(n: nat): (bits: seq<bool>)
    ensures |bits| == n
  {
    seq(n, _ => false)
  }

  /** The check of a message: the remainder of the message times x^32. */
  function Check(msg: seq<Byte>): Word {
    Remainder(0, Bits(msg) + Zeros(32))
  }

  // ----- one bit at a time, as the table is made

  /** One step of the table's inner loop, for a bit that is compared with the top one. */
  function Serial(accum: Word, bit: bool): Word {
    if bit != Top(accum) then Xor(MoveIn(accum, false), CRC_POLYNOMIAL) else MoveIn(accum, false)
  }

  function SerialBits(accum: Word, bits: seq<bool>): Word
    decreases |bits|
  {
    if bits == [] then accum else SerialBits(Serial(accum, bits[0]), bits[1..])
  }

  /** The remainder of a polynomial times x^32. */
  function Up(r: Word): Word {
    Remainder(r, Zeros(32))
  }

  lemma TopXor(a: Word, b: Word)
    ensures Top(Xor(a, b)) == (Top(a) != Top(b))
  {
  }

  lemma MoveXor(a: Word, b: Word)
    ensures MoveIn(Xor(a, b), false) == Xor(MoveIn(a, false), MoveIn(b, false))
  {
    MoveRaw(a, b);
  }

  lemma MoveRaw(a: Word, b: Word)
    ensures (a ^ b) << 1 == (a << 1) ^ (b << 1)
  {
  }

  lemma MoveOne(r: Word)
    ensures MoveIn(r, true) == Xor(MoveIn(r, false), 1)
  {
    MoveOneRaw(r);
  }

  lemma MoveOneRaw(r: Word)
    ensures (r << 1) | 1 == (r << 1) ^ 1
  {
  }

  lemma XorZero(a: Word)
    ensures Xor(a, 0) == a && Xor(0, a) == a
  {
  }

  lemma XorTwice(a: Word, p: Word)
    ensures Xor(Xor(a, p), p) == a
  {
  }

  lemma XorAssoc(a: Word, b: Word, p: Word)
    ensures Xor(a, Xor(b, p)) == Xor(Xor(a, b), p)
  {
  }

  lemma XorComm(a: Word, b: Word)
    ensures Xor(a, b) == Xor(b, a)
  {
  }

  lemma XorLaws(a: Word, b: Word, p: Word)
    ensures Xor(Xor(a, p), Xor(b, p)) == Xor(a, b)
    ensures Xor(Xor(a, p), b) == Xor(Xor(a, b), p)
    ensures Xor(a, Xor(b, p)) == Xor(Xor(a, b), p)
  {
    hide Xor;
    XorAssoc(a, b, p);
    XorAssoc(a, p, b);
    XorComm(p, b);
    XorAssoc(Xor(a, p), b, p);
    XorTwice(Xor(a, b), p);
  }

  lemma DivideXor(a: Word, b: Word)
    ensures Divide(Xor(a, b), false) == Xor(Divide(a, false), Divide(b, false))
  {
    hide Top, MoveIn, Xor;
    TopXor(a, b);
    MoveXor(a, b);
    XorLaws(MoveIn(a, false), MoveIn(b, false), CRC_POLYNOMIAL);
  }

  lemma DivideOne(r: Word)
    ensures Divide(r, true) == Xor(Divide(r, false), 1)
  {
    hide Top, MoveIn, Xor;
    MoveOne(r);
    XorLaws(MoveIn(r, false), 1, CRC_POLYNOMIAL);
  }

  lemma SerialDivide(r: Word, bit: bool)
    ensures Serial(r, bit) == Xor(Divide(r, false), if bit then CRC_POLYNOMIAL else 0)
  {
    hide Top, MoveIn, Xor;
    XorTwice(MoveIn(r, false), CRC_POLYNOMIAL);
    XorZero(Divide(r, false));
  }

  lemma {:induction false} RemainderXor(a: Word, b: Word, n: nat)
    ensures Remainder(Xor(a, b), Zeros(n)) == Xor(Remainder(a, Zeros(n)), Remainder(b, Zeros(n)))
    decreases n
  {
    hide Xor, Divide;
    if n > 0 {
      DivideXor(a, b);
      assert Zeros(n)[1..] == Zeros(n - 1);
      RemainderXor(Divide(a, false), Divide(b, false), n - 1);
    }
  }

  lemma {:induction false} RemainderAppend(r: Word, a: seq<bool>, b: seq<bool>)
    ensures Remainder(r, a + b) == Remainder(Remainder(r, a), b)
    decreases |a|
  {
    hide Divide;
    if a == [] {
      assert a + b == b;
    } else {
      assert (a + b)[1..] == a[1..] + b;
      RemainderAppend(Divide(r, a[0]), a[1..], b);
    }
  }

  lemma ZerosAdd(m: nat, n: nat)
    ensures Zeros(m) + Zeros(n) == Zeros(m + n)
  {
  }

  lemma UpDivide(r: Word)
    ensures Up(Divide(r, false)) == Divide(Up(r), false)
  {
    hide Divide, Remainder, Zeros;
    RemainderAppend(r, Zeros(1), Zeros(32));
    RemainderAppend(r, Zeros(32), Zeros(1));
    ZerosAdd(1, 32);
    ZerosAdd(32, 1);
    OneZero(r);
    OneZero(Up(r));
  }

  lemma OneZero(r: Word)
    ensures Remainder(r, Zeros(1)) == Divide(r, false)
  {
    hide Divide;
    assert Zeros(1)[1..] == [];
  }

  lemma ZeroStep(r: Word, n: nat)
    requires n > 0
    ensures Remainder(r, Zeros(n)) == Remainder(Divide(r, false), Zeros(n - 1))
  {
    hide Divide;
    assert Zeros(n)[1..] == Zeros(n - 1);
  }

  lemma {:induction false} ZeroStays(n: nat)
    ensures Remainder(0, Zeros(n)) == 0
    decreases n
  {
    if n > 0 {
      ZeroStep(0, n);
      assert Divide(0, false) == 0;
      ZeroStays(n - 1);
    }
  }

  lemma FarUp()
    ensures Remainder(1, Zeros(32)) == Remainder(0x10000, Zeros(16))
  {
    hide Remainder;
    ZeroStep(0x1, 32);
    ZeroStep(0x2, 31);
    ZeroStep(0x4, 30);
    ZeroStep(0x8, 29);
    ZeroStep(0x10, 28);
    ZeroStep(0x20, 27);
    ZeroStep(0x40, 26);
    ZeroStep(0x80, 25);
    ZeroStep(0x100, 24);
    ZeroStep(0x200, 23);
    ZeroStep(0x400, 22);
    ZeroStep(0x800, 21);
    ZeroStep(0x1000, 20);
    ZeroStep(0x2000, 19);
    ZeroStep(0x4000, 18);
    ZeroStep(0x8000, 17);
  }

  /** x^32 leaves the polynomial itself. */
  lemma UpOne()
    ensures Up(1) == CRC_POLYNOMIAL
  {
    hide Remainder, Divide;
    FarUp();
    FarthestUp();
    ZeroStep(0x8000_0000, 1);
    TopStep();
    NoBits(CRC_POLYNOMIAL);
  }

  lemma FarthestUp()
    ensures Remainder(0x10000, Zeros(16)) == Remainder(0x8000_0000, Zeros(1))
  {
    hide Remainder;
    ZeroStep(0x10000, 16);
    ZeroStep(0x20000, 15);
    ZeroStep(0x40000, 14);
    ZeroStep(0x80000, 13);
    ZeroStep(0x100000, 12);
    ZeroStep(0x200000, 11);
    ZeroStep(0x400000, 10);
    ZeroStep(0x800000, 9);
    ZeroStep(0x1000000, 8);
    ZeroStep(0x2000000, 7);
    ZeroStep(0x4000000, 6);
    ZeroStep(0x8000000, 5);
    ZeroStep(0x10000000, 4);
    ZeroStep(0x20000000, 3);
    ZeroStep(0x40000000, 2);
  }

  lemma TopStep()
    ensures Divide(0x8000_0000, false) == CRC_POLYNOMIAL
  {
  }

  lemma NoBits(r: Word)
    ensures Remainder(r, Zeros(0)) == r
  {
  }

  lemma UpStep(r: Word, bit: bool)
    ensures Up(Divide(r, bit)) == Serial(Up(r), bit)
  {
    hide Divide, Serial, Remainder, Xor, Zeros;
    UpDivide(r);
    SerialDivide(Up(r), bit);
    XorZero(Divide(Up(r), false));
    if bit {
      DivideOne(r);
      RemainderXor(Divide(r, false), 1, 32);
      UpOne();
    }
  }

  /** Comparing each bit with the top one keeps the remainder times x^32. */
  lemma {:induction false} SerialIsUp(r: Word, bits: seq<bool>)
    ensures SerialBits(Up(r), bits) == Up(Remainder(r, bits))
    decreases |bits|
  {
    hide Divide, Serial, Up;
    if bits != [] {
      UpStep(r, bits[0]);
      SerialIsUp(Divide(r, bits[0]), bits[1..]);
    }
  }

  /** So it computes the check. */
  lemma SerialIsCheck(msg: seq<Byte>)
    ensures SerialBits(0, Bits(msg)) == Check(msg)
  {
    ZeroStays(32);
    SerialIsUp(0, Bits(msg));
    RemainderAppend(0, Bits(msg), Zeros(32));
  }

  // ----- one byte at a time

  function ByteBits(b: Byte): (bits: seq<bool>)
    ensures |bits| == 8
  {
    seq(8, k requires 0 <= k < 8 => Bit(b, k))
  }

  /** The table's entry for a byte. */
  function Entry(b: Byte): Word {
    SerialBits(0, ByteBits(b))
  }

  function HighByte(crc: Word): (b: Byte) {
    (crc >> 24) & 255
  }

  function ByteXor(a: Byte, b: Byte): (c: Byte) {
    (a ^ b) & 255
  }

  function DropHigh(crc: Word): Word {
    crc << 8
  }

  /** The word moved up by `k` bits. */
  function Moved(crc: Word, k: nat): Word {
    match k
    case 0 => crc case 1 => crc << 1 case 2 => crc << 2 case 3 => crc << 3 case 4 => crc << 4
    case 5 => crc << 5 case 6 => crc << 6 case 7 => crc << 7 case _ => crc << 8
  }

  lemma Moved0(crc: Word)
    ensures MoveIn(Moved(crc, 0), false) == Moved(crc, 1)
  {
  }

  lemma Moved1(crc: Word)
    ensures MoveIn(Moved(crc, 1), false) == Moved(crc, 2)
  {
  }

  lemma Moved2(crc: Word)
    ensures MoveIn(Moved(crc, 2), false) == Moved(crc, 3)
  {
  }

  lemma Moved3(crc: Word)
    ensures MoveIn(Moved(crc, 3), false) == Moved(crc, 4)
  {
  }

  lemma Moved4(crc: Word)
    ensures MoveIn(Moved(crc, 4), false) == Moved(crc, 5)
  {
  }

  lemma Moved5(crc: Word)
    ensures MoveIn(Moved(crc, 5), false) == Moved(crc, 6)
  {
  }

  lemma Moved6(crc: Word)
    ensures MoveIn(Moved(crc, 6), false) == Moved(crc, 7)
  {
  }

  lemma Moved7(crc: Word)
    ensures MoveIn(Moved(crc, 7), false) == Moved(crc, 8)
  {
  }

  lemma MovedNext(crc: Word, k: nat)
    requires k < 8
    ensures MoveIn(Moved(crc, k), false) == Moved(crc, k + 1)
  {
    hide MoveIn, Moved;
    match k
    case 0 => Moved0(crc);
    case 1 => Moved1(crc);
    case 2 => Moved2(crc);
    case 3 => Moved3(crc);
    case 4 => Moved4(crc);
    case 5 => Moved5(crc);
    case 6 => Moved6(crc);
    case 7 => Moved7(crc);
  }

  lemma BitOfXor(crc: Word, b: Byte, k: nat)
    requires k < 8
    ensures Bit(ByteXor(HighByte(crc), b), k) == (Bit(b, k) != Top(Moved(crc, k)))
  {
    match k
    case 0 => case 1 => case 2 => case 3 => case 4 => case 5 => case 6 => case _ =>
  }

  lemma {:induction false} SerialAppend(r: Word, a: seq<bool>, b: seq<bool>)
    ensures SerialBits(r, a + b) == SerialBits(SerialBits(r, a), b)
    decreases |a|
  {
    hide Serial;
    if a == [] {
      assert a + b == b;
    } else {
      assert (a + b)[1..] == a[1..] + b;
      SerialAppend(Serial(r, a[0]), a[1..], b);
    }
  }

  lemma SerialNext(r: Word, bits: seq<bool>, k: nat)
    requires k < |bits|
    ensures SerialBits(r, bits[..k + 1]) == Serial(SerialBits(r, bits[..k]), bits[k])
  {
    hide Serial;
    assert bits[..k + 1] == bits[..k] + [bits[k]] && [bits[k]][1..] == [];
    SerialAppend(r, bits[..k], [bits[k]]);
  }

  /** A step on a word is the step on its table part, with the rest moved up. */
  lemma SerialXor(part: Word, rest: Word, bit: bool)
    ensures Serial(Xor(part, rest), bit) == Xor(Serial(part, bit != Top(rest)), MoveIn(rest, false))
  {
    hide Top, MoveIn, Xor;
    TopXor(part, rest);
    MoveXor(part, rest);
    XorLaws(MoveIn(part, false), MoveIn(rest, false), CRC_POLYNOMIAL);
  }

  lemma {:induction false} PartsAgree(crc: Word, b: Byte, k: nat)
    requires k <= 8
    ensures SerialBits(crc, ByteBits(b)[..k])
      == Xor(SerialBits(0, ByteBits(ByteXor(HighByte(crc), b))[..k]), Moved(crc, k))
    decreases k
  {
    hide Serial, Xor, Moved, Bit, ByteXor, HighByte, Top, MoveIn;
    var c := ByteXor(HighByte(crc), b);
    if k == 0 {
      XorZero(crc);
      MovedNone(crc);
    } else {
      PartsAgree(crc, b, k - 1);
      SerialNext(crc, ByteBits(b), k - 1);
      SerialNext(0, ByteBits(c), k - 1);
      SerialXor(SerialBits(0, ByteBits(c)[..k - 1]), Moved(crc, k - 1), Bit(b, k - 1));
      BitOfXor(crc, b, k - 1);
      MovedNext(crc, k - 1);
    }
  }

  lemma MovedNone(crc: Word)
    ensures Moved(crc, 0) == crc && Moved(crc, 8) == DropHigh(crc)
  {
  }

  /** Eight bits at once: the table's entry for the byte that goes out. */
  lemma ByteStep(crc: Word, b: Byte)
    ensures SerialBits(crc, ByteBits(b)) == Xor(DropHigh(crc), Entry(ByteXor(HighByte(crc), b)))
  {
    hide Serial, Xor, Moved, SerialBits, DropHigh, ByteXor, HighByte;
    var c := ByteXor(HighByte(crc), b);
    PartsAgree(crc, b, 8);
    assert ByteBits(b)[..8] == ByteBits(b) && ByteBits(c)[..8] == ByteBits(c);
    XorComm(Entry(c), Moved(crc, 8));
    MovedNone(crc);
  }

  lemma {:induction false} BitsAppend(a: seq<Byte>, b: seq<Byte>)
    ensures Bits(a + b) == Bits(a) + Bits(b)
  {
    hide Bit;
    if a == [] {
      assert a + b == b;
    } else {
      assert (a + b)[1..] == a[1..] + b;
      BitsAppend(a[1..], b);
    }
  }

  /** One more byte of a message. */
  lemma CheckNext(msg: seq<Byte>, k: nat)
    requires k < |msg|
    ensures var crc := SerialBits(0, Bits(msg[..k]));
      SerialBits(0, Bits(msg[..k + 1])) == Xor(DropHigh(crc), Entry(ByteXor(HighByte(crc), msg[k])))
  {
    hide Serial, Xor, DropHigh, ByteXor, HighByte, Entry, Bit, SerialBits;
    assert msg[..k + 1] == msg[..k] + [msg[k]];
    BitsAppend(msg[..k], [msg[k]]);
    OneByte(msg[k]);
    SerialAppend(0, Bits(msg[..k]), ByteBits(msg[k]));
    ByteStep(SerialBits(0, Bits(msg[..k])), msg[k]);
  }

  lemma OneByte(b: Byte)
    ensures Bits([b]) == ByteBits(b)
  {
    hide Bit;
    assert [b][1..] == [];
  }

  // ----- what the check cannot see

  /** The message with the bits of an error pattern turned over. */
  function Corrupted(msg: seq<Byte>, error: seq<Byte>): (m: seq<Byte>)
    requires |msg| == |error|
    ensures |m| == |msg|
  {
    seq(|msg|, k requires 0 <= k < |msg| => ByteXor(msg[k], error[k]))
  }

  function XorBits(a: seq<bool>, b: seq<bool>): (c: seq<bool>)
    requires |a| == |b|
    ensures |c| == |a|
  {
    seq(|a|, k requires 0 <= k < |a| => a[k] != b[k])
  }

  lemma BitXor(a: Byte, b: Byte, k: nat)
    requires k < 8
    ensures Bit(ByteXor(a, b), k) == (Bit(a, k) != Bit(b, k))
  {
    match k
    case 0 => case 1 => case 2 => case 3 => case 4 => case 5 => case 6 => case _ =>
  }

  lemma {:induction false} CorruptedBits(msg: seq<Byte>, error: seq<Byte>)
    requires |msg| == |error|
    ensures Bits(Corrupted(msg, error)) == XorBits(Bits(msg), Bits(error))
    decreases |msg|
  {
    hide Bit, ByteXor;
    if msg != [] {
      assert Corrupted(msg, error)[1..] == Corrupted(msg[1..], error[1..]);
      CorruptedBits(msg[1..], error[1..]);
      forall k | 0 <= k < 8
        ensures Bit(ByteXor(msg[0], error[0]), k) == (Bit(msg[0], k) != Bit(error[0], k))
      {
        BitXor(msg[0], error[0], k);
      }
    }
  }

  lemma SerialOfXor(r: Word, s: Word, p: bool, q: bool)
    ensures Serial(Xor(r, s), p != q) == Xor(Serial(r, p), Serial(s, q))
  {
    hide Top, MoveIn, Xor;
    TopXor(r, s);
    MoveXor(r, s);
    XorLaws(MoveIn(r, false), MoveIn(s, false), CRC_POLYNOMIAL);
  }

  lemma {:induction false} SerialBitsXor(r: Word, s: Word, a: seq<bool>, b: seq<bool>)
    requires |a| == |b|
    ensures SerialBits(Xor(r, s), XorBits(a, b)) == Xor(SerialBits(r, a), SerialBits(s, b))
    decreases |a|
  {
    hide Serial, Xor;
    if a != [] {
      SerialOfXor(r, s, a[0], b[0]);
      assert XorBits(a, b)[1..] == XorBits(a[1..], b[1..]);
      SerialBitsXor(Serial(r, a[0]), Serial(s, b[0]), a[1..], b[1..]);
    }
  }

  lemma XorSame(a: Word, b: Word)
    ensures Xor(a, b) == a <==> b == 0
  {
  }

  /** A corrupted message has the check of the message exactly when the error pattern, as a
      polynomial times x^32, is divided without remainder. */
  lemma Unnoticed(msg: seq<Byte>, error: seq<Byte>)
    requires |msg| == |error|
    ensures Check(Corrupted(msg, error)) == Check(msg) <==> Check(error) == 0
  {
    hide Xor, Bit, ByteXor, Serial, Check;
    CorruptedBits(msg, error);
    SerialBitsXor(0, 0, Bits(msg), Bits(error));
    XorZero(0);
    SerialIsCheck(msg);
    SerialIsCheck(error);
    SerialIsCheck(Corrupted(msg, error));
    XorSame(Check(msg), Check(error));
  }

  // ----- the table and the two calculations

  function Index(b: Byte): nat {
    b as nat
  }

  lemma IndexInRange(b: Byte)
    ensures Index(b) < 256
  {
  }

  lemma IndexOneToOne(b: Byte, c: Byte)
    requires Index(b) == Index(c)
    ensures b == c
  {
  }

  /** The bytes of a word in the other order. */
  function Flip4(w: Word): Word {
    (w >> 24) | ((w >> 8) & 0xFF00) | ((w << 8) & 0xFF_0000) | (w << 24)
  }

  /** The table as either kind of machine holds it. */
  ghost predicate TableOf(table: seq<Word>, little: bool) {
    && |table| == 256
    && forall b: Byte :: Index(b) < 256 && table[Index(b)] == if little then Flip4(Entry(b)) else Entry(b)
  }

  /** The bits of a byte still to come, at the top of a word. */
  function Tdata(b: Byte, k: nat): Word {
    match k
    case 0 => b << 24 case 1 => b << 25 case 2 => b << 26 case 3 => b << 27 case 4 => b << 28
    case 5 => b << 29 case 6 => b << 30 case 7 => b << 31 case _ => 0
  }

  lemma TdataBit(b: Byte, k: nat)
    requires k < 8
    ensures Top(Tdata(b, k)) == Bit(b, k) && MoveIn(Tdata(b, k), false) == Tdata(b, k + 1)
  {
    match k
    case 0 => case 1 => case 2 => case 3 => case 4 => case 5 => case 6 => case _ =>
  }

  /** The entry of one byte. */
  method MakeEntry(count: Byte) returns (accum: Word)
    ensures accum == Entry(count)
  {
    hide Top, MoveIn, Xor, Tdata, Bit;
    var tdata := count << 24;
    TdataStart(count);
    accum := 0;
    for bits := 0 to 8
      invariant tdata == Tdata(count, bits) && accum == SerialBits(0, ByteBits(count)[..bits])
    {
      TdataBit(count, bits);
      TopXor(tdata, accum);
      SerialNext(0, ByteBits(count), bits);
      if Top(Xor(tdata, accum)) {
        accum := Xor(MoveIn(accum, false), CRC_POLYNOMIAL);
      } else {
        accum := MoveIn(accum, false);
      }
      tdata := MoveIn(tdata, false);
    }
    assert ByteBits(count)[..8] == ByteBits(count);
  }

  lemma TdataStart(b: Byte)
    ensures Tdata(b, 0) == b << 24
  {
  }

  predicate Below(c: Word, n: Word) {
    c < n
  }

  lemma BelowNext(b: Byte, c: Byte)
    ensures Below(b, c + 1) ==> Below(b, c) || b == c
  {
  }

  lemma CountUp(c: Word)
    requires c < 256
    ensures (c + 1) as nat == (c as nat) + 1 && c <= 255 && c + 1 <= 256
  {
  }

  lemma AllBelow(b: Byte)
    ensures Below(b, 256)
  {
  }

  method GcrcInit(crctable: array<Word>, little: bool)
    requires crctable.Length == 256
    modifies crctable
    ensures TableOf(crctable[..], little)
  {
    hide Entry, Flip4, Index, Below;
    var count: Word := 0;
    forall b: Byte
      ensures Index(b) < 256 && !Below(b, 0)
    {
      IndexInRange(b);
      NoneBelow(b);
    }
    while count < 256
      invariant count <= 256
      invariant forall b: Byte :: Index(b) < 256
      invariant forall b: Byte :: Below(b, count) ==> crctable[Index(b)] == if little then Flip4(Entry(b)) else Entry(b)
      decreases 256 - count as nat
    {
      CountUp(count);
      var b: Byte := count;
      var accum := MakeEntry(b);
      IndexInRange(b);
      crctable[Index(b)] := if little then Flip4(accum) else accum;
      forall c: Byte | Below(c, count + 1)
        ensures crctable[Index(c)] == if little then Flip4(Entry(c)) else Entry(c)
      {
        BelowNext(c, b);
        if c != b && Index(c) == Index(b) {
          IndexOneToOne(b, c);
        }
      }
      count := count + 1;
    }
    forall b: Byte
      ensures Below(b, count)
    {
      AllBelow(b);
    }
  }

  lemma NoneBelow(b: Byte)
    ensures !Below(b, 0)
  {
  }

  /** The calculation on a machine whose words begin with their highest byte. */
  method GcrcCalcBig(crctable: array<Word>, msg: seq<Byte>) returns (crc: Word)
    requires TableOf(crctable[..], false)
    ensures crc == Check(msg)
  {
    hide Entry, Xor, DropHigh, HighByte, ByteXor, Bits, SerialBits, Index, Check;
    crc := 0;
    NoMessage();
    for k := 0 to |msg|
      invariant crc == SerialBits(0, Bits(msg[..k]))
    {
      CheckNext(msg, k);
      var temp := ByteXor(HighByte(crc), msg[k]);
      assert crctable[..][Index(temp)] == Entry(temp);
      crc := Xor(DropHigh(crc), crctable[Index(temp)]);
    }
    assert msg[..|msg|] == msg;
    SerialIsCheck(msg);
  }

  lemma NoMessage()
    ensures SerialBits(0, Bits([])) == 0
  {
  }

  function LowByte(crc: Word): (b: Byte) {
    crc & 255
  }

  function DropLow(crc: Word): Word {
    (crc >> 8) & 0xFF_FFFF
  }

  lemma FlipXor(a: Word, b: Word)
    ensures Flip4(Xor(a, b)) == Xor(Flip4(a), Flip4(b))
  {
  }

  lemma FlipParts(crc: Word)
    ensures LowByte(Flip4(crc)) == HighByte(crc) && DropLow(Flip4(crc)) == Flip4(DropHigh(crc))
  {
  }

  /** The calculation on a machine whose words begin with their lowest byte: the check with
      its bytes in the other order. */
  method GcrcCalcLittle(crctable: array<Word>, msg: seq<Byte>) returns (crc: Word)
    requires TableOf(crctable[..], true)
    ensures crc == Flip4(Check(msg))
  {
    hide Entry, Xor, DropHigh, DropLow, HighByte, LowByte, ByteXor, Bits, SerialBits, Index, Flip4, Check;
    crc := 0;
    NoMessage();
    FlipNone();
    for k := 0 to |msg|
      invariant crc == Flip4(SerialBits(0, Bits(msg[..k])))
    {
      CheckNext(msg, k);
      ghost var big := SerialBits(0, Bits(msg[..k]));
      FlipParts(big);
      var temp := ByteXor(LowByte(crc), msg[k]);
      FlipXor(DropHigh(big), Entry(temp));
      assert crctable[..][Index(temp)] == Flip4(Entry(temp));
      crc := DropLow(crc);
      crc := Xor(crc, crctable[Index(temp)]);
    }
    assert msg[..|msg|] == msg;
    SerialIsCheck(msg);
  }

  lemma FlipNone()
    ensures Flip4(0) == 0
  {
  }
}
