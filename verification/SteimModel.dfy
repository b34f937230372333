/** Steim-2 words as the compressor packs them and the decompressor reads them
    (SEED Reference Manual, Appendix B).  Samples and differences are 32-bit words and wrap. */
module SteimModel {
  type Word = bv32

  const BIG: Word := 536870911

  /** One row of the compressor's table, less its field width and mask, which are in `Push`:
      samples per word, code, code bits inside the word, largest magnitude that fits. */
  datatype Format = Format(scan: nat, bc: Word, cbits: Word, disc: Word)

  datatype Pair = Pair(code: Word, word: Word)

  function CompSeq(i: nat): (f: Format)
    requires i < 7
    ensures 1 <= f.bc <= 3 && 1 <= f.scan <= 7
  {
    match i
    case 0 => Format(7, 3, 8, 7)
    case 1 => Format(6, 3, 1, 15)
    case 2 => Format(5, 3, 0, 31)
    case 3 => Format(4, 1, 0, 127)
    case 4 => Format(3, 2, 3, 511)
    case 5 => Format(2, 2, 2, 16383)
    case _ => Format(1, 2, 1, BIG)
  }

  /** Appends one difference to a word of format `i`: shifts by the row's field width and
      puts in the difference under the row's mask. */
  function Push(i: nat, accum: Word, d: Word): Word {
    match i
    case 0 => (accum << 4) | (15 & d)
    case 1 => (accum << 5) | (31 & d)
    case 2 => (accum << 6) | (63 & d)
    case 3 => (accum << 8) | (255 & d)
    case 4 => (accum << 10) | (1023 & d)
    case 5 => (accum << 15) | (32767 & d)
    case _ => (accum << 30) | (1073741823 & d)
  }

  /** Samples in a word, by the decompressor's row. */
  function Samps(subcode: nat): nat {
    match subcode
    case 0 => 4 case 1 => 1 case 2 => 2 case 3 => 3 case 4 => 5 case 5 => 6 case _ => 7
  }

  function Mask(subcode: nat): Word {
    match subcode
    case 0 => 255 case 1 => 1073741823 case 2 => 32767 case 3 => 1023 case 4 => 63 case 5 => 31 case _ => 15
  }

  /** A masked field with its sign bit taken as negative. */
  function Signed(subcode: nat, work: Word): Word {
    match subcode
    case 0 => if work & 128 != 0 then work - 256 else work
    case 1 => if work & 536870912 != 0 then work - 1073741824 else work
    case 2 => if work & 16384 != 0 then work - 32768 else work
    case 3 => if work & 512 != 0 then work - 1024 else work
    case 4 => if work & 32 != 0 then work - 64 else work
    case 5 => if work & 16 != 0 then work - 32 else work
    case _ => if work & 8 != 0 then work - 16 else work
  }

  /** The lowest field of a word. */
  function Field(subcode: nat, accum: Word): Word {
    Signed(subcode, accum & Mask(subcode))
  }

  /** The word without its lowest field; a word with one sample is not shifted. */
  function Rest(subcode: nat, accum: Word): Word {
    match subcode
    case 0 => accum >> 8 case 1 => accum >> 0 case 2 => accum >> 15 case 3 => accum >> 10
    case 4 => accum >> 6 case 5 => accum >> 5 case _ => accum >> 4
  }

  function Abs32(d: Word): Word {
    if d >= 0x8000_0000 then -d else d
  }

  /** The compressor's test, with 32-bit signed magnitudes: the magnitude of the most
      negative word is itself negative and so never too large. */
  predicate TooBig(d: Word, disc: Word) {
    Abs32(d) < 0x8000_0000 && Abs32(d) > disc
  }

  /** The difference really is within the format. */
  predicate InRange(d: Word, disc: Word) {
    Abs32(d) <= disc
  }

  function Minus(a: Word, b: Word): Word {
    a - b
  }

  function Plus(a: Word, b: Word): Word {
    a + b
  }

  lemma PlusOf(a: Word, b: Word)
    ensures Plus(a, b - a) == b
  {
  }

  lemma PlusMinus(a: Word, b: Word)
    ensures Plus(a, Minus(b, a)) == b
  {
    hide Plus;
    PlusOf(a, b);
  }

  lemma MinusOf(a: Word, d: Word)
    ensures Minus(a + d, a) == d
  {
  }

  lemma MinusPlus(a: Word, d: Word)
    ensures Minus(Plus(a, d), a) == d
  {
    hide Minus;
    MinusOf(a, d);
  }

  /** The differences of a run of samples after `last`. */
  function Diffs(last: Word, xs: seq<Word>): (ds: seq<Word>)
    ensures |ds| == |xs|
    decreases |xs|
  {
    if xs == [] then [] else [Minus(xs[0], last)] + Diffs(xs[0], xs[1..])
  }

  function Sums(last: Word, ds: seq<Word>): (xs: seq<Word>)
    ensures |xs| == |ds|
    decreases |ds|
  {
    if ds == [] then [] else [Plus(last, ds[0])] + Sums(Plus(last, ds[0]), ds[1..])
  }

  function Pack(i: nat, ds: seq<Word>, accum: Word): Word
    decreases |ds|
  {
    if ds == [] then accum else Pack(i, ds[1..], Push(i, accum, ds[0]))
  }

  /** The `n` lowest fields of a word, highest first. */
  function Unpack(subcode: nat, n: nat, accum: Word): (ds: seq<Word>)
    ensures |ds| == n
  {
    if n == 0 then [] else Unpack(subcode, n - 1, Rest(subcode, accum)) + [Field(subcode, accum)]
  }

  /** The decompressor's row for a code and a word; 7 is no row. */
  function Subcode(p: Pair): (s: nat)
    ensures s < 8
  {
    var top := (p.word >> 30) & 3;
    var k := if top == 0 then 0 else if top == 1 then 1 else if top == 2 then 2 else 3;
    if p.code == 2 then k else if p.code == 3 then 4 + k else 0
  }

  function DecodeWord(last: Word, p: Pair): (xs: seq<Word>)
    ensures |xs| == Samps(Subcode(p))
  {
    Sums(last, Unpack(Subcode(p), Samps(Subcode(p)), p.word))
  }

  function EncodeWord(last: Word, i: nat, xs: seq<Word>): Pair
    requires i < 7
  {
    Pair(CompSeq(i).bc, Pack(i, Diffs(last, xs), CompSeq(i).cbits))
  }

  // ----- one field

  /** The decompressor's row for the compressor's row `i`. */
  function RowOf(i: nat): nat {
    match i
    case 0 => 6 case 1 => 5 case 2 => 4 case 3 => 0 case 4 => 3 case 5 => 2 case _ => 1
  }

  /** The words of format `i` with room for `left` more fields: between the empty and the
      full prefix of a whole word. */
  ghost predicate Holds(i: nat, left: nat, w: Word) {
    match i
    case 0 => Holds4(left, w)
    case 1 => Holds5(left, w)
    case 2 => Holds6(left, w)
    case 3 => Holds8(left, w)
    case 4 => Holds10(left, w)
    case 5 => Holds15(left, w)
    case _ => Holds30(left, w)
  }

  ghost predicate Holds4(left: nat, w: Word) {
    match left
    case 0 => 0x80000000 <= w <= 0x8fffffff
    case 1 => 0x8000000 <= w <= 0x8ffffff
    case 2 => 0x800000 <= w <= 0x8fffff
    case 3 => 0x80000 <= w <= 0x8ffff
    case 4 => 0x8000 <= w <= 0x8fff
    case 5 => 0x800 <= w <= 0x8ff
    case 6 => 0x80 <= w <= 0x8f
    case _ => 0x8 <= w <= 0x8
  }

  lemma Push4(left: nat, w: Word, d: Word)
    requires 1 <= left <= 7 && Holds4(left, w)
    ensures Holds4(left - 1, (w << 4) | (15 & d)) && w <= 0xfffffff
  {
    match left
    case 1 =>
    case 2 =>
    case 3 =>
    case 4 =>
    case 5 =>
    case 6 =>
    case _ =>
  }

  lemma Read4(w: Word, d: Word)
    requires w <= 0xfffffff
    ensures ((w << 4) | (15 & d)) >> 4 == w && ((w << 4) | (15 & d)) & 15 == d & 15
  {
  }

  lemma Sign4(d: Word)
    requires InRange(d, 7)
    ensures Signed(6, d & 15) == d
  {
    if d <= 7 {
      assert d & 15 == d && d & 8 == 0;
    } else {
      assert d & 15 == d + 16 && (d + 16) & 8 == 8;
    }
  }

  ghost predicate Holds5(left: nat, w: Word) {
    match left
    case 0 => 0x40000000 <= w <= 0x7fffffff
    case 1 => 0x2000000 <= w <= 0x3ffffff
    case 2 => 0x100000 <= w <= 0x1fffff
    case 3 => 0x8000 <= w <= 0xffff
    case 4 => 0x400 <= w <= 0x7ff
    case 5 => 0x20 <= w <= 0x3f
    case _ => 0x1 <= w <= 0x1
  }

  lemma Push5(left: nat, w: Word, d: Word)
    requires 1 <= left <= 6 && Holds5(left, w)
    ensures Holds5(left - 1, (w << 5) | (31 & d)) && w <= 0x7ffffff
    ensures ((w << 5) | (31 & d)) >> 5 == w && ((w << 5) | (31 & d)) & 31 == d & 31
  {
    match left
    case 1 =>
    case 2 =>
    case 3 =>
    case 4 =>
    case 5 =>
    case _ =>
  }

  lemma Sign5(d: Word)
    requires InRange(d, 15)
    ensures Signed(5, d & 31) == d
  {
    if d <= 15 {
      assert d & 31 == d && d & 16 == 0;
    } else {
      assert d & 31 == d + 32 && (d + 32) & 16 == 16;
    }
  }

  ghost predicate Holds6(left: nat, w: Word) {
    match left
    case 0 => 0x0 <= w <= 0x3fffffff
    case 1 => 0x0 <= w <= 0xffffff
    case 2 => 0x0 <= w <= 0x3ffff
    case 3 => 0x0 <= w <= 0xfff
    case 4 => 0x0 <= w <= 0x3f
    case _ => 0x0 <= w <= 0x0
  }

  lemma Push6(left: nat, w: Word, d: Word)
    requires 1 <= left <= 5 && Holds6(left, w)
    ensures Holds6(left - 1, (w << 6) | (63 & d)) && w <= 0x3ffffff
    ensures ((w << 6) | (63 & d)) >> 6 == w && ((w << 6) | (63 & d)) & 63 == d & 63
  {
    match left
    case 1 =>
    case 2 =>
    case 3 =>
    case 4 =>
    case _ =>
  }

  lemma Sign6(d: Word)
    requires InRange(d, 31)
    ensures Signed(4, d & 63) == d
  {
    if d <= 31 {
      assert d & 63 == d && d & 32 == 0;
    } else {
      assert d & 63 == d + 64 && (d + 64) & 32 == 32;
    }
  }

  ghost predicate Holds8(left: nat, w: Word) {
    match left
    case 0 => 0x0 <= w <= 0xffffffff
    case 1 => 0x0 <= w <= 0xffffff
    case 2 => 0x0 <= w <= 0xffff
    case 3 => 0x0 <= w <= 0xff
    case _ => 0x0 <= w <= 0x0
  }

  lemma Push8(left: nat, w: Word, d: Word)
    requires 1 <= left <= 4 && Holds8(left, w)
    ensures Holds8(left - 1, (w << 8) | (255 & d)) && w <= 0xffffff
    ensures ((w << 8) | (255 & d)) >> 8 == w && ((w << 8) | (255 & d)) & 255 == d & 255
  {
    match left
    case 1 =>
    case 2 =>
    case 3 =>
    case _ =>
  }

  lemma Sign8(d: Word)
    requires InRange(d, 127)
    ensures Signed(0, d & 255) == d
  {
    if d <= 127 {
      assert d & 255 == d && d & 128 == 0;
    } else {
      assert d & 255 == d + 256 && (d + 256) & 128 == 128;
    }
  }

  ghost predicate Holds10(left: nat, w: Word) {
    match left
    case 0 => 0xc0000000 <= w <= 0xffffffff
    case 1 => 0x300000 <= w <= 0x3fffff
    case 2 => 0xc00 <= w <= 0xfff
    case _ => 0x3 <= w <= 0x3
  }

  lemma Push10(left: nat, w: Word, d: Word)
    requires 1 <= left <= 3 && Holds10(left, w)
    ensures Holds10(left - 1, (w << 10) | (1023 & d)) && w <= 0x3fffff
    ensures ((w << 10) | (1023 & d)) >> 10 == w && ((w << 10) | (1023 & d)) & 1023 == d & 1023
  {
    match left
    case 1 =>
    case 2 =>
    case _ =>
  }

  lemma Sign10(d: Word)
    requires InRange(d, 511)
    ensures Signed(3, d & 1023) == d
  {
    if d <= 511 {
      assert d & 1023 == d && d & 512 == 0;
    } else {
      assert d & 1023 == d + 1024 && (d + 1024) & 512 == 512;
    }
  }

  ghost predicate Holds15(left: nat, w: Word) {
    match left
    case 0 => 0x80000000 <= w <= 0xbfffffff
    case 1 => 0x10000 <= w <= 0x17fff
    case _ => 0x2 <= w <= 0x2
  }

  lemma Push15(left: nat, w: Word, d: Word)
    requires 1 <= left <= 2 && Holds15(left, w)
    ensures Holds15(left - 1, (w << 15) | (32767 & d)) && w <= 0x1ffff
    ensures ((w << 15) | (32767 & d)) >> 15 == w && ((w << 15) | (32767 & d)) & 32767 == d & 32767
  {
    match left
    case 1 =>
    case _ =>
  }

  lemma Sign15(d: Word)
    requires InRange(d, 16383)
    ensures Signed(2, d & 32767) == d
  {
    if d <= 16383 {
      assert d & 32767 == d && d & 16384 == 0;
    } else {
      assert d & 32767 == d + 32768 && (d + 32768) & 16384 == 16384;
    }
  }

  ghost predicate Holds30(left: nat, w: Word) {
    match left
    case 0 => 0x40000000 <= w <= 0x7fffffff
    case _ => 0x1 <= w <= 0x1
  }

  lemma Push30(left: nat, w: Word, d: Word)
    requires 1 <= left <= 1 && Holds30(left, w)
    ensures Holds30(left - 1, (w << 30) | (1073741823 & d)) && w <= 0x3
    ensures ((w << 30) | (1073741823 & d)) >> 30 == w && ((w << 30) | (1073741823 & d)) & 1073741823 == d & 1073741823
  {
    match left
    case _ =>
  }

  lemma Sign30(d: Word)
    requires InRange(d, BIG)
    ensures Signed(1, d & 1073741823) == d
  {
    if d <= BIG {
      assert d & 1073741823 == d && d & 536870912 == 0;
    } else {
      assert d & 1073741823 == d + 1073741824 && (d + 1073741824) & 536870912 == 536870912;
    }
  }

  /** A difference within its format can be read back from the word it was pushed into, and
      so can the word before it. */
  lemma PushRead(i: nat, left: nat, w: Word, d: Word)
    requires i < 7 && 1 <= left <= CompSeq(i).scan && Holds(i, left, w) && InRange(d, CompSeq(i).disc)
    ensures Holds(i, left - 1, Push(i, w, d))
    ensures i < 6 ==> Rest(RowOf(i), Push(i, w, d)) == w
    ensures Field(RowOf(i), Push(i, w, d)) == d
  {
    hide Push, Field, Rest, Holds;
    match i
    case 0 => PushRead0(left, w, d);
    case 1 => PushRead1(left, w, d);
    case 2 => PushRead2(left, w, d);
    case 3 => PushRead3(left, w, d);
    case 4 => PushRead4(left, w, d);
    case 5 => PushRead5(left, w, d);
    case _ => PushRead6(left, w, d);
  }

  lemma PushRead0(left: nat, w: Word, d: Word)
    requires 1 <= left <= 7 && Holds(0, left, w) && InRange(d, 7)
    ensures Holds(0, left - 1, Push(0, w, d)) && Field(6, Push(0, w, d)) == d
    ensures Rest(6, Push(0, w, d)) == w
  {
    hide Holds4, Signed, InRange;
    Push4(left, w, d);
    Read4(w, d);
    Sign4(d);
  }

  lemma PushRead1(left: nat, w: Word, d: Word)
    requires 1 <= left <= 6 && Holds(1, left, w) && InRange(d, 15)
    ensures Holds(1, left - 1, Push(1, w, d)) && Field(5, Push(1, w, d)) == d
    ensures Rest(5, Push(1, w, d)) == w
  {
    hide Holds5, Signed, InRange;
    Push5(left, w, d);
    Sign5(d);
  }

  lemma PushRead2(left: nat, w: Word, d: Word)
    requires 1 <= left <= 5 && Holds(2, left, w) && InRange(d, 31)
    ensures Holds(2, left - 1, Push(2, w, d)) && Field(4, Push(2, w, d)) == d
    ensures Rest(4, Push(2, w, d)) == w
  {
    hide Holds6, Signed, InRange;
    Push6(left, w, d);
    Sign6(d);
  }

  lemma PushRead3(left: nat, w: Word, d: Word)
    requires 1 <= left <= 4 && Holds(3, left, w) && InRange(d, 127)
    ensures Holds(3, left - 1, Push(3, w, d)) && Field(0, Push(3, w, d)) == d
    ensures Rest(0, Push(3, w, d)) == w
  {
    hide Holds8, Signed, InRange;
    Push8(left, w, d);
    Sign8(d);
  }

  lemma PushRead4(left: nat, w: Word, d: Word)
    requires 1 <= left <= 3 && Holds(4, left, w) && InRange(d, 511)
    ensures Holds(4, left - 1, Push(4, w, d)) && Field(3, Push(4, w, d)) == d
    ensures Rest(3, Push(4, w, d)) == w
  {
    hide Holds10, Signed, InRange;
    Push10(left, w, d);
    Sign10(d);
  }

  lemma PushRead5(left: nat, w: Word, d: Word)
    requires 1 <= left <= 2 && Holds(5, left, w) && InRange(d, 16383)
    ensures Holds(5, left - 1, Push(5, w, d)) && Field(2, Push(5, w, d)) == d
    ensures Rest(2, Push(5, w, d)) == w
  {
    hide Holds15, Signed, InRange;
    Push15(left, w, d);
    Sign15(d);
  }

  lemma PushRead6(left: nat, w: Word, d: Word)
    requires 1 <= left <= 1 && Holds(6, left, w) && InRange(d, BIG)
    ensures Holds(6, left - 1, Push(6, w, d)) && Field(1, Push(6, w, d)) == d
  {
    hide Holds30, Signed, InRange;
    Push30(left, w, d);
    Sign30(d);
  }

}
