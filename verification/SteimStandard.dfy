/** The layout that the SEED Reference Manual, Appendix B, gives Steim-2 words and their codes,
    written down apart from the compressor and the decompressor, and what these do with it. */
module SteimStandard {
  import opened SteimModel
  import opened SteimCodec
  import opened SteimFrames
  import opened SteimReframe

  // ----- words

  /** A field, the lower half of whose values stand for themselves and the upper half for the
      negative ones. */
  function Extended(f: Word, half: Word): Word {
    if f < half then f else f - half - half
  }

  lemma Unpacked1(s: nat, w: Word)
    ensures Unpack(s, 1, w) == [Field(s, w)]
  {
    assert Unpack(s, 0, Rest(s, w)) == [];
  }

  lemma UnpackedMore(s: nat, n: nat, w: Word)
    ensures Unpack(s, n + 1, w) == Unpack(s, n, Rest(s, w)) + [Field(s, w)]
  {
  }

  /** The fields of a word whose rests are known. */
  lemma {:induction false} FieldsOf(s: nat, ws: seq<Word>)
    requires ws != [] && forall k | 0 <= k < |ws| - 1 :: ws[k + 1] == Rest(s, ws[k])
    ensures |Unpack(s, |ws|, ws[0])| == |ws|
    ensures forall k | 0 <= k < |ws| :: Unpack(s, |ws|, ws[0])[k] == Field(s, ws[|ws| - 1 - k])
    decreases |ws|
  {
    hide Field, Rest;
    if |ws| == 1 {
      Unpacked1(s, ws[0]);
    } else {
      FieldsOf(s, ws[1..]);
      UnpackedMore(s, |ws| - 1, ws[0]);
    }
  }

  lemma Signed8(f: Word)
    requires f <= 255
    ensures Signed(0, f) == Extended(f, 128)
  {
    if f < 128 {
      assert f & 128 == 0;
    } else {
      assert f & 128 == 128;
    }
  }

  lemma Field8(w: Word)
    ensures Field(0, w) == Extended(w & 255, 128)
  {
    hide Signed, Extended;
    assert w & 255 <= 255;
    Signed8(w & 255);
  }

  lemma Rest8_1(w: Word)
    ensures Rest(0, w) == w >> 8
  {
  }

  lemma Rest8_2(w: Word)
    ensures Rest(0, w >> 8) == w >> 16
  {
  }

  lemma Rest8_3(w: Word)
    ensures Rest(0, w >> 16) == w >> 24
  {
  }

  /** Code 1: four differences of eight bits. */
  lemma FourBytes(w: Word)
    ensures Subcode(Pair(1, w)) == 0
    ensures Samps(0) == 4 && |Unpack(0, 4, w)| == 4
    ensures Unpack(0, 4, w)[0] == Extended((w >> 24) & 255, 128)
    ensures Unpack(0, 4, w)[1] == Extended((w >> 16) & 255, 128)
    ensures Unpack(0, 4, w)[2] == Extended((w >> 8) & 255, 128)
    ensures Unpack(0, 4, w)[3] == Extended(w & 255, 128)
  {
    Rest8_1(w);
    Rest8_2(w);
    Rest8_3(w);
    FieldsOf(0, [w, w >> 8, w >> 16, w >> 24]);
    Field8(w);
    Field8(w >> 8);
    Field8(w >> 16);
    Field8(w >> 24);
  }

  lemma Signed30(f: Word)
    requires f <= 1073741823
    ensures Signed(1, f) == Extended(f, 536870912)
  {
    if f < 536870912 {
      assert f & 536870912 == 0;
    } else {
      assert f & 536870912 == 536870912;
    }
  }

  lemma Field30(w: Word)
    ensures Field(1, w) == Extended(w & 1073741823, 536870912)
  {
    hide Signed, Extended;
    assert w & 1073741823 <= 1073741823;
    Signed30(w & 1073741823);
  }

  /** Code 2 with the bits 01: one difference of thirty bits. */
  lemma OneOfThirty(w: Word)
    ensures (w >> 30) & 3 == 1 ==> Subcode(Pair(2, w)) == 1
    ensures Samps(1) == 1 && |Unpack(1, 1, w)| == 1
    ensures Unpack(1, 1, w)[0] == Extended(w & 1073741823, 536870912)
  {
    FieldsOf(1, [w]);
    Field30(w);
  }

  lemma Signed15(f: Word)
    requires f <= 32767
    ensures Signed(2, f) == Extended(f, 16384)
  {
    if f < 16384 {
      assert f & 16384 == 0;
    } else {
      assert f & 16384 == 16384;
    }
  }

  lemma Field15(w: Word)
    ensures Field(2, w) == Extended(w & 32767, 16384)
  {
    hide Signed, Extended;
    assert w & 32767 <= 32767;
    Signed15(w & 32767);
  }

  lemma Rest15_1(w: Word)
    ensures Rest(2, w) == w >> 15
  {
  }

  /** Code 2 with the bits 10: two differences of fifteen bits. */
  lemma TwoOfFifteen(w: Word)
    ensures (w >> 30) & 3 == 2 ==> Subcode(Pair(2, w)) == 2
    ensures Samps(2) == 2 && |Unpack(2, 2, w)| == 2
    ensures Unpack(2, 2, w)[0] == Extended((w >> 15) & 32767, 16384)
    ensures Unpack(2, 2, w)[1] == Extended(w & 32767, 16384)
  {
    Rest15_1(w);
    FieldsOf(2, [w, w >> 15]);
    Field15(w);
    Field15(w >> 15);
  }

  lemma Signed10(f: Word)
    requires f <= 1023
    ensures Signed(3, f) == Extended(f, 512)
  {
    if f < 512 {
      assert f & 512 == 0;
    } else {
      assert f & 512 == 512;
    }
  }

  lemma Field10(w: Word)
    ensures Field(3, w) == Extended(w & 1023, 512)
  {
    hide Signed, Extended;
    assert w & 1023 <= 1023;
    Signed10(w & 1023);
  }

  lemma Rest10_1(w: Word)
    ensures Rest(3, w) == w >> 10
  {
  }

  lemma Rest10_2(w: Word)
    ensures Rest(3, w >> 10) == w >> 20
  {
  }

  /** Code 2 with the bits 11: three differences of ten bits. */
  lemma ThreeOfTen(w: Word)
    ensures (w >> 30) & 3 == 3 ==> Subcode(Pair(2, w)) == 3
    ensures Samps(3) == 3 && |Unpack(3, 3, w)| == 3
    ensures Unpack(3, 3, w)[0] == Extended((w >> 20) & 1023, 512)
    ensures Unpack(3, 3, w)[1] == Extended((w >> 10) & 1023, 512)
    ensures Unpack(3, 3, w)[2] == Extended(w & 1023, 512)
  {
    Rest10_1(w);
    Rest10_2(w);
    FieldsOf(3, [w, w >> 10, w >> 20]);
    Field10(w);
    Field10(w >> 10);
    Field10(w >> 20);
  }

  lemma Signed6(f: Word)
    requires f <= 63
    ensures Signed(4, f) == Extended(f, 32)
  {
    if f < 32 {
      assert f & 32 == 0;
    } else {
      assert f & 32 == 32;
    }
  }

  lemma Field6(w: Word)
    ensures Field(4, w) == Extended(w & 63, 32)
  {
    hide Signed, Extended;
    assert w & 63 <= 63;
    Signed6(w & 63);
  }

  lemma Rest6_1(w: Word)
    ensures Rest(4, w) == w >> 6
  {
  }

  lemma Rest6_2(w: Word)
    ensures Rest(4, w >> 6) == w >> 12
  {
  }

  lemma Rest6_3(w: Word)
    ensures Rest(4, w >> 12) == w >> 18
  {
  }

  lemma Rest6_4(w: Word)
    ensures Rest(4, w >> 18) == w >> 24
  {
  }

  /** Code 3 with the bits 00: five differences of six bits. */
  lemma FiveOfSix(w: Word)
    ensures (w >> 30) & 3 == 0 ==> Subcode(Pair(3, w)) == 4
    ensures Samps(4) == 5 && |Unpack(4, 5, w)| == 5
    ensures Unpack(4, 5, w)[0] == Extended((w >> 24) & 63, 32)
    ensures Unpack(4, 5, w)[1] == Extended((w >> 18) & 63, 32)
    ensures Unpack(4, 5, w)[2] == Extended((w >> 12) & 63, 32)
    ensures Unpack(4, 5, w)[3] == Extended((w >> 6) & 63, 32)
    ensures Unpack(4, 5, w)[4] == Extended(w & 63, 32)
  {
    Rest6_1(w);
    Rest6_2(w);
    Rest6_3(w);
    Rest6_4(w);
    FieldsOf(4, [w, w >> 6, w >> 12, w >> 18, w >> 24]);
    Field6(w);
    Field6(w >> 6);
    Field6(w >> 12);
    Field6(w >> 18);
    Field6(w >> 24);
  }

  lemma Signed5(f: Word)
    requires f <= 31
    ensures Signed(5, f) == Extended(f, 16)
  {
    if f < 16 {
      assert f & 16 == 0;
    } else {
      assert f & 16 == 16;
    }
  }

  lemma Field5(w: Word)
    ensures Field(5, w) == Extended(w & 31, 16)
  {
    hide Signed, Extended;
    assert w & 31 <= 31;
    Signed5(w & 31);
  }

  lemma Rest5_1(w: Word)
    ensures Rest(5, w) == w >> 5
  {
  }

  lemma Rest5_2(w: Word)
    ensures Rest(5, w >> 5) == w >> 10
  {
  }

  lemma Rest5_3(w: Word)
    ensures Rest(5, w >> 10) == w >> 15
  {
  }

  lemma Rest5_4(w: Word)
    ensures Rest(5, w >> 15) == w >> 20
  {
  }

  lemma Rest5_5(w: Word)
    ensures Rest(5, w >> 20) == w >> 25
  {
  }

  /** Code 3 with the bits 01: six differences of five bits. */
  lemma SixOfFive(w: Word)
    ensures (w >> 30) & 3 == 1 ==> Subcode(Pair(3, w)) == 5
    ensures Samps(5) == 6 && |Unpack(5, 6, w)| == 6
    ensures Unpack(5, 6, w)[0] == Extended((w >> 25) & 31, 16)
    ensures Unpack(5, 6, w)[1] == Extended((w >> 20) & 31, 16)
    ensures Unpack(5, 6, w)[2] == Extended((w >> 15) & 31, 16)
    ensures Unpack(5, 6, w)[3] == Extended((w >> 10) & 31, 16)
    ensures Unpack(5, 6, w)[4] == Extended((w >> 5) & 31, 16)
    ensures Unpack(5, 6, w)[5] == Extended(w & 31, 16)
  {
    Rest5_1(w);
    Rest5_2(w);
    Rest5_3(w);
    Rest5_4(w);
    Rest5_5(w);
    FieldsOf(5, [w, w >> 5, w >> 10, w >> 15, w >> 20, w >> 25]);
    Field5(w);
    Field5(w >> 5);
    Field5(w >> 10);
    Field5(w >> 15);
    Field5(w >> 20);
    Field5(w >> 25);
  }

  lemma Signed4(f: Word)
    requires f <= 15
    ensures Signed(6, f) == Extended(f, 8)
  {
    if f < 8 {
      assert f & 8 == 0;
    } else {
      assert f & 8 == 8;
    }
  }

  lemma Field4(w: Word)
    ensures Field(6, w) == Extended(w & 15, 8)
  {
    hide Signed, Extended;
    assert w & 15 <= 15;
    Signed4(w & 15);
  }

  lemma Rest4_1(w: Word)
    ensures Rest(6, w) == w >> 4
  {
  }

  lemma Rest4_2(w: Word)
    ensures Rest(6, w >> 4) == w >> 8
  {
  }

  lemma Rest4_3(w: Word)
    ensures Rest(6, w >> 8) == w >> 12
  {
  }

  lemma Rest4_4(w: Word)
    ensures Rest(6, w >> 12) == w >> 16
  {
  }

  lemma Rest4_5(w: Word)
    ensures Rest(6, w >> 16) == w >> 20
  {
  }

  lemma Rest4_6(w: Word)
    ensures Rest(6, w >> 20) == w >> 24
  {
  }

  /** Code 3 with the bits 10: seven differences of four bits. */
  lemma SevenOfFour(w: Word)
    ensures (w >> 30) & 3 == 2 ==> Subcode(Pair(3, w)) == 6
    ensures Samps(6) == 7 && |Unpack(6, 7, w)| == 7
    ensures Unpack(6, 7, w)[0] == Extended((w >> 24) & 15, 8)
    ensures Unpack(6, 7, w)[1] == Extended((w >> 20) & 15, 8)
    ensures Unpack(6, 7, w)[2] == Extended((w >> 16) & 15, 8)
    ensures Unpack(6, 7, w)[3] == Extended((w >> 12) & 15, 8)
    ensures Unpack(6, 7, w)[4] == Extended((w >> 8) & 15, 8)
    ensures Unpack(6, 7, w)[5] == Extended((w >> 4) & 15, 8)
    ensures Unpack(6, 7, w)[6] == Extended(w & 15, 8)
  {
    Rest4_1(w);
    Rest4_2(w);
    Rest4_3(w);
    Rest4_4(w);
    Rest4_5(w);
    Rest4_6(w);
    FieldsOf(6, [w, w >> 4, w >> 8, w >> 12, w >> 16, w >> 20, w >> 24]);
    Field4(w);
    Field4(w >> 4);
    Field4(w >> 8);
    Field4(w >> 12);
    Field4(w >> 16);
    Field4(w >> 20);
    Field4(w >> 24);
  }

  /** Each sample is the one before it plus its difference. */
  lemma SampleBySample(last: Word, ds: seq<Word>, k: nat)
    requires k < |ds|
    ensures Sums(last, ds)[k] == Plus(if k == 0 then last else Sums(last, ds)[k - 1], ds[k])
  {
    hide Plus;
    SumsNext(last, ds, k);
  }

  lemma PlusIs(a: Word, d: Word)
    ensures Plus(a, d) == a + d
  {
  }

  // ----- the compressor's choice

  /** The largest magnitude of a difference when a word has `n` of them. */
  function Largest(n: nat): Word {
    match n
    case 7 => 7 case 6 => 15 case 5 => 31 case 4 => 127 case 3 => 511 case 2 => 16383 case _ => 536870911
  }

  /** A difference from `-size` to `size`. */
  predicate Within(d: Word, size: Word) {
    d <= size || d >= -size
  }

  /** The difference of a sample to the one before. */
  function Difference(last: Word, q: seq<Word>, k: nat): Word
    requires k < |q|
  {
    Minus(q[k], if k == 0 then last else q[k - 1])
  }

  /** The first `n` differences to the sample before are small enough for a word of `n`. */
  ghost predicate Small(last: Word, q: seq<Word>, n: nat) {
    && n <= |q|
    && forall k | 0 <= k < n :: Within(Difference(last, q, k), Largest(n))
  }

  lemma {:induction false} DiffsAt(last: Word, q: seq<Word>, k: nat)
    requires k < |q|
    ensures Diffs(last, q)[k] == Difference(last, q, k)
    decreases |q|
  {
    hide Minus;
    if k > 0 {
      DiffsAt(q[0], q[1..], k - 1);
    }
  }

  lemma MinusIs(a: Word, b: Word)
    ensures Minus(a, b) == a - b
  {
  }

  lemma SmallRange(d: Word, n: nat)
    ensures InRange(d, Largest(n)) <==> Within(d, Largest(n))
  {
    match n
    case 7 => case 6 => case 5 => case 4 => case 3 => case 2 => case _ =>
  }

  lemma RowSmall(last: Word, q: seq<Word>, i: nat)
    requires i < 7 && Compressible(last, q)
    ensures CompSeq(i).scan == 7 - i && CompSeq(i).disc == Largest(7 - i)
    ensures Fits(i, Ahead(last, q)) <==> Small(last, q, 7 - i)
  {
    hide InRange, TooBig, Diffs, Compressible, Difference, Within, Largest;
    var n, ds := 7 - i, Ahead(last, q);
    RowIs(i);
    AheadPrefix(last, q);
    forall k | 0 <= k < |ds|
      ensures TooBig(ds[k], CompSeq(i).disc) <==> !Within(Difference(last, q, k), Largest(n))
    {
      DiffsAt(last, q, k);
      RangeOf(last, q, k);
      SmallRange(ds[k], n);
      TestExact(ds[k], CompSeq(i).disc);
    }
    if Fits(i, ds) {
      forall k | 0 <= k < n
        ensures Within(Difference(last, q, k), Largest(n))
      {
        assert !TooBig(ds[k], CompSeq(i).disc);
      }
    }
    if Small(last, q, n) {
      forall k | 0 <= k < CompSeq(i).scan
        ensures !TooBig(ds[k], CompSeq(i).disc)
      {
        assert Within(Difference(last, q, k), Largest(n));
      }
    }
  }

  lemma RowIs(i: nat)
    requires i < 7
    ensures CompSeq(i).scan == 7 - i && CompSeq(i).disc == Largest(7 - i)
  {
  }

  lemma RangeOf(last: Word, q: seq<Word>, k: nat)
    requires Compressible(last, q) && k < |q|
    ensures InRange(Diffs(last, q)[k], BIG)
  {
  }

  lemma TestExact(d: Word, disc: Word)
    requires InRange(d, BIG)
    ensures TooBig(d, disc) <==> !InRange(d, disc)
  {
  }

  /** A word gets as many samples as have small enough differences for so many, up to seven. */
  lemma StandardChoice(last: Word, q: seq<Word>)
    requires q != [] && Compressible(last, q)
    ensures var n := CompSeq(Choose(Ahead(last, q), 0)).scan;
      1 <= n <= 7 && Small(last, q, n) && forall m | n < m <= 7 :: !Small(last, q, m)
  {
    hide Small, Ahead, Fits, CompSeq, Compressible;
    var c := Choose(Ahead(last, q), 0);
    StepRoundTrip(last, q);
    RowSmall(last, q, c);
    forall m | 7 - c < m <= 7
      ensures !Small(last, q, m)
    {
      RowSmall(last, q, 7 - m);
    }
  }

  // ----- the codes of a blockette

  /** A code of two bits. */
  function Narrow(code: Word): (m: Map)
    ensures m <= 3
  {
    if code == 0 then 0 else if code == 1 then 1 else if code == 2 then 2 else 3
  }

  /** A map word of eight codes, shifted in one behind the other, first one highest. */
  function MapOf(a: Map, b: Map, c: Map, d: Map, e: Map, f: Map, g: Map, h: Map): Map {
    ((((((((((((((a << 2) | b) << 2) | c) << 2) | d) << 2) | e) << 2) | f) << 2) | g) << 2) | h)
  }

  lemma MapBits(a: Map, b: Map, c: Map, d: Map, e: Map, f: Map, g: Map, h: Map)
    requires a <= 3 && b <= 3 && c <= 3 && d <= 3 && e <= 3 && f <= 3 && g <= 3 && h <= 3
    ensures var m := MapOf(a, b, c, d, e, f, g, h);
      && (m >> 14) & 3 == a && (m >> 12) & 3 == b && (m >> 10) & 3 == c && (m >> 8) & 3 == d
      && (m >> 6) & 3 == e && (m >> 4) & 3 == f && (m >> 2) & 3 == g && m & 3 == h
  {
  }

  /** The code of word `k` of a blockette, zero behind the last one. */
  function CodeAt(codes: seq<Word>, k: nat): (m: Map)
    ensures m <= 3
  {
    if k < |codes| then Narrow(codes[k]) else 0
  }

  /** The map words of a blockette: eight codes in each. */
  function MapsOf(codes: seq<Word>): (maps: seq<Map>)
    ensures |codes| <= 8 * |maps| < |codes| + 8
  {
    seq((|codes| + 7) / 8, j requires 0 <= j =>
      MapOf(CodeAt(codes, 8 * j), CodeAt(codes, 8 * j + 1), CodeAt(codes, 8 * j + 2), CodeAt(codes, 8 * j + 3),
        CodeAt(codes, 8 * j + 4), CodeAt(codes, 8 * j + 5), CodeAt(codes, 8 * j + 6), CodeAt(codes, 8 * j + 7)))
  }

  lemma SameBits(b: Map, c: Map)
    requires c <= 3 && b & 3 == c
    ensures TwoBits(b) == TwoBits(c)
  {
    assert c & 3 == c;
  }

  /** Two bits of a map word. */
  function Part(m: Map, k: nat): Map {
    match k
    case 0 => m >> 14 case 1 => m >> 12 case 2 => m >> 10 case 3 => m >> 8
    case 4 => m >> 6 case 5 => m >> 4 case 6 => m >> 2 case _ => m
  }

  lemma CodeOf(m: Map, k: nat)
    requires k < 8
    ensures CodeIn(m, 2 * k) == TwoBits(Part(m, k))
  {
    hide TwoBits;
  }

  lemma MapPart(cs: seq<Map>, k: nat)
    requires |cs| == 8 && k < 8 && forall j | 0 <= j < 8 :: cs[j] <= 3
    ensures Part(MapOf(cs[0], cs[1], cs[2], cs[3], cs[4], cs[5], cs[6], cs[7]), k) & 3 == cs[k]
  {
    hide MapOf, Part;
    MapParts(cs[0], cs[1], cs[2], cs[3], cs[4], cs[5], cs[6], cs[7]);
    match k
    case 0 => case 1 => case 2 => case 3 => case 4 => case 5 => case 6 => case _ =>
  }

  lemma MapParts(a: Map, b: Map, c: Map, d: Map, e: Map, f: Map, g: Map, h: Map)
    requires a <= 3 && b <= 3 && c <= 3 && d <= 3 && e <= 3 && f <= 3 && g <= 3 && h <= 3
    ensures var m := MapOf(a, b, c, d, e, f, g, h);
      && Part(m, 0) & 3 == a && Part(m, 1) & 3 == b && Part(m, 2) & 3 == c && Part(m, 3) & 3 == d
      && Part(m, 4) & 3 == e && Part(m, 5) & 3 == f && Part(m, 6) & 3 == g && Part(m, 7) & 3 == h
  {
    hide MapOf;
    MapBits(a, b, c, d, e, f, g, h);
  }

  lemma Widened(code: Word)
    requires code <= 3
    ensures TwoBits(Narrow(code)) == code
  {
  }

  /** Code `k` of eight is at bits 15 - 2k and 14 - 2k of its map word. */
  lemma MapRead(codes: seq<Word>, k: nat)
    requires k < |codes| && codes[k] <= 3
    ensures CodeIn(MapsOf(codes)[k / 8], 2 * (k % 8)) == codes[k]
  {
    hide TwoBits, MapOf, Narrow, CodeIn, Part;
    var j := k / 8;
    var cs := seq(8, i requires 0 <= i => CodeAt(codes, 8 * j + i));
    forall i | 0 <= i < 8
      ensures cs[i] <= 3
    {
      assert cs[i] == CodeAt(codes, 8 * j + i);
    }
    MapPart(cs, k % 8);
    CodeOf(MapsOf(codes)[j], k % 8);
    SameBits(Part(MapsOf(codes)[j], k % 8), cs[k % 8]);
    Widened(codes[k]);
    assert 8 * j + 0 == 8 * j;
  }

  /** A blockette packed from code-word pairs has just these pairs, however many there are. */
  lemma PackedSource(ps: seq<Pair>)
    requires forall k | 0 <= k < |ps| :: ps[k].code <= 3
    ensures var codes, words := seq(|ps|, k requires 0 <= k < |ps| => ps[k].code),
        seq(|ps|, k requires 0 <= k < |ps| => ps[k].word);
      |words| <= 8 * |MapsOf(codes)| && Source(MapsOf(codes), words) == ps
  {
    hide MapsOf, CodeIn;
    var codes := seq(|ps|, k requires 0 <= k < |ps| => ps[k].code);
    var words := seq(|ps|, k requires 0 <= k < |ps| => ps[k].word);
    var source := Source(MapsOf(codes), words);
    forall k | 0 <= k < |ps|
      ensures source[k] == ps[k]
    {
      MapRead(codes, k);
    }
  }

  /** A blockette of two words, the first with code 2 and the second with code 1, after sample 0. */
  lemma TwoWords()
    ensures var ps := Source([0x9000], [0x4000_0005, 0x0102_0304]);
      && ps == [Pair(2, 0x4000_0005), Pair(1, 0x0102_0304)] && DecodePairs(0, ps) == [5, 6, 8, 11, 15]
  {
    var p, q := Pair(2, 0x4000_0005), Pair(1, 0x0102_0304);
    OneOfThirty(0x4000_0005);
    FourBytes(0x0102_0304);
    assert Unpack(0, 4, 0x0102_0304) == [1, 2, 3, 4];
    assert DecodePairs(0, [p, q]) == DecodeWord(0, p) + DecodePairs(5, [q]);
    assert DecodePairs(5, [q]) == DecodeWord(5, q) + [];
  }
}
