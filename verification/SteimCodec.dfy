/** What the compressor chooses and what the decompressor gets back. */
module SteimCodec {
  import opened SteimModel

  // ----- one word

  lemma {:induction false} PackLast(i: nat, ds: seq<Word>, accum: Word)
    requires ds != []
    ensures Pack(i, ds, accum) == Push(i, Pack(i, ds[..|ds| - 1], accum), ds[|ds| - 1])
    decreases |ds|
  {
    hide Push;
    if |ds| > 1 {
      assert ds[1..][..|ds| - 2] == ds[..|ds| - 1][1..];
      PackLast(i, ds[1..], Push(i, accum, ds[0]));
    }
  }

  /** The packed differences can all be read back. */
  lemma {:induction false} PackUnpack(i: nat, ds: seq<Word>, accum: Word, left: nat)
    requires i < 7 && |ds| <= left <= CompSeq(i).scan && Holds(i, left, accum)
    requires forall k | 0 <= k < |ds| :: InRange(ds[k], CompSeq(i).disc)
    ensures Holds(i, left - |ds|, Pack(i, ds, accum))
    ensures Unpack(RowOf(i), |ds|, Pack(i, ds, accum)) == ds
    decreases |ds|
  {
    hide Push, Field, Rest, Holds, InRange;
    if ds != [] {
      var n := |ds| - 1;
      PackLast(i, ds, accum);
      PackUnpack(i, ds[..n], accum, left);
      PushRead(i, left - n, Pack(i, ds[..n], accum), ds[n]);
      if i == 6 {
        assert n == 0;
      }
    }
  }

  lemma EmptyHolds(i: nat)
    requires i < 7
    ensures Holds(i, CompSeq(i).scan, CompSeq(i).cbits)
  {
  }

  lemma WholeSubcode(i: nat, w: Word)
    requires i < 7 && Holds(i, 0, w)
    ensures Subcode(Pair(CompSeq(i).bc, w)) == RowOf(i) && Samps(RowOf(i)) == CompSeq(i).scan
  {
  }

  lemma {:induction false} SumsDiffs(last: Word, xs: seq<Word>)
    ensures Sums(last, Diffs(last, xs)) == xs
    decreases |xs|
  {
    hide Plus, Minus;
    if xs != [] {
      PlusMinus(last, xs[0]);
      SumsDiffs(xs[0], xs[1..]);
    }
  }

  /** Every word round-trips when its differences are within its format. */
  lemma WordRoundTrip(last: Word, i: nat, xs: seq<Word>)
    requires i < 7 && |xs| == CompSeq(i).scan
    requires forall k | 0 <= k < |xs| :: InRange(Diffs(last, xs)[k], CompSeq(i).disc)
    ensures DecodeWord(last, EncodeWord(last, i, xs)) == xs
  {
    hide Push, Field, Rest, Holds, InRange, Subcode, Plus, Minus;
    EmptyHolds(i);
    PackUnpack(i, Diffs(last, xs), CompSeq(i).cbits, |xs|);
    WholeSubcode(i, Pack(i, Diffs(last, xs), CompSeq(i).cbits));
    SumsDiffs(last, xs);
  }

  /** The widest format alone: it returns the sample exactly when the difference fits thirty
      bits; the compressor's test lets through one difference that does not. */
  lemma WidestExact(last: Word, x: Word)
    ensures DecodeWord(last, EncodeWord(last, 6, [x])) == [x]
      <==> InRange(Minus(x, last), BIG) || Minus(x, last) == 0xE000_0000
    ensures !TooBig(Minus(x, last), BIG) <==> InRange(Minus(x, last), BIG) || Minus(x, last) == 0x8000_0000
  {
    var d := Minus(x, last);
    var w := Pack(6, [d], 1);
    assert Diffs(last, [x]) == [d];
    WidestPack(d);
    assert Unpack(1, 1, w) == [Field(1, w)] by {
      assert Unpack(1, 0, Rest(1, w)) == [];
    }
    PlusExact(last, Field(1, w), x);
    WidestTest(d);
  }

  lemma PlusExact(last: Word, d: Word, x: Word)
    ensures Sums(last, [d]) == [x] <==> d == Minus(x, last)
  {
    hide Plus, Minus;
    assert Sums(last, [d]) == [Plus(last, d)];
    PlusMinus(last, x);
    MinusPlus(last, d);
  }

  lemma WidestTest(d: Word)
    ensures !TooBig(d, BIG) <==> InRange(d, BIG) || d == 0x8000_0000
  {
  }

  lemma WidestPack(d: Word)
    ensures var w := Pack(6, [d], 1);
      Subcode(Pair(2, w)) == 1 && (Field(1, w) == d <==> InRange(d, BIG) || d == 0xE000_0000)
  {
    hide InRange, Signed;
    var w := (1 << 30) | (1073741823 & d);
    assert Pack(6, [d], 1) == w by {
      assert [d][1..] == [];
      assert Push(6, 1, d) == w;
    }
    WidestBits(d);
    WidestSign(d);
  }

  lemma WidestBits(d: Word)
    ensures (((1 << 30) | (1073741823 & d)) >> 30) & 3 == 1
    ensures ((1 << 30) | (1073741823 & d)) & 1073741823 == 1073741823 & d
  {
  }

  lemma WidestSign(d: Word)
    ensures Signed(1, 1073741823 & d) == d <==> InRange(d, BIG) || d == 0xE000_0000
  {
    if InRange(d, BIG) {
      Sign30(d);
      assert 1073741823 & d == d & 1073741823;
    } else if d != 0xE000_0000 {
      assert 0x2000_0000 <= d < 0xE000_0000;
      SignedWidest(1073741823 & d);
    }
  }

  /** A masked thirty-bit field taken as signed lies below 2^29 or from -2^29 up. */
  lemma SignedWidest(f: Word)
    requires f <= 1073741823
    ensures Signed(1, f) < 0x2000_0000 || 0xE000_0000 <= Signed(1, f)
  {
    if f < 536870912 {
      assert f & 536870912 == 0;
    } else {
      assert f & 536870912 == 536870912;
    }
  }

  // ----- the choice of format

  /** The compressor's test on the first samples of the queue for row `i`. */
  ghost predicate Fits(i: nat, ds: seq<Word>) {
    i < 7 && CompSeq(i).scan <= |ds| && forall k | 0 <= k < CompSeq(i).scan :: !TooBig(ds[k], CompSeq(i).disc)
  }

  lemma FitsUp(i: nat, j: nat, ds: seq<Word>)
    requires Fits(i, ds) && i <= j < 7
    ensures Fits(j, ds)
  {
    hide TooBig;
    forall d
      ensures TooBig(d, CompSeq(j).disc) ==> TooBig(d, CompSeq(i).disc)
    {
      TooBigUp(d, i, j);
    }
    forall k | 0 <= k < CompSeq(j).scan
      ensures !TooBig(ds[k], CompSeq(j).disc)
    {
      assert !TooBig(ds[k], CompSeq(i).disc);
    }
  }

  lemma TooBigUp(d: Word, i: nat, j: nat)
    requires i <= j < 7
    ensures TooBig(d, CompSeq(j).disc) ==> TooBig(d, CompSeq(i).disc)
  {
    assert CompSeq(i).disc <= CompSeq(j).disc;
  }

  /** The first row, of those the queue is long enough for, that the test accepts; the last
      row when none is. */
  ghost function Choose(ds: seq<Word>, i: nat): (c: nat)
    requires i < 7
    ensures i <= c < 7
    ensures c < 6 ==> Fits(c, ds)
    ensures forall j | i <= j < c :: !Fits(j, ds)
    decreases 7 - i
  {
    if Fits(i, ds) || i == 6 then i else Choose(ds, i + 1)
  }

  /** The differences of the samples a choice can look at. */
  function Ahead(last: Word, q: seq<Word>): (ds: seq<Word>)
    ensures |ds| == if |q| < 7 then |q| else 7
  {
    Diffs(last, if |q| < 7 then q else q[..7])
  }

  /** Each word packs as many samples as any of the seven formats allows. */
  lemma ChooseMost(last: Word, q: seq<Word>, i: nat)
    requires Fits(i, Ahead(last, q))
    ensures CompSeq(i).scan <= CompSeq(Choose(Ahead(last, q), 0)).scan
  {
    hide TooBig, Diffs;
    var c := Choose(Ahead(last, q), 0);
    assert i < c ==> !Fits(i, Ahead(last, q));
  }

  /** The words for a whole stream of samples after `last`. */
  ghost function EncodeAll(last: Word, q: seq<Word>): seq<Pair>
    decreases |q|
  {
    if q == [] then []
    else
      var i := Choose(Ahead(last, q), 0);
      var n := CompSeq(i).scan;
      if n > |q| then [] else
      [EncodeWord(last, i, q[..n])] + EncodeAll(q[n - 1], q[n..])
  }

  function LastOf(last: Word, xs: seq<Word>): Word {
    if xs == [] then last else xs[|xs| - 1]
  }

  function DecodePairs(last: Word, ps: seq<Pair>): seq<Word>
    decreases |ps|
  {
    if ps == [] then []
    else
      var xs := DecodeWord(last, ps[0]);
      xs + DecodePairs(LastOf(last, xs), ps[1..])
  }

  /** Neighbouring samples differ by at most 2^29 - 1. */
  ghost predicate Compressible(last: Word, q: seq<Word>) {
    forall k | 0 <= k < |q| :: InRange(Diffs(last, q)[k], BIG)
  }

  lemma {:induction false} DiffsPrefix(last: Word, q: seq<Word>, n: nat)
    requires n <= |q|
    ensures Diffs(last, q[..n]) == Diffs(last, q)[..n]
    ensures n > 0 ==> Diffs(q[n - 1], q[n..]) == Diffs(last, q)[n..]
    decreases |q|
  {
    hide Minus;
    if n > 0 {
      assert q[..n][1..] == q[1..][..n - 1];
      DiffsPrefix(q[0], q[1..], n - 1);
      if n > 1 {
        assert q[1..][n - 1..] == q[n..] && q[1..][n - 2] == q[n - 1];
      }
    }
  }

  lemma NotTooBig(d: Word, disc: Word)
    requires InRange(d, BIG) && !TooBig(d, disc)
    ensures InRange(d, disc)
  {
  }

  lemma FitsRange(d: Word)
    requires InRange(d, BIG)
    ensures !TooBig(d, BIG)
  {
  }

  /** One step on a compressible stream: a whole word that round-trips. */
  lemma StepRoundTrip(last: Word, q: seq<Word>)
    requires q != [] && Compressible(last, q)
    ensures var i := Choose(Ahead(last, q), 0);
      var n := CompSeq(i).scan;
      && 1 <= n <= |q| && Fits(i, Ahead(last, q))
      && DecodeWord(last, EncodeWord(last, i, q[..n])) == q[..n]
      && Compressible(q[n - 1], q[n..])
  {
    hide Minus, InRange, TooBig, EncodeWord, DecodeWord, Samps, Subcode, Diffs;
    var ds := Ahead(last, q);
    var i := Choose(ds, 0);
    AheadPrefix(last, q);
    if i == 6 {
      FitsRange(Diffs(last, q)[0]);
    }
    var n := CompSeq(i).scan;
    DiffsPrefix(last, q, n);
    forall k | 0 <= k < n
      ensures InRange(Diffs(last, q[..n])[k], CompSeq(i).disc)
    {
      assert ds[k] == Diffs(last, q)[k];
      NotTooBig(ds[k], CompSeq(i).disc);
    }
    WordRoundTrip(last, i, q[..n]);
  }

  lemma AheadPrefix(last: Word, q: seq<Word>)
    ensures |Ahead(last, q)| <= |q| && Ahead(last, q) == Diffs(last, q)[..|Ahead(last, q)|]
    ensures q != [] ==> Ahead(last, q) != []
  {
    hide Minus;
    DiffsPrefix(last, q, |Ahead(last, q)|);
    assert q[..|q|] == q;
  }

  /** Compressing a stream and decompressing the words gives the stream back. */
  lemma {:induction false} StreamRoundTrip(last: Word, q: seq<Word>)
    requires Compressible(last, q)
    ensures DecodePairs(last, EncodeAll(last, q)) == q
    decreases |q|
  {
    hide EncodeWord, DecodeWord, Compressible, Fits, Ahead, Samps, Subcode, CompSeq;
    if q != [] {
      StepRoundTrip(last, q);
      var n := CompSeq(Choose(Ahead(last, q), 0)).scan;
      StreamRoundTrip(q[n - 1], q[n..]);
      assert q[..n] + q[n..] == q;
    }
  }
}
