/** What the frames of a channel can be read as. */
module SteimReadings {
  import opened SteimModel
  import opened SteimCodec
  import opened SteimFrames
  import opened Steim
  import opened SteimRecords
  import opened SteimReframe

  /** Every word has a code, so that a reader of its frame does not pass over it. */
  predicate Coded(ps: seq<Pair>) {
    forall k | 0 <= k < |ps| :: ps[k].code != 0
  }

  lemma {:induction false} DataAll(ps: seq<Pair>)
    requires Coded(ps)
    ensures Data(ps) == ps
  {
    if ps != [] {
      DataAll(ps[1..]);
    }
  }

  lemma LastOfAppend(last: Word, xs: seq<Word>, ys: seq<Word>)
    ensures LastOf(last, []) == last
    ensures LastOf(last, xs + ys) == LastOf(LastOf(last, xs), ys)
  {
  }

  lemma {:induction false} DecodeSplit(last: Word, ps: seq<Pair>, qs: seq<Pair>)
    ensures DecodePairs(last, ps + qs) == DecodePairs(last, ps) + DecodePairs(LastOf(last, DecodePairs(last, ps)), qs)
    decreases |ps|
  {
    hide DecodeWord, LastOf;
    if ps == [] {
      assert ps + qs == qs;
      LastOfAppend(last, [], []);
    } else {
      var xs := DecodeWord(last, ps[0]);
      assert (ps + qs)[1..] == ps[1..] + qs;
      DecodeSplit(LastOf(last, xs), ps[1..], qs);
      LastOfAppend(last, xs, DecodePairs(LastOf(last, xs), ps[1..]));
    }
  }

  lemma StartOf(first: Word, ps: seq<Pair>)
    ensures DecodePairs(first, ps[..0]) == [] && Total(ps[..0]) == 0
  {
  }

  /** Words without a code are decompressed, but a reader of the record passes over them: it has the
      same samples exactly when every word has a code. */
  lemma ReaderExact(last: Word, ps: seq<Pair>)
    ensures DecodePairs(last, Data(ps)) == DecodePairs(last, ps) <==> Coded(ps)
  {
    hide DecodePairs, Data, Unpacked, Total, Sums;
    TotalIs(last, ps);
    DecodeIsSums(last, Data(ps));
    CodedCount(ps);
    if Coded(ps) {
      DataAll(ps);
    }
  }

  lemma WordWithoutCode(x: Word)
    ensures var ps := [Pair(0, 0)]; |DecodePairs(x, ps)| == 4 && DecodePairs(x, Data(ps)) == []
  {
    hide DecodeWord;
    assert Data([Pair(0, 0)]) == [] + Data([]);
  }

  /** Words give the same samples after another sample only if there are none. */
  lemma ContinuesExact(a: Word, b: Word, ps: seq<Pair>)
    ensures DecodePairs(a, ps) == DecodePairs(b, ps) <==> a == b || ps == []
  {
    hide Unpacked, Total, DecodePairs, Sums;
    StartOf(a, ps);
    StartOf(b, ps);
    assert ps == [] ==> ps == ps[..0];
    DecodeIsSums(a, ps);
    DecodeIsSums(b, ps);
    TotalIs(a, ps);
    if ps != [] && DecodePairs(a, ps) == DecodePairs(b, ps) {
      TotalUp(ps, 0, |ps|);
      NoTotal();
      assert ps[..0] == [] && ps[..|ps|] == ps;
      PlusOnce(a, b, Unpacked(ps));
    }
  }

  lemma PlusOnce(a: Word, b: Word, ds: seq<Word>)
    requires ds != [] && Sums(a, ds) == Sums(b, ds)
    ensures a == b
  {
    hide Plus, Minus;
    assert Sums(a, ds)[0] == Plus(a, ds[0]) && Sums(b, ds)[0] == Plus(b, ds[0]);
    PlusBack(a, ds[0]);
    PlusBack(b, ds[0]);
  }

  lemma PlusBack(a: Word, d: Word)
    ensures Minus(Plus(a, d), d) == a
  {
    hide Minus;
    assert Plus(a, d) == Plus(d, a);
    MinusPlus(d, a);
  }

  /** Words without a code are lost to a reader, and no others. */
  lemma {:induction false} CodedCount(ps: seq<Pair>)
    ensures |Unpacked(Data(ps))| <= Total(ps) && (|Unpacked(Data(ps))| == Total(ps) <==> Coded(ps))
    decreases |ps|
  {
    hide Unpack, Subcode;
    if ps == [] {
      NoWords();
    } else {
      var n := |ps| - 1;
      CodedCount(ps[..n]);
      assert ps == ps[..n] + [ps[n]];
      DataAppend(ps[..n], [ps[n]]);
      UnpackedAppend(Data(ps[..n]), Data([ps[n]]));
      OneWord(ps[n]);
    }
  }

  lemma OneWord(p: Pair)
    ensures |Unpacked(Data([p]))| == if p.code == 0 then 0 else Samps(Subcode(p))
  {
    hide Unpack, Subcode, Samps;
    if p.code == 0 {
      assert Data([p]) == Data([]);
      NoWords();
    } else {
      assert Data([p]) == [p] && Unpacked([p][1..]) == [];
    }
  }

  /** A channel that had the samples `fed` has them and `xs` only if the words put into it since
      have as many. */
  lemma ExplainedOf(q: Channel, words: seq<Pair>, fed: seq<Word>, ws: seq<Pair>, xs: seq<Word>)
    requires q.com.Valid() && q.Words() == words + ws && |fed| == |Unpacked(Data(words))| && q.Explained(fed + xs)
    ensures |xs| == |Unpacked(Data(ws))|
  {
    hide Unpacked, Data;
    q.ExplainedCount(fed + xs);
    DataAppend(words, ws);
    UnpackedAppend(Data(words), Data(ws));
  }

  // ----- a record has one reading

  lemma ReadOnce(records: seq<Record>, xss: seq<seq<Word>>, starts: seq<Word>, front: seq<Record>, yss: seq<seq<Word>>,
                 bases: seq<Word>)
    requires AllRead(records, xss, starts) && front <= records && AllRead(front, yss, bases)
    ensures xss[..|front|] == yss
  {
    hide StartsRecord, DecodeRecord, Continues;
    forall k | 0 <= k < |front|
      ensures xss[k] == yss[k]
    {
      assert Filed(records[k], xss[k], starts[k]) && Filed(front[k], yss[k], bases[k]);
    }
  }

  lemma {:induction false} FlatFront(xss: seq<seq<Word>>, k: nat)
    requires k < |xss|
    ensures Flat(xss[..k]) + xss[k] <= Flat(xss)
    decreases |xss|
  {
    var n := |xss| - 1;
    if k < n {
      FlatFront(xss[..n], k);
      assert xss[..n][..k] == xss[..k];
    }
  }

  /** A record's samples from its words and its first sample. */
  ghost predicate FromWords(xs: seq<Word>, x: Word, ps: seq<Pair>) {
    var ds := Unpacked(Data(ps));
    ds != [] && xs == [x] + Sums(x, ds[1..])
  }

  lemma DecodedFromWords(start: Word, ps: seq<Pair>, xs: seq<Word>, last: Word)
    requires DecodesTo(start, Data(ps), xs, last) && xs != []
    ensures FromWords(xs, xs[0], ps)
  {
    hide Unpacked, Data, Plus;
    DecodeIsSums(start, Data(ps));
  }

  lemma ReadFromWords(rec: seq<Frame>, xs: seq<Word>)
    requires Reads(rec, xs)
    ensures FromWords(xs, rec[0][1], RecordPairs(rec))
  {
    hide Unpacked, Data, Sums, StartsRecord;
  }

  /** A record that goes on with one more word after some samples has the word's samples behind them. */
  lemma WordBehind(ys: seq<Word>, x: Word, ps: seq<Pair>, taken: seq<Word>, held: seq<Pair>, p: Pair)
    requires FromWords(ys, x, ps) && FromWords(taken, x, held) && held + [p] <= ps && p.code != 0
    ensures taken + DecodeWord(taken[|taken| - 1], p) <= ys
  {
    hide Unpacked, Data, Unpack, Subcode, Samps, Sums;
    var rest := ps[|held| + 1..];
    OneWordUnpacked(p);
    assert ps == (held + [p]) + rest && Data([p]) == [p];
    DataAppend(held + [p], rest);
    DataAppend(held, [p]);
    UnpackedAppend(Data(held) + [p], Data(rest));
    UnpackedAppend(Data(held), [p]);
    var ds, es, fs := Unpacked(Data(held)), Unpacked([p]), Unpacked(Data(rest));
    assert (ds + es + fs)[1..] == ds[1..] + (es + fs);
    SumsAppend(x, ds[1..], es + fs);
    SumsAppend(LastOf(x, Sums(x, ds[1..])), es, fs);
  }

  lemma OneWordUnpacked(p: Pair)
    ensures Unpacked([p]) == Unpack(Subcode(p), Samps(Subcode(p)), p.word)
    ensures p.code != 0 ==> Data([p]) == [p]
  {
    hide Unpack, Subcode, Samps;
    assert Unpacked([p][1..]) == [];
  }

  /** A channel with a record that went on with one more word has its samples behind those before. */
  lemma ExplainedBehind(q: Channel, k: nat, x: Word, held: seq<Pair>, p: Pair, records: seq<Record>,
                        written: seq<seq<Word>>, bases: seq<Word>, taken: seq<Word>, base: Word, last: Word,
                        xs: seq<Word>)
    requires q.com.Valid() && q.Began(k, x, held + [p]) && p.code != 0 && k == |records| && records <= q.records
    requires AllRead(records, written, bases) && DecodesTo(base, Data(held), taken, last)
    requires taken != [] && taken[0] == x && q.Explained(Flat(written) + taken + xs)
    ensures DecodeWord(last, p) <= xs
  {
    hide AllRead, Data, DecodesTo, Flat, FromWords, DecodeWord, Reads, Continues;
    var start, zs, xss, starts :|
      q.Explains(start, zs, xss, starts) && Flat(written) + taken + xs == Flat(xss) + zs;
    SameCounts(q.records, xss, starts);
    ReadOnce(q.records, xss, starts, records, written, bases);
    DecodedFromWords(base, held, taken, last);
    LastHeld(base, Data(held), taken, last);
    var ys;
    if k < |q.records| {
      ys := xss[k];
      FlatFront(xss, k);
      FiledReads(q.records, xss, starts, k);
      ReadFromWords(q.records[k].data, ys);
      WordBehind(ys, x, RecordPairs(q.records[k].data), taken, held, p);
    } else {
      ys := zs;
      assert xss[..k] == xss;
      DecodedFromWords(start, q.com.Pairs(), zs, q.com.lastSample);
      WordBehind(ys, x, q.com.Pairs(), taken, held, p);
    }
    PrefixBehind(Flat(written), taken, xs, ys, DecodeWord(last, p), Flat(xss) + zs);
  }

  lemma SameCounts(records: seq<Record>, xss: seq<seq<Word>>, starts: seq<Word>)
    requires AllRead(records, xss, starts)
    ensures |records| == |xss| == |starts|
  {
  }

  lemma FiledReads(records: seq<Record>, xss: seq<seq<Word>>, starts: seq<Word>, k: nat)
    requires AllRead(records, xss, starts) && k < |records| && records[k].data != []
    ensures |xss| == |records| && Reads(records[k].data, xss[k])
  {
    hide Reads, Continues;
    assert Filed(records[k], xss[k], starts[k]);
  }

  lemma PrefixBehind(a: seq<Word>, b: seq<Word>, c: seq<Word>, ys: seq<Word>, d: seq<Word>, all: seq<Word>)
    requires all == a + b + c && a + ys <= all && b + d <= ys
    ensures d <= c
  {
    assert all[|a|..] == b + c;
    assert all[..|a + ys|][|a|..] == ys;
    assert forall i | 0 <= i < |ys| :: ys[i] == all[|a| + i];
    assert forall i | 0 <= i < |d| :: ys[|b| + i] == d[i];
    assert forall i | 0 <= i < |d| :: all[|a| + |b| + i] == c[i];
  }
}
