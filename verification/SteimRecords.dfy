/** Records of data frames: what a reader gets back from them, and the channel that fills them. */
module SteimRecords {
  import opened SteimModel
  import opened SteimCodec
  import opened SteimFrames
  import opened Steim
  import opened Circle

  /** All the differences in a series of words. */
  function Unpacked(ps: seq<Pair>): seq<Word> {
    if ps == [] then [] else Unpack(Subcode(ps[0]), Samps(Subcode(ps[0])), ps[0].word) + Unpacked(ps[1..])
  }

  /** A record on its own: the first sample from word 1 of the first data frame, and every
      other from its difference to the one before. */
  ghost function DecodeRecord(rec: seq<Frame>): seq<Word> {
    var ds := Unpacked(Data(RecordPairs(rec)));
    if rec == [] || ds == [] then [] else [rec[0][1]] + Sums(rec[0][1], ds[1..])
  }

  /** The record's first difference is that of the samples to `base`. */
  ghost predicate Continues(rec: seq<Frame>, xs: seq<Word>, base: Word) {
    var ds := Unpacked(Data(RecordPairs(rec)));
    xs != [] && ds != [] && ds[0] == Minus(xs[0], base)
  }

  /** The record decodes to the samples, and has the first and the last of them in its first
      data frame. */
  ghost predicate Reads(rec: seq<Frame>, xs: seq<Word>) {
    && rec != [] && xs != [] && StartsRecord(rec[0])
    && rec[0][1] == xs[0] && rec[0][2] == xs[|xs| - 1] && DecodeRecord(rec) == xs
  }

  function Flat(xss: seq<seq<Word>>): seq<Word> {
    if xss == [] then [] else Flat(xss[..|xss| - 1]) + xss[|xss| - 1]
  }

  lemma {:induction false} SumsAppend(last: Word, a: seq<Word>, b: seq<Word>)
    ensures Sums(last, a + b) == Sums(last, a) + Sums(LastOf(last, Sums(last, a)), b)
    decreases |a|
  {
    hide Plus;
    if a == [] {
      assert a + b == b;
    } else {
      assert (a + b)[1..] == a[1..] + b;
      SumsAppend(Plus(last, a[0]), a[1..], b);
    }
  }

  lemma {:induction false} DecodeIsSums(last: Word, ps: seq<Pair>)
    ensures DecodePairs(last, ps) == Sums(last, Unpacked(ps))
    decreases |ps|
  {
    hide Subcode, Samps, Unpack, Sums;
    if ps == [] {
      assert Sums(last, []) == [];
    } else {
      var xs := DecodeWord(last, ps[0]);
      DecodeIsSums(LastOf(last, xs), ps[1..]);
      SumsAppend(last, Unpack(Subcode(ps[0]), Samps(Subcode(ps[0])), ps[0].word), Unpacked(ps[1..]));
    }
  }

  lemma {:induction false} DecodeAppend(last: Word, ps: seq<Pair>, p: Pair)
    ensures DecodePairs(last, ps + [p]) == DecodePairs(last, ps) + DecodeWord(LastOf(last, DecodePairs(last, ps)), p)
    decreases |ps|
  {
    hide DecodeWord;
    if ps == [] {
      assert ps + [p] == [p];
    } else {
      assert (ps + [p])[1..] == ps[1..] + [p];
      DecodeAppend(LastOf(last, DecodeWord(last, ps[0])), ps[1..], p);
    }
  }

  /** The words decode, after `base`, to the samples `taken`, the last of which is `last`. */
  ghost predicate DecodesTo(base: Word, ps: seq<Pair>, taken: seq<Word>, last: Word) {
    DecodePairs(base, ps) == taken && LastOf(base, taken) == last
  }

  /** One more word made from a compressible queue. */
  lemma DecodesMore(base: Word, ps: seq<Pair>, taken: seq<Word>, last: Word, q: seq<Word>, used: nat, word: Pair)
    requires DecodesTo(base, Data(ps), taken, last) && q != [] && Compressible(last, q)
    requires var i := Choose(Ahead(last, q), 0);
      used == CompSeq(i).scan <= |q| && word == EncodeWord(last, i, q[..used])
    ensures 1 <= used <= |q| && DecodesTo(base, Data(ps + [word]), taken + q[..used], q[used - 1])
    ensures Compressible(q[used - 1], q[used..])
  {
    hide Pack, DecodeWord, Compressible, Ahead, Choose, Fits, Diffs;
    StepRoundTrip(last, q);
    DataAppend(ps, [word]);
    assert Data([word]) == [word];
    DecodeAppend(base, Data(ps), word);
  }

  lemma FrameApart(f: Frame, x: Word)
    ensures FramePairs(f[2 := x], 3) == FramePairs(f, 3) && StartsRecord(f[2 := x]) == StartsRecord(f)
  {
    hide PairsOf, CodesOf, AtMost;
    assert f[2 := x][3..] == f[3..];
  }

  lemma {:induction false} LastSampleApart(rec: seq<Frame>, x: Word)
    requires rec != []
    ensures RecordPairs([rec[0][2 := x]] + rec[1..]) == RecordPairs(rec)
    decreases |rec|
  {
    hide FramePairs, StartsRecord;
    var f: Frame := rec[0][2 := x];
    var n := |rec| - 1;
    var changed := [f] + rec[1..];
    if n == 0 {
      FrameApart(rec[0], x);
      assert changed[..0] == [] && rec[..0] == [];
    } else {
      LastSampleApart(rec[..n], x);
      assert changed[..n] == [f] + rec[..n][1..];
    }
  }

  /** A record that holds the samples is read back as them. */
  lemma ReadBack(base: Word, rec: seq<Frame>, taken: seq<Word>, last: Word)
    requires DecodesTo(base, Data(RecordPairs(rec)), taken, last) && taken != [] && rec != [] && rec[0][1] == taken[0]
    requires StartsRecord(rec[0])
    ensures Reads([rec[0][2 := last]] + rec[1..], taken) && Continues([rec[0][2 := last]] + rec[1..], taken, base)
  {
    hide Plus, Minus, Data, RecordPairs, Unpacked, DecodePairs, AtMost;
    LastSampleApart(rec, last);
    var ds := Unpacked(Data(RecordPairs(rec)));
    DecodeIsSums(base, Data(RecordPairs(rec)));
    assert taken == [Plus(base, ds[0])] + Sums(Plus(base, ds[0]), ds[1..]);
    MinusPlus(base, ds[0]);
  }

  /** A channel that compresses its own samples. */
  class Channel {
    const com: ComPacket
    const maxFrames: nat
    var nextSample: int
    var records: seq<Record>
    // the last sample before the current record, the samples in it, and those of each record
    ghost var base: Word
    ghost var taken: seq<Word>
    ghost var written: seq<seq<Word>>
    // the last sample before each finished record
    ghost var bases: seq<Word>

    /** What holds of a channel whatever has been put into its frames. */
    ghost predicate Loose()
      reads com
    {
      com.Valid() && com.hasRing && 1 <= maxFrames
    }

    /** Every code-word pair so far: those of records and of the record being built. */
    ghost function Words(): seq<Pair>
      reads `records, com, com.frameBuffer
      requires com.Valid()
    {
      AllPairs(records) + com.Pairs()
    }

    /** What is in the frames can be read as the samples: those of the finished records, each from
        some sample on, and those of the record being built. */
    ghost predicate Explains(start: Word, xs: seq<Word>, xss: seq<seq<Word>>, starts: seq<Word>)
      reads `records, com, com.frameBuffer
      requires com.Valid()
    {
      && AllRead(records, xss, starts) && DecodesTo(start, Data(com.Pairs()), xs, com.lastSample)
      && (com.Fresh() <==> xs == []) && (xs != [] ==> com.FirstSample() == xs[0])
    }

    ghost predicate Sound()
      reads this, com, com.frameBuffer, com.peeks
    {
      && Loose() && Explains(base, taken, written, bases) && nextSample == |taken| + 1
      && Compressible(com.lastSample, com.Queue())
    }

    ghost predicate Valid()
      reads this, com, com.frameBuffer, com.peeks
    {
      Sound() && com.frame <= maxFrames
    }

    /** The channel has just these samples in its frames. */
    ghost predicate Explained(all: seq<Word>)
      reads `records, com, com.frameBuffer
      requires com.Valid()
    {
      exists start, xs, xss, starts :: Explains(start, xs, xss, starts) && all == Flat(xss) + xs
    }

    lemma SoundExplained()
      requires Sound()
      ensures Explained(Flat(written) + taken)
    {
      assert Explains(base, taken, written, bases);
    }

    /** However a channel's frames are read, there are as many samples as the words with a code
        have differences. */
    lemma ExplainedCount(all: seq<Word>)
      requires com.Valid() && Explained(all)
      ensures |all| == |Unpacked(Data(Words()))|
    {
      hide AllRead, Data, Unpacked, RecordPairs, AllPairs, DecodePairs;
      var start, xs, xss, starts :| Explains(start, xs, xss, starts) && all == Flat(xss) + xs;
      AllReadCount(records, xss, starts);
      DecodeIsSums(start, Data(com.Pairs()));
      DataAppend(AllPairs(records), com.Pairs());
      UnpackedAppend(Data(AllPairs(records)), Data(com.Pairs()));
    }

    /** Record `k`, finished or being built, begins with sample `x` and these words. */
    ghost predicate Began(k: nat, x: Word, front: seq<Pair>)
      reads `records, com, com.frameBuffer
      requires com.Valid()
    {
      if k < |records| then
        records[k].data != [] && records[k].data[0][1] == x && front <= RecordPairs(records[k].data)
      else k == |records| && !com.Fresh() && com.FirstSample() == x && front <= com.Pairs()
    }

    /** Every sample so far: those in records, in words and waiting. */
    ghost function Fed(): seq<Word>
      reads this, com, com.peeks
      requires com.Shape()
    {
      Flat(written) + taken + com.Queue()
    }

    /** Every blockette so far. */
    ghost function Blockettes(): seq<int>
      reads `records, com
    {
      AllBlockettes(records) + com.blks
    }

    constructor (last: Word, frames: nat)
      requires 1 <= frames
      ensures Valid() && Fed() == [] && com.Queue() == [] && com.lastSample == last && Unbroken(written, bases, base)
      ensures Blockettes() == []
      ensures fresh(com) && fresh(com.frameBuffer) && fresh(com.peeks) && fresh(com.diffs) && fresh(com.sc)
    {
      com := new ComPacket(true, last);
      maxFrames, nextSample, records := frames, 1, [];
      base, taken, written, bases := last, [], [], [];
      new;
      NoneHeld(base);
    }

    /** Gives the record away with its last sample in place. */
    method PutAway()
      requires Loose() && com.block <= 1 && (com.rec != [] ==> com.block == 1)
      modifies this`records, this`nextSample, com`rec, com`frame, com`blocketteCount, com`blks, com`links
      ensures Loose() && com.Fresh() && com.frame == 1 && nextSample == 1 && com.Queue() == old(com.Queue())
      ensures records == old(records + [Record(com.blks, Ended(com.rec, com.lastSample), com.lastSample)])
      ensures Blockettes() == old(Blockettes()) && Words() == old(Words())
      ensures forall k, x, front :: old(Began(k, x, front)) ==> Began(k, x, front)
    {
      hide RecordPairs, CodesOf, PairsOf, AtMost, Window, Wrap, InChain, AllBlockettes, AllPairs, StartsRecord;
      com.WholeFrames();
      ghost var before, expected := records, Record(com.blks, Ended(com.rec, com.lastSample), com.lastSample);
      RecordsMore(records, expected, com.rec, com.lastSample);
      EndedBegins(com.rec, com.lastSample);
      var done := com.TakeRecord();
      assert done == expected;
      records := records + [done];
      nextSample := 1;
      assert com.Pairs() == [] && AllPairs(records) + [] == AllPairs(records);
      assert AllBlockettes(records) + [] == AllBlockettes(records);
    }

    lemma RecordExplained(r: Record)
      requires Loose() && com.block <= 1 && (com.rec != [] ==> com.block == 1) && Explains(base, taken, written, bases)
      requires r.data == Ended(com.rec, com.lastSample) && r.beyond == com.lastSample
      ensures AllRead(records + [r], written + [taken], bases + [base])
      ensures Unbroken(written, bases, base) ==> Unbroken(written + [taken], bases + [base], com.lastSample)
      ensures Flat(written + [taken]) == Flat(written) + taken
    {
      hide DecodesTo, Filed, Unbroken, AllRead, RecordPairs, CodesOf, PairsOf, AtMost, Data, Flat, InChain,
           StartsRecord, Ended;
      com.WholeFrames();
      Finished(records, written, bases, r, com.rec, taken, base, com.lastSample);
    }

    lemma FreshExplained(xss: seq<seq<Word>>, starts: seq<Word>)
      requires Loose() && com.Fresh() && AllRead(records, xss, starts)
      ensures Explains(com.lastSample, [], xss, starts)
    {
      NoneHeld(com.lastSample);
    }

    /** Finishes the record.  A channel that was sound stays so. */
    method FinishRecord()
      requires Loose() && com.block <= 1 && (com.rec != [] ==> com.block == 1)
      modifies this`records, this`nextSample, this`base, this`taken, this`written, this`bases
      modifies com`rec, com`frame, com`blocketteCount, com`blks, com`links
      ensures Loose() && com.Fresh() && com.frame == 1 && com.Queue() == old(com.Queue())
      ensures Blockettes() == old(Blockettes()) && Words() == old(Words())
      ensures forall k, x, front :: old(Began(k, x, front)) ==> Began(k, x, front)
      ensures com.lastSample == old(com.lastSample) && |records| == |old(records)| + 1 && old(records) <= records
      ensures old(Sound()) ==> Valid() && taken == [] && Fed() == old(Fed())
      ensures old(Sound() && Unbroken(written, bases, base)) ==> Unbroken(written, bases, base)
    {
      hide Explains, Unbroken, AllRead, Compressible, AtMost, Flat, InChain, StartsRecord, Ended, Words, Blockettes,
           ComPacket.Queue;
      ghost var was := Sound();
      if was {
        RecordExplained(Record(com.blks, Ended(com.rec, com.lastSample), com.lastSample));
      }
      PutAway();
      bases := bases + [base];
      base, taken, written := com.lastSample, [], written + [taken];
      if was {
        FreshExplained(written, bases);
      }
    }

    /** Counts in the samples of words just put into the record. */
    method Count(used: nat, ghost start: Word, ghost more: seq<Word>)
      requires com.Valid() && com.hasRing && 1 <= maxFrames && !com.Fresh() && nextSample == |taken| + 1
      requires AllRead(records, written, bases) && Compressible(com.lastSample, com.Queue())
      requires |more| == used && taken + more != [] && com.FirstSample() == (taken + more)[0]
      requires DecodesTo(start, Data(com.Pairs()), taken + more, com.lastSample)
      modifies this`nextSample, this`base, this`taken
      ensures Sound() && base == start && taken == old(taken) + more
    {
      hide DecodesTo, AllRead, Compressible, RecordPairs, CodesOf, PairsOf, AtMost, Window, Wrap, Data;
      nextSample := nextSample + used;
      base, taken := start, taken + more;
    }

    /** Compresses one word; the frame it fills may be the last of the record. */
    method CompressNext() returns (used: nat)
      requires Valid() && 1 <= com.peekTotal
      modifies this`nextSample, this`base, this`taken
      modifies com`block, com`flagWord, com`ctabx, com`peekTotal, com`nextOut, com`lastSample, com`rec, com`frame
      modifies com.frameBuffer, com.diffs, com.sc
      ensures Loose() && Sound() && Fed() == old(Fed())
      ensures com.frame <= maxFrames || (com.rec != [] && com.block == 1)
      ensures 1 <= used <= old(com.peekTotal) && com.peekTotal == old(com.peekTotal) - used
      ensures used == CompSeq(Choose(Ahead(old(com.lastSample), old(com.Queue())), 0)).scan
      ensures base == old(base)
    {
      hide DecodesTo, AllRead, Compressible, RecordPairs, CodesOf, PairsOf, AtMost, Window, Wrap, Choose, Ahead,
           EncodeWord, Data, Flat, First, CompSeq, LastOf;
      ghost var last, q, ps := com.lastSample, com.Queue(), com.Pairs();
      ghost var word;
      used, word := com.CompressBlock();
      DecodesMore(base, ps, taken, last, q, used, word);
      Requeued(Flat(written), taken, q, used);
      Count(used, base, q[..used]);
    }

    /** Compresses one word and finishes the record when it is full. */
    method CompressOne() returns (used: nat)
      requires Valid() && 1 <= com.peekTotal
      modifies this`records, this`nextSample, this`base, this`taken, this`written, this`bases
      modifies com`block, com`flagWord, com`ctabx, com`peekTotal, com`nextOut, com`lastSample, com`rec, com`frame
      modifies com`blocketteCount, com`blks, com`links, com.frameBuffer, com.diffs, com.sc
      ensures Valid() && Fed() == old(Fed()) && Blockettes() == old(Blockettes()) && old(records) <= records
      ensures 1 <= used <= old(com.peekTotal) && com.peekTotal == old(com.peekTotal) - used
      ensures used == CompSeq(Choose(Ahead(old(com.lastSample), old(com.Queue())), 0)).scan
      ensures old(Unbroken(written, bases, base)) ==> Unbroken(written, bases, base)
    {
      hide Sound, Fed, Unbroken;
      used := CompressNext();
      if com.frame >= maxFrames + 1 {
        FinishRecord();
      }
    }

    /** Takes in one sample. */
    method AddSample(x: Word)
      requires Valid() && com.peekTotal < 7
      requires InRange(Minus(x, LastOf(com.lastSample, com.Queue())), BIG)
      modifies this`records, this`nextSample, this`base, this`taken, this`written, this`bases
      modifies com, com.frameBuffer, com.diffs, com.sc, com.peeks
      ensures Valid() && com.peekTotal < 7 && Fed() == old(Fed()) + [x] && old(records) <= records
      ensures Blockettes() == old(Blockettes())
      ensures old(Unbroken(written, bases, base)) ==> Unbroken(written, bases, base)
    {
      hide DecodesTo, AllRead, Compressible, RecordPairs, CodesOf, PairsOf, AtMost, Window, Wrap, InRange, Minus,
           Data, Flat, Unbroken;
      CompressibleMore(com.lastSample, com.Queue(), x);
      com.Queued(x);
      assert Fed() == old(Fed()) + [x];
      if com.peekTotal < 7 {
        return;
      }
      var used := CompressOne();
    }

    /** Completes a partial frame and ends the record, if it has samples. */
    method EndRecord()
      requires Valid()
      modifies this`records, this`nextSample, this`base, this`taken, this`written, this`bases
      modifies com`flagWord, com`block, com`rec, com`frame, com`blocketteCount, com`blks, com`links, com.frameBuffer
      ensures Valid() && taken == [] && com.Queue() == old(com.Queue()) && Fed() == old(Fed())
      ensures old(records) <= records
      ensures Blockettes() == old(Blockettes())
      ensures old(Unbroken(written, bases, base)) ==> Unbroken(written, bases, base)
    {
      hide DecodesTo, AllRead, Compressible, RecordPairs, CodesOf, PairsOf, AtMost, Window, Wrap, Data, Flat, Unbroken;
      if nextSample > 1 {
        if com.block > 1 && com.block < WORDS_PER_FRAME {
          com.CompleteFrame();
        }
        FinishRecord();
      }
    }

    /** Compresses what is left, completes a partial frame and ends the record. */
    method Flush()
      requires Valid()
      modifies this`records, this`nextSample, this`base, this`taken, this`written, this`bases
      modifies com, com.frameBuffer, com.diffs, com.sc
      ensures Valid() && com.peekTotal == 0 && taken == [] && Fed() == old(Fed()) && old(records) <= records
      ensures Blockettes() == old(Blockettes())
      ensures Flat(written) == old(Fed())
      ensures old(Unbroken(written, bases, base)) ==> Unbroken(written, bases, base)
    {
      hide DecodesTo, AllRead, Compressible, RecordPairs, CodesOf, PairsOf, AtMost, Window, Wrap, Data, Flat, Unbroken;
      assert com.peekTotal <= PEEKELEMS;
      var loops := 0;
      while com.peekTotal > 0 && loops <= 20
        invariant Valid() && Fed() == old(Fed()) && Blockettes() == old(Blockettes()) && old(records) <= records
        invariant com.peekTotal + loops <= PEEKELEMS
        invariant old(Unbroken(written, bases, base)) ==> Unbroken(written, bases, base)
        decreases com.peekTotal
      {
        var used := CompressOne();
        loops := loops + 1;
      }
      EndRecord();
      assert Fed() == Flat(written) + [] + com.Queue();
    }

    /** Puts a blockette into the current record, or into the next one when this is full but for
        its last frame.  A record that blockettes have filled is finished without data. */
    method AddBlockette(body: int)
      requires Valid()
      modifies this`records, this`nextSample, this`base, this`taken, this`written, this`bases
      modifies com, com.frameBuffer, com.diffs, com.sc
      ensures Valid() && Fed() == old(Fed()) && Blockettes() == old(Blockettes()) + [body] && old(records) <= records
      ensures old(Unbroken(written, bases, base)) ==> Unbroken(written, bases, base)
    {
      hide DecodesTo, AllRead, Compressible, RecordPairs, CodesOf, PairsOf, AtMost, Window, Wrap, Data, Flat, Unbroken;
      if com.frame >= maxFrames {
        Flush();
      }
      com.InsertBlockette(body);
      if com.frame >= maxFrames + 1 {
        FinishRecord();
      }
    }
  }

  function AllBlockettes(records: seq<Record>): seq<int> {
    if records == [] then [] else AllBlockettes(records[..|records| - 1]) + records[|records| - 1].blks
  }

  ghost function AllPairs(records: seq<Record>): seq<Pair> {
    if records == [] then [] else AllPairs(records[..|records| - 1]) + RecordPairs(records[|records| - 1].data)
  }

  /** The frames of a record with its last sample in place. */
  function Ended(rec: seq<Frame>, last: Word): seq<Frame> {
    if rec == [] then [] else [rec[0][2 := last]] + rec[1..]
  }

  lemma RecordsMore(records: seq<Record>, r: Record, rec: seq<Frame>, last: Word)
    requires r.data == Ended(rec, last)
    ensures AllBlockettes(records + [r]) == AllBlockettes(records) + r.blks
    ensures AllPairs(records + [r]) == AllPairs(records) + RecordPairs(rec)
  {
    assert (records + [r])[..|records|] == records;
    EndedBegins(rec, last);
  }

  lemma EndedBegins(rec: seq<Frame>, last: Word)
    ensures rec != [] ==> Ended(rec, last) != [] && Ended(rec, last)[0][1] == rec[0][1]
    ensures RecordPairs(Ended(rec, last)) == RecordPairs(rec)
  {
    if rec != [] {
      LastSampleApart(rec, last);
    }
  }

  lemma {:induction false} UnpackedAppend(ps: seq<Pair>, qs: seq<Pair>)
    ensures Unpacked(ps + qs) == Unpacked(ps) + Unpacked(qs)
    decreases |ps|
  {
    hide Unpack, Subcode, Samps;
    if ps == [] {
      assert ps + qs == qs;
    } else {
      assert (ps + qs)[1..] == ps[1..] + qs;
      UnpackedAppend(ps[1..], qs);
    }
  }

  lemma {:induction false} AllReadCount(records: seq<Record>, xss: seq<seq<Word>>, starts: seq<Word>)
    requires AllRead(records, xss, starts)
    ensures |Flat(xss)| == |Unpacked(Data(AllPairs(records)))|
    decreases |records|
  {
    hide Filed, RecordPairs, Data, Unpacked;
    if records == [] {
      NoWords();
    } else {
      var n := |records| - 1;
      AllReadCount(records[..n], xss[..n], starts[..n]);
      FiledCount(records[n], xss[n], starts[n]);
      DataAppend(AllPairs(records[..n]), RecordPairs(records[n].data));
      UnpackedAppend(Data(AllPairs(records[..n])), Data(RecordPairs(records[n].data)));
    }
  }

  lemma NoWords()
    ensures Unpacked(Data([])) == []
  {
  }

  lemma FiledCount(r: Record, xs: seq<Word>, start: Word)
    requires Filed(r, xs, start)
    ensures |xs| == |Unpacked(Data(RecordPairs(r.data)))|
  {
    if r.data == [] {
      NoWords();
    }
  }

  /** A finished record gives its samples back and goes on from `base`; one without data frames has
      none, and `base` is behind its blockettes. */
  ghost predicate Filed(r: Record, xs: seq<Word>, base: Word) {
    if r.data == [] then xs == [] && r.beyond == base else Reads(r.data, xs) && Continues(r.data, xs, base)
  }

  ghost predicate AllRead(records: seq<Record>, written: seq<seq<Word>>, bases: seq<Word>) {
    && |records| == |written| == |bases|
    && forall k | 0 <= k < |records| :: Filed(records[k], written[k], bases[k])
  }

  lemma AllReadMore(records: seq<Record>, written: seq<seq<Word>>, bases: seq<Word>, r: Record, xs: seq<Word>,
        base: Word)
    requires AllRead(records, written, bases) && Filed(r, xs, base)
    ensures AllRead(records + [r], written + [xs], bases + [base])
  {
  }

  /** Every record goes on from the last sample before it. */
  ghost predicate Unbroken(written: seq<seq<Word>>, bases: seq<Word>, base: Word) {
    && |written| == |bases|
    && (forall k | 0 <= k < |written| - 1 :: bases[k + 1] == LastOf(bases[k], written[k]))
    && (written != [] ==> base == LastOf(bases[|bases| - 1], written[|written| - 1]))
  }

  lemma UnbrokenMore(written: seq<seq<Word>>, bases: seq<Word>, base: Word, taken: seq<Word>)
    ensures Unbroken(written, bases, base) ==> Unbroken(written + [taken], bases + [base], LastOf(base, taken))
  {
  }

  /** One more finished record. */
  lemma Finished(records: seq<Record>, written: seq<seq<Word>>, bases: seq<Word>, r: Record, rec: seq<Frame>,
                 taken: seq<Word>, base: Word, last: Word)
    requires AllRead(records, written, bases) && DecodesTo(base, Data(RecordPairs(rec)), taken, last)
    requires (rec == [] ==> taken == []) && r.data == Ended(rec, last)
    requires rec != [] ==> taken != [] && rec[0][1] == taken[0] && StartsRecord(rec[0])
    requires r.beyond == last
    ensures AllRead(records + [r], written + [taken], bases + [base])
    ensures Unbroken(written, bases, base) ==> Unbroken(written + [taken], bases + [base], last)
    ensures Flat(written + [taken]) == Flat(written) + taken
  {
    hide DecodesTo, Reads, Continues, AllRead, Unbroken, StartsRecord, RecordPairs, Data, Flat;
    LastHeld(base, Data(RecordPairs(rec)), taken, last);
    if rec != [] {
      ReadBack(base, rec, taken, last);
    }
    AllReadMore(records, written, bases, r, taken, base);
    UnbrokenMore(written, bases, base, taken);
    FlatMore(written, taken);
  }

  lemma LastHeld(base: Word, ps: seq<Pair>, taken: seq<Word>, last: Word)
    requires DecodesTo(base, ps, taken, last)
    ensures last == LastOf(base, taken)
  {
  }

  lemma FlatMore(xss: seq<seq<Word>>, xs: seq<Word>)
    ensures Flat(xss + [xs]) == Flat(xss) + xs
  {
    assert (xss + [xs])[..|xss|] == xss;
  }

  lemma NoneHeld(base: Word)
    ensures DecodesTo(base, Data([]), [], base)
  {
  }

  lemma CompressibleMore(last: Word, q: seq<Word>, x: Word)
    requires Compressible(last, q) && InRange(Minus(x, LastOf(last, q)), BIG)
    ensures Compressible(last, q + [x])
  {
    hide InRange, Minus;
    DiffsExtend(last, q, x);
  }

  lemma Requeued(a: seq<Word>, b: seq<Word>, q: seq<Word>, n: nat)
    requires n <= |q|
    ensures a + (b + q[..n]) + q[n..] == a + b + q
  {
    assert q == q[..n] + q[n..];
  }
}
