/** Building compressed records, updated in place: from samples (`CompressBlock`) or from
    words that arrive compressed (`BuildBlocks`). */
module Steim {
  import opened SteimModel
  import opened SteimCodec
  import opened SteimFrames
  import opened Circle

  const PEEKELEMS: nat := 16
  const FRAME_SIZE: int := 64

  ghost function First(rec: seq<Frame>): (w: nat)
    ensures 1 <= w <= 3
  {
    if rec == [] then 3 else 1
  }

  /** The code-word pairs of the data frames of a record; the first frame keeps its words 1
      and 2 for the first and the last sample. */
  ghost function RecordPairs(rec: seq<Frame>): seq<Pair> {
    if rec == [] then []
    else RecordPairs(rec[..|rec| - 1]) + FramePairs(rec[|rec| - 1], First(rec[..|rec| - 1]))
  }

  /** The first data frame of a record: no codes for the words with the first and the last
      sample. */
  predicate StartsRecord(f: Frame) {
    AtMost(13, f[0])
  }

  /** The first `n` samples of `q` are in `sc` after the last sample, with their differences
      in `diffs`. */
  ghost predicate Buffered(n: nat, last: Word, q: seq<Word>, sc: seq<Word>, diffs: seq<Word>) {
    && n <= 7 && n <= |q| && |sc| == 9 && |diffs| == 7 && sc[1] == last
    && (forall k | 0 <= k < n :: sc[k + 2] == q[k])
    && diffs[..n] == Diffs(last, q[..n])
  }

  /** A finished record: its blockettes, each the bytes but for its link, its data frames, and the
      word behind the blockettes where the last sample goes; with data frames that is word 2 of the
      first one. */
  datatype Record = Record(blks: seq<int>, data: seq<Frame>, beyond: Word)

  /** Blockettes linked in order, the last one to nothing. */
  ghost predicate InChain(links: seq<int>) {
    forall k | 0 <= k < |links| :: links[k] == if k + 1 < |links| then FRAME_SIZE * (k + 2) else 0
  }

  /** A record under construction. */
  class ComPacket {
    var hasRing: bool
    var lastSample: Word
    var flagWord: Word
    const frameBuffer: array<Word>
    const peeks: array<Word>
    const diffs: array<Word>
    const sc: array<Word>
    var frame: nat
    var blocketteCount: nat
    var ctabx: nat
    var block: nat
    var peekTotal: nat
    var nextIn: nat
    var nextOut: nat
    // the data frames stored so far in the current record, and the blockettes before them
    var rec: seq<Frame>
    var blks: seq<int>
    var links: seq<int>

    constructor (ring: bool, last: Word)
      ensures Valid() && Fresh() && hasRing == ring && lastSample == last && Queue() == [] && frame == 1 && blks == []
      ensures fresh(frameBuffer) && fresh(peeks) && fresh(diffs) && fresh(sc)
    {
      hasRing, lastSample, flagWord := ring, last, 0;
      frameBuffer, peeks := new Word[WORDS_PER_FRAME](_ => 0), new Word[PEEKELEMS](_ => 0);
      diffs, sc := new Word[7](_ => 0), new Word[9](_ => 0);
      frame, blocketteCount, ctabx, block, peekTotal, nextIn, nextOut := 1, 0, 0, 0, 0, 0, 0;
      rec, blks, links := [], [], [];
    }

    ghost predicate Shape()
      reads this
    {
      && frameBuffer.Length == WORDS_PER_FRAME && peeks.Length == PEEKELEMS && diffs.Length == 7 && sc.Length == 9
      && frameBuffer != peeks && frameBuffer != diffs && frameBuffer != sc && peeks != diffs && peeks != sc
      && diffs != sc
      && ctabx < 7 && nextIn < PEEKELEMS && nextOut < PEEKELEMS && peekTotal <= PEEKELEMS
      && nextIn == Wrap(nextOut + peekTotal, PEEKELEMS)
      && frame == blocketteCount + 1 + |rec| && (rec != [] ==> StartsRecord(rec[0]))
      && blocketteCount == |blks| == |links| && InChain(links)
    }

    /** Nothing has been put into the current record yet. */
    ghost predicate Fresh()
      reads this
    {
      rec == [] && block <= 1
    }

    /** The current frame has its header words and as many codes as words. */
    ghost predicate Started()
      reads this
    {
      First(rec) <= block <= WORDS_PER_FRAME && AtMost(block - First(rec), flagWord)
    }

    ghost predicate Valid()
      reads this
    {
      Shape() && if Fresh() then flagWord == 0 else Started() && block < WORDS_PER_FRAME
    }

    /** The samples waiting to be compressed. */
    ghost function Queue(): (q: seq<Word>)
      reads this, peeks
      requires Shape()
      ensures |q| == peekTotal
    {
      Window(peeks[..], nextOut, peekTotal)
    }

    /** The code-word pairs of the frames stored and of the frame being built. */
    ghost function Built(): seq<Pair>
      reads this, frameBuffer
      requires Shape() && Started()
    {
      RecordPairs(rec) + PairsOf(CodesOf(flagWord, block - First(rec)), frameBuffer[First(rec)..block])
    }

    /** The code-word pairs of the record so far. */
    ghost function Pairs(): seq<Pair>
      reads this, frameBuffer
      requires Valid()
    {
      if Fresh() then [] else Built()
    }

    method PutWord(code: Word, word: Word)
      requires Shape() && Started() && block < WORDS_PER_FRAME && code <= 3
      modifies this`flagWord, this`block, frameBuffer
      ensures Shape() && Started() && block == old(block) + 1
      ensures Built() == old(Built()) + [Pair(code, word)]
      ensures forall w | 0 < w < old(block) :: frameBuffer[w] == old(frameBuffer[w])
    {
      hide AddCode, AtMost, CodesOf, RecordPairs;
      ghost var first := First(rec);
      ghost var words, codes := frameBuffer[first..block], CodesOf(flagWord, block - first);
      AddCodeAppends(flagWord, code, block - first);
      frameBuffer[block] := word;
      flagWord := AddCode(flagWord, code);
      block := block + 1;
      assert frameBuffer[first..block] == words + [word];
      assert PairsOf(codes + [code], words + [word]) == PairsOf(codes, words) + [Pair(code, word)];
    }

    method CloseFrame()
      requires Shape() && Started() && block == WORDS_PER_FRAME
      modifies this`flagWord, this`block, this`rec, this`frame, frameBuffer
      ensures Valid() && !Fresh() && block == 1 && Pairs() == old(Built())
      ensures |rec| == |old(rec)| + 1 && rec[..|old(rec)|] == old(rec)
      ensures forall w | 0 < w < WORDS_PER_FRAME :: rec[|rec| - 1][w] == old(frameBuffer[w])
    {
      hide AtMost, CodesOf, RecordPairs;
      ghost var rec0 := rec;
      frameBuffer[0] := flagWord;
      ghost var f: Frame := frameBuffer[..];
      rec := rec + [frameBuffer[..]];
      forall w | 0 <= w < WORDS_PER_FRAME {
        frameBuffer[w] := 0;
      }
      frame := frame + 1;
      block := 1;
      flagWord := 0;
      RecordPush(rec0, f);
      NoCodes();
      assert PairsOf([], frameBuffer[1..1]) == [];
    }

    /** Puts one word into the current frame, and the frame into the record when it is full. */
    method StoreWord(code: Word, word: Word)
      requires Valid() && !Fresh() && code <= 3
      modifies this`flagWord, this`block, this`rec, this`frame, frameBuffer
      ensures Valid() && !Fresh() && Pairs() == old(Pairs()) + [Pair(code, word)]
      ensures block == 1 || |rec| == |old(rec)|
      ensures rec == old(rec) || (|rec| == |old(rec)| + 1 && rec[..|old(rec)|] == old(rec))
      ensures forall w | 0 < w < old(block) ::
        (if rec == old(rec) then frameBuffer[w] else rec[|rec| - 1][w]) == old(frameBuffer[w])
    {
      hide AtMost, CodesOf, RecordPairs;
      PutWord(code, word);
      if block >= WORDS_PER_FRAME {
        CloseFrame();
      }
    }

    /** Extends the difference buffer to `scan` differences. */
    method ReadAhead(hiscan0: nat, scan: nat) returns (hiscan: nat)
      requires Shape() && hiscan0 <= 7 && scan <= 7 && scan <= peekTotal
      requires Ready(hiscan0)
      modifies diffs, sc
      ensures hiscan == (if hiscan0 < scan then scan else hiscan0) && Ready(hiscan)
    {
      hide Minus, Diffs, Wrap, StartsRecord;
      ghost var q := Queue();
      hiscan := hiscan0;
      while hiscan < scan
        invariant hiscan0 <= hiscan <= 7 && (hiscan <= scan || hiscan == hiscan0)
        invariant sc[1] == lastSample && forall k | 0 <= k < hiscan :: sc[k + 2] == q[k]
        invariant diffs[..hiscan] == Diffs(lastSample, q[..hiscan])
      {
        var value := peeks[Wrap(nextOut + hiscan, PEEKELEMS)];
        assert q[hiscan] == value && sc[hiscan + 1] == LastOf(lastSample, q[..hiscan]);
        DiffsNext(lastSample, q, hiscan);
        sc[hiscan + 2] := value;
        diffs[hiscan] := Minus(value, sc[hiscan + 1]);
        hiscan := hiscan + 1;
      }
    }

    ghost predicate Ready(n: nat)
      reads this, peeks, diffs, sc
      requires Shape()
    {
      Buffered(n, lastSample, Queue(), sc[..], diffs[..])
    }

    /** Whether the first `scan` differences all pass the test against `disc`. */
    method AllWithin(scan: nat, disc: Word) returns (fits: bool)
      requires Shape() && scan <= 7
      ensures fits == forall k | 0 <= k < scan :: !TooBig(diffs[k], disc)
    {
      hide TooBig, StartsRecord;
      var i := 0;
      while i < scan
        invariant i <= scan && forall k | 0 <= k < i :: !TooBig(diffs[k], disc)
      {
        if TooBig(diffs[i], disc) {
          return false;
        }
        i := i + 1;
      }
      fits := true;
    }

    /** Reads ahead for row `ctabx` and tests its differences. */
    method Probe(hiscan0: nat) returns (hiscan: nat, fits: bool)
      requires Shape() && Ready(hiscan0) && 7 - ctabx <= peekTotal
      modifies diffs, sc
      ensures hiscan0 <= hiscan && CompSeq(ctabx).scan <= hiscan && Ready(hiscan)
      ensures fits == Fits(ctabx, Ahead(lastSample, Queue()))
    {
      hide Minus, TooBig, Diffs, Wrap, Window, StartsRecord;
      hiscan := ReadAhead(hiscan0, CompSeq(ctabx).scan);
      fits := AllWithin(CompSeq(ctabx).scan, CompSeq(ctabx).disc);
      FitsBuffered(lastSample, Queue(), hiscan, diffs[..], ctabx);
    }

    /** Goes on from row `ctabx` after its test: one row up, one row down, or done. */
    method Roam(ctablo: nat, ctabw: nat, ctabfit0: int, fits: bool, ghost ds: seq<Word>)
      returns (ctabfit: int, done: bool)
      requires Searching(ds, ctablo, ctabw, ctabx, ctabfit0) && fits == Fits(ctabx, ds)
      modifies this`ctabx
      ensures !done ==> Searching(ds, ctablo, ctabw, ctabx, ctabfit) && ctablo <= ctabx
      ensures !done ==>
        if ctabfit == -1 then old(ctabx) < ctabx && ctabfit0 == -1 else ctabx < old(ctabx) || ctabfit0 == -1
      ensures ctabx < 7
      ensures done ==> ctabx == Choose(ds, 0) && CompSeq(ctabx).scan <= CompSeq(old(ctabx)).scan
    {
      hide Choose, Fits, StartsRecord;
      ctabfit, done := ctabfit0, true;
      if !fits {
        if ctabfit < 0 {
          if ctabx >= 6 {
            ChosenIs(ds, 6);
          } else {
            ctabx := ctabx + 1;
            done := false;
          }
        } else {
          ChosenIs(ds, ctabx + 1);
          ctabx := ctabfit;
        }
      } else if ctabx > ctabw {
        ChosenIs(ds, ctabx);
      } else if ctabx > ctablo {
        ctabfit := ctabx;
        ctabx := ctabx - 1;
        done := false;
      } else {
        NoneShorter(ds, ctabx);
        ChosenIs(ds, ctabx);
      }
    }

    /** Puts the last sample into place; no row below the lowest allowed one is tried. */
    method Enter() returns (ctablo: nat)
      requires Shape() && 1 <= peekTotal
      modifies this`ctabx, sc
      ensures Shape() && Ready(0) && ctablo == 7 - |Ahead(lastSample, Queue())| && ctablo <= ctabx
    {
      hide Buffered, Window, Wrap, Ahead, StartsRecord;
      sc[1] := lastSample;
      NothingBuffered(lastSample, Queue(), sc[..], diffs[..]);
      if peekTotal < 7 {
        ctablo := 7 - peekTotal;
        if ctabx < ctablo {
          ctabx := ctablo;
        }
      } else {
        ctablo := 0;
      }
    }

    /** The search for a format, roaming from where the last one ended. */
    method ChooseFormat()
      requires Shape() && 1 <= peekTotal
      modifies this`ctabx, diffs, sc
      ensures Shape() && ctabx == Choose(Ahead(lastSample, Queue()), 0)
      ensures CompSeq(ctabx).scan <= peekTotal && Ready(CompSeq(ctabx).scan)
    {
      hide Choose, Fits, Ahead, Buffered, Window, Searching, CompSeq, Wrap, StartsRecord;
      ghost var ds := Ahead(lastSample, Queue());
      var ctablo := Enter();
      var hiscan: nat := 0;
      var done, ctabfit, ctabw := false, -1, ctabx;
      SearchStart(ds, ctablo, ctabw);
      while !done
        invariant Shape() && Ahead(lastSample, Queue()) == ds && Ready(hiscan)
        invariant !done ==> Searching(ds, ctablo, ctabw, ctabx, ctabfit) && ctablo <= ctabx
        invariant done ==> ctabx == Choose(ds, 0) && CompSeq(ctabx).scan <= hiscan
        decreases !done, if ctabfit == -1 then 20 - ctabx else ctabx
      {
        var fits;
        hiscan, fits := Probe(hiscan);
        ctabfit, done := Roam(ctablo, ctabw, ctabfit, fits, ds);
      }
      BufferedPrefix(hiscan, CompSeq(ctabx).scan, lastSample, Queue(), sc[..], diffs[..]);
    }

    /** Packs the buffered differences of row `ctabx` into a word. */
    method PackWord() returns (accum: Word)
      requires Shape() && Ready(CompSeq(ctabx).scan)
      ensures Pair(CompSeq(ctabx).bc, accum) == EncodeWord(lastSample, ctabx, Queue()[..CompSeq(ctabx).scan])
    {
      hide Push, Diffs, Window, StartsRecord;
      var scan := CompSeq(ctabx).scan;
      accum := CompSeq(ctabx).cbits;
      for i := 0 to scan
        invariant accum == Pack(ctabx, diffs[..i], CompSeq(ctabx).cbits)
      {
        PackLast(ctabx, diffs[..i + 1], CompSeq(ctabx).cbits);
        assert diffs[..i + 1][..i] == diffs[..i];
        accum := Push(ctabx, accum, diffs[i]);
      }
    }

    lemma WholeFrames()
      requires Valid() && block <= 1 && (rec != [] ==> block == 1)
      ensures Pairs() == RecordPairs(rec)
    {
    }

    /** The first sample of the record, in word 1 of its first data frame. */
    ghost function FirstSample(): Word
      reads this, frameBuffer
      requires Shape()
    {
      if rec == [] then frameBuffer[1] else rec[0][1]
    }

    /** The samples a word takes from the queue, and the word. */
    ghost predicate Consumes(last: Word, q: seq<Word>, used: nat, word: Pair)
      reads this, peeks
      requires Shape()
    {
      var i := Choose(Ahead(last, q), 0);
      && used == CompSeq(i).scan <= |q| && word == EncodeWord(last, i, q[..used])
      && Queue() == q[used..] && lastSample == q[used - 1]
    }

    method StartRecord()
      requires Valid() && Fresh() && 1 <= peekTotal
      modifies this`block, this`flagWord, this`ctabx, frameBuffer
      ensures Valid() && !Fresh() && Built() == [] && FirstSample() == Queue()[0] && Queue() == old(Queue())
    {
      WindowFirst(peeks[..], nextOut, peekTotal);
      frameBuffer[1] := peeks[nextOut];
      frameBuffer[2] := 0;
      block := 3;
      flagWord := 0;
      ctabx := 0;
      NoCodes();
      assert frameBuffer[3..3] == [];
    }

    /** Takes the chosen samples off the queue. */
    method TakeSamples()
      requires Shape() && Ready(CompSeq(ctabx).scan)
      modifies this`peekTotal, this`nextOut, this`lastSample
      ensures Shape() && Queue() == old(Queue())[CompSeq(ctabx).scan..]
      ensures lastSample == old(Queue())[CompSeq(ctabx).scan - 1]
    {
      hide Diffs, Window, CompSeq, Wrap, StartsRecord;
      var scan := CompSeq(ctabx).scan;
      TakenFrom(lastSample, Queue(), sc[..], diffs[..], scan);
      WindowDrop(peeks[..], nextOut, peekTotal, scan);
      peekTotal := peekTotal - scan;
      nextOut := Wrap(nextOut + scan, PEEKELEMS);
      lastSample := sc[scan + 1];
    }

    /** Compresses the first samples of the queue into one word of a started record. */
    method CompressWord() returns (used: nat, ghost word: Pair)
      requires Valid() && !Fresh() && 1 <= peekTotal
      modifies this`block, this`flagWord, this`ctabx, this`peekTotal, this`nextOut, this`lastSample
      modifies this`rec, this`frame, frameBuffer, diffs, sc
      ensures Valid() && !Fresh() && Pairs() == old(Pairs()) + [word] && FirstSample() == old(FirstSample())
      ensures |rec| == |old(rec)| || (|rec| == |old(rec)| + 1 && block == 1)
      ensures Consumes(old(lastSample), old(Queue()), used, word)
    {
      hide Choose, Ahead, RecordPairs, CodesOf, PairsOf, AtMost, Window, Buffered, EncodeWord, CompSeq, Wrap, InChain;
      ChooseFormat();
      var accum := PackWord();
      used := CompSeq(ctabx).scan;
      word := Pair(CompSeq(ctabx).bc, accum);
      TakeSamples();
      StoreWord(CompSeq(ctabx).bc, accum);
    }

    /** The same, starting a record first where needed; without a record buffer it does nothing. */
    method CompressBlock() returns (used: nat, ghost word: Pair)
      requires Valid() && (hasRing ==> 1 <= peekTotal)
      modifies this`block, this`flagWord, this`ctabx, this`peekTotal, this`nextOut, this`lastSample
      modifies this`rec, this`frame, frameBuffer, diffs, sc
      ensures Valid()
      ensures !hasRing ==>
        used == 0 && Queue() == old(Queue()) && lastSample == old(lastSample) && Pairs() == old(Pairs())
      ensures hasRing ==> !Fresh() && Pairs() == old(Pairs()) + [word]
      ensures |rec| == |old(rec)| || (|rec| == |old(rec)| + 1 && block == 1)
      ensures hasRing ==> Consumes(old(lastSample), old(Queue()), used, word)
      ensures hasRing ==> FirstSample() == if old(Fresh()) then old(Queue())[0] else old(FirstSample())
    {
      hide Consumes, RecordPairs, CodesOf, PairsOf, AtMost, Window, Wrap;
      if !hasRing {
        return 0, Pair(0, 0);
      }
      if frame == blocketteCount + 1 && block <= 1 {
        StartRecord();
      }
      used, word := CompressWord();
    }

    /** Adds a sample to the queue. */
    method Queued(x: Word)
      requires Valid() && peekTotal < PEEKELEMS
      modifies this`nextIn, this`peekTotal, peeks
      ensures Valid() && Queue() == old(Queue()) + [x] && Pairs() == old(Pairs()) && Fresh() == old(Fresh())
    {
      hide RecordPairs, CodesOf, PairsOf, AtMost, Wrap;
      ghost var ring := peeks[..];
      peeks[nextIn] := x;
      nextIn := Wrap(nextIn + 1, PEEKELEMS);
      peekTotal := peekTotal + 1;
      WindowGrows(ring, nextOut, peekTotal - 1, x);
      assert peeks[..] == ring[Wrap(nextOut + (peekTotal - 1), PEEKELEMS) := x];
    }

    /** Completes a partial frame: the unused words get code zero. */
    method CompleteFrame()
      requires Valid() && 1 < block
      modifies this`flagWord, this`block, this`rec, this`frame, frameBuffer
      ensures Valid() && block == 1 && rec != [] && Data(Pairs()) == old(Data(Pairs()))
      ensures FirstSample() == old(FirstSample())
    {
      hide RecordPairs, CodesOf, PairsOf, AtMost, First, ShiftCodes;
      PaddedFrame(rec, flagWord, frameBuffer[..], block);
      flagWord := ShiftCodes(flagWord, WORDS_PER_FRAME - block);
      block := WORDS_PER_FRAME;
      assert frameBuffer[First(rec)..block] == frameBuffer[..][First(rec)..];
      CloseFrame();
    }

    /** Puts the last sample into word 2 of the frame behind the blockettes, which is the first data
        frame if there is one, and gives the record away. */
    method TakeRecord() returns (done: Record)
      requires Valid() && block <= 1
      modifies this`rec, this`blks, this`links, this`frame, this`blocketteCount
      ensures Valid() && Fresh() && frame == 1 && blks == [] && done.blks == old(blks) && done.beyond == lastSample
      ensures |done.data| == |old(rec)|
      ensures old(rec) != [] ==> done.data[1..] == old(rec)[1..] && done.data[0] == old(rec)[0][2 := lastSample]
    {
      done := Record(blks, if rec == [] then [] else [rec[0][2 := lastSample]] + rec[1..], lastSample);
      rec, blks, links := [], [], [];
      blocketteCount := 0;
      frame := 1;
    }

    /** Puts a blockette behind those of the record, in front of its data frames. */
    method InsertBlockette(body: int)
      requires Valid()
      modifies this`blks, this`links, this`frame, this`blocketteCount
      ensures Valid() && blks == old(blks) + [body] && frame == old(frame) + 1
    {
      if blocketteCount > 0 {
        links := links[blocketteCount - 1 := FRAME_SIZE * (blocketteCount + 1)];
      }
      blks, links := blks + [body], links + [0];
      blocketteCount := blocketteCount + 1;
      frame := frame + 1;
    }
  }

  /** The state of the search at row `x`, begun at row `w`: either no row is known to fit and
      the rows from `w` up to `x` do not, or the row above `x` does. */
  ghost predicate Searching(ds: seq<Word>, lo: nat, w: nat, x: nat, fit: int) {
    && lo <= x < 7 && w < 7 && lo == 7 - |ds| && (fit == -1 || (fit == x + 1 && fit <= w && Fits(fit, ds)))
    && (fit == -1 ==> w <= x && (w < x ==> !Fits(x - 1, ds)))
  }

  lemma SearchStart(ds: seq<Word>, lo: nat, w: nat)
    requires lo == 7 - |ds| && lo <= w < 7
    ensures Searching(ds, lo, w, w, -1)
  {
  }

  /** The test on the buffered differences is the test on the queue. */
  lemma FitsBuffered(last: Word, q: seq<Word>, n: nat, diffs: seq<Word>, i: nat)
    requires n <= |q| && n <= 7 == |diffs| && diffs[..n] == Diffs(last, q[..n])
    requires i < 7 && CompSeq(i).scan <= n
    ensures Fits(i, Ahead(last, q)) <==> forall k | 0 <= k < CompSeq(i).scan :: !TooBig(diffs[k], CompSeq(i).disc)
  {
    hide TooBig, Diffs;
    var a := Ahead(last, q);
    AheadPrefix(last, q);
    DiffsPrefix(last, q, n);
    assert forall k | 0 <= k < n :: diffs[k] == diffs[..n][k] == Diffs(last, q)[k] == a[k];
  }

  lemma NoneShorter(ds: seq<Word>, c: nat)
    requires c < 7 && (c == 0 || |ds| == 7 - c)
    ensures c > 0 ==> !Fits(c - 1, ds)
  {
  }

  lemma ChosenIs(ds: seq<Word>, c: nat)
    requires c < 7 && (Fits(c, ds) || c == 6) && (c > 0 ==> !Fits(c - 1, ds) || !Fits(c, ds))
    ensures Choose(ds, 0) == c
  {
    hide TooBig, Choose;
    forall j | 0 <= j < c
      ensures !Fits(j, ds)
    {
      if Fits(j, ds) {
        FitsUp(j, c - 1, ds);
        FitsUp(j, c, ds);
      }
    }
    ChooseFirst(ds, 0, c);
  }

  lemma {:induction false} ChooseFirst(ds: seq<Word>, i: nat, c: nat)
    requires i <= c < 7 && (Fits(c, ds) || c == 6) && forall j | i <= j < c :: !Fits(j, ds)
    ensures Choose(ds, i) == c
    decreases c - i
  {
    hide Fits;
    if i < c {
      ChooseFirst(ds, i + 1, c);
    }
  }

  lemma RecordPush(rec: seq<Frame>, f: Frame)
    ensures RecordPairs(rec + [f]) == RecordPairs(rec) + FramePairs(f, First(rec))
  {
    assert (rec + [f])[..|rec|] == rec;
  }

  lemma NoCodes()
    ensures AtMost(0, 0) && CodesOf(0, 0) == []
  {
  }

  lemma {:induction false} DiffsExtend(last: Word, xs: seq<Word>, x: Word)
    ensures Diffs(last, xs + [x]) == Diffs(last, xs) + [Minus(x, LastOf(last, xs))]
    decreases |xs|
  {
    hide Minus;
    if xs == [] {
      assert [] + [x] == [x];
    } else {
      assert (xs + [x])[1..] == xs[1..] + [x];
      DiffsExtend(xs[0], xs[1..], x);
    }
  }

  lemma DiffsNext(last: Word, q: seq<Word>, n: nat)
    requires n < |q|
    ensures Diffs(last, q[..n + 1]) == Diffs(last, q[..n]) + [Minus(q[n], LastOf(last, q[..n]))]
  {
    hide Minus;
    assert q[..n + 1] == q[..n] + [q[n]];
    DiffsExtend(last, q[..n], q[n]);
  }

  lemma BufferedPrefix(m: nat, n: nat, last: Word, q: seq<Word>, sc: seq<Word>, diffs: seq<Word>)
    requires Buffered(m, last, q, sc, diffs) && n <= m
    ensures Buffered(n, last, q, sc, diffs) && n <= |q|
  {
    hide Diffs;
    DiffsPrefix(last, q[..m], n);
    assert q[..m][..n] == q[..n] && diffs[..m][..n] == diffs[..n];
  }

  lemma NothingBuffered(last: Word, q: seq<Word>, sc: seq<Word>, diffs: seq<Word>)
    requires |sc| == 9 && |diffs| == 7 && sc[1] == last
    ensures Buffered(0, last, q, sc, diffs)
  {
  }

  lemma TakenFrom(last: Word, q: seq<Word>, sc: seq<Word>, diffs: seq<Word>, n: nat)
    requires Buffered(n, last, q, sc, diffs) && 1 <= n
    ensures n <= |q| && sc[n + 1] == q[n - 1]
  {
    hide Diffs;
    assert sc[n - 1 + 2] == q[n - 1];
  }

  /** Shifting the flag word up makes a whole frame with the same data. */
  lemma PaddedFrame(rec: seq<Frame>, flag: Word, words: seq<Word>, block: nat)
    requires |words| == WORDS_PER_FRAME && 1 < block <= WORDS_PER_FRAME && First(rec) <= block
    requires AtMost(block - First(rec), flag)
    ensures var first, shifted := First(rec), ShiftCodes(flag, WORDS_PER_FRAME - block);
      && AtMost(WORDS_PER_FRAME - first, shifted)
      && Data(RecordPairs(rec) + PairsOf(CodesOf(shifted, WORDS_PER_FRAME - first), words[first..]))
        == Data(RecordPairs(rec) + PairsOf(CodesOf(flag, block - first), words[first..block]))
  {
    hide RecordPairs, CodesOf, PairsOf, AtMost, First, ShiftCodes, Data;
    var first, k := First(rec), WORDS_PER_FRAME - block;
    var codes := CodesOf(flag, block - first);
    PadAppends(flag, block - first, k);
    ShiftIsPad(flag, k);
    PaddedData(codes, words[first..block], words[block..]);
    DataAppend(RecordPairs(rec), PairsOf(codes, words[first..block]));
    assert words[first..block] + words[block..] == words[first..];
    DataAppend(RecordPairs(rec), PairsOf(CodesOf(ShiftCodes(flag, k), WORDS_PER_FRAME - first), words[first..]));
  }

  lemma PaddedData(codes: seq<Word>, used: seq<Word>, unused: seq<Word>)
    requires |codes| == |used|
    ensures var zeros := seq(|unused|, _ => 0);
      Data(PairsOf(codes + zeros, used + unused)) == Data(PairsOf(codes, used))
  {
    var zeros := seq(|unused|, _ => 0);
    assert PairsOf(codes + zeros, used + unused) == PairsOf(codes, used) + PairsOf(zeros, unused);
    DataAppend(PairsOf(codes, used), PairsOf(zeros, unused));
    DataNone(PairsOf(zeros, unused));
  }
}
