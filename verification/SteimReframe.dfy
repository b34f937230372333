/** A blockette of words that arrive already compressed: decompressed into a buffer of samples,
    then copied word by word into the frames of a record. */
module SteimReframe {
  import opened SteimModel
  import opened SteimCodec
  import opened SteimFrames
  import opened Steim
  import opened SteimRecords

  /** A map word: the codes of eight words, first one highest. */
  type Map = bv16

  function TwoBits(b: Map): (c: Word)
    ensures c <= 3
  {
    if b & 3 == 0 then 0 else if b & 3 == 1 then 1 else if b & 3 == 2 then 2 else 3
  }

  /** The code at bit index 0, 2, .. 14 from the top. */
  function CodeIn(map_: Map, index: nat): (c: Word)
    ensures c <= 3
  {
    TwoBits(match index
            case 0 => map_ >> 14 case 2 => map_ >> 12 case 4 => map_ >> 10 case 6 => map_ >> 8
            case 8 => map_ >> 6 case 10 => map_ >> 4 case 12 => map_ >> 2 case _ => map_)
  }

  /** Where the code of word `k` is: the map word and the bit index in it. */
  function WordOf(k: nat): (m: nat)
    ensures k < 8 * (m + 1) && 8 * m <= k
  {
    k / 8
  }

  function BitOf(k: nat): (b: nat)
    ensures b <= 14
  {
    2 * (k % 8)
  }

  lemma MapNext(k: nat)
    ensures WordOf(0) == 0 && BitOf(0) == 0
    ensures if BitOf(k) + 2 > 14 then BitOf(k + 1) == 0 && WordOf(k + 1) == WordOf(k) + 1
      else BitOf(k + 1) == BitOf(k) + 2 && WordOf(k + 1) == WordOf(k)
  {
  }

  /** The code-word pairs of a blockette. */
  function Source(maps: seq<Map>, data: seq<Word>): (ps: seq<Pair>)
    requires |data| <= 8 * |maps|
    ensures |ps| == |data|
  {
    seq(|data|, k requires 0 <= k < |data| => Pair(CodeIn(maps[WordOf(k)], BitOf(k)), data[k]))
  }

  /** Samples in a series of words. */
  function Total(ps: seq<Pair>): nat {
    if ps == [] then 0 else Total(ps[..|ps| - 1]) + Samps(Subcode(ps[|ps| - 1]))
  }

  /** The words a decompression with room for `room` samples looks into: it stops at a word
      without a valid subcode and when the room is used up. */
  function Begun(ps: seq<Pair>, room: int): (w: nat)
    ensures w <= |ps|
    decreases |ps|
  {
    if ps == [] || room <= 0 || Subcode(ps[0]) > 6 then 0 else 1 + Begun(ps[1..], room - Samps(Subcode(ps[0])))
  }

  function Min(a: int, b: int): int {
    if a < b then a else b
  }

  lemma {:induction false} BegunIs(ps: seq<Pair>, room: int, w: nat)
    requires w <= |ps| && (forall k | 0 <= k < w :: Subcode(ps[k]) <= 6 && Total(ps[..k]) < room)
    requires w == |ps| || Total(ps[..w]) >= room || Subcode(ps[w]) > 6
    ensures Begun(ps, room) == w
    decreases |ps|
  {
    hide Subcode, Samps, Total;
    if w == 0 {
      assert ps[..0] == [];
      NoTotal();
    } else {
      var n := Samps(Subcode(ps[0]));
      assert ps[..0] == [];
      NoTotal();
      forall k | 0 <= k < w
        ensures Total(ps[..k + 1]) == n + Total(ps[1..][..k])
      {
        TotalCons(ps, k);
      }
      forall k | 0 <= k < w - 1
        ensures Subcode(ps[1..][k]) <= 6 && Total(ps[1..][..k]) < room - n
      {
        assert Subcode(ps[k + 1]) <= 6 && Total(ps[..k + 1]) < room;
      }
      assert Total(ps[..w - 1 + 1]) == n + Total(ps[1..][..w - 1]);
      BegunIs(ps[1..], room - n, w - 1);
      assert Subcode(ps[0]) <= 6 && Total(ps[..0]) < room;
    }
  }

  lemma NoTotal()
    ensures Total([]) == 0
  {
  }

  lemma {:induction false} TotalCons(ps: seq<Pair>, k: nat)
    requires k < |ps|
    ensures Total(ps[..k + 1]) == Samps(Subcode(ps[0])) + Total(ps[1..][..k])
    decreases k
  {
    hide Subcode, Samps;
    if k == 0 {
      assert ps[..1][..0] == [] && ps[1..][..0] == [];
    } else {
      assert ps[..k + 1][..k] == ps[..k] && ps[1..][..k][..k - 1] == ps[1..][..k - 1];
      TotalCons(ps, k - 1);
    }
  }

  lemma TotalNext(ps: seq<Pair>, w: nat)
    requires w < |ps|
    ensures Total(ps[..w + 1]) == Total(ps[..w]) + Samps(Subcode(ps[w]))
  {
    assert ps[..w + 1][..w] == ps[..w];
  }

  lemma DecodeNext(last: Word, ps: seq<Pair>, w: nat)
    requires w < |ps|
    ensures DecodePairs(last, ps[..w + 1])
      == DecodePairs(last, ps[..w]) + DecodeWord(LastOf(last, DecodePairs(last, ps[..w])), ps[w])
  {
    assert ps[..w + 1] == ps[..w] + [ps[w]];
    DecodeAppend(last, ps[..w], ps[w]);
  }

  lemma {:induction false} TotalIs(last: Word, ps: seq<Pair>)
    ensures |DecodePairs(last, ps)| == Total(ps)
    decreases |ps|
  {
    hide DecodeWord, Subcode, Samps;
    if ps != [] {
      var n := |ps| - 1;
      TotalIs(last, ps[..n]);
      DecodeNext(last, ps, n);
      assert ps[..n + 1] == ps;
    }
  }

  /** The buffer holds the first samples, up to `end`, and `curval` the last one of them or
      the one the buffer has no room for. */
  ghost predicate Filled(xs: seq<Word>, buf: seq<Word>, end: nat, first: Word, curval: Word) {
    && end == Min(|buf|, |xs|) && buf[..end] == xs[..end]
    && curval == LastOf(first, xs[..Min(|xs|, |buf| + 1)])
  }

  lemma FilledLast(xs: seq<Word>, buf: seq<Word>, end: nat, first: Word, curval: Word)
    requires Filled(xs, buf, end, first, curval) && end < |buf|
    ensures end == |xs| && curval == LastOf(first, xs)
  {
    assert xs[..|xs|] == xs;
  }

  lemma FilledMore(xs: seq<Word>, ys: seq<Word>, buf0: seq<Word>, buf: seq<Word>, at: nat, end: nat, first: Word,
                   last: Word, curval: Word)
    requires |buf0| == |buf| && Filled(xs, buf0, at, first, last) && at < |buf|
    requires end == Min(|buf|, at + |ys|) && buf[..at] == buf0[..at] && buf[at..end] == ys[..end - at]
    requires curval == LastOf(last, ys[..Min(|ys|, end - at + 1)])
    ensures Filled(xs + ys, buf, end, first, curval)
  {
    assert xs[..|xs|] == xs;
    assert buf[..end] == buf[..at] + buf[at..end];
    assert (xs + ys)[..end] == xs + ys[..end - at];
    var n := Min(|xs + ys|, |buf| + 1);
    assert (xs + ys)[..n] == xs + ys[..n - |xs|];
    assert n - |xs| == Min(|ys|, end - at + 1);
  }

  /** The pre-compressed data of a channel. */
  class Precomp {
    const rate: nat
    const idxbuf: array<nat>
    const databuf: array<Word>
    // what the memory around the two buffers holds
    const idxBehind: nat -> int
    const dataAround: int -> Word
    var maps: seq<Map>
    var data: seq<Word>
    var prevSample: Word
    var prevValue: Word
    var blocks: nat
    var mapIdx: nat
    var curMap: Map
    var mapPos: nat
    var dataPos: nat
    var blockIdx: nat

    /** The buffers have room for a second of samples, and the blockette a code for each word. */
    ghost predicate Shape()
      reads this
    {
      && idxbuf.Length == rate + 1 && databuf.Length == rate
      && |data| <= 8 * |maps| && dataPos + blocks <= |data|
    }

    /** Loads a map word; past the map the source reads on into whatever follows, which it
        then does not use. */
    method LoadMap(pos: nat)
      modifies this`curMap
      ensures pos < |maps| ==> curMap == maps[pos]
    {
      curMap := if pos < |maps| then maps[pos] else 0;
    }

    /** Takes the fields out of a word, lowest first. */
    static method UnpackWord(subcode: nat, word: Word) returns (unpacked: seq<Word>)
      requires subcode < 7
      ensures unpacked == Unpack(subcode, Samps(subcode), word)
    {
      hide Field, Rest;
      var accum := word;
      unpacked := [];
      var k := Samps(subcode);
      while k > 0
        invariant Unpack(subcode, k, accum) + unpacked == Unpack(subcode, Samps(subcode), word)
      {
        assert Unpack(subcode, k, accum)
          == Unpack(subcode, k - 1, Rest(subcode, accum)) + [Field(subcode, accum)];
        unpacked := [Field(subcode, accum)] + unpacked;
        accum := Rest(subcode, accum);
        k := k - 1;
      }
    }

    /** Adds up the differences of a word into the sample buffer, as far as there is room. */
    method StoreSamples(at: nat, last: Word, unpacked: seq<Word>) returns (end: nat, curval: Word)
      requires Shape() && at <= rate
      modifies this`blocks, databuf
      ensures var xs := Sums(last, unpacked);
        && end == Min(rate, at + |xs|) && databuf[..at] == old(databuf[..at]) && databuf[at..end] == xs[..end - at]
        && curval == LastOf(last, xs[..Min(|xs|, end - at + 1)])
        && blocks == if at + |xs| > rate then 0 else old(blocks)
    {
      hide Plus;
      ghost var xs := Sums(last, unpacked);
      end, curval := at, last;
      var k := 0;
      while k < |unpacked|
        invariant k <= |xs| && end == at + k <= rate && curval == LastOf(last, xs[..k])
        invariant databuf[..at] == old(databuf[..at]) && databuf[at..end] == xs[..k] && blocks == old(blocks)
      {
        SumsNext(last, unpacked, k);
        curval := Plus(curval, unpacked[k]);
        assert curval == LastOf(last, xs[..k + 1]);
        if end >= rate {
          blocks := 0;
          return;
        }
        databuf[end] := curval;
        end := end + 1;
        k := k + 1;
      }
      assert xs[..|xs|] == xs;
    }

    ghost function Pairs(): seq<Pair>
      reads this
      requires |data| <= 8 * |maps|
    {
      Source(maps, data)
    }

    /** The samples of the first `w` words, as far as there is room. */
    ghost predicate Decoded(w: nat, end: nat, curval: Word)
      reads this, databuf
      requires Shape() && w <= |data|
    {
      Filled(DecodePairs(prevSample, Pairs()[..w]), databuf[..], end, prevSample, curval)
    }

    /** Each of the first `w` words is valid and started before the room was used up, and has
        the index of its first sample. */
    ghost predicate Indexed(w: nat)
      reads this, idxbuf
      requires Shape() && w <= |data|
    {
      && w < idxbuf.Length && blockIdx == w
      && forall k | 0 <= k < w :: Subcode(Pairs()[k]) <= 6 && idxbuf[k] == Total(Pairs()[..k]) < rate
    }

    /** Decodes word `w` behind the samples of the words before it. */
    method DecodeStep(w: nat, subcode: nat, at: nat, last: Word) returns (end: nat, curval: Word)
      requires Shape() && w < |data| && Decoded(w, at, last) && at < rate && Indexed(w) && w <= at
      requires subcode == Subcode(Pairs()[w]) <= 6
      modifies this`blocks, this`blockIdx, databuf, idxbuf
      ensures |data| <= 8 * |maps| && end == Min(rate, Total(Pairs()[..w + 1])) && w + 1 <= end
      ensures blocks == if Total(Pairs()[..w + 1]) > rate then 0 else old(blocks)
      ensures Shape() && Decoded(w + 1, end, curval) && Indexed(w + 1)
    {
      hide Source, DecodePairs, Unpack, Sums, Subcode, Total, LastOf, Filled;
      ghost var ps := Pairs();
      FilledLast(DecodePairs(prevSample, ps[..w]), databuf[..], at, prevSample, last);
      TotalIs(prevSample, ps[..w]);
      TotalNext(ps, w);
      TotalIs(prevSample, ps[..w + 1]);
      DecodeNext(prevSample, ps, w);
      idxbuf[blockIdx] := at;
      blockIdx := blockIdx + 1;
      var unpacked := UnpackWord(subcode, data[w]);
      SourceWord(maps, data, w);
      ghost var buf := databuf[..];
      end, curval := StoreSamples(at, last, unpacked);
      FilledMore(DecodePairs(prevSample, ps[..w]), Sums(last, unpacked), buf, databuf[..], at, end, prevSample, last,
        curval);
    }

    /** The row for word `w`; 7 when it has none. */
    method SubcodeOf(w: nat, midx: nat) returns (subcode: nat)
      requires w < |data| <= 8 * |maps| && midx == BitOf(w) && curMap == maps[WordOf(w)]
      ensures subcode == Subcode(Pairs()[w])
    {
      var accum := data[w];
      SourceWord(maps, data, w);
      subcode := 0;
      var code := CodeIn(curMap, midx);
      if code == 2 {
        subcode := Top(accum);
      } else if code == 3 {
        subcode := 4 + Top(accum);
      }
    }

    /** Decompresses the blockette into the sample buffer and notes where each word starts. */
    method Decompress() returns (total: nat)
      requires Shape() && mapIdx == 0 && mapPos == 0 && dataPos == 0 && blocks == |data|
      modifies this`blocks, this`blockIdx, this`curMap, this`prevValue, databuf, idxbuf
      ensures Shape() && blockIdx == 0
      ensures var w := Begun(Pairs(), rate);
        && total == Min(rate, Total(Pairs()[..w])) && Decoded(w, total, prevValue)
        && w <= rate && idxbuf[w] == total && (forall k | 0 <= k < w :: idxbuf[k] == Total(Pairs()[..k]))
        && blocks == if Total(Pairs()[..w]) > rate || (w < |data| && Total(Pairs()[..w]) < rate) then 0 else |data|
    {
      hide Source, Total, Subcode, DecodePairs, Filled, Begun, CodeIn, WordOf, BitOf;
      ghost var ps := Pairs();
      var ptridx, curval, dblocks, midx, mpos := 0, prevSample, |data|, 0, 1;
      blockIdx := 0;
      LoadMap(0);
      var pd := 0;
      NothingDecoded();
      MapNext(0);
      while dblocks > 0 && ptridx < rate
        invariant Shape() && pd <= |data| && dblocks == |data| - pd && midx == BitOf(pd) && mpos == WordOf(pd) + 1
        invariant pd < |data| ==> curMap == maps[WordOf(pd)]
        invariant Decoded(pd, ptridx, curval) && Indexed(pd) && pd <= ptridx == Min(rate, Total(ps[..pd]))
        invariant blocks == if Total(ps[..pd]) > rate then 0 else |data|
        decreases dblocks
      {
        var subcode := SubcodeOf(pd, midx);
        if subcode > 6 {
          blocks := 0;
          break;
        }
        ptridx, curval := DecodeStep(pd, subcode, ptridx, curval);
        dblocks := dblocks - 1;
        MapNext(pd);
        midx := midx + 2;
        pd := pd + 1;
        if midx > 14 {
          midx := 0;
          LoadMap(mpos);
          mpos := mpos + 1;
        }
      }
      forall k | 0 <= k < pd
        ensures Subcode(ps[k]) <= 6 && Total(ps[..k]) < rate
      {
        assert idxbuf[k] == Total(ps[..k]);
      }
      BegunIs(ps, rate, pd);
      prevValue := curval;
      idxbuf[blockIdx] := ptridx;
      blockIdx := 0;
      total := ptridx;
    }

    lemma NothingDecoded()
      requires Shape()
      ensures Decoded(0, 0, prevSample) && Total(Pairs()[..0]) == 0
    {
      assert Pairs()[..0] == [];
    }

    /** The first `pos` words have been copied to frames; the next code and word are at hand. */
    ghost predicate At(pos: nat)
      reads this
    {
      && Shape() && dataPos == blockIdx == pos && pos + blocks <= |data| && mapIdx == BitOf(pos)
      && mapPos == WordOf(pos) + (if mapIdx == 0 then 0 else 1)
      && (mapIdx != 0 ==> WordOf(pos) < |maps| && curMap == maps[WordOf(pos)])
    }

    /** The index of a word, also of one that was never set or lies behind the buffer. */
    function IndexAt(pos: nat): int
      reads idxbuf
    {
      if pos < idxbuf.Length then idxbuf[pos] else idxBehind(pos)
    }

    /** The sample at an index, also in front of the buffer or behind it. */
    function SampleAt(k: int): Word
      reads databuf
    {
      if 0 <= k < databuf.Length then databuf[k] else dataAround(k)
    }

    /** The first `n` words have been decompressed and there was room for their samples. */
    ghost predicate Known(n: nat)
      reads this, idxbuf, databuf
    {
      Shape() && n <= |data| && Spread(Pairs()[..n], idxbuf[..], databuf[..], prevSample)
    }

    /** The frame is not in the buffers of the blockette. */
    ghost predicate Apart(com: ComPacket) {
      com.frameBuffer != databuf && com.frameBuffer as object != idxbuf
    }

    /** Takes the next code and word. */
    method NextWord() returns (code: Word, word: Word)
      requires At(blockIdx) && blocks > 0
      modifies this`blocks, this`blockIdx, this`mapIdx, this`curMap, this`mapPos, this`dataPos
      ensures At(blockIdx) && blockIdx == old(blockIdx) + 1 && blocks == old(blocks) - 1
      ensures Pair(code, word) == Pairs()[old(blockIdx)] && code <= 3
    {
      hide Source, CodeIn, WordOf, BitOf;
      if mapIdx == 0 {
        LoadMap(mapPos);
        mapPos := mapPos + 1;
      }
      SourceWord(maps, data, blockIdx);
      MapNext(blockIdx);
      code, word := CodeIn(curMap, mapIdx), data[dataPos];
      dataPos := dataPos + 1;
      blocks := blocks - 1;
      blockIdx := blockIdx + 1;
      mapIdx := mapIdx + 2;
      if mapIdx > 14 {
        mapIdx := 0;
      }
    }

    /** Copies words to the current frame until it is full or none are left. */
    method CopyWords(com: ComPacket)
      requires At(blockIdx) && com.Shape() && com.Started() && com.block < WORDS_PER_FRAME
      modifies this`blocks, this`blockIdx, this`mapIdx, this`curMap, this`mapPos, this`dataPos
      modifies com`flagWord, com`block, com.frameBuffer
      ensures old(blockIdx) <= blockIdx && At(blockIdx) && blockIdx <= |data|
      ensures blockIdx + blocks == old(blockIdx + blocks)
      ensures blockIdx - old(blockIdx)
        == Min(old(blocks), WORDS_PER_FRAME - old(com.block)) == com.block - old(com.block)
      ensures com.Shape() && com.Started() && com.Built() == old(com.Built()) + Pairs()[old(blockIdx)..blockIdx]
      ensures forall w | 0 < w < old(com.block) :: com.frameBuffer[w] == old(com.frameBuffer[w])
    {
      hide Source, At, CodesOf, AtMost, RecordPairs, PairsOf;
      AtEnd();
      ghost var ps, pos, built := Pairs(), blockIdx, com.Built();
      assert built == built + ps[pos..pos];
      while blocks > 0 && com.block < WORDS_PER_FRAME
        invariant pos <= blockIdx && blockIdx + blocks <= |ps| && At(blockIdx) && blockIdx + blocks == pos + old(blocks)
        invariant com.block - old(com.block) == blockIdx - pos
        invariant com.Shape() && com.Started() && com.Built() == built + ps[pos..blockIdx]
        invariant forall w | 0 < w < old(com.block) :: com.frameBuffer[w] == old(com.frameBuffer[w])
        decreases blocks
      {
        var code, word := NextWord();
        com.PutWord(code, word);
        assert ps[pos..blockIdx] == ps[pos..blockIdx - 1] + [Pair(code, word)];
      }
    }

    /** Copies words, and puts the frame into the record when it is full. */
    method CopyFrame(com: ComPacket)
      requires At(blockIdx) && com.Valid() && !com.Fresh()
      modifies this`blocks, this`blockIdx, this`mapIdx, this`curMap, this`mapPos, this`dataPos
      modifies com`flagWord, com`block, com`rec, com`frame, com.frameBuffer
      ensures At(blockIdx) && WentOn(old(blockIdx), old(blocks), WORDS_PER_FRAME - old(com.block))
      ensures com.Valid() && !com.Fresh() && com.Pairs() == old(com.Pairs()) + Pairs()[old(blockIdx)..blockIdx]
      ensures com.FirstSample() == old(com.FirstSample())
      ensures Grown(com, old(com.rec), old(com.block), old(blocks))
    {
      hide At, Source, RecordPairs, PairsOf, CodesOf, AtMost;
      AtEnd();
      CopyWords(com);
      AtEnd();
      if com.block >= WORDS_PER_FRAME {
        com.CloseFrame();
      }
    }

    lemma AtEnd()
      requires At(blockIdx)
      ensures Shape() && blockIdx + blocks <= |data|
    {
    }

    /** From word `i` on, of the `n` words left as many have been copied as there is room for. */
    ghost predicate WentOn(i: nat, n: nat, room: nat)
      reads this
    {
      blockIdx == i + Min(n, room) <= |data| && blocks == n - Min(n, room)
    }

    /** The frame being built, which went up to word `block`, has the words or is in the record. */
    ghost predicate Grown(com: ComPacket, rec: seq<Frame>, block: nat, words: nat)
      reads com
    {
      if words < WORDS_PER_FRAME - block then com.rec == rec && com.block == block + words
      else |com.rec| == |rec| + 1 && com.block == 1
    }

    /** Starts a record with what should be the first sample of the next word. */
    method StartFrame(com: ComPacket)
      requires com.Valid() && com.Fresh() && Apart(com)
      modifies com`block, com.frameBuffer
      ensures com.Valid() && !com.Fresh() && com.Pairs() == [] && com.block == 3
      ensures com.FirstSample() == SampleAt(IndexAt(blockIdx))
    {
      com.frameBuffer[1] := SampleAt(IndexAt(blockIdx));
      com.frameBuffer[2] := 0;
      com.block := 3;
      NoCodes();
      assert com.frameBuffer[3..3] == [];
    }

    /** Copies words to the frame being built and counts their samples by the index buffer. */
    method BuildFrame(com: ComPacket) returns (count: int)
      requires At(blockIdx) && com.Valid() && !com.Fresh() && Apart(com)
      modifies this`blocks, this`blockIdx, this`mapIdx, this`curMap, this`mapPos, this`dataPos
      modifies com`flagWord, com`block, com`rec, com`frame, com`lastSample, com.frameBuffer
      ensures At(blockIdx) && WentOn(old(blockIdx), old(blocks), WORDS_PER_FRAME - old(com.block))
      ensures com.Valid() && !com.Fresh() && com.Pairs() == old(com.Pairs()) + Pairs()[old(blockIdx)..blockIdx]
      ensures com.FirstSample() == old(com.FirstSample())
      ensures Grown(com, old(com.rec), old(com.block), old(blocks))
      ensures count == IndexAt(blockIdx) - IndexAt(old(blockIdx))
      ensures com.lastSample == SampleAt(IndexAt(blockIdx) - 1)
    {
      hide Source, RecordPairs, PairsOf, CodesOf, AtMost, At, InChain;
      AtEnd();
      count := IndexAt(blockIdx);
      CopyFrame(com);
      com.lastSample := SampleAt(IndexAt(blockIdx) - 1);
      count := IndexAt(blockIdx) - count;
    }

    /** The same, starting a record first where needed; without a record buffer it does
        nothing.  It is also called with no words left. */
    method BuildBlocks(com: ComPacket) returns (count: int)
      requires At(blockIdx) && com.Valid() && Apart(com)
      modifies this`blocks, this`blockIdx, this`mapIdx, this`curMap, this`mapPos, this`dataPos
      modifies com`flagWord, com`block, com`rec, com`frame, com`lastSample, com.frameBuffer
      ensures At(blockIdx) && com.Valid()
      ensures !com.hasRing ==> count == 1 && blockIdx == old(blockIdx) && com.Pairs() == old(com.Pairs())
      ensures com.hasRing ==> WentOn(old(blockIdx), old(blocks), WORDS_PER_FRAME - old(NextWordAt(com)))
      ensures com.hasRing ==> !com.Fresh() && com.Pairs() == old(com.Pairs()) + Pairs()[old(blockIdx)..blockIdx]
      ensures com.hasRing ==>
        com.FirstSample() == if old(com.Fresh()) then SampleAt(IndexAt(old(blockIdx))) else old(com.FirstSample())
      ensures com.hasRing ==> Grown(com, old(com.rec), old(NextWordAt(com)), old(blocks))
      ensures com.hasRing ==> count == IndexAt(blockIdx) - IndexAt(old(blockIdx))
      ensures com.hasRing ==> com.lastSample == SampleAt(IndexAt(blockIdx) - 1)
    {
      hide Source, RecordPairs, PairsOf, CodesOf, AtMost, At, InChain;
      AtEnd();
      if !com.hasRing {
        return 1;
      }
      if com.frame == com.blocketteCount + 1 && com.block <= 1 {
        StartFrame(com);
      }
      count := BuildFrame(com);
    }

    /** Where the next word goes in the frame being built. */
    ghost function NextWordAt(com: ComPacket): nat
      reads com
    {
      if com.Fresh() then 3 else com.block
    }
  }

  /** The two highest bits of a word. */
  function Top(word: Word): (k: nat)
    ensures k <= 3
  {
    var top := (word >> 30) & 3;
    if top == 0 then 0 else if top == 1 then 1 else if top == 2 then 2 else 3
  }

  /** The indexes are where the samples of each word begin in the buffer. */
  ghost predicate Spread(ps: seq<Pair>, idx: seq<nat>, buf: seq<Word>, first: Word) {
    && |ps| < |idx| && Total(ps) <= |buf| && (forall k | 0 <= k <= |ps| :: idx[k] == Total(ps[..k]))
    && buf[..Total(ps)] == DecodePairs(first, ps)
  }

  lemma {:induction false} DecodePrefix(first: Word, ps: seq<Pair>, k: nat)
    requires k <= |ps|
    ensures Total(ps[..k]) <= Total(ps) == |DecodePairs(first, ps)|
    ensures DecodePairs(first, ps[..k]) == DecodePairs(first, ps)[..Total(ps[..k])]
    decreases |ps|
  {
    hide DecodePairs, Total, DecodeWord;
    TotalIs(first, ps);
    TotalIs(first, ps[..k]);
    if k == |ps| {
      assert ps[..k] == ps;
    } else {
      var n := |ps| - 1;
      DecodePrefix(first, ps[..n], k);
      DecodeNext(first, ps, n);
      assert ps[..n + 1] == ps && ps[..n][..k] == ps[..k];
      TotalIs(first, ps[..n]);
    }
  }

  /** The index buffer and the samples at word `pos`. */
  lemma SpreadAt(ps: seq<Pair>, idx: seq<nat>, buf: seq<Word>, first: Word, pos: nat)
    requires Spread(ps, idx, buf, first) && pos <= |ps|
    ensures pos < |idx| && idx[pos] == Total(ps[..pos])
    ensures 0 < pos ==> 1 <= idx[pos] <= |buf| && buf[idx[pos] - 1] == LastOf(first, DecodePairs(first, ps[..pos]))
    ensures pos < |ps| ==> idx[pos] < |buf| && StartsWith(buf[idx[pos]], first, ps, pos)
  {
    hide Total, DecodePairs;
    var n := |ps|;
    assert ps[..n] == ps && ps[..0] == [];
    TotalUp(ps, 0, pos);
    TotalUp(ps, pos, n);
    NoTotal();
    DecodePrefix(first, ps, pos);
    assert forall k | 0 <= k < Total(ps) :: buf[..Total(ps)][k] == buf[k];
  }

  /** `x` is the first sample of word `pos`. */
  ghost predicate StartsWith(x: Word, last: Word, ps: seq<Pair>, pos: nat) {
    pos < |ps| && var xs := DecodePairs(last, ps); Total(ps[..pos]) < |xs| && x == xs[Total(ps[..pos])]
  }

  lemma TotalUp(ps: seq<Pair>, i: nat, j: nat)
    requires i <= j <= |ps|
    ensures Total(ps[..i]) <= Total(ps[..j]) && (i < j ==> Total(ps[..i]) < Total(ps[..j]))
    decreases j
  {
    hide Total, Subcode;
    if i < j {
      TotalUp(ps, i, j - 1);
      TotalNext(ps, j - 1);
    }
  }

  lemma SourceWord(maps: seq<Map>, data: seq<Word>, w: nat)
    requires |data| <= 8 * |maps| && w < |data|
    ensures Source(maps, data)[w] == Pair(CodeIn(maps[WordOf(w)], BitOf(w)), data[w])
  {
  }

  lemma {:induction false} SumsNext(last: Word, ds: seq<Word>, k: nat)
    requires k < |ds|
    ensures Sums(last, ds)[k] == Plus(LastOf(last, Sums(last, ds)[..k]), ds[k])
    decreases |ds|
  {
    hide Plus;
    if k > 0 {
      SumsNext(Plus(last, ds[0]), ds[1..], k - 1);
    }
  }
}
