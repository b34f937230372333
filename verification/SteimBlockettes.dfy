/** A channel that files blockettes as they arrive, without compressing anything again. */
module SteimBlockettes {
  import opened SteimModel
  import opened SteimCodec
  import opened SteimFrames
  import opened Steim
  import opened Circle
  import opened SteimRecords
  import opened SteimReframe
  import opened SteimReadings

  /** The last sample of the first `k` words. */
  ghost function Before(first: Word, ps: seq<Pair>, k: nat): Word
    requires k <= |ps|
  {
    LastOf(first, DecodePairs(first, ps[..k]))
  }

  /** Words from place `i` to place `j` of a blockette, put behind those of a record. */
  lemma DecodesWords(base: Word, held: seq<Pair>, taken: seq<Word>, first: Word, ps: seq<Pair>, i: nat, j: nat)
    requires i <= j <= |ps| && Coded(ps) && DecodesTo(base, Data(held), taken, Before(first, ps, i))
    ensures DecodesTo(base, Data(held + ps[i..j]), taken + DecodePairs(Before(first, ps, i), ps[i..j]),
      Before(first, ps, j))
    ensures |DecodePairs(Before(first, ps, i), ps[i..j])| == Total(ps[..j]) - Total(ps[..i])
  {
    hide DecodePairs, Data, Total;
    TotalIs(first, ps[..i]);
    TotalIs(first, ps[..j]);
    DataAppend(held, ps[i..j]);
    DataAll(ps[i..j]);
    DecodeSplit(base, Data(held), ps[i..j]);
    DecodeSplit(first, ps[..i], ps[i..j]);
    assert ps[..i] + ps[i..j] == ps[..j];
  }

  lemma FirstOfWords(x: Word, first: Word, ps: seq<Pair>, i: nat, j: nat)
    requires i < j <= |ps| && StartsWith(x, first, ps, i)
    ensures DecodePairs(Before(first, ps, i), ps[i..j]) != []
    ensures DecodePairs(Before(first, ps, i), ps[i..j])[0] == x
  {
    hide DecodePairs, Total;
    DecodeSplit(first, ps[..i], ps[i..j]);
    assert ps[..i] + ps[i..j] == ps[..j];
    DecodePrefix(first, ps, i);
    DecodePrefix(first, ps, j);
    TotalUp(ps, i, j);
  }

  /** The samples of a record after its words from place `i` to place `j` of a blockette. */
  lemma FiledWords(fresh_: bool, base: Word, held: seq<Pair>, taken: seq<Word>, first: Word, ps: seq<Pair>, i: nat,
                   j: nat, x: Word)
    requires i < j <= |ps| && Coded(ps) && (fresh_ ==> held == [] && taken == [] && StartsWith(x, first, ps, i))
    requires !fresh_ ==> taken != [] && x == taken[0] && DecodesTo(base, Data(held), taken, Before(first, ps, i))
    ensures var ws := DecodePairs(Before(first, ps, i), ps[i..j]);
      && |ws| == Total(ps[..j]) - Total(ps[..i]) && taken + ws != [] && (taken + ws)[0] == x
      && DecodesTo(if fresh_ then Before(first, ps, i) else base, Data(held + ps[i..j]), taken + ws,
        Before(first, ps, j))
  {
    hide DecodePairs, Total, Data, StartsWith, Coded, DecodesTo, Before;
    if fresh_ {
      NoneHeld(Before(first, ps, i));
      FirstOfWords(x, first, ps, i, j);
      DecodesWords(Before(first, ps, i), held, taken, first, ps, i, j);
    } else {
      DecodesWords(base, held, taken, first, ps, i, j);
    }
  }

  lemma BeforeFirst(first: Word, ps: seq<Pair>)
    ensures Before(first, ps, 0) == first
  {
    StartOf(first, ps);
  }

  lemma Appended(a: seq<Word>, b: seq<Word>, c: seq<Word>, d: seq<Word>)
    requires d == []
    ensures a + (b + c) + d == (a + b + d) + c
  {
  }

  lemma NothingWaiting(last: Word, q: seq<Word>)
    requires |q| == 0
    ensures Compressible(last, q)
  {
  }

  /** The channel is sound, and a record already begun goes on from the last sample of the first `i`
      words. */
  ghost predicate Going(q: Channel, first: Word, ps: seq<Pair>, i: nat)
    reads q, q.com, q.com.frameBuffer, q.com.peeks
    requires i <= |ps|
  {
    q.Sound() && (q.com.Fresh() || q.com.lastSample == Before(first, ps, i))
  }

  /** What the buffers hold for words `i` to `j` of those that are known. */
  lemma BufferedWords(ps: seq<Pair>, idx: seq<nat>, buf: seq<Word>, first: Word, i: nat, j: nat)
    requires Spread(ps, idx, buf, first) && i < j <= |ps|
    ensures j < |idx| && idx[i] == Total(ps[..i]) && idx[j] == Total(ps[..j])
    ensures idx[i] < |buf| && StartsWith(buf[idx[i]], first, ps, i)
    ensures 1 <= idx[j] <= |buf| && buf[idx[j] - 1] == Before(first, ps, j)
  {
    SpreadAt(ps, idx, buf, first, i);
    SpreadAt(ps, idx, buf, first, j);
  }

  lemma KnownWords(pc: Precomp, ps: seq<Pair>, n: nat, i: nat, j: nat)
    requires pc.Known(n) && ps == pc.Pairs() && i < j <= n <= |ps|
    ensures pc.IndexAt(j) - pc.IndexAt(i) == Total(ps[..j]) - Total(ps[..i])
    ensures StartsWith(pc.SampleAt(pc.IndexAt(i)), pc.prevSample, ps[..n], i)
    ensures pc.SampleAt(pc.IndexAt(j) - 1) == Before(pc.prevSample, ps, j)
  {
    hide Source, Total, DecodePairs, Spread, StartsWith, LastOf;
    BufferedWords(ps[..n], pc.idxbuf[..], pc.databuf[..], pc.prevSample, i, j);
    assert ps[..n][..i] == ps[..i] && ps[..n][..j] == ps[..j];
  }

  lemma KnownIndex(pc: Precomp, ps: seq<Pair>, n: nat, i: nat)
    requires pc.Known(n) && ps == pc.Pairs() && i <= n <= |ps|
    ensures pc.IndexAt(i) == Total(ps[..i])
  {
    hide Source, Total, DecodePairs;
    assert ps[..n][..i] == ps[..i];
  }

  /** The samples of a record after known words of a blockette. */
  lemma FiledKnown(fresh_: bool, base: Word, held: seq<Pair>, taken: seq<Word>, first: Word, ps: seq<Pair>, n: nat,
                   i: nat, j: nat, x: Word)
    requires i < j <= n <= |ps| && Coded(ps[..n])
    requires fresh_ ==> held == [] && taken == [] && StartsWith(x, first, ps[..n], i)
    requires !fresh_ ==> taken != [] && x == taken[0] && DecodesTo(base, Data(held), taken, Before(first, ps, i))
    ensures var ws := DecodePairs(Before(first, ps, i), ps[i..j]);
      && |ws| == Total(ps[..j]) - Total(ps[..i]) && taken + ws != [] && (taken + ws)[0] == x
      && DecodesTo(if fresh_ then Before(first, ps, i) else base, Data(held + ps[i..j]), taken + ws,
        Before(first, ps, j))
  {
    hide DecodePairs, Total, Data, StartsWith, Coded, DecodesTo;
    assert ps[..n][..i] == ps[..i] && ps[..n][..j] == ps[..j] && ps[..n][i..j] == ps[i..j];
    FiledWords(fresh_, base, held, taken, first, ps[..n], i, j, x);
  }

  /** Puts the words of one frame into the record and counts their samples. */
  method PutFrame(q: Channel, pc: Precomp, ghost ps: seq<Pair>, ghost n: nat) returns (used: int)
    requires q.Loose() && q.com.peekTotal == 0 && pc.At(pc.blockIdx) && pc.Known(n) && pc.Apart(q.com)
    requires pc.blockIdx <= |pc.data| && ps == pc.Pairs()
    modifies pc`blocks, pc`blockIdx, pc`mapIdx, pc`curMap, pc`mapPos, pc`dataPos, q`nextSample
    modifies q.com`flagWord, q.com`block, q.com`rec, q.com`frame, q.com`lastSample, q.com.frameBuffer
    ensures q.Loose() && !q.com.Fresh() && pc.At(pc.blockIdx) && pc.Known(n) && ps == pc.Pairs()
    ensures q.nextSample == old(q.nextSample) + used && q.com.Queue() == old(q.com.Queue())
    ensures pc.WentOn(old(pc.blockIdx), old(pc.blocks), WORDS_PER_FRAME - old(pc.NextWordAt(q.com)))
    ensures pc.Grown(q.com, old(q.com.rec), old(pc.NextWordAt(q.com)), old(pc.blocks))
    ensures q.com.Pairs() == old(q.com.Pairs()) + ps[old(pc.blockIdx)..pc.blockIdx]
    ensures forall k, x, front :: old(q.Began(k, x, front)) ==> q.Began(k, x, front)
    ensures !old(q.com.Fresh()) && old(pc.blockIdx) < pc.blockIdx ==>
      q.Began(|old(q.records)|, old(q.com.FirstSample()), old(q.com.Pairs()) + [ps[old(pc.blockIdx)]])
    ensures used == pc.IndexAt(pc.blockIdx) - pc.IndexAt(old(pc.blockIdx))
    ensures q.com.lastSample == pc.SampleAt(pc.IndexAt(pc.blockIdx) - 1)
    ensures q.com.FirstSample()
      == if old(q.com.Fresh()) then pc.SampleAt(pc.IndexAt(old(pc.blockIdx))) else old(q.com.FirstSample())
  {
    hide RecordPairs, CodesOf, PairsOf, AtMost, Window, Wrap, Source, Spread, InChain, Precomp.At, Precomp.WentOn,
         Precomp.Grown, Precomp.IndexAt, Precomp.SampleAt;
    used := pc.BuildBlocks(q.com);
    pc.AtEnd();
    q.nextSample := q.nextSample + used;
  }

  /** Files the words of one frame.  While the words are among the `n` known ones, a sound channel
      stays so. */
  method FileFrame(q: Channel, pc: Precomp, ghost ps: seq<Pair>, ghost n: nat) returns (used: int)
    requires q.Loose() && q.com.peekTotal == 0 && pc.At(pc.blockIdx) && pc.Known(n) && pc.Apart(q.com)
    requires n <= |pc.data| && pc.blockIdx <= |pc.data| && ps == pc.Pairs()
    modifies pc`blocks, pc`blockIdx, pc`mapIdx, pc`curMap, pc`mapPos, pc`dataPos
    modifies q`nextSample, q`base, q`taken
    modifies q.com`flagWord, q.com`block, q.com`rec, q.com`frame, q.com`lastSample, q.com.frameBuffer
    ensures q.Loose() && !q.com.Fresh() && pc.At(pc.blockIdx) && pc.Known(n) && ps == pc.Pairs()
    ensures pc.WentOn(old(pc.blockIdx), old(pc.blocks), WORDS_PER_FRAME - old(pc.NextWordAt(q.com)))
    ensures pc.Grown(q.com, old(q.com.rec), old(pc.NextWordAt(q.com)), old(pc.blocks))
    ensures q.Words() == old(q.Words()) + ps[old(pc.blockIdx)..pc.blockIdx]
    ensures q.com.Pairs() == old(q.com.Pairs()) + ps[old(pc.blockIdx)..pc.blockIdx]
    ensures forall k, x, front :: old(q.Began(k, x, front)) ==> q.Began(k, x, front)
    ensures !old(q.com.Fresh()) && old(pc.blockIdx) < pc.blockIdx ==>
      q.Began(|old(q.records)|, old(q.com.FirstSample()), old(q.com.Pairs()) + [ps[old(pc.blockIdx)]])
    ensures used == pc.IndexAt(pc.blockIdx) - pc.IndexAt(old(pc.blockIdx))
    ensures q.com.lastSample == pc.SampleAt(pc.IndexAt(pc.blockIdx) - 1)
    ensures q.com.FirstSample()
      == if old(q.com.Fresh()) then pc.SampleAt(pc.IndexAt(old(pc.blockIdx))) else old(q.com.FirstSample())
    ensures old(Going(q, pc.prevSample, ps, pc.blockIdx)) && old(pc.blockIdx) < pc.blockIdx <= n && Coded(ps[..n]) ==>
      && used == Total(ps[..pc.blockIdx]) - Total(ps[..old(pc.blockIdx)]) && Going(q, pc.prevSample, ps, pc.blockIdx)
      && q.Fed() == old(q.Fed())
        + DecodePairs(Before(pc.prevSample, ps, old(pc.blockIdx)), ps[old(pc.blockIdx)..pc.blockIdx])
  {
    hide DecodesTo, AllRead, Compressible, AtMost, Data, Flat, DecodePairs, Total, Source, Spread, StartsWith, LastOf,
         Coded, AllPairs, InChain, Window, Wrap, RecordPairs, PairsOf, CodesOf, Precomp.At, Precomp.Known,
         Precomp.WentOn, Precomp.Grown, Precomp.IndexAt, Precomp.SampleAt, Channel.Explains, Channel.Began,
         ComPacket.Shape, ComPacket.Started, ComPacket.Fresh, ComPacket.Pairs, ComPacket.FirstSample, ComPacket.Queue,
         Going;
    ghost var i, fresh_, held := pc.blockIdx, q.com.Fresh(), q.com.Pairs();
    ghost var going := Going(q, pc.prevSample, ps, i);
    if going {
      SoundParts(q, pc.prevSample, ps, i);
    }
    used := PutFrame(q, pc, ps, n);
    WentTo(pc, i);
    WordsAppended(AllPairs(q.records), held, ps[i..pc.blockIdx]);
    if going && i < pc.blockIdx <= n && Coded(ps[..n]) {
      KnownWords(pc, ps, n, i, pc.blockIdx);
      Credit(q, pc.prevSample, ps, n, i, pc.blockIdx, fresh_, held);
    }
  }

  lemma WordsAppended(a: seq<Pair>, b: seq<Pair>, c: seq<Pair>)
    ensures a + (b + c) == (a + b) + c
  {
  }

  /** Counts the samples of known words in as those of the record. */
  ghost method Credit(q: Channel, first: Word, ps: seq<Pair>, n: nat, i: nat, j: nat, fresh_: bool, held: seq<Pair>)
    requires q.Loose() && !q.com.Fresh() && q.com.peekTotal == 0 && i < j <= n <= |ps| && Coded(ps[..n])
    requires q.nextSample == |q.taken| + 1 + Total(ps[..j]) - Total(ps[..i]) && AllRead(q.records, q.written, q.bases)
    requires q.com.Pairs() == held + ps[i..j] && q.com.lastSample == Before(first, ps, j)
    requires fresh_ ==> held == [] && q.taken == [] && StartsWith(q.com.FirstSample(), first, ps[..n], i)
    requires !fresh_ ==> q.taken != [] && q.com.FirstSample() == q.taken[0]
    requires !fresh_ ==> DecodesTo(q.base, Data(held), q.taken, Before(first, ps, i))
    modifies q`base, q`taken
    ensures Going(q, first, ps, j) && q.Fed() == old(q.Fed()) + DecodePairs(Before(first, ps, i), ps[i..j])
  {
    hide DecodesTo, AllRead, Compressible, AtMost, Data, Flat, DecodePairs, Total, StartsWith, LastOf, Coded,
         Channel.Explains, ComPacket.Pairs, ComPacket.FirstSample;
    var ws, start := DecodePairs(Before(first, ps, i), ps[i..j]), if fresh_ then Before(first, ps, i) else q.base;
    FiledKnown(fresh_, q.base, held, q.taken, first, ps, n, i, j, q.com.FirstSample());
    PartsExplain(q, start, q.taken + ws);
    Appended(Flat(q.written), q.taken, ws, q.com.Queue());
    NothingWaiting(q.com.lastSample, q.com.Queue());
    q.base, q.taken := start, q.taken + ws;
  }

  lemma WentTo(pc: Precomp, i: nat)
    requires pc.At(pc.blockIdx) && exists n, room :: pc.WentOn(i, n, room)
    ensures i <= pc.blockIdx <= |pc.data|
  {
  }

  lemma SoundParts(q: Channel, first: Word, ps: seq<Pair>, i: nat)
    requires i <= |ps| && Going(q, first, ps, i)
    ensures q.nextSample == |q.taken| + 1 && AllRead(q.records, q.written, q.bases)
    ensures q.com.Fresh() ==> q.taken == [] && q.com.Pairs() == []
    ensures !q.com.Fresh() ==> q.taken != [] && q.com.FirstSample() == q.taken[0]
    ensures !q.com.Fresh() ==> DecodesTo(q.base, Data(q.com.Pairs()), q.taken, Before(first, ps, i))
  {
  }

  lemma PartsExplain(q: Channel, start: Word, xs: seq<Word>)
    requires q.Loose() && !q.com.Fresh() && xs != [] && q.com.FirstSample() == xs[0]
    requires AllRead(q.records, q.written, q.bases) && DecodesTo(start, Data(q.com.Pairs()), xs, q.com.lastSample)
    ensures q.Explains(start, xs, q.written, q.bases)
  {
  }

  // ----- where the filing of a blockette ends

  /** Frames of `room` words and then of fifteen, or thirteen where a record starts: whether one of
      them ends with word `n`. */
  predicate EndsFrame(n: nat, frame: nat, room: nat, maxFrames: nat)
    requires 1 <= room
    decreases n
  {
    if n <= room then n == room
    else if frame >= maxFrames then EndsFrame(n - room, 1, 13, maxFrames)
    else EndsFrame(n - room, frame + 1, 15, maxFrames)
  }

  /** Room for words in the frame being built. */
  ghost function RoomIn(com: ComPacket): (room: nat)
    reads com
    requires com.Valid()
    ensures 1 <= room
  {
    WORDS_PER_FRAME - if com.Fresh() then 3 else com.block
  }

  /** From one frame with `room` words at number `frame` of a record on to where the next words go. */
  predicate NextFrame(words: nat, frame: nat, room: nat, maxFrames: nat, frame': nat, room': int) {
    if words < room then frame' == frame && room' == room - words
    else if frame >= maxFrames then frame' == 1 && room' == 13
    else frame' == frame + 1 && room' == 15
  }

  /** The words of a frame, and the end of the record when it is full. */
  method FileNext(q: Channel, pc: Precomp, ghost ps: seq<Pair>, ghost n: nat) returns (used: int)
    requires q.Loose() && q.com.peekTotal == 0 && pc.At(pc.blockIdx) && pc.Known(n) && pc.Apart(q.com)
    requires n <= |pc.data| && pc.blockIdx <= |pc.data| && ps == pc.Pairs() && q.com.frame <= q.maxFrames
    modifies pc`blocks, pc`blockIdx, pc`mapIdx, pc`curMap, pc`mapPos, pc`dataPos
    modifies q`records, q`written, q`bases, q`nextSample, q`base, q`taken, q.com, q.com.frameBuffer
    ensures q.Loose() && q.com.peekTotal == 0 && pc.At(pc.blockIdx) && pc.Known(n) && pc.Shape() && ps == pc.Pairs()
    ensures old(pc.blockIdx) <= pc.blockIdx == old(pc.blockIdx) + Min(old(pc.blocks), old(RoomIn(q.com))) <= |ps|
    ensures pc.blockIdx + pc.blocks == old(pc.blockIdx + pc.blocks)
    ensures if old(pc.blocks) == 0 then pc.blocks == 0 == used else pc.blocks < old(pc.blocks)
    ensures q.Words() == old(q.Words()) + ps[old(pc.blockIdx)..pc.blockIdx]
    ensures q.Blockettes() == old(q.Blockettes()) && old(q.records) <= q.records
    ensures forall k, x, front :: old(q.Began(k, x, front)) ==> q.Began(k, x, front)
    ensures !old(q.com.Fresh()) && old(pc.blockIdx) < pc.blockIdx ==>
      q.Began(|old(q.records)|, old(q.com.FirstSample()), old(q.com.Pairs()) + [ps[old(pc.blockIdx)]])
    ensures used == pc.IndexAt(pc.blockIdx) - pc.IndexAt(old(pc.blockIdx))
    ensures used != 0 ==> q.com.frame <= q.maxFrames
    ensures used != 0 ==>
      NextFrame(old(pc.blocks), old(q.com.frame), old(RoomIn(q.com)), q.maxFrames, q.com.frame, RoomIn(q.com))
    ensures used == 0 && pc.blockIdx == old(pc.blockIdx) ==> LeftOver(q, pc, old(q.com.Fresh()), old(q.com.block))
    ensures old(Going(q, pc.prevSample, ps, pc.blockIdx)) && old(pc.blockIdx) < pc.blockIdx <= n && Coded(ps[..n]) ==>
      && used == Total(ps[..pc.blockIdx]) - Total(ps[..old(pc.blockIdx)]) && Going(q, pc.prevSample, ps, pc.blockIdx)
      && q.Fed() == old(q.Fed())
        + DecodePairs(Before(pc.prevSample, ps, old(pc.blockIdx)), ps[old(pc.blockIdx)..pc.blockIdx])
  {
    hide AllRead, AtMost, Data, Flat, DecodePairs, Total, Source, Spread, LastOf, Coded, AllPairs, AllBlockettes,
         Precomp.At, Precomp.Known, Precomp.IndexAt, Precomp.SampleAt, Channel.Explains, Channel.Began,
         ComPacket.Pairs, ComPacket.Queue;
    used := FileFrame(q, pc, ps, n);
    pc.AtEnd();
    if used != 0 && q.com.frame >= q.maxFrames + 1 {
      q.FinishRecord();
    }
  }

  /** What a call with no words left leaves behind: the sample in front of the first index as the
      last one, and where a record was to start, a first sample without any words. */
  ghost predicate LeftOver(q: Channel, pc: Precomp, fresh_: bool, block: nat)
    reads q.com, q.com.frameBuffer, pc, pc.idxbuf, pc.databuf
    requires q.com.Shape()
  {
    && q.com.lastSample == pc.SampleAt(pc.IndexAt(pc.blockIdx) - 1) && !q.com.Fresh()
    && (fresh_ ==> q.com.rec == [] && q.com.block == 3 && q.com.FirstSample() == pc.SampleAt(pc.IndexAt(pc.blockIdx)))
    && (!fresh_ ==> q.com.block == block)
  }

  /** Whether the words copied up to place `i` keep the filing on the way to end at word `n`. */
  predicate OnWay(n: nat, i: nat, words: nat, frame: nat, room: int, maxFrames: nat, ends: bool) {
    if i < n then 1 <= room && (EndsFrame(n - i, frame, room, maxFrames) <==> ends)
    else if i == n then words == n || ends
    else words > n && !ends
  }

  /** Where the filing of all words of a blockette is: the first `i` words are in frames and `left`
      words are not, `counted` samples are counted and `samples` are not. */
  predicate Filing(ps: seq<Pair>, n: nat, total: nat, ends: bool, maxFrames: nat, i: nat, left: nat, counted: int,
                   samples: int, frame: nat, room: int)
  {
    && n <= |ps| && i + left == |ps| && total == Total(ps[..n])
    && (if n == 0 then i == 0 && samples <= 0 else OnWay(n, i, |ps|, frame, room, maxFrames, ends))
    && (i <= n ==> counted == Total(ps[..i]) == total - samples)
  }

  /** One more frame: it keeps the way, or goes past word `n`. */
  lemma NextFiling(ps: seq<Pair>, n: nat, total: nat, ends: bool, maxFrames: nat, i: nat, left: nat, counted: int,
                   samples: int, frame: nat, room: nat, used: int, j: nat, left': nat, frame': nat, room': nat)
    requires Filing(ps, n, total, ends, maxFrames, i, left, counted, samples, frame, room) && samples > 0
    requires j == i + Min(left, room) && j + left' == i + left && 1 <= room'
    requires i < j <= n ==> used == Total(ps[..j]) - Total(ps[..i])
    requires used != 0 ==> NextFrame(left, frame, room, maxFrames, frame', room')
    ensures Filing(ps, n, total, ends, maxFrames, j, left', counted + used, if used == 0 then 0 else samples - used,
      frame', room')
    ensures i != n && (i < n ==> i < j)
  {
    hide Total;
    if i <= n {
      TotalUp(ps, i, n);
      if j <= n {
        TotalUp(ps, i, j);
      }
    }
  }

  lemma FilingEnds(ps: seq<Pair>, n: nat, total: nat, ends: bool, maxFrames: nat, i: nat, left: nat, counted: int,
                   samples: int, frame: nat, room: int)
    requires Filing(ps, n, total, ends, maxFrames, i, left, counted, samples, frame, room) && samples <= 0
    ensures n <= i && (i == n ==> counted == total) && (0 < n ==> (i == n <==> n == |ps| || ends))
    ensures total == 0 ==> n == i == 0
  {
    hide Total;
    NoTotal();
    assert ps[..0] == [];
    TotalUp(ps, 0, n);
    if i <= n {
      TotalUp(ps, i, n);
    }
  }

  lemma FilingStarts(ps: seq<Pair>, n: nat, total: nat, ends: bool, maxFrames: nat, frame: nat, room: nat)
    requires n <= |ps| && total == Total(ps[..n]) && 1 <= room && ends == EndsFrame(n, frame, room, maxFrames)
    ensures Filing(ps, n, total, ends, maxFrames, 0, |ps|, 0, total, frame, room)
  {
    NoTotal();
    assert ps[..0] == [];
  }

  /** With no words left nothing is copied, and the first call ends the filing. */
  ghost predicate Idle(q: Channel, pc: Precomp, total: nat, counted: int, samples: int, fresh_: bool, block: nat)
    reads q.com, q.com.frameBuffer, pc, pc.idxbuf, pc.databuf
    requires q.com.Shape()
  {
    && pc.blocks == 0 == pc.blockIdx && counted == 0 && samples <= total
    && (samples > 0 ==> q.com.Fresh() == fresh_ && q.com.block == block)
    && (samples <= 0 ==> total == 0 || LeftOver(q, pc, fresh_, block))
  }

  /** The record being built is as it was, and goes on with word 0 once this is in it. */
  ghost predicate WentInto(q: Channel, i: nat, k: nat, x: Word, held: seq<Pair>, p: Pair)
    reads q`records, q.com, q.com.frameBuffer
    requires q.com.Valid()
  {
    if i > 0 then q.Began(k, x, held + [p])
    else k == |q.records| && !q.com.Fresh() && q.com.FirstSample() == x && q.com.Pairs() == held
  }

  /** What a filing begins with: the words, how many of them have the samples, whether that many end
      a frame, and the channel and the record being built as they are then. */
  datatype Job = Job(ps: seq<Pair>, n: nat, total: nat, ends: bool, healthy: bool, going: bool, words: seq<Pair>,
                       fed: seq<Word>, k: nat, x: Word, held: seq<Pair>, fresh_: bool, block: nat)

  ghost function JobOf(q: Channel, pc: Precomp, total: nat, ps: seq<Pair>, n: nat): Job
    reads q, q.com, q.com.frameBuffer, q.com.peeks, pc
    requires q.Loose() && n <= |ps|
  {
    Job(ps, n, total, EndsFrame(n, q.com.frame, RoomIn(q.com), q.maxFrames), pc.blocks != 0,
      Going(q, pc.prevSample, ps, 0) && Coded(ps[..n]) && (pc.blocks != 0 || total == 0), q.Words(), q.Fed(),
      |q.records|, q.com.FirstSample(), q.com.Pairs(), q.com.Fresh(), q.com.block)
  }

  /** Where a filing is. */
  ghost predicate Turning(q: Channel, pc: Precomp, t: Job, counted: int, samples: int)
    reads q, q.com, q.com.frameBuffer, q.com.peeks, pc, pc.idxbuf, pc.databuf
    requires q.Loose() && pc.Shape()
  {
    && q.com.peekTotal == 0 && pc.At(pc.blockIdx) && t.n <= |t.ps| && pc.Known(t.n) && t.ps == pc.Pairs()
    && pc.blockIdx + pc.blocks <= |t.ps| && q.Words() == t.words + t.ps[..pc.blockIdx]
    && (samples > 0 ==> q.com.frame <= q.maxFrames)
    && (if t.healthy
        then Filing(t.ps, t.n, t.total, t.ends, q.maxFrames, pc.blockIdx, pc.blocks, counted, samples, q.com.frame,
          RoomIn(q.com))
        else Idle(q, pc, t.total, counted, samples, t.fresh_, t.block))
    && (t.healthy && !t.fresh_ && t.ps != [] ==> WentInto(q, pc.blockIdx, t.k, t.x, t.held, t.ps[0]))
    && (t.going ==> Coded(t.ps[..t.n]) && (t.healthy || t.total == 0))
    && (t.going && pc.blockIdx <= t.n ==>
      && Going(q, pc.prevSample, t.ps, pc.blockIdx) && q.com.frame <= q.maxFrames
      && q.Fed() == t.fed + DecodePairs(pc.prevSample, t.ps[..pc.blockIdx]))
  }

  /** One turn of a filing. */
  method FileTurn(q: Channel, pc: Precomp, ghost t: Job, ghost counted: int, ghost samples: int) returns (used: int)
    requires q.Loose() && pc.Shape() && pc.Apart(q.com) && Turning(q, pc, t, counted, samples) && samples > 0
    modifies pc`blocks, pc`blockIdx, pc`mapIdx, pc`curMap, pc`mapPos, pc`dataPos
    modifies q`records, q`written, q`bases, q`nextSample, q`base, q`taken, q.com, q.com.frameBuffer
    ensures q.Loose() && pc.Shape()
    ensures Turning(q, pc, t, counted + used, if used == 0 then 0 else samples - used)
    ensures if old(pc.blocks) == 0 then pc.blocks == 0 == used else pc.blocks < old(pc.blocks)
    ensures q.Blockettes() == old(q.Blockettes()) && old(q.records) <= q.records
    ensures forall k, x, front :: old(q.Began(k, x, front)) ==> q.Began(k, x, front)
  {
    hide AllRead, AtMost, Data, Flat, DecodePairs, Total, Source, Spread, LastOf, Coded, AllPairs, AllBlockettes,
         Precomp.At, Precomp.Known, Precomp.IndexAt, Precomp.SampleAt, Channel.Explains, Channel.Words, Channel.Fed,
         ComPacket.Pairs, ComPacket.Queue, Going, EndsFrame, NextFrame, LeftOver, OnWay, Channel.Blockettes, Filing,
         ComPacket.Shape, ComPacket.Started, RoomIn, Channel.Began, ComPacket.FirstSample;
    ghost var ps, n, i, left, frame, room := t.ps, t.n, pc.blockIdx, pc.blocks, q.com.frame, RoomIn(q.com);
    used := FileNext(q, pc, ps, n);
    ghost var j := pc.blockIdx;
    WordsOn(t.words, ps, i, j);
    if t.healthy {
      MoreKnown(pc, ps, n, i, j, t.fed);
      NextFiling(ps, n, t.total, t.ends, q.maxFrames, i, left, counted, samples, frame, room, used, j, pc.blocks,
        q.com.frame, RoomIn(q.com));
    }
  }

  lemma TurningStarts(q: Channel, pc: Precomp, t: Job)
    requires q.Loose() && q.com.peekTotal == 0 && q.com.frame <= q.maxFrames && pc.At(0) && pc.blockIdx == 0
    requires pc.Known(t.n) && t.ps == pc.Pairs() && t.n <= |t.ps| == |pc.data| && t == JobOf(q, pc, t.total, t.ps, t.n)
    requires if pc.blocks == 0 then t.n == 0 else pc.blocks == |t.ps| && t.total == Total(t.ps[..t.n])
    ensures pc.Shape() && Turning(q, pc, t, 0, t.total)
  {
    hide AllRead, AtMost, Data, Flat, DecodePairs, Total, Source, Spread, LastOf, Coded, AllPairs, Precomp.Known,
         Channel.Explains, Channel.Words, Channel.Fed, ComPacket.Pairs, ComPacket.Queue, Going, EndsFrame, Filing,
         LeftOver, RoomIn, ComPacket.FirstSample;
    AtStart(q, pc.prevSample, t.ps);
    if t.healthy {
      FilingStarts(t.ps, t.n, t.total, t.ends, q.maxFrames, q.com.frame, RoomIn(q.com));
    }
  }

  lemma TurningEnds(q: Channel, pc: Precomp, t: Job, counted: int, samples: int)
    requires q.Loose() && pc.Shape() && Turning(q, pc, t, counted, samples) && samples <= 0
    ensures q.com.peekTotal == 0 && pc.blockIdx <= |t.ps| && q.Words() == t.words + t.ps[..pc.blockIdx]
    ensures !t.healthy ==> Idle(q, pc, t.total, counted, 0, t.fresh_, t.block)
    ensures t.healthy ==> t.n <= pc.blockIdx && (pc.blockIdx == t.n ==> counted == t.total)
    ensures t.healthy && 0 < t.n ==> (pc.blockIdx == t.n <==> t.n == |t.ps| || t.ends)
    ensures t.total == 0 ==> counted == 0 && pc.blockIdx == 0
    ensures 0 < pc.blockIdx && !t.fresh_ ==> q.Began(t.k, t.x, t.held + [t.ps[0]])
    ensures t.going && pc.blockIdx == t.n ==> q.Valid() && q.Fed() == t.fed + DecodePairs(pc.prevSample, t.ps[..t.n])
  {
    hide AllRead, AtMost, Data, Flat, DecodePairs, Total, Source, Spread, LastOf, Coded, AllPairs, Precomp.Known,
         Channel.Explains, Channel.Words, Channel.Fed, ComPacket.Pairs, ComPacket.Queue, Going, EndsFrame, Filing,
         LeftOver, RoomIn, Channel.Began, ComPacket.FirstSample, Precomp.At;
    if t.healthy {
      FilingEnds(t.ps, t.n, t.total, t.ends, q.maxFrames, pc.blockIdx, pc.blocks, counted, samples, q.com.frame,
        RoomIn(q.com));
    }
    if t.going && pc.blockIdx == t.n {
      GoingValid(q, pc.prevSample, t.ps, t.n);
    }
  }

  /** Files the words of a decompressed blockette, frame by frame, until its samples are used up.
      With all words left, `n` of which have the `total` samples, that ends well exactly when they
      are all words or end a frame; with none left it ends at once. */
  method FileBlockette(q: Channel, pc: Precomp, total: nat, ghost ps: seq<Pair>, ghost n: nat)
      returns (ghost counted: int)
    requires q.Loose() && q.com.peekTotal == 0 && q.com.frame <= q.maxFrames && pc.At(0) && pc.blockIdx == 0
    requires pc.Known(n) && pc.Apart(q.com) && ps == pc.Pairs() && n <= |ps| == |pc.data|
    requires if pc.blocks == 0 then n == 0 else pc.blocks == |ps| && total == Total(ps[..n])
    modifies pc`blocks, pc`blockIdx, pc`mapIdx, pc`curMap, pc`mapPos, pc`dataPos
    modifies q`records, q`written, q`bases, q`nextSample, q`base, q`taken, q.com, q.com.frameBuffer
    ensures q.Loose() && q.com.peekTotal == 0 && pc.blockIdx <= |ps| && q.Words() == old(q.Words()) + ps[..pc.blockIdx]
    ensures q.Blockettes() == old(q.Blockettes()) && old(q.records) <= q.records
    ensures forall k, x, front :: old(q.Began(k, x, front)) ==> q.Began(k, x, front)
    ensures old(pc.blocks) == 0 ==> Idle(q, pc, total, counted, 0, old(q.com.Fresh()), old(q.com.block))
    ensures old(pc.blocks) != 0 ==> n <= pc.blockIdx && (pc.blockIdx == n ==> counted == total)
    ensures old(pc.blocks) != 0 && 0 < n ==>
      (pc.blockIdx == n <==> n == |ps| || EndsFrame(n, old(q.com.frame), old(RoomIn(q.com)), q.maxFrames))
    ensures total == 0 ==> counted == 0 && pc.blockIdx == 0 && q.Fed() == old(q.Fed()) && (old(q.Valid()) ==> q.Valid())
    ensures 0 < pc.blockIdx && !old(q.com.Fresh()) ==>
      q.Began(|old(q.records)|, old(q.com.FirstSample()), old(q.com.Pairs()) + [ps[0]])
    ensures old(Going(q, pc.prevSample, ps, 0) && (pc.blocks != 0 || total == 0)) ==>
      (pc.blockIdx == n && Coded(ps[..n]) ==>
       q.Valid() && q.Fed() == old(q.Fed()) + DecodePairs(pc.prevSample, ps[..n]))
  {
    hide AllRead, AtMost, Data, Flat, DecodePairs, Total, Source, Spread, LastOf, Coded, AllPairs, AllBlockettes,
         Precomp.At, Precomp.Known, Channel.Explains, Channel.Words, Channel.Fed, Idle,
         ComPacket.Pairs, ComPacket.Queue, Going, EndsFrame, Channel.Blockettes, Filing, Turning,
         RoomIn, Precomp.Pairs, Channel.Began, ComPacket.FirstSample, ComPacket.Fresh, Channel.Valid;
    ghost var t := JobOf(q, pc, total, ps, n);
    counted := 0;
    var samples: int := total;
    TurningStarts(q, pc, t);
    while samples > 0
      invariant q.Loose() && pc.Shape() && Turning(q, pc, t, counted, samples)
      invariant q.Blockettes() == old(q.Blockettes()) && old(q.records) <= q.records
      invariant forall k, x, front :: old(q.Began(k, x, front)) ==> q.Began(k, x, front)
      invariant total == 0 ==> samples <= 0 && q.Fed() == old(q.Fed()) && (old(q.Valid()) ==> q.Valid())
      decreases pc.blocks, if samples > 0 then 1 else 0
    {
      var used := FileTurn(q, pc, t, counted, samples);
      if used == 0 {
        samples := 0;
      }
      samples := samples - used;
      counted := counted + used;
    }
    TurningEnds(q, pc, t, counted, samples);
  }

  lemma WordsOn(words: seq<Pair>, ps: seq<Pair>, i: nat, j: nat)
    requires i <= j <= |ps|
    ensures (words + ps[..i]) + ps[i..j] == words + ps[..j]
  {
    assert ps[..i] + ps[i..j] == ps[..j];
  }

  lemma MoreKnown(pc: Precomp, ps: seq<Pair>, n: nat, i: nat, j: nat, fed: seq<Word>)
    requires pc.Known(n) && ps == pc.Pairs() && i <= j <= |ps| && n <= |ps|
    ensures i < j <= n ==> pc.IndexAt(j) - pc.IndexAt(i) == Total(ps[..j]) - Total(ps[..i]) > 0
    ensures i < j <= n ==>
      (fed + DecodePairs(pc.prevSample, ps[..i])) + DecodePairs(Before(pc.prevSample, ps, i), ps[i..j])
      == fed + DecodePairs(pc.prevSample, ps[..j])
  {
    hide Total, DecodePairs, Spread, Source, Precomp.Known;
    if i < j <= n {
      KnownIndex(pc, ps, n, i);
      KnownIndex(pc, ps, n, j);
      MoreFiled(pc.prevSample, ps, i, j, fed);
    }
  }

  lemma GoingValid(q: Channel, first: Word, ps: seq<Pair>, n: nat)
    requires n <= |ps| && Going(q, first, ps, n) && q.com.frame <= q.maxFrames
    ensures q.Valid()
  {
  }

  lemma AtStart(q: Channel, first: Word, ps: seq<Pair>)
    requires q.Loose()
    ensures ps[..0] == [] && q.Words() + ps[..0] == q.Words() && Total(ps[..0]) == 0
    ensures DecodePairs(first, ps[..0]) == [] && q.Fed() + [] == q.Fed()
  {
  }

  lemma MoreFiled(first: Word, ps: seq<Pair>, i: nat, j: nat, fed: seq<Word>)
    requires i < j <= |ps|
    ensures (fed + DecodePairs(first, ps[..i])) + DecodePairs(Before(first, ps, i), ps[i..j])
      == fed + DecodePairs(first, ps[..j])
    ensures Total(ps[..i]) < Total(ps[..j])
  {
    hide DecodePairs, Total;
    DecodeSplit(first, ps[..i], ps[i..j]);
    assert ps[..i] + ps[i..j] == ps[..j];
    TotalUp(ps, i, j);
  }

  // ----- a whole blockette

  /** The samples that a decompression into a buffer for `rate` of them has there. */
  function Decompressed(first: Word, ps: seq<Pair>, rate: nat): seq<Word> {
    var xs := DecodePairs(first, ps[..Begun(ps, rate)]);
    xs[..Min(rate, |xs|)]
  }

  /** The words looked into have their samples in the buffer, and are all words or fill it. */
  predicate Kept(ps: seq<Pair>, rate: nat) {
    var w := Begun(ps, rate);
    Total(ps[..w]) <= rate && (w == |ps| || Total(ps[..w]) == rate)
  }

  /** What a blockette has to be for its samples to be filed: nothing is decompressed, or it is kept
      and the words that were decompressed are all words or end a frame of the record. */
  predicate Fits(ps: seq<Pair>, rate: nat, frame: nat, room: nat, maxFrames: nat)
    requires 1 <= room
  {
    var w := Begun(ps, rate);
    w == 0 || (Kept(ps, rate) && (w == |ps| || EndsFrame(w, frame, room, maxFrames)))
  }

  /** Valid words for which there is room are filed wherever the record is. */
  lemma DecodableFits(first: Word, ps: seq<Pair>, rate: nat)
    ensures (forall k | 0 <= k < |ps| :: Subcode(ps[k]) <= 6) && Total(ps) <= rate
      <==> Begun(ps, rate) == |ps| && Kept(ps, rate)
    ensures Begun(ps, rate) == |ps| && Kept(ps, rate) ==> Decompressed(first, ps, rate) == DecodePairs(first, ps)
  {
    hide Subcode, DecodePairs, Total;
    assert ps[..|ps|] == ps;
    TotalIs(first, ps);
    if (forall k | 0 <= k < |ps| :: Subcode(ps[k]) <= 6) && Total(ps) <= rate {
      forall k | 0 <= k < |ps|
        ensures Total(ps[..k]) < rate
      {
        TotalUp(ps, k, |ps|);
      }
      BegunIs(ps, rate, |ps|);
    } else if Begun(ps, rate) == |ps| {
      forall k | 0 <= k < |ps|
        ensures Subcode(ps[k]) <= 6
      {
        BegunValid(ps, rate, k);
      }
    }
  }

  lemma {:induction false} BegunValid(ps: seq<Pair>, rate: int, k: nat)
    requires k < Begun(ps, rate)
    ensures Subcode(ps[k]) <= 6
    decreases |ps|
  {
    hide Subcode, Samps;
    if k > 0 {
      BegunValid(ps[1..], rate - Samps(Subcode(ps[0])), k - 1);
    }
  }

  /** A channel behind a blockette of which it has the first `i` words: whether it has the samples. */
  lemma ExplainedWords(q: Channel, words: seq<Pair>, fed: seq<Word>, first: Word, ps: seq<Pair>, rate: nat, i: nat)
    requires q.com.Valid() && i <= |ps| && q.Words() == words + ps[..i] && |fed| == |Unpacked(Data(words))|
    requires q.Explained(fed + Decompressed(first, ps, rate))
    ensures var w := Begun(ps, rate);
      && (i == w && (w == 0 || Kept(ps, rate)) ==> Coded(ps[..w])) && (i == 0 ==> w == 0)
      && (w <= i && Kept(ps, rate) && Coded(ps) ==> i == w)
  {
    hide Unpacked, Data, Total, DecodePairs, Begun, Coded;
    var w := Begun(ps, rate);
    ExplainedOf(q, words, fed, ps[..i], Decompressed(first, ps, rate));
    DecompressedCount(first, ps, rate);
    CodedCount(ps[..i]);
    NoTotal();
    assert ps[..0] == [];
    if w <= i {
      TotalUp(ps, w, i);
      CodedFront(ps, i);
    }
  }

  lemma CodedFront(ps: seq<Pair>, i: nat)
    requires i <= |ps|
    ensures Coded(ps) ==> Coded(ps[..i])
  {
  }

  lemma DecompressedCount(first: Word, ps: seq<Pair>, rate: nat)
    ensures |Decompressed(first, ps, rate)| == Min(rate, Total(ps[..Begun(ps, rate)]))
    ensures Decompressed(first, ps, rate) == [] <==> Begun(ps, rate) == 0
    ensures Kept(ps, rate) ==> Decompressed(first, ps, rate) == DecodePairs(first, ps[..Begun(ps, rate)])
  {
    hide Total, DecodePairs;
    var w := Begun(ps, rate);
    TotalIs(first, ps[..w]);
    TotalUp(ps, 0, w);
    NoTotal();
    assert ps[..0] == [];
  }

  /** The words whose samples a blockette leaves in the buffer at the indexes. */
  function KeptWords(ps: seq<Pair>, rate: nat): (n: nat)
    ensures n <= |ps|
  {
    if Kept(ps, rate) then Begun(ps, rate) else 0
  }

  /** The samples and indexes of a blockette after its decompression. */
  lemma AfterDecompress(pc: Precomp, ps: seq<Pair>, total: nat)
    requires pc.Shape() && pc.mapIdx == 0 && pc.mapPos == 0 && pc.dataPos == 0 && pc.blockIdx == 0 && ps == pc.Pairs()
    requires var w := Begun(ps, pc.rate);
      && total == Min(pc.rate, Total(ps[..w])) && pc.Decoded(w, total, pc.prevValue) && w <= pc.rate
      && pc.idxbuf[w] == total && (forall k | 0 <= k < w :: pc.idxbuf[k] == Total(ps[..k]))
      && pc.blocks == if Total(ps[..w]) > pc.rate || (w < |ps| && Total(ps[..w]) < pc.rate) then 0 else |ps|
    ensures pc.At(0) && pc.Known(KeptWords(ps, pc.rate)) && total == |Decompressed(pc.prevSample, ps, pc.rate)|
    ensures Kept(ps, pc.rate) ==> pc.blocks == |ps| && total == Total(ps[..Begun(ps, pc.rate)])
    ensures !Kept(ps, pc.rate) ==> pc.blocks == 0
    ensures pc.IndexAt(0) == 0 && (0 < total ==> pc.SampleAt(0) == Decompressed(pc.prevSample, ps, pc.rate)[0])
  {
    hide Total, DecodePairs, Source, Begun;
    var first, w := pc.prevSample, Begun(ps, pc.rate);
    var xs := DecodePairs(first, ps[..w]);
    TotalIs(first, ps[..w]);
    DecompressedCount(first, ps, pc.rate);
    StartOf(first, ps);
    assert 0 < total ==> pc.databuf[..total][0] == xs[..total][0];
    if Kept(ps, pc.rate) {
      assert pc.databuf[..total] == xs;
      assert forall k | 0 <= k < w :: ps[..w][..k] == ps[..k];
      assert ps[..w][..w] == ps[..w];
    } else {
      assert ps[..0][..0] == ps[..0];
    }
  }

  /** What has become of the record when none of the blockette's words is kept: its last sample is
      what lies in front of the sample buffer, and a record that was to start has the blockette's
      first sample and no words. */
  ghost predicate Dropped(q: Channel, pc: Precomp, x: Word, fresh_: bool, block: nat)
    reads q.com, q.com.frameBuffer
    requires q.com.Shape()
  {
    && q.com.lastSample == pc.dataAround(-1) && !q.com.Fresh()
    && if fresh_ then q.com.rec == [] && q.com.block == 3 && q.com.FirstSample() == x else q.com.block == block
  }

  /** A record started so has a first sample and no words: no samples are what its channel has. */
  lemma DroppedUnread(q: Channel, pc: Precomp, x: Word, block: nat, all: seq<Word>)
    requires q.Loose() && Dropped(q, pc, x, true, block)
    ensures !q.Explained(all)
  {
    hide AllRead, Flat, LastOf;
    NoCodes();
    assert q.com.Pairs() == [];
    NoWords();
  }

  /** Whether the record being built, if any, goes on from the sample before the blockette. */
  ghost predicate GoesOn(q: Channel, pc: Precomp)
    reads q, q.com, pc
  {
    q.com.Fresh() || q.com.lastSample == pc.prevSample
  }

  /** Decompresses a blockette, which leaves the channel alone. */
  method Begin(q: Channel, pc: Precomp, ghost ps: seq<Pair>) returns (total: nat)
    requires q.Valid() && q.com.peekTotal == 0 && pc.Shape() && pc.Apart(q.com) && ps == pc.Pairs()
    requires {pc.databuf as object, pc.idxbuf as object} !! {q.com.frameBuffer as object, q.com.peeks as object}
    requires pc.mapIdx == 0 && pc.mapPos == 0 && pc.dataPos == 0 && pc.blocks == |pc.data|
    modifies pc`blocks, pc`blockIdx, pc`curMap, pc`prevValue, pc.databuf, pc.idxbuf
    ensures q.Valid() && q.Words() == old(q.Words()) && q.Fed() == old(q.Fed())
    ensures q.com.Fresh() == old(q.com.Fresh()) && RoomIn(q.com) == old(RoomIn(q.com))
    ensures old(GoesOn(q, pc)) ==> Going(q, pc.prevSample, ps, 0)
    ensures pc.Shape() && pc.blockIdx == 0 && pc.Pairs() == ps && pc.At(0) && pc.Known(KeptWords(ps, pc.rate))
    ensures total == |Decompressed(pc.prevSample, ps, pc.rate)|
    ensures Kept(ps, pc.rate) ==> pc.blocks == |ps| && total == Total(ps[..Begun(ps, pc.rate)])
    ensures !Kept(ps, pc.rate) ==> pc.blocks == 0
    ensures pc.IndexAt(0) == 0 && (0 < total ==> pc.SampleAt(0) == Decompressed(pc.prevSample, ps, pc.rate)[0])
  {
    hide AllRead, Data, Flat, DecodePairs, Total, Source, Filled, LastOf, AllPairs, Begun, Compressible, DecodesTo,
         Precomp.At, Precomp.Known, Decompressed, Kept, Window, Wrap, PairsOf, CodesOf, RecordPairs, AtMost, InChain;
    total := pc.Decompress();
    AfterDecompress(pc, ps, total);
    BeforeFirst(pc.prevSample, ps);
  }

  /** One blockette of the digitizer, whatever is in it: its words are decompressed and filed. */
  method ProcessBlockette(q: Channel, pc: Precomp) returns (ghost counted: int)
    requires q.Valid() && q.com.peekTotal == 0 && pc.Shape() && pc.Apart(q.com)
    requires {pc.databuf as object, pc.idxbuf as object} !! {q.com.frameBuffer as object, q.com.peeks as object}
    requires pc.mapIdx == 0 && pc.mapPos == 0 && pc.dataPos == 0 && pc.blocks == |pc.data|
    modifies pc, pc.databuf, pc.idxbuf
    modifies q`records, q`written, q`bases, q`nextSample, q`base, q`taken, q.com, q.com.frameBuffer
    ensures q.Loose() && q.com.peekTotal == 0 && old(q.records) <= q.records && q.Blockettes() == old(q.Blockettes())
    ensures pc.blockIdx <= |old(pc.Pairs())| && q.Words() == old(q.Words()) + old(pc.Pairs())[..pc.blockIdx]
    ensures var ps, xs := old(pc.Pairs()), old(Decompressed(pc.prevSample, pc.Pairs(), pc.rate));
      var fits := old(Fits(pc.Pairs(), pc.rate, q.com.frame, RoomIn(q.com), q.maxFrames));
      var all, front := old(q.Fed()) + xs, ps[..pc.blockIdx];
      && (fits <==> pc.blockIdx == Begun(ps, pc.rate)) && (fits ==> counted == |xs|)
      && (fits && Coded(front) && (old(GoesOn(q, pc)) || xs == []) ==>
        q.Valid() && q.Fed() == all && q.Explained(all))
      && (q.Explained(all) ==>
        if fits then Coded(front) && (old(GoesOn(q, pc)) || xs == []) else Kept(ps, pc.rate) && !Coded(ps))
      && (!Kept(ps, pc.rate) && xs != [] ==>
        counted == 0 && Dropped(q, pc, xs[0], old(q.com.Fresh()), old(q.com.block)))
  {
    hide AllRead, AtMost, Data, Flat, DecodePairs, Total, Source, Filled, Spread, LastOf, Coded, AllPairs, Begun,
         Precomp.At, Precomp.Known, Channel.Explains, Channel.Words, Channel.Explained, ComPacket.Pairs, EndsFrame,
         Unpacked, Channel.Fed, Channel.Blockettes, Decompressed, Kept, RoomIn, Going, Channel.Began,
         ComPacket.FirstSample, DecodesTo, DecodeWord;
    ghost var ps, first, words, fed := pc.Pairs(), pc.prevSample, q.Words(), q.Fed();
    ghost var records, written, bases, taken, base := q.records, q.written, q.bases, q.taken, q.base;
    ghost var x, held, last, fresh_ := q.com.FirstSample(), q.com.Pairs(), q.com.lastSample, q.com.Fresh();
    FedCount(q);
    SoundHolds(q);
    var total := Begin(q, pc, ps);
    StartOf(first, ps);
    DecompressedCount(first, ps, pc.rate);
    counted := FileBlockette(q, pc, total, ps, KeptWords(ps, pc.rate));
    if q.Explained(fed + Decompressed(first, ps, pc.rate)) {
      ExplainedWords(q, words, fed, first, ps, pc.rate, pc.blockIdx);
      if !fresh_ && 0 < pc.blockIdx == Begun(ps, pc.rate) && Kept(ps, pc.rate) {
        FirstCoded(ps, pc.blockIdx);
        ExplainedBehind(q, |records|, x, held, ps[0], records, written, bases, taken, base, last,
          Decompressed(first, ps, pc.rate));
        SameFirst(first, last, ps, pc.rate);
      }
    }
    FedExplained(q);
  }

  /** Samples that begin with those of the first word after another sample are those after it only if
      the two are the same. */
  lemma SameFirst(first: Word, last: Word, ps: seq<Pair>, rate: nat)
    requires Kept(ps, rate) && 0 < Begun(ps, rate) && DecodeWord(last, ps[0]) <= Decompressed(first, ps, rate)
    ensures last == first
  {
    hide DecodeWord, Total, Begun;
    DecompressedCount(first, ps, rate);
    var front := ps[..Begun(ps, rate)];
    assert front[0] == ps[0] && DecodeWord(first, ps[0]) <= DecodePairs(first, front);
    SameWord(first, last, ps[0], DecodePairs(first, front));
  }

  lemma SameWord(a: Word, b: Word, p: Pair, xs: seq<Word>)
    requires DecodeWord(a, p) <= xs && DecodeWord(b, p) <= xs
    ensures a == b
  {
    OneDecoded(a, p);
    OneDecoded(b, p);
    assert DecodeWord(a, p) == xs[..Samps(Subcode(p))] == DecodeWord(b, p);
    ContinuesExact(a, b, [p]);
  }

  lemma OneDecoded(a: Word, p: Pair)
    ensures DecodePairs(a, [p]) == DecodeWord(a, p)
  {
    hide DecodeWord;
    assert DecodePairs(a, [p]) == DecodeWord(a, p) + [];
  }

  lemma FirstCoded(ps: seq<Pair>, n: nat)
    requires 0 < n <= |ps| && Coded(ps[..n])
    ensures ps[0].code != 0
  {
  }

  lemma SoundHolds(q: Channel)
    requires q.Sound() && q.com.peekTotal == 0
    ensures AllRead(q.records, q.written, q.bases) && q.Fed() == Flat(q.written) + q.taken
    ensures DecodesTo(q.base, Data(q.com.Pairs()), q.taken, q.com.lastSample)
    ensures !q.com.Fresh() ==> q.taken != [] && q.taken[0] == q.com.FirstSample()
  {
    hide AllRead, DecodesTo, Flat;
  }

  lemma FedExplained(q: Channel)
    requires q.Loose() && q.com.peekTotal == 0
    ensures q.Sound() ==> q.Explained(q.Fed())
  {
    hide AllRead, Flat, Channel.Explains;
    if q.Sound() {
      q.SoundExplained();
      assert q.Fed() == Flat(q.written) + q.taken;
    }
  }

  lemma FedCount(q: Channel)
    requires q.Sound() && q.com.peekTotal == 0
    ensures |q.Fed()| == |Unpacked(Data(q.Words()))|
  {
    hide Unpacked, Data, AllRead, AllPairs, Channel.Explains, Channel.Words;
    q.SoundExplained();
    q.ExplainedCount(Flat(q.written) + q.taken);
  }

  /** A word without a valid subcode behind one with four samples: the samples are there, and the
      blockette fits nowhere. */
  lemma InvalidWord(x: Word, frame: nat, room: nat, maxFrames: nat)
    requires 1 <= room
    ensures var ps := [Pair(1, 0), Pair(3, 0xC000_0000)];
      && Decompressed(x, ps, 5) == [x, x, x, x] && !Kept(ps, 5) && !Fits(ps, 5, frame, room, maxFrames)
  {
    hide DecodeWord;
    var ps := [Pair(1, 0), Pair(3, 0xC000_0000)];
    SubcodesHere();
    assert ps[..1] == [ps[0]] && ps[1..][0] == ps[1] && [ps[0]][..0] == [];
    TotalNext(ps, 0);
    assert Begun(ps, 5) == 1;
    SameSample(x);
    assert DecodePairs(x, ps[..1]) == DecodeWord(x, ps[0]) + DecodePairs(x, []);
  }

  /** A first word that fills the buffer: the words behind it are filed too, by indexes nobody has
      set, unless a frame ends with the first. */
  lemma WordsBehind(x: Word, frame: nat, room: nat, maxFrames: nat)
    requires 1 <= room
    ensures var ps := [Pair(1, 0), Pair(1, 0)];
      Decompressed(x, ps, 4) == [x, x, x, x] && Kept(ps, 4) && (Fits(ps, 4, frame, room, maxFrames) <==> room == 1)
  {
    hide DecodeWord;
    var ps := [Pair(1, 0), Pair(1, 0)];
    SubcodesHere();
    assert ps[..1] == [ps[0]] && [ps[0]][..0] == [];
    TotalNext(ps, 0);
    assert Begun(ps, 4) == 1;
    SameSample(x);
    assert DecodePairs(x, ps[..1]) == DecodeWord(x, ps[0]) + DecodePairs(x, []);
  }

  lemma SubcodesHere()
    ensures Subcode(Pair(1, 0)) == 0 && Subcode(Pair(3, 0xC000_0000)) == 7
  {
  }

  lemma SameSample(x: Word)
    ensures DecodeWord(x, Pair(1, 0)) == [x, x, x, x]
  {
    SubcodesHere();
    assert Unpack(0, 4, 0) == [0, 0, 0, 0];
  }
}
