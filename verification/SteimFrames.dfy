/** Frames of sixteen words: a flag word with a two-bit code for each of the other fifteen. */
module SteimFrames {
  import opened SteimModel
  import opened SteimCodec

  const WORDS_PER_FRAME: nat := 16

  type Frame = f: seq<Word> | |f| == WORDS_PER_FRAME witness seq(WORDS_PER_FRAME, _ => 0)

  function AddCode(flag: Word, code: Word): Word {
    (flag << 2) + code
  }

  function Before(flag: Word): Word {
    flag >> 2
  }

  function Lowest(flag: Word): Word {
    flag & 3
  }

  /** The `n` lowest codes of a flag word, first one highest. */
  function CodesOf(flag: Word, n: nat): (cs: seq<Word>)
    ensures |cs| == n
    decreases n
  {
    if n == 0 then [] else CodesOf(Before(flag), n - 1) + [Lowest(flag)]
  }

  /** A flag word with at most `n` codes in it. */
  predicate AtMost(n: nat, flag: Word) {
    match n
    case 0 => flag == 0
    case 1 => flag <= 0x3
    case 2 => flag <= 0xF
    case 3 => flag <= 0x3F
    case 4 => flag <= 0xFF
    case 5 => flag <= 0x3FF
    case 6 => flag <= 0xFFF
    case 7 => flag <= 0x3FFF
    case 8 => flag <= 0xFFFF
    case 9 => flag <= 0x3FFFF
    case 10 => flag <= 0xFFFFF
    case 11 => flag <= 0x3FFFFF
    case 12 => flag <= 0xFFFFFF
    case 13 => flag <= 0x3FFFFFF
    case 14 => flag <= 0xFFFFFFF
    case _ => flag <= 0x3FFFFFFF
  }

  lemma AddCodeFits(n: nat, flag: Word, code: Word)
    requires n < 15 && AtMost(n, flag) && code <= 3
    ensures AtMost(n + 1, AddCode(flag, code)) && flag <= 0xFFFFFFF
  {
  }

  lemma AddCode0(flag: Word)
    requires flag <= 0xFFFFFFF
    ensures Before(AddCode(flag, 0)) == flag && Lowest(AddCode(flag, 0)) == 0
  {
  }

  lemma AddCode1(flag: Word)
    requires flag <= 0xFFFFFFF
    ensures Before(AddCode(flag, 1)) == flag && Lowest(AddCode(flag, 1)) == 1
  {
  }

  lemma AddCode2(flag: Word)
    requires flag <= 0xFFFFFFF
    ensures Before(AddCode(flag, 2)) == flag && Lowest(AddCode(flag, 2)) == 2
  {
  }

  lemma AddCode3(flag: Word)
    requires flag <= 0xFFFFFFF
    ensures Before(AddCode(flag, 3)) == flag && Lowest(AddCode(flag, 3)) == 3
  {
  }

  lemma AddCodeBits(flag: Word, code: Word)
    requires flag <= 0xFFFFFFF && code <= 3
    ensures Before(AddCode(flag, code)) == flag && Lowest(AddCode(flag, code)) == code
  {
    hide AddCode, Before, Lowest;
    if code == 0 {
      AddCode0(flag);
    } else if code == 1 {
      AddCode1(flag);
    } else if code == 2 {
      AddCode2(flag);
    } else {
      assert code == 3;
      AddCode3(flag);
    }
  }

  /** Adding a code appends it to the codes already there. */
  lemma AddCodeAppends(flag: Word, code: Word, n: nat)
    requires n < 15 && AtMost(n, flag) && code <= 3
    ensures CodesOf(AddCode(flag, code), n + 1) == CodesOf(flag, n) + [code]
    ensures AtMost(n + 1, AddCode(flag, code))
  {
    AddCodeFits(n, flag, code);
    hide AddCode, AtMost, Before, Lowest;
    AddCodeBits(flag, code);
  }

  /** The codes and words of a frame from word `first` on. */
  function PairsOf(codes: seq<Word>, words: seq<Word>): (ps: seq<Pair>)
    requires |codes| == |words|
    ensures |ps| == |codes|
  {
    seq(|codes|, k requires 0 <= k < |codes| => Pair(codes[k], words[k]))
  }

  function FramePairs(f: Frame, first: nat): seq<Pair>
    requires 1 <= first <= WORDS_PER_FRAME
  {
    PairsOf(CodesOf(f[0], WORDS_PER_FRAME - first), f[first..])
  }

  /** The flag word shifted right `back` times by one code, and masked. */
  function Code(flag: Word, back: nat): Word
    decreases back
  {
    if back == 0 then Lowest(flag) else Code(Before(flag), back - 1)
  }

  lemma {:induction false} CodesFromBack(flag: Word, n: nat, k: nat)
    requires k < n
    ensures CodesOf(flag, n)[k] == Code(flag, n - 1 - k)
    decreases n
  {
    if k < n - 1 {
      CodesFromBack(Before(flag), n - 1, k);
    }
  }

  /** The codes of a whole frame are where the format puts them: the code of word `w` is
      15-w codes above the lowest, at bits 31-2w and 30-2w. */
  lemma CodePosition(f: Frame, first: nat, w: nat)
    requires 1 <= first <= w < WORDS_PER_FRAME
    ensures FramePairs(f, first)[w - first] == Pair(Code(f[0], 15 - w), f[w])
  {
    hide Before, Lowest;
    CodesFromBack(f[0], WORDS_PER_FRAME - first, w - first);
  }

  /** The flag word shifted up by two bits for each of `k` unused words. */
  function ShiftCodes(flag: Word, k: nat): Word {
    match k
    case 0 => flag
    case 1 => flag << 2
    case 2 => flag << 4
    case 3 => flag << 6
    case 4 => flag << 8
    case 5 => flag << 10
    case 6 => flag << 12
    case 7 => flag << 14
    case 8 => flag << 16
    case 9 => flag << 18
    case 10 => flag << 20
    case 11 => flag << 22
    case 12 => flag << 24
    case 13 => flag << 26
    case _ => flag << 28
  }

  lemma {:induction false} ShiftIsPad(flag: Word, k: nat)
    requires k <= 14
    ensures ShiftCodes(flag, k) == PadCodes(flag, k)
    decreases k
  {
    if k > 0 {
      ShiftIsPad(flag << 2, k - 1);
    }
  }

  /** The same shift, two bits at a time. */
  function PadCodes(flag: Word, k: nat): Word
    decreases k
  {
    if k == 0 then flag else PadCodes(flag << 2, k - 1)
  }

  lemma PadOne(flag: Word, n: nat)
    requires n < 15 && AtMost(n, flag)
    ensures AtMost(n + 1, flag << 2) && CodesOf(flag << 2, n + 1) == CodesOf(flag, n) + [0]
  {
    AddCodeAppends(flag, 0, n);
    assert AddCode(flag, 0) == flag << 2;
  }

  lemma {:induction false} PadAppends(flag: Word, n: nat, k: nat)
    requires n + k <= 15 && AtMost(n, flag)
    ensures AtMost(n + k, PadCodes(flag, k))
    ensures CodesOf(PadCodes(flag, k), n + k) == CodesOf(flag, n) + seq(k, _ => 0)
    decreases k
  {
    hide AtMost, CodesOf;
    if k > 0 {
      PadOne(flag, n);
      PadAppends(flag << 2, n + 1, k - 1);
      assert [0] + seq(k - 1, _ => 0) == seq(k, _ => 0 as Word);
    } else {
      assert CodesOf(flag, n) + seq(0, _ => 0) == CodesOf(flag, n);
    }
  }

  /** The words that carry differences: those with a code other than zero. */
  function Data(ps: seq<Pair>): seq<Pair> {
    if ps == [] then [] else (if ps[0].code == 0 then [] else [ps[0]]) + Data(ps[1..])
  }

  lemma {:induction false} DataAppend(ps: seq<Pair>, qs: seq<Pair>)
    ensures Data(ps + qs) == Data(ps) + Data(qs)
  {
    if ps == [] {
      assert ps + qs == qs;
    } else {
      assert (ps + qs)[1..] == ps[1..] + qs;
      DataAppend(ps[1..], qs);
    }
  }

  lemma {:induction false} DataNone(ps: seq<Pair>)
    requires forall k | 0 <= k < |ps| :: ps[k].code == 0
    ensures Data(ps) == []
  {
    if ps != [] {
      DataNone(ps[1..]);
    }
  }
}
