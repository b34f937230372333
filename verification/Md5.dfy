/** The digest of a message that comes in pieces. */
module Md5 {
  import opened Bytes
  import opened Md5Model

  /** The working variables: the digest so far, the bytes of the last partial block and the
      number of bits. */
  class WorkingVar<D> {
    const transform: (D, seq<Byte>) -> D
    const iv: D
    const bbuf: array<Byte>
    var cdigest: D
    var bitlo: int
    var bithi: int
    var blen: nat

    /** The digest of the whole blocks of a message, and the bytes behind them. */
    ghost predicate Has(msg: seq<Byte>)
      reads this, bbuf
    {
      && bbuf.Length == BLOCK && blen == |msg| - Whole(|msg|) && bbuf[..blen] == msg[Whole(|msg|)..]
      && cdigest == Digest(transform, iv, msg[..Whole(|msg|)])
    }

    /** What the variables are after the message `msg`. */
    ghost predicate Holds(msg: seq<Byte>)
      reads this, bbuf
    {
      Has(msg) && bitlo == Signed32(8 * |msg|) && bithi == Signed32(HighCount(8 * |msg|))
    }

    constructor (f: (D, seq<Byte>) -> D, start: D)
      ensures Holds([]) && transform == f && iv == start && fresh(bbuf)
    {
      transform, iv, bbuf := f, start, new Byte[BLOCK](_ => 0);
      cdigest, bitlo, bithi, blen := start, 0, 0, 0;
    }

    /** Counts the bits of a piece. */
    method CountBits(len: nat, ghost bits: nat)
      requires bitlo == Signed32(bits) && bithi == Signed32(HighCount(bits)) && len < PIECE_LIMIT
      modifies this`bitlo, this`bithi
      ensures bitlo == Signed32(bits + 8 * len) && bithi == Signed32(HighCount(bits + 8 * len))
    {
      hide Signed32, HighCount;
      Counted(bits, 8 * len);
      CarryIn(HighCount(bits));
      if Signed32(bitlo + 8 * len) < bitlo {
        bithi := Signed32(bithi + 1);
      }
      bitlo := Signed32(bitlo + 8 * len);
    }

    /** Puts the first bytes of a piece into the buffer. */
    method Fill(piece: seq<Byte>, left: nat)
      requires bbuf.Length == BLOCK && left <= |piece| && blen + left <= BLOCK
      modifies this`blen, bbuf
      ensures blen == old(blen) + left && bbuf[..blen] == old(bbuf[..blen]) + piece[..left]
    {
      forall k | 0 <= k < left {
        bbuf[blen + k] := piece[k];
      }
      blen := blen + left;
    }

    /** The blocks of what is left of a piece, and the rest into the buffer. */
    method Absorb(piece: seq<Byte>, ghost all: seq<Byte>, ghost from: nat)
      requires bbuf.Length == BLOCK && blen == 0 && from <= |all| && from % BLOCK == 0 && piece == all[from..]
      requires cdigest == Digest(transform, iv, all[..from])
      modifies this`cdigest, this`blen, bbuf
      ensures Has(all)
    {
      hide Digest, Whole;
      var rest := piece;
      ghost var done := from;
      while |rest| >= BLOCK
        invariant blen == 0 && 0 <= done <= |all| && done % BLOCK == 0 && rest == all[done..]
        invariant cdigest == Digest(transform, iv, all[..done])
        decreases |rest|
      {
        NextBlock(transform, iv, all, done);
        assert rest[..BLOCK] == all[done..done + BLOCK] && rest[BLOCK..] == all[done + BLOCK..];
        cdigest := transform(cdigest, rest[..BLOCK]);
        rest := rest[BLOCK..];
        done := done + BLOCK;
      }
      WholeIs(done, |all|);
      if |rest| > 0 {
        Fill(rest, |rest|);
      }
      assert bbuf[..blen] == all[done..];
    }

    /** The next piece of the message. */
    method Update(piece: seq<Byte>, ghost msg: seq<Byte>)
      requires Holds(msg) && |piece| < PIECE_LIMIT
      modifies this, bbuf
      ensures Holds(msg + piece)
    {
      hide Digest, Whole, Signed32, HighCount;
      ghost var all, w := msg + piece, Whole(|msg|);
      CountBits(|piece|, 8 * |msg|);
      assert all[..w] == msg[..w];
      if blen > 0 {
        var left := BLOCK - blen;
        if left > |piece| {
          left := |piece|;
        }
        Fill(piece, left);
        assert bbuf[..blen] == all[w..w + blen];
        if blen < BLOCK {
          WholeSame(|msg|, |all|);
          return;
        }
        NextBlock(transform, iv, all, w);
        assert bbuf[..] == bbuf[..blen];
        cdigest := transform(cdigest, bbuf[..]);
        blen := 0;
        Absorb(piece[left..], all, w + BLOCK);
      } else {
        Absorb(piece, all, w);
      }
    }

    /** Puts the number of bits behind the padding of the last block. */
    method PutLength(workbuf: array<Byte>)
      requires workbuf.Length == BLOCK
      modifies workbuf
      ensures workbuf[..] == old(workbuf[..56]) + LengthField(bitlo, bithi)
    {
      hide Le4;
      var lo, hi := Le4(bitlo), Le4(bithi);
      forall k | 56 <= k < 60 {
        workbuf[k] := lo[k - 56];
      }
      forall k | 60 <= k < 64 {
        workbuf[k] := hi[k - 60];
      }
    }

    /** The digest of the message so far; the working variables stay as they are, so that more
        pieces can follow. */
    method GetResult(ghost msg: seq<Byte>) returns (resp: D)
      requires Holds(msg)
      ensures resp == Result(transform, iv, msg, Signed32(8 * |msg|), Signed32(HighCount(8 * |msg|)))
    {
      hide Digest, Signed32, HighCount, Le4;
      ghost var w := Whole(|msg|);
      var fdigest := cdigest;
      var workbuf := new Byte[BLOCK](_ => 0);
      forall k | 0 <= k < blen {
        workbuf[k] := bbuf[k];
      }
      workbuf[blen] := 0x80;
      var worklen := blen + 1;
      ghost var part := msg[w..];
      ghost var tail := part + Padding(|msg|) + LengthField(bitlo, bithi);
      TailBlocks(|msg|, part, LengthField(bitlo, bithi));
      if worklen > 56 {
        forall k | worklen <= k < BLOCK {
          workbuf[k] := 0;
        }
        assert workbuf[..] == part + [0x80] + Zeros(63 - |part|);
        fdigest := transform(fdigest, workbuf[..]);
        worklen := 0;
      }
      forall k | worklen <= k < 56 {
        workbuf[k] := 0;
      }
      assert workbuf[..56] == if |part| > 55 then Zeros(56) else part + [0x80] + Zeros(55 - |part|);
      PutLength(workbuf);
      LastBlocks(transform, cdigest, tail);
      ResultTail(transform, iv, msg, bitlo, bithi);
      resp := transform(fdigest, workbuf[..]);
    }
  }

  /** The padding follows what is left behind the whole blocks. */
  lemma ResultTail<D>(transform: (D, seq<Byte>) -> D, iv: D, msg: seq<Byte>, lo: int, hi: int)
    ensures var w := Whole(|msg|);
      Result(transform, iv, msg, lo, hi)
      == Digest(transform, Digest(transform, iv, msg[..w]), msg[w..] + Padding(|msg|) + LengthField(lo, hi))
  {
    hide Digest, LengthField;
    var w := Whole(|msg|);
    var tail := msg[w..] + Padding(|msg|) + LengthField(lo, hi);
    DigestAppend(transform, iv, msg[..w], tail);
    assert msg[..w] + tail == msg + Padding(|msg|) + LengthField(lo, hi) by {
      assert msg == msg[..w] + msg[w..];
    }
  }

  lemma CarryIn(h: int)
    ensures Signed32(Signed32(h) + 1) == Signed32(h + 1)
  {
  }

  lemma WholeIs(done: nat, n: nat)
    requires done <= n < done + BLOCK && done % BLOCK == 0
    ensures Whole(n) == done
  {
  }

  lemma WholeSame(m: nat, n: nat)
    requires m <= n < Whole(m) + BLOCK
    ensures Whole(n) == Whole(m)
  {
    WholeIs(Whole(m), n);
  }

  /** One more block. */
  lemma NextBlock<D>(transform: (D, seq<Byte>) -> D, iv: D, msg: seq<Byte>, k: nat)
    requires k % BLOCK == 0 && k + BLOCK <= |msg|
    ensures Digest(transform, iv, msg[..k + BLOCK]) == transform(Digest(transform, iv, msg[..k]), msg[k..k + BLOCK])
  {
    assert msg[..k + BLOCK] == msg[..k] + msg[k..k + BLOCK];
    DigestAppend(transform, iv, msg[..k], msg[k..k + BLOCK]);
    OneBlock(transform, Digest(transform, iv, msg[..k]), msg[k..k + BLOCK]);
  }

  lemma OneBlock<D>(transform: (D, seq<Byte>) -> D, d: D, block: seq<Byte>)
    requires |block| == BLOCK
    ensures Digest(transform, d, block) == transform(d, block)
  {
    assert block[..BLOCK] == block && block[BLOCK..] == [];
  }

  /** What the one or two blocks at the end hold. */
  lemma TailBlocks(n: nat, part: seq<Byte>, length: seq<Byte>)
    requires |part| == n - Whole(n) && |length| == 8
    ensures var tail := part + Padding(n) + length;
      && |tail| == (if |part| > 55 then 2 * BLOCK else BLOCK)
      && (|part| > 55 ==> tail[..BLOCK] == part + [0x80] + Zeros(63 - |part|))
      && tail[|tail| - BLOCK..] == (if |part| > 55 then Zeros(56) else part + [0x80] + Zeros(55 - |part|)) + length
  {
    assert |part| == n % BLOCK;
    PaddingIs(n, |part|);
    hide Padding, Whole, Zeros;
    if |part| > 55 {
      var first, last := part + [0x80] + Zeros(63 - |part|), Zeros(56) + length;
      assert part + Padding(n) + length == first + last;
    }
  }

  lemma PaddingIs(n: nat, m: nat)
    requires m == n % BLOCK
    ensures Padding(n) == if m > 55 then [0x80] + (Zeros(63 - m) + Zeros(56)) else [0x80] + Zeros(55 - m)
  {
  }

  /** The one or two blocks at the end. */
  lemma LastBlocks<D>(transform: (D, seq<Byte>) -> D, d: D, tail: seq<Byte>)
    requires |tail| == BLOCK || |tail| == 2 * BLOCK
    ensures |tail| == BLOCK ==> Digest(transform, d, tail) == transform(d, tail)
    ensures |tail| == 2 * BLOCK ==> Digest(transform, d, tail) == transform(transform(d, tail[..BLOCK]), tail[BLOCK..])
  {
    OneBlock(transform, if |tail| == BLOCK then d else transform(d, tail[..BLOCK]), tail[|tail| - BLOCK..]);
    assert tail[0..] == tail;
  }

  /** The digest is that of the standard for every message whose number of bits has bit 31
      clear, and otherwise its length field differs from the standard's. */
  lemma ResultExact<D>(transform: (D, seq<Byte>) -> D, iv: D, msg: seq<Byte>)
    ensures var lo, hi := Signed32(8 * |msg|), Signed32(HighCount(8 * |msg|));
      && (8 * |msg| % TWO32 < TWO31 <==> LengthField(lo, hi) == LengthField(8 * |msg|, 8 * |msg| / TWO32))
      && (8 * |msg| % TWO32 < TWO31 ==> Result(transform, iv, msg, lo, hi) == Md5(transform, iv, msg))
  {
    hide Signed32, HighCount, Digest, LengthField;
    HighExact(8 * |msg|);
  }
}
