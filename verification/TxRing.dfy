/** The ring of outgoing packets, sent in groups. */
module TxRing {
  import opened Circle

  const SLOTS: nat := 64
  const HALF: int := 32768

  /** A count of 16 bits with a sign, after one more. */
  function Inc(n: int): (m: int)
    requires -HALF <= n < HALF
    ensures -HALF <= m < HALF
  {
    if n == HALF - 1 then -HALF else n + 1
  }

  /** The same count without a sign. */
  function Unsigned(n: int): (u: nat)
    requires -HALF <= n < HALF
  {
    if n < 0 then n + 2 * HALF else n
  }

  /** Where the next packet goes in the ring: 16 bits wrap around at a multiple of its size. */
  lemma NextSlot(out: nat, n: int)
    requires -HALF <= n < HALF
    ensures Wrap(Wrap(out + Unsigned(n), SLOTS) + 1, SLOTS) == Wrap(out + Unsigned(Inc(n)), SLOTS)
  {
    WrapTwice(out + Unsigned(n), 1, SLOTS);
    if n == -1 {
      Remainder(out + 2 * HALF, SLOTS, (out / SLOTS) + 1024, out % SLOTS);
    }
  }

  /** The packets waiting after one more was put behind them.  The one that had the same slot a
      round of the ring before, if there is one, is written over. */
  function Put<T>(w: seq<T>, x: T): (w': seq<T>)
    ensures |w'| == |w| + 1 && w'[|w|] == x
  {
    seq(|w| + 1, k requires 0 <= k < |w| + 1 => if (|w| - k) % SLOTS == 0 then x else w[k])
  }

  /** A packet put into the ring is one more of those waiting exactly while a slot is free. */
  lemma PutExact<T>(w: seq<T>, x: T)
    ensures |w| < SLOTS ==> Put(w, x) == w + [x]
    ensures |w| >= SLOTS ==> Put(w, x)[|w| - SLOTS] == x && (w[|w| - SLOTS] != x ==> Put(w, x) != w + [x])
  {
    if |w| < SLOTS {
      forall k | 0 <= k < |w|
        ensures Put(w, x)[k] == w[k]
      {
        assert 0 < |w| - k < SLOTS;
      }
    }
  }

  lemma SameSlot(i: nat, j: nat)
    requires i <= j
    ensures Wrap(i, SLOTS) == Wrap(j, SLOTS) <==> (j - i) % SLOTS == 0
  {
  }

  lemma WindowPut<T>(ring: seq<T>, out: nat, n: nat, x: T)
    requires |ring| == SLOTS && out < SLOTS
    ensures Window(ring[Wrap(out + n, SLOTS) := x], out, n + 1) == Put(Window(ring, out, n), x)
  {
    hide Wrap;
    var grown, w := ring[Wrap(out + n, SLOTS) := x], Window(ring, out, n);
    forall k | 0 <= k < n + 1
      ensures Window(grown, out, n + 1)[k] == Put(w, x)[k]
    {
      SameSlot(out + k, out + n);
    }
  }

  lemma NoneLeft<T>(ring: seq<T>, out: nat)
    requires |ring| == SLOTS
    ensures Window(ring, out, 0) == []
  {
  }

  lemma FirstOut<T>(ring: seq<T>, out: nat, n: nat)
    requires |ring| == SLOTS && out < SLOTS && 0 < n
    ensures Window(ring, out, n) == [ring[out]] + Window(ring, Wrap(out + 1, SLOTS), n - 1)
    ensures Wrap(Wrap(out + 1, SLOTS) + (n - 1), SLOTS) == Wrap(out + n, SLOTS)
  {
    hide Wrap, Window;
    WindowFirst(ring, out, n);
    WindowDrop(ring, out, n, 1);
    var w := Window(ring, out, n);
    assert w == [w[0]] + w[1..];
  }

  class Ring<T(0)> {
    const txbuf: array<T>
    // the size of a group; whoever is in charge of the link may set it to anything
    var grpSize: int
    var nextIn: nat
    var nextOut: nat
    var txWin: int
    // the packets transmitted
    var sent: seq<T>

    ghost predicate Valid()
      reads this
    {
      && txbuf.Length == SLOTS && nextOut < SLOTS && -HALF <= txWin < HALF
      && nextIn == Wrap(nextOut + Unsigned(txWin), SLOTS)
    }

    /** The packets waiting to be sent; there are none when their count is negative. */
    ghost function Waiting(): seq<T>
      reads this, txbuf
      requires Valid()
    {
      if txWin > 0 then Window(txbuf[..], nextOut, txWin) else []
    }

    constructor (size: int)
      ensures Valid() && Waiting() == [] && sent == [] && grpSize == size && fresh(txbuf)
    {
      txbuf := new T[SLOTS];
      grpSize, nextIn, nextOut, txWin, sent := size, 0, 0, 0, [];
    }

    /** One packet of those waiting is transmitted. */
    lemma NextSent()
      requires Valid() && txWin > 0
      ensures var rest := if txWin > 1 then Window(txbuf[..], Wrap(nextOut + 1, SLOTS), txWin - 1) else [];
        sent + [txbuf[nextOut]] + rest == sent + Waiting()
      ensures nextIn == Wrap(Wrap(nextOut + 1, SLOTS) + Unsigned(txWin - 1), SLOTS)
    {
      hide Wrap, Window;
      FirstOut(txbuf[..], nextOut, txWin);
      NoneLeft(txbuf[..], Wrap(nextOut + 1, SLOTS));
      assert [txbuf[nextOut]] + [] == [txbuf[nextOut]];
    }

    /** Transmits what is waiting. */
    method SendWindow()
      requires Valid()
      modifies this`sent, this`txWin, this`nextOut
      ensures Valid() && txWin == (if old(txWin) > 0 then 0 else old(txWin)) && sent == old(sent) + old(Waiting())
    {
      hide Wrap, Window;
      while txWin > 0
        invariant Valid() && sent + Waiting() == old(sent) + old(Waiting())
        invariant if old(txWin) > 0 then 0 <= txWin else txWin == old(txWin)
      {
        NextSent();
        sent := sent + [txbuf[nextOut]];
        txWin := txWin - 1;
        nextOut := Wrap(nextOut + 1, SLOTS);
      }
    }

    /** Queues a packet, and transmits the group when it is complete.  As long as no group is larger
        than the ring, every packet is transmitted once and in order.  In a group too large for the
        count, the count goes negative and all that was waiting is lost. */
    method SendTxPacket(x: T)
      requires Valid()
      modifies this`sent, this`txWin, this`nextOut, this`nextIn, txbuf
      ensures Valid()
      ensures sent + Waiting()
        == old(sent) + if 0 <= old(txWin) < HALF - 1 then Put(old(Waiting()), x) else []
      ensures 0 <= old(txWin) < SLOTS ==> sent + Waiting() == old(sent + Waiting()) + [x]
      ensures grpSize <= SLOTS && 0 <= old(txWin) < SLOTS ==>
        0 <= txWin < SLOTS && (old(txWin) < grpSize ==> txWin < grpSize)
      ensures var n := Inc(old(txWin)); txWin == if n >= grpSize && n > 0 then 0 else n
    {
      hide Wrap, Window;
      ghost var ring := txbuf[..];
      if 0 <= txWin < HALF - 1 {
        WaitingPut(ring, x);
        PutExact(Waiting(), x);
      }
      if 0 <= txWin < SLOTS {
        assert sent + (Waiting() + [x]) == (sent + Waiting()) + [x];
      }
      NextSlot(nextOut, txWin);
      txbuf[nextIn] := x;
      assert txbuf[..] == ring[nextIn := x];
      txWin := Inc(txWin);
      nextIn := Wrap(nextIn + 1, SLOTS);
      if txWin >= grpSize {
        SendWindow();
      }
    }

    lemma WaitingPut(ring: seq<T>, x: T)
      requires Valid() && ring == txbuf[..] && 0 <= txWin < HALF - 1
      ensures Window(ring[nextIn := x], nextOut, txWin + 1) == Put(Waiting(), x)
    {
      hide Wrap;
      WindowPut(ring, nextOut, txWin, x);
      NoneLeft(ring, nextOut);
    }
  }

  /** The count after `k` packets, put behind one another with groups of one size. */
  function After(size: int, k: nat): (n: int)
    ensures -HALF <= n < HALF
  {
    if k == 0 then 0
    else
      var n := Inc(After(size, k - 1));
      if n >= size && n > 0 then 0 else n
  }

  lemma {:induction false} StaysCount(size: int, k: nat)
    requires size < HALF
    ensures 0 <= After(size, k) < HALF - 1
  {
    if k > 0 {
      StaysCount(size, k - 1);
    }
  }

  lemma {:induction false} CountsUp(size: int, k: nat)
    requires HALF <= size && k < HALF
    ensures After(size, k) == k
  {
    if k > 0 {
      CountsUp(size, k - 1);
    }
  }

  /** Packets are lost from the count exactly with groups that 15 bits cannot count. */
  lemma CountExact(size: int)
    ensures (forall k: nat :: 0 <= After(size, k)) <==> size < HALF
  {
    if size < HALF {
      forall k: nat
        ensures 0 <= After(size, k)
      {
        StaysCount(size, k);
      }
    } else {
      CountsUp(size, HALF - 1);
      assert After(size, HALF) == -HALF;
    }
  }
}
