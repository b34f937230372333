/** The receiver of framed packets, which takes what each read of the link happens to give. */
module Framing {
  import opened Bytes
  import opened FrameModel

  datatype Phase = SOHWAIT | SYNWAIT | INBLOCK | ETXWAIT

  function Flat(pieces: seq<seq<Byte>>): seq<Byte> {
    if pieces == [] then [] else pieces[0] + Flat(pieces[1..])
  }

  /** Using the first `n` bytes of the input takes the state `s` to `t` and completes the
      packets `more`, as it would one byte at a time. */
  ghost predicate Uses(cap: nat, s: State, input: seq<Byte>, n: nat, t: State, rest: seq<Byte>, more: seq<seq<Byte>>) {
    n <= |input| && rest == input[n..] && Run(cap, s, input[..n]) == Received(t, more)
  }

  lemma UsesNothing(cap: nat, s: State, input: seq<Byte>)
    ensures Uses(cap, s, input, 0, s, input, [])
  {
  }

  lemma UsesThen(cap: nat, s: State, input: seq<Byte>, m: nat, t: State, rest: seq<Byte>, more: seq<seq<Byte>>,
                 n: nat, u: State, last: seq<Byte>, then_: seq<seq<Byte>>)
    requires Uses(cap, s, input, m, t, rest, more) && Uses(cap, t, rest, n, u, last, then_)
    ensures Uses(cap, s, input, m + n, u, last, more + then_)
  {
    RunAppend(cap, s, input[..m], rest[..n]);
    assert input[..m + n] == input[..m] + rest[..n];
  }

  lemma UsesOne(cap: nat, s: State, b: Byte, rest: seq<Byte>)
    ensures Uses(cap, s, [b] + rest, 1, Step(cap, s, b).state, rest, Step(cap, s, b).packets)
  {
    OneStep(cap, s, b);
    assert ([b] + rest)[..1] == [b];
  }

  class Framer {
    const dbuf: array<Byte>
    var inphase: Phase
    var dest: nat
    var lastchar: Byte
    // what the last read gave and has not been used, and what the reads to come will give
    var src: seq<Byte>
    var coming: seq<seq<Byte>>
    // the packets passed on
    var packets: seq<seq<Byte>>

    constructor (capacity: nat, input: seq<seq<Byte>>)
      requires 1 <= capacity
      ensures Valid() && Now() == Idle && dbuf.Length == capacity && src == [] && coming == input && packets == []
      ensures fresh(dbuf)
    {
      dbuf := new Byte[capacity](_ => 0);
      inphase, dest, lastchar, src, coming, packets := SOHWAIT, 0, NUL, [], input, [];
    }

    ghost predicate Valid()
      reads this
    {
      && 1 <= dbuf.Length && dest <= dbuf.Length
      && (inphase == SYNWAIT ==> dest == 0)
      && (inphase == INBLOCK ==> dest < dbuf.Length)
      && (inphase == ETXWAIT ==> dest == dbuf.Length)
    }

    /** The state of the byte-at-a-time receiver. */
    ghost function Now(): State
      reads this, dbuf
      requires dest <= dbuf.Length
    {
      match inphase
      case SOHWAIT => Idle
      case SYNWAIT => Synchronizing
      case INBLOCK => Receiving(dbuf[..dest], lastchar == DLE)
      case ETXWAIT => Full(dbuf[..dest])
    }

    /** The input not used yet. */
    ghost function Pending(): seq<Byte>
      reads this
    {
      src + Flat(coming)
    }

    /** One read; it may give nothing. */
    method FillBuf()
      requires src == []
      modifies this`src, this`coming
      ensures Pending() == old(Pending())
      ensures if old(coming) == [] then src == [] && coming == [] else |coming| == |old(coming)| - 1
    {
      if coming != [] {
        src, coming := coming[0], coming[1..];
      }
    }

    /** The next byte, after a read if need be. */
    method InSerial() returns (b: Byte, got: bool)
      modifies this`src, this`coming
      ensures |coming| < |old(coming)| || (coming == old(coming) && |src| <= |old(src)|)
      ensures got ==> old(Pending()) == [b] + Pending() && (|coming| < |old(coming)| || |src| < |old(src)|)
      ensures !got ==> Pending() == old(Pending()) && (|coming| < |old(coming)| || (src == [] && coming == []))
    {
      if src == [] {
        FillBuf();
      }
      if src != [] {
        b, got := src[0], true;
        src := src[1..];
      } else {
        b, got := NUL, false;
      }
    }

    /** The packet in the buffer is complete: it is passed on. */
    method Process(term: nat)
      requires term <= dbuf.Length
      modifies this`packets, this`dest
      ensures packets == old(packets) + [dbuf[..term]] && dest == 0
    {
      packets := packets + [dbuf[..term]];
      dest := 0;
    }

    /** Takes bytes into the buffer up to a terminator, the end of the buffer or the end of
        what has been read. */
    method DleStrip() returns (term: int, ghost n: nat)
      requires Valid() && inphase == INBLOCK && src != []
      modifies this`src, this`dest, this`lastchar, dbuf
      ensures dest <= dbuf.Length && |src| < |old(src)| && n == |old(src)| - |src| && (term == -1 || term == dest)
      ensures term == -1 && dest < dbuf.Length ==> src == []
      ensures term >= 0 ==>
        dest < dbuf.Length && Uses(dbuf.Length, old(Now()), old(Pending()), n, Idle, Pending(), [dbuf[..term]])
      ensures term == -1 && dest < dbuf.Length ==>
        Uses(dbuf.Length, old(Now()), old(Pending()), n, Now(), Pending(), [])
      ensures term == -1 && dest == dbuf.Length ==>
        Uses(dbuf.Length, old(Now()), old(Pending()), n, Full(dbuf[..dest]), Pending(), [])
    {
      hide Uses, Step;
      term := -1;
      n := 0;
      ghost var s, input := Now(), Pending();
      var indle := lastchar == DLE;
      UsesNothing(dbuf.Length, s, input);
      while src != [] && dest != dbuf.Length
        invariant dest <= dbuf.Length && n == |old(src)| - |src| && coming == old(coming) && inphase == INBLOCK
        invariant n == 0 ==> src == old(src) && dest < dbuf.Length
        invariant dest == dbuf.Length ==> !indle
        invariant Uses(dbuf.Length, s, input, n,
          if dest == dbuf.Length then Full(dbuf[..dest]) else Receiving(dbuf[..dest], indle), Pending(), [])
        decreases |src|
      {
        ghost var t := Receiving(dbuf[..dest], indle);
        var b := src[0];
        NextByte(dbuf.Length, s, input, n, t, src, Flat(coming));
        StepReceiving(dbuf.Length, t.buf, t.escaped, b);
        if indle {
          dbuf[dest] := b;
          assert dbuf[..dest + 1] == t.buf + [b];
          dest := dest + 1;
          indle := false;
        } else if b == DLE {
          indle := true;
        } else if b == ETX {
          term := dest;
          src := src[1..];
          lastchar := NUL;
          n := n + 1;
          return;
        } else {
          dbuf[dest] := b;
          assert dbuf[..dest + 1] == t.buf + [b];
          dest := dest + 1;
        }
        src := src[1..];
        n := n + 1;
      }
      lastchar := if indle then DLE else NUL;
    }

    /** A measure of what is still to come, counted in reads and in bytes. */
    ghost predicate Less(pieces: seq<seq<Byte>>, bytes: seq<Byte>)
      reads this
    {
      |coming| < |pieces| || (coming == pieces && |src| < |bytes|)
    }

    ghost predicate NotMore(pieces: seq<seq<Byte>>, bytes: seq<Byte>)
      reads this
    {
      |coming| < |pieces| || (coming == pieces && |src| <= |bytes|)
    }

    /** Reads up to the two lead-in characters. */
    method Synchronize() returns (found: bool, ghost n: nat)
      requires Valid() && (inphase == SOHWAIT || inphase == SYNWAIT)
      modifies this`inphase, this`dest, this`lastchar, this`src, this`coming
      ensures Valid() && Uses(dbuf.Length, old(Now()), old(Pending()), n, Now(), Pending(), [])
      ensures found ==> inphase == INBLOCK && Less(old(coming), old(src))
      ensures !found ==> Less(old(coming), old(src)) || (coming == [] && src == [])
    {
      hide Uses, Step, FrameModel.Run;
      ghost var s, input := Now(), Pending();
      if inphase == SOHWAIT {
        dest := 0;
      }
      n := 0;
      UsesNothing(dbuf.Length, s, input);
      while inphase != INBLOCK
        invariant Valid() && dest == 0 && inphase != ETXWAIT && Uses(dbuf.Length, s, input, n, Now(), Pending(), [])
        invariant NotMore(old(coming), old(src)) && (inphase == INBLOCK ==> Less(old(coming), old(src)))
        decreases |coming|, |src|
      {
        lastchar := NUL;
        ghost var t, rest := Now(), Pending();
        var b, got := InSerial();
        if !got {
          return false, n;
        }
        UsesOne(dbuf.Length, t, b, Pending());
        UsesThen(dbuf.Length, s, input, n, t, rest, [], 1, Step(dbuf.Length, t, b).state, Pending(),
          Step(dbuf.Length, t, b).packets);
        StepLeadIn(dbuf.Length, t, b);
        assert [] + Step(dbuf.Length, t, b).packets == [];
        n := n + 1;
        if b == SOH {
          inphase := SYNWAIT;
        } else if b == SYN && inphase == SYNWAIT {
          inphase := INBLOCK;
          assert dbuf[..0] == [];
        } else {
          inphase := SOHWAIT;
        }
      }
      found := true;
    }

    /** The terminator behind a full buffer. */
    method AwaitEnd() returns (ghost n: nat)
      requires Valid() && inphase == ETXWAIT
      modifies this`inphase, this`dest, this`src, this`coming, this`packets
      ensures Valid() && old(packets) <= packets
      ensures Uses(dbuf.Length, old(Now()), old(Pending()), n, Now(), Pending(), packets[|old(packets)|..])
      ensures Less(old(coming), old(src)) || (coming == [] && src == [])
    {
      hide Uses, FrameModel.Run;
      ghost var t := Now();
      if src == [] {
        FillBuf();
      }
      var b, got := InSerial();
      n := 0;
      UsesNothing(dbuf.Length, t, old(Pending()));
      if got {
        n := 1;
        UsesOne(dbuf.Length, t, b, Pending());
        inphase := SOHWAIT;
        if b == ETX {
          Process(dest);
        }
      }
      assert packets[|old(packets)|..] == if got && b == ETX then [old(dbuf[..dest])] else [];
    }

    /** What has been read of a packet; when the buffer is full, the terminator is next. */
    method ReceiveBlock() returns (ghost n: nat)
      requires Valid() && inphase == INBLOCK
      modifies this`inphase, this`dest, this`lastchar, this`src, this`coming, this`packets, dbuf
      ensures Valid() && old(packets) <= packets
      ensures Uses(dbuf.Length, old(Now()), old(Pending()), n, Now(), Pending(), packets[|old(packets)|..])
      ensures Less(old(coming), old(src)) || (coming == [] && src == [])
    {
      hide Uses, FrameModel.Run, Step;
      n := 0;
      ghost var t, input := Now(), Pending();
      UsesNothing(dbuf.Length, t, input);
      if src == [] {
        FillBuf();
      }
      assert packets[|old(packets)|..] == [];
      if src != [] {
        var term;
        term, n := DleStrip();
        if dest == dbuf.Length {
          inphase := ETXWAIT;
          ghost var full, rest := Now(), Pending();
          ghost var m := AwaitEnd();
          UsesThen(dbuf.Length, t, input, n, full, rest, [], m, Now(), Pending(), packets[|old(packets)|..]);
          assert [] + packets[|old(packets)|..] == packets[|old(packets)|..];
          n := n + m;
        } else if term != -1 {
          inphase := SOHWAIT;
          Process(term);
          assert packets[|old(packets)|..] == [dbuf[..term]];
        }
      }
    }

    /** One call: at most one packet, and what there is of the next one. */
    method CheckInput() returns (ghost n: nat)
      requires Valid()
      modifies this`inphase, this`dest, this`lastchar, this`src, this`coming, this`packets, dbuf
      ensures Valid() && old(packets) <= packets
      ensures Uses(dbuf.Length, old(Now()), old(Pending()), n, Now(), Pending(), packets[|old(packets)|..])
      ensures Less(old(coming), old(src)) || (coming == [] && src == [])
    {
      hide Uses, FrameModel.Run, Step;
      ghost var t, input, m := Now(), Pending(), 0;
      if src == [] {
        FillBuf();
      }
      n := 0;
      UsesNothing(dbuf.Length, t, input);
      if inphase == SOHWAIT || inphase == SYNWAIT {
        var found;
        found, n := Synchronize();
        if !found {
          assert packets[|old(packets)|..] == [];
          return;
        }
      }
      ghost var u, rest := Now(), Pending();
      if inphase == INBLOCK {
        m := ReceiveBlock();
      } else {
        m := AwaitEnd();
      }
      UsesThen(dbuf.Length, t, input, n, u, rest, [], m, Now(), Pending(), packets[|old(packets)|..]);
      assert [] + packets[|old(packets)|..] == packets[|old(packets)|..];
      n := n + m;
    }

    /** Calls until there is no more input: the packets are those of the bytes one at a time,
        however the reads cut the input into pieces. */
    method Drain()
      requires Valid()
      modifies this, dbuf
      ensures Valid() && Pending() == [] && old(packets) <= packets
      ensures Run(dbuf.Length, old(Now()), old(Pending())) == Received(Now(), packets[|old(packets)|..])
    {
      hide Uses, FrameModel.Run, Step;
      ghost var s, input, n := Now(), Pending(), 0;
      UsesNothing(dbuf.Length, s, input);
      assert packets[|old(packets)|..] == [];
      while src != [] || coming != []
        invariant Valid() && old(packets) <= packets
        invariant Uses(dbuf.Length, s, input, n, Now(), Pending(), packets[|old(packets)|..])
        decreases |coming|, |src|
      {
        ghost var t, rest, before := Now(), Pending(), packets;
        ghost var m := CheckInput();
        UsesThen(dbuf.Length, s, input, n, t, rest, before[|old(packets)|..], m, Now(), Pending(), packets[|before|..]);
        assert before[|old(packets)|..] + packets[|before|..] == packets[|old(packets)|..];
        n := n + m;
      }
      assert Pending() == [];
      UsesAll(dbuf.Length, s, input, n, Now(), packets[|old(packets)|..]);
    }
  }

  lemma UsesAll(cap: nat, s: State, input: seq<Byte>, n: nat, t: State, more: seq<seq<Byte>>)
    requires Uses(cap, s, input, n, t, [], more)
    ensures Run(cap, s, input) == Received(t, more)
  {
    assert input[..n] == input;
  }

  lemma StepLeadIn(cap: nat, t: State, b: Byte)
    requires 1 <= cap && (t == Idle || t == Synchronizing)
    ensures Step(cap, t, b) == Received(
      if b == SOH then Synchronizing else if b == SYN && t == Synchronizing then Receiving([], false) else Idle, [])
  {
  }

  lemma NextByte(cap: nat, s: State, input: seq<Byte>, n: nat, t: State, src: seq<Byte>, after: seq<Byte>)
    requires Uses(cap, s, input, n, t, src + after, []) && src != []
    ensures Uses(cap, s, input, n + 1, Step(cap, t, src[0]).state, src[1..] + after, Step(cap, t, src[0]).packets)
  {
    hide Step;
    assert src + after == [src[0]] + (src[1..] + after);
    UsesOne(cap, t, src[0], src[1..] + after);
    UsesThen(cap, s, input, n, t, src + after, [], 1, Step(cap, t, src[0]).state, src[1..] + after,
      Step(cap, t, src[0]).packets);
    assert [] + Step(cap, t, src[0]).packets == Step(cap, t, src[0]).packets;
  }

  lemma StepReceiving(cap: nat, buf: seq<Byte>, escaped: bool, b: Byte)
    ensures escaped || (b != DLE && b != ETX) ==>
      Step(cap, Receiving(buf, escaped), b) == Received(Stored(cap, buf + [b]), [])
    ensures !escaped && b == DLE ==> Step(cap, Receiving(buf, escaped), b) == Received(Receiving(buf, true), [])
    ensures !escaped && b == ETX ==> Step(cap, Receiving(buf, escaped), b) == Received(Idle, [buf])
  {
  }
}
