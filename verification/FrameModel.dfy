/** Frames on a serial link: a lead-in of two characters, the packet with an escape character
    before any byte that needs one, and a terminator. */
module FrameModel {
  import opened Bytes

  const NUL: Byte := 0
  const SOH: Byte := 1
  const ETX: Byte := 3
  const DLE: Byte := 16
  const SYN: Byte := 21

  /** Where a receiver that takes one byte at a time is. */
  datatype State =
    | Idle
    | Synchronizing
    | Receiving(buf: seq<Byte>, escaped: bool)
    | Full(buf: seq<Byte>)

  /** A state and the packets completed on the way to it. */
  datatype Received = Received(state: State, packets: seq<seq<Byte>>)

  function Stored(cap: nat, buf: seq<Byte>): State {
    if |buf| == cap then Full(buf) else Receiving(buf, false)
  }

  function Step(cap: nat, s: State, b: Byte): Received {
    match s
    case Idle => Received(if b == SOH then Synchronizing else Idle, [])
    case Synchronizing =>
      Received(if b == SOH then Synchronizing else if b == SYN then Stored(cap, []) else Idle, [])
    case Receiving(buf, escaped) =>
      if escaped then Received(Stored(cap, buf + [b]), [])
      else if b == DLE then Received(Receiving(buf, true), [])
      else if b == ETX then Received(Idle, [buf])
      else Received(Stored(cap, buf + [b]), [])
    case Full(buf) => Received(Idle, if b == ETX then [buf] else [])
  }

  function Run(cap: nat, s: State, bytes: seq<Byte>): Received
    decreases |bytes|
  {
    if bytes == [] then Received(s, [])
    else
      var first := Step(cap, s, bytes[0]);
      var rest := Run(cap, first.state, bytes[1..]);
      Received(rest.state, first.packets + rest.packets)
  }

  lemma {:induction false} RunAppend(cap: nat, s: State, a: seq<Byte>, b: seq<Byte>)
    ensures var first := Run(cap, s, a);
      var second := Run(cap, first.state, b);
      Run(cap, s, a + b) == Received(second.state, first.packets + second.packets)
    decreases |a|
  {
    hide Step;
    if a == [] {
      assert a + b == b;
    } else {
      assert (a + b)[1..] == a[1..] + b;
      RunAppend(cap, Step(cap, s, a[0]).state, a[1..], b);
    }
  }

  /** An encoding of a packet: an escape before each byte that is one of the two special
      characters, and before any others the sender likes. */
  predicate Encodes(packet: seq<Byte>, code: seq<Byte>)
    decreases |packet|
  {
    if packet == [] then code == []
    else if code != [] && code[0] == DLE then |code| >= 2 && code[1] == packet[0] && Encodes(packet[1..], code[2..])
    else code != [] && code[0] == packet[0] && packet[0] != ETX && Encodes(packet[1..], code[1..])
  }

  function Framed(code: seq<Byte>): seq<Byte> {
    [SOH, SYN] + code + [ETX]
  }

  /** Bytes of a packet into a buffer with room for them. */
  lemma {:induction false} Fills(cap: nat, buf: seq<Byte>, packet: seq<Byte>, code: seq<Byte>)
    requires Encodes(packet, code) && |buf| + |packet| <= cap
    ensures Run(cap, Stored(cap, buf), code) == Received(Stored(cap, buf + packet), [])
    decreases |packet|
  {
    if packet == [] {
      assert buf + packet == buf;
    } else {
      assert (buf + [packet[0]]) + packet[1..] == buf + packet;
      if code[0] == DLE {
        Fills(cap, buf + [packet[0]], packet[1..], code[2..]);
        assert code == [DLE, packet[0]] + code[2..];
        RunAppend(cap, Stored(cap, buf), [DLE, packet[0]], code[2..]);
        TwoSteps(cap, Stored(cap, buf), DLE, packet[0]);
      } else {
        Fills(cap, buf + [packet[0]], packet[1..], code[1..]);
      }
    }
  }

  lemma TwoSteps(cap: nat, s: State, a: Byte, b: Byte)
    ensures var first := Step(cap, s, a);
      var second := Step(cap, first.state, b);
      Run(cap, s, [a, b]) == Received(second.state, first.packets + second.packets)
  {
    hide Step;
    assert [a, b][1..] == [b] && [b][1..] == [];
    OneStep(cap, Step(cap, s, a).state, b);
  }

  lemma OneStep(cap: nat, s: State, b: Byte)
    ensures Run(cap, s, [b]) == Step(cap, s, b)
  {
    hide Step;
    assert [b][1..] == [];
  }

  /** A frame gives its packet, whichever way it is encoded, if the packet fits the buffer. */
  lemma FrameRoundTrip(cap: nat, s: State, packet: seq<Byte>, code: seq<Byte>)
    requires (s == Idle || s == Synchronizing) && Encodes(packet, code) && |packet| <= cap
    ensures Run(cap, s, Framed(code)) == Received(Idle, [packet])
  {
    TwoSteps(cap, s, SOH, SYN);
    Fills(cap, [], packet, code);
    assert [] + packet == packet;
    RunAppend(cap, s, [SOH, SYN], code);
    RunAppend(cap, s, [SOH, SYN] + code, [ETX]);
    OneStep(cap, Stored(cap, packet), ETX);
  }

  function FramedAll(codes: seq<seq<Byte>>): seq<Byte> {
    if codes == [] then [] else Framed(codes[0]) + FramedAll(codes[1..])
  }

  /** Frames one after the other give their packets in order. */
  lemma {:induction false} FramesRoundTrip(cap: nat, packets: seq<seq<Byte>>, codes: seq<seq<Byte>>)
    requires |packets| == |codes|
    requires forall k | 0 <= k < |codes| :: Encodes(packets[k], codes[k]) && |packets[k]| <= cap
    ensures Run(cap, Idle, FramedAll(codes)) == Received(Idle, packets)
    decreases |codes|
  {
    if codes != [] {
      FrameRoundTrip(cap, Idle, packets[0], codes[0]);
      FramesRoundTrip(cap, packets[1..], codes[1..]);
      RunAppend(cap, Idle, Framed(codes[0]), FramedAll(codes[1..]));
    }
  }

  /** A packet that is too long for the buffer is given up at its first byte too many, and
      nothing of it is delivered. */
  lemma TooLong(cap: nat, packet: seq<Byte>, code: seq<Byte>, x: Byte, more: seq<Byte>)
    requires Encodes(packet, code) && |packet| == cap && x != ETX
    ensures Run(cap, Idle, [SOH, SYN] + code + [x] + more) == Run(cap, Idle, more)
  {
    TwoSteps(cap, Idle, SOH, SYN);
    Fills(cap, [], packet, code);
    assert [] + packet == packet;
    RunAppend(cap, Idle, [SOH, SYN], code);
    RunAppend(cap, Idle, [SOH, SYN] + code, [x]);
    OneStep(cap, Full(packet), x);
    RunAppend(cap, Idle, [SOH, SYN] + code + [x], more);
  }

  /** Anything in front of a lead-in is passed over: bytes that do not begin one, and one that is
      broken off by a byte that is neither of its two; any number of SOH may come before SYN. */
  lemma {:induction false} NoiseSkipped(cap: nat, noise: seq<Byte>, more: seq<Byte>)
    requires forall k | 0 <= k < |noise| :: noise[k] != SOH
    ensures Run(cap, Idle, noise + more) == Run(cap, Idle, more)
    decreases |noise|
  {
    if noise == [] {
      assert noise + more == more;
    } else {
      assert (noise + more)[1..] == noise[1..] + more;
      NoiseSkipped(cap, noise[1..], more);
    }
  }

  lemma BrokenLeadIn(cap: nat, x: Byte, more: seq<Byte>)
    requires x != SOH && x != SYN
    ensures Run(cap, Idle, [SOH, x] + more) == Run(cap, Idle, more)
    ensures Run(cap, Idle, [SOH, SOH] + more) == Run(cap, Idle, [SOH] + more)
  {
    assert ([SOH, x] + more)[1..] == [x] + more && ([x] + more)[1..] == more;
    assert ([SOH, SOH] + more)[1..] == [SOH] + more && ([SOH] + more)[1..] == more;
  }

  /** A frame byte for byte: the packet 65, 3 with its second byte escaped. */
  lemma TwoBytes()
    ensures Run(2, Idle, [1, 21, 65, 16, 3, 3]) == Received(Idle, [[65, 3]])
  {
    assert Encodes([3], [16, 3]) && [3][1..] == [] && [16, 3][2..] == [];
    assert [65, 3][1..] == [3] && [65, 16, 3][1..] == [16, 3];
    FrameRoundTrip(2, Idle, [65, 3], [65, 16, 3]);
    assert Framed([65, 16, 3]) == [1, 21, 65, 16, 3, 3];
  }
}
