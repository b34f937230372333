/** The receiver of the link's frames, which updates its sequence state and the rings. */
module Receiver {
  import opened Bytes
  import opened Options
  import opened RingModel
  import opened ServerModel
  import opened Delivery
  import opened PacketRings
  import opened ReceiverModel

  class Receiver {
    const server: Server
    const ultraOn: bool
    const reconfigOnErr: int
    var linkRecv: bool
    var seqValid: bool
    var lastPacketReceived: Byte
    var sequenceMod: nat
    var lowestSeq: nat
    var seqSeen: seq<bool>
    var conSeq: int
    // the packet numbers acknowledged so far
    var acks: seq<Byte>

    ghost function NowLink(): Link
      reads this
    {
      Link(ultraOn, linkRecv, seqValid, lastPacketReceived, sequenceMod, lowestSeq, seqSeen, conSeq, reconfigOnErr)
    }

    ghost predicate Valid()
      reads this, server, server.Repr()
    {
      server.Valid() && LinkOk(NowLink())
    }

    ghost function Now(): (s: State)
      reads this, server, server.Repr()
      requires server.Shape()
    {
      State(NowLink(), server.Abs(), server.noackmask, acks)
    }

    constructor (s: Server, ultra: bool, errors: int)
      requires s.Valid()
      ensures Valid() && server == s
      ensures Now().link == Link(ultra, false, false, 0, 8, UNKNOWN_LOWEST, seqSeen, 0, errors)
      ensures acks == [] && s.Abs() == old(s.Abs()) && seqSeen == seq(DEFAULT_WINDOW_SIZE, _ => false)
    {
      server, ultraOn, reconfigOnErr := s, ultra, errors;
      linkRecv, seqValid, lastPacketReceived, sequenceMod, lowestSeq := false, false, 0, 8, UNKNOWN_LOWEST;
      seqSeen, conSeq, acks := seq(DEFAULT_WINDOW_SIZE, _ => false), 0, [];
      new;
      assert s.Abs().rings == old(s.Abs()).rings;
    }

    /** Starting over. */
    method Reconfigure()
      requires LinkOk(NowLink())
      modifies this
      ensures NowLink() == Reconfigured(old(NowLink())) && acks == old(acks)
    {
      linkRecv, seqValid, lowestSeq, conSeq := false, false, UNKNOWN_LOWEST, 0;
      if !ultraOn {
        seqSeen := seq(DEFAULT_WINDOW_SIZE, _ => false);
      }
    }

    method ErrorInSequence()
      requires LinkOk(NowLink())
      modifies this
      ensures NowLink() == CountError(old(NowLink())) && acks == old(acks)
    {
      conSeq := conSeq + 1;
      if conSeq > reconfigOnErr && reconfigOnErr > 0 {
        Reconfigure();
      }
    }

    method SendAck(thisPacket: Byte)
      modifies this`lastPacketReceived, this`acks
      ensures lastPacketReceived == thisPacket && acks == old(acks) + [thisPacket]
    {
      lastPacketReceived := thisPacket;
      acks := acks + [thisPacket];
    }

    /** The start of the last run of numbers seen, by one pass over all of them. */
    method LowestSeen() returns (low: int)
      requires |seqSeen| == DEFAULT_WINDOW_SIZE
      ensures low == match LastRun(seqSeen) case Some(start) => start case None => -1
    {
      var prevLow, curLow, lookingForStart := -1, -1, true;
      var i := 0;
      while i < DEFAULT_WINDOW_SIZE
        invariant i <= |seqSeen| && lookingForStart == (i == 0 || !seqSeen[i - 1])
        invariant lookingForStart <==> curLow == -1
        invariant (if curLow < 0 then prevLow else curLow)
          == match LastRun(seqSeen[..i]) case Some(start) => start case None => -1
      {
        assert seqSeen[..i + 1][..i] == seqSeen[..i];
        if !seqSeen[i] && !lookingForStart {
          prevLow := curLow;
          curLow := -1;
          lookingForStart := true;
        } else if lookingForStart && seqSeen[i] {
          curLow := i;
          lookingForStart := false;
        }
        i := i + 1;
      }
      assert seqSeen[..i] == seqSeen;
      low := if curLow < 0 then prevLow else curLow;
    }

    /** A number while an older digitizer's sequence is not known. */
    method NotPlaced(num: Byte)
      requires LinkOk(NowLink())
      modifies this`seqSeen, this`lowestSeq
      ensures NowLink() == Unplaced(old(NowLink()), num)
    {
      if num < DEFAULT_WINDOW_SIZE {
        if seqSeen[num] {
          var low := LowestSeen();
          if low >= 0 {
            lowestSeq := low;
          }
        } else {
          seqSeen := seqSeen[num := true];
        }
      }
    }

    /** Looks at the rings and says whether the frame has to be refused. */
    method Blocked(q: int) returns (blocked: bool)
      requires server.Valid() && -1 <= q < NUMQ
      modifies server`noackmask
      ensures server.Valid() && server.Abs() == old(server.Abs())
      ensures server.noackmask == Masked(server.Abs(), old(server.noackmask), if q == -1 then None else Some(q))
      ensures blocked == (server.noackmask != {})
    {
      hide Sound;
      ghost var sys, noack := server.Abs(), server.noackmask;
      blocked := server.CheckMask(q);
      if q == -1 {
        assert server.noackmask == Masked(sys, noack, None);
      }
    }

    /** What the sequence number of the frame means; what it changes of the link is done. */
    method CheckSequence(f: Frame) returns (verdict: Verdict)
      requires FrameOk(f) && LinkOk(NowLink())
      modifies this
      ensures Decision(NowLink(), verdict) == Decide(old(NowLink()), f) && acks == old(acks)
      ensures verdict == OutOfSequence ==> NowLink() == old(NowLink())
    {
      if ultraOn && f.special {
        if f.kind.LinkPacket? {
          linkRecv, seqValid, lastPacketReceived, sequenceMod := true, false, f.num, f.kind.modulus;
        }
        return Ignored;
      }
      if seqValid {
        if f.num != (lastPacketReceived + 1) % sequenceMod {
          return OutOfSequence;
        }
        conSeq := 0;
        return Admitted;
      }
      if ultraOn {
        if linkRecv && f.num == lastPacketReceived {
          seqValid := true;
          return Admitted;
        }
        ErrorInSequence();
        return Ignored;
      }
      if f.num == lowestSeq {
        seqValid := true;
        return Admitted;
      }
      NotPlaced(f.num);
      verdict := Ignored;
    }

    /** A frame out of sequence: unless a ring is blocked, the last number is acknowledged
        once more. */
    method AckAgain()
      requires Valid()
      modifies this, server`noackmask
      ensures Valid() && server.noackmask == Masked(old(server.Abs()), old(server.noackmask), None)
      ensures Now() == if server.noackmask != {} then old(Now()).(noack := server.noackmask)
        else old(Now()).(link := CountError(old(NowLink())), noack := {}, acks := old(acks) + [old(lastPacketReceived)])
    {
      hide Sound, Masked, CountError;
      ghost var sys := server.Abs();
      var blocked := Blocked(-1);
      if !blocked {
        SendAck(lastPacketReceived);
        ErrorInSequence();
        assert server.Abs().rings == sys.rings;
      }
    }

    /** A frame in sequence: unless a ring it depends on is blocked, it is acknowledged and
        filed. */
    method Accept(f: Frame)
      requires Valid() && FrameOk(f) && server.nextData < INT32_MAX
      modifies this`lastPacketReceived, this`acks, server, server.Repr()
      ensures Valid()
      ensures var noack := Masked(old(server.Abs()), old(server.noackmask), QueueOf(f));
        Now() == if noack != {} then old(Now()).(noack := noack)
          else State(old(NowLink()).(last := f.num),
                     if f.kind.Filed? then StorePacket(old(server.Abs()), f.kind.q, f.kind.data) else old(server.Abs()),
                     noack, old(acks) + [f.num])
    {
      hide Sound, Masked, StorePacket;
      ghost var sys := server.Abs();
      var blocked := Blocked(if f.kind.Filed? then f.kind.q else -1);
      if !blocked {
        SendAck(f.num);
        assert server.Abs().rings == sys.rings;
        if f.kind.Filed? {
          var ok := server.Store(f.kind.q, f.kind.data);
        }
      }
    }

    /** One frame whose checks were right. */
    method Process(f: Frame)
      requires Valid() && FrameOk(f) && server.nextData < INT32_MAX
      modifies this, server, server.Repr()
      ensures Valid() && Now() == Receive(old(Now()), f)
    {
      hide Sound, Decide, Masked, CountError, StorePacket;
      ghost var sys := server.Abs();
      var verdict := CheckSequence(f);
      assert server.Abs().rings == sys.rings;
      if verdict == OutOfSequence {
        AckAgain();
      } else if verdict == Admitted {
        Accept(f);
      }
    }
  }
}
