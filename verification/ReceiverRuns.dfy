/** What a receiver accepts between two resets of the link. */
module ReceiverRuns {
  import opened Bytes
  import opened Options
  import opened RingModel
  import opened ServerModel
  import opened Delivery
  import opened DeliveryRuns
  import opened ReceiverModel
  import Runs = ExactDelivery

  /** What happens to a receiver: a good frame arrives, a client does something, or the
      connection goes, with or without the news of where the other side starts. */
  datatype Event = Arrives(f: Frame) | Client(ev: Runs.Event) | Disconnect(forget: bool)

  ghost predicate EventOk(ev: Event, clients: nat) {
    match ev
    case Arrives(f) => FrameOk(f)
    case Client(e) => Runs.EventOk(e, clients) && !e.Store?
    case Disconnect(_) => true
  }

  lemma ReceiveOk(s: State, f: Frame)
    requires StateOk(s) && FrameOk(f)
    ensures StateOk(Receive(s, f)) && |Receive(s, f).sys.clients| == |s.sys.clients|
  {
    hide Sound;
    if f.kind.Filed? {
      StoreSound(s.sys, f.kind.q, f.kind.data);
    }
  }

  ghost function Step(s: State, ev: Event): (s': State)
    requires StateOk(s) && EventOk(ev, |s.sys.clients|)
    ensures StateOk(s') && |s'.sys.clients| == |s.sys.clients|
  {
    match ev
    case Arrives(f) => ReceiveOk(s, f); Receive(s, f)
    case Client(e) => s.(sys := Runs.Step(s.sys, e))
    case Disconnect(forget) => s.(link := s.link.(valid := false, linkRecv := s.link.linkRecv && !forget))
  }

  ghost predicate RunOk(evs: seq<Event>, clients: nat) {
    forall k | 0 <= k < |evs| :: EventOk(evs[k], clients)
  }

  ghost function Final(s: State, evs: seq<Event>): (s': State)
    requires StateOk(s) && RunOk(evs, |s.sys.clients|)
    decreases |evs|
    ensures StateOk(s') && |s'.sys.clients| == |s.sys.clients|
  {
    if evs == [] then s else Final(Step(s, evs[0]), evs[1..])
  }

  /** Whether one error more makes the receiver start over. */
  predicate Exceeds(k: Link) {
    k.errors + 1 > k.errLimit && k.errLimit > 0
  }

  /** Whether an event resets the link. */
  ghost predicate Resets(s: State, ev: Event)
    requires StateOk(s) && EventOk(ev, |s.sys.clients|)
  {
    match ev
    case Arrives(f) =>
      || (s.link.ultra && f.special && f.kind.LinkPacket?)
      || (Exceeds(s.link) && Decide(s.link, f).verdict == OutOfSequence && Masked(s.sys, s.noack, None) == {})
      || (Exceeds(s.link) && Decide(s.link, f).verdict == Ignored && s.link.ultra && !f.special)
    case Client(_) => false
    case Disconnect(_) => true
  }

  ghost predicate Steady(s: State, evs: seq<Event>)
    requires StateOk(s) && RunOk(evs, |s.sys.clients|)
    decreases |evs|
  {
    evs == [] || (!Resets(s, evs[0]) && Steady(Step(s, evs[0]), evs[1..]))
  }

  ghost function AcceptedBy(s: State, ev: Event): seq<Frame>
    requires StateOk(s) && EventOk(ev, |s.sys.clients|)
  {
    if ev.Arrives? && Accepts(s, ev.f) then [ev.f] else []
  }

  /** The frames a run accepts, in order. */
  ghost function Accepted(s: State, evs: seq<Event>): seq<Frame>
    requires StateOk(s) && RunOk(evs, |s.sys.clients|)
    decreases |evs|
  {
    if evs == [] then [] else AcceptedBy(s, evs[0]) + Accepted(Step(s, evs[0]), evs[1..])
  }

  // ----- one frame

  /** After the look at its ring a frame that is filed always gets a buffer: the ring has
      room, the packet is appended to it with the next number, and nothing else changes. */
  lemma AcceptedIsFiled(s: State, f: Frame)
    requires StateOk(s) && FrameOk(f) && Accepts(s, f) && f.kind.Filed?
    ensures var q, r, s' := f.kind.q, s.sys.rings[f.kind.q], Receive(s, f);
      && r.Avail() && s'.sys.nextData == s.sys.nextData + 1 && s'.sys.clients == s.sys.clients
      && s'.sys.rings[q].Live()
        == (if r.Len() == |r.slots| - 1 then r.Live()[1..] else r.Live())
          + [Slot(s.sys.blockmask, s.sys.nextData, f.kind.data)]
      && (r.Len() == |r.slots| - 1 ==> r.Live()[0].blockmap == {})
      && (forall j | 0 <= j < NUMQ && j != q :: s'.sys.rings[j] == s.sys.rings[j])
      && s'.link.last == f.num && s'.acks == s.acks + [f.num]
  {
    var q := f.kind.q;
    assert q !in Masked(s.sys, s.noack, Some(q));
    PutLive(s.sys.rings[q], s.sys.blockmask, s.sys.nextData, f.kind.data);
    AvailMeaning(s.sys.rings[q], s.sys.nextData);
  }

  /** A frame that is not accepted leaves the rings and, unless it is a link packet, the last
      number as they are; at most the last number is acknowledged once more. */
  lemma RefusedChangesNothing(s: State, f: Frame)
    requires StateOk(s) && FrameOk(f) && !Accepts(s, f)
    ensures var s' := Receive(s, f);
      && s'.sys == s.sys && (s'.acks == s.acks || s'.acks == s.acks + [s.link.last])
      && (s'.link.last == s.link.last || (s.link.ultra && f.special && f.kind.LinkPacket?))
  {
  }

  // ----- the numbers

  /** The number `n` places behind `last`, each one more than the one before modulo `m`. */
  function Nth(last: int, n: nat, m: nat): int
    requires m > 0
  {
    if n == 0 then last else (Nth(last, n - 1, m) + 1) % m
  }

  lemma {:induction false} NthNext(last: int, n: nat, m: nat)
    requires m > 0
    ensures Nth((last + 1) % m, n, m) == Nth(last, n + 1, m)
  {
    if n > 0 {
      NthNext(last, n - 1, m);
    }
  }

  ghost predicate CountsFrom(frames: seq<Frame>, last: Byte, m: nat)
    requires m > 0
  {
    forall k | 0 <= k < |frames| :: frames[k].num == Nth(last, k + 1, m)
  }

  lemma CountsOn(f: Frame, rest: seq<Frame>, last: Byte, m: nat)
    requires m > 0 && f.num == (last + 1) % m && CountsFrom(rest, f.num, m)
    ensures CountsFrom([f] + rest, last, m)
  {
    forall k | 0 < k < |rest| + 1
      ensures ([f] + rest)[k].num == Nth(last, k + 1, m)
    {
      NthNext(last, k, m);
      assert rest[k - 1].num == Nth(f.num, k - 1 + 1, m);
    }
    assert Nth(last, 0, m) == last;
  }

  /** The last number after some frames have been accepted. */
  function LastNum(frames: seq<Frame>, last: Byte): Byte {
    if frames == [] then last else frames[|frames| - 1].num
  }

  lemma SteadyStep(s: State, ev: Event)
    requires StateOk(s) && EventOk(ev, |s.sys.clients|) && !Resets(s, ev)
    ensures var s' := Step(s, ev);
      && s'.link.modulus == s.link.modulus && s'.link.ultra == s.link.ultra
      && s'.link.last == LastNum(AcceptedBy(s, ev), s.link.last)
      && (s.link.valid ==> s'.link.valid)
      && (s.link.valid ==> (AcceptedBy(s, ev) != [] ==> ev.f.num == (s.link.last + 1) % s.link.modulus))
      && (s.link.ultra && !s.link.valid ==> s'.link.linkRecv == s.link.linkRecv)
      && (s.link.ultra && !s.link.valid && AcceptedBy(s, ev) != [] ==> s'.link.valid && ev.f.num == s.link.last)
  {
    hide Sound, Masked;
  }

  /** While the link is valid, the numbers accepted follow one another. */
  lemma {:induction false} Consecutive(s: State, evs: seq<Event>)
    requires StateOk(s) && RunOk(evs, |s.sys.clients|) && Steady(s, evs) && s.link.valid
    ensures CountsFrom(Accepted(s, evs), s.link.last, s.link.modulus)
    ensures Final(s, evs).link.valid && Final(s, evs).link.last == LastNum(Accepted(s, evs), s.link.last)
    decreases |evs|
  {
    hide Sound, Receive, Accepts, Resets, Step, AcceptedBy, Nth;
    if evs != [] {
      SteadyStep(s, evs[0]);
      Consecutive(Step(s, evs[0]), evs[1..]);
      var a := AcceptedBy(s, evs[0]);
      AcceptedOne(s, evs[0]);
      var rest := Accepted(Step(s, evs[0]), evs[1..]);
      if a != [] {
        CountsOn(a[0], rest, s.link.last, s.link.modulus);
        assert a + rest == [a[0]] + rest;
      } else {
        assert a + rest == rest;
      }
    }
  }

  lemma AcceptedOne(s: State, ev: Event)
    requires StateOk(s) && EventOk(ev, |s.sys.clients|)
    ensures AcceptedBy(s, ev) == [] || (ev.Arrives? && AcceptedBy(s, ev) == [ev.f])
  {
  }

  /** The frame a link packet announced comes while a ring it depends on is blocked. */
  ghost predicate StartRefused(s: State, ev: Event)
    requires StateOk(s) && EventOk(ev, |s.sys.clients|)
  {
    ev.Arrives? && !s.link.valid && Decide(s.link, ev.f).verdict == Admitted && !Accepts(s, ev.f)
  }

  /** Whether that happens the first time it comes. */
  ghost predicate StartLost(s: State, evs: seq<Event>)
    requires StateOk(s) && RunOk(evs, |s.sys.clients|)
    decreases |evs|
  {
    evs != [] && !s.link.valid && (StartRefused(s, evs[0]) || StartLost(Step(s, evs[0]), evs[1..]))
  }

  /** The number the first frame must have: the one a link packet announced, or for an older
      digitizer, which does not say where it is, the one worked out from the numbers seen. */
  function StartNum(k: Link): int {
    if k.ultra then k.last else k.lowest
  }

  /** That number when the link becomes valid. */
  ghost function StartOf(s: State, evs: seq<Event>): int
    requires StateOk(s) && RunOk(evs, |s.sys.clients|)
    decreases |evs|
  {
    if evs == [] || Step(s, evs[0]).link.valid then StartNum(s.link) else StartOf(Step(s, evs[0]), evs[1..])
  }

  lemma StartStep(s: State, ev: Event)
    requires StateOk(s) && EventOk(ev, |s.sys.clients|) && !Resets(s, ev) && !s.link.valid
    ensures var s' := Step(s, ev);
      && s'.link.ultra == s.link.ultra && s'.link.modulus == s.link.modulus
      && s'.link.valid == (AcceptedBy(s, ev) != [] || StartRefused(s, ev))
      && (AcceptedBy(s, ev) != [] ==>
            !StartRefused(s, ev) && AcceptedBy(s, ev)[0].num == StartNum(s.link) == s'.link.last)
      && (AcceptedBy(s, ev) == [] ==> s'.link.last == s.link.last)
  {
    hide Sound, Masked;
  }

  /** While it is not valid, the link of a digitizer that announces its start keeps it. */
  lemma {:induction false} AnnouncedStart(s: State, evs: seq<Event>)
    requires StateOk(s) && RunOk(evs, |s.sys.clients|) && Steady(s, evs) && s.link.ultra && !s.link.valid
    ensures StartOf(s, evs) == s.link.last
    decreases |evs|
  {
    hide Sound, Receive, Accepts, Resets, Step, AcceptedBy, StartRefused;
    if evs != [] {
      StartStep(s, evs[0]);
      if !Step(s, evs[0]).link.valid {
        AnnouncedStart(Step(s, evs[0]), evs[1..]);
      }
    }
  }

  /** From any start, the numbers accepted follow one another.  The first is the number the frames
      must start with exactly when the frame with that number was not refused the first time;
      otherwise they go on from the number that was last before. */
  lemma {:induction false} FromStart(s: State, evs: seq<Event>)
    requires StateOk(s) && RunOk(evs, |s.sys.clients|) && Steady(s, evs) && !s.link.valid
    ensures var frames, m := Accepted(s, evs), s.link.modulus;
      && m > 0 && Final(s, evs).link.last == LastNum(frames, s.link.last)
      && if StartLost(s, evs) then CountsFrom(frames, s.link.last, m)
         else frames != [] ==> frames[0].num == StartOf(s, evs) && CountsFrom(frames[1..], frames[0].num, m)
    decreases |evs|
  {
    hide Sound, Receive, Accepts, Resets, Step, AcceptedBy, Nth, StartRefused;
    if evs != [] {
      StartStep(s, evs[0]);
      AcceptedOne(s, evs[0]);
      var s', a := Step(s, evs[0]), AcceptedBy(s, evs[0]);
      var rest := Accepted(s', evs[1..]);
      assert a == [] ==> a + rest == rest;
      assert a != [] ==> (a + rest)[1..] == rest && (a + rest)[0] == a[0];
      if s'.link.valid {
        Consecutive(s', evs[1..]);
        assert !StartLost(s', evs[1..]);
        if StartRefused(s, evs[0]) {
          assert Accepted(s, evs) == rest;
        } else {
          assert Accepted(s, evs)[1..] == rest;
        }
      } else {
        FromStart(s', evs[1..]);
      }
    }
  }

  /** A link packet leaves the link with the number and the modulus it announced, and not valid until
      the frame with that number comes; with an older digitizer it means nothing. */
  lemma LinkPacketExact(s: State, f: Frame)
    requires StateOk(s) && FrameOk(f) && f.kind.LinkPacket? && s.link.ultra && f.special
    ensures var s' := Receive(s, f);
      && s'.sys == s.sys && s'.acks == s.acks && s'.link.linkRecv && !s'.link.valid
      && s'.link.last == f.num && s'.link.modulus == f.kind.modulus && !Accepts(s, f)
    ensures StateOk(Receive(s, f)) && Decide(Receive(s, f).link, f.(special := false)).verdict == Admitted
  {
    ReceiveOk(s, f);
  }

  /** From a link packet on that is the number it announced. */
  lemma FromLinkPacket(s: State, evs: seq<Event>)
    requires StateOk(s) && RunOk(evs, |s.sys.clients|) && Steady(s, evs) && s.link.ultra && !s.link.valid
    ensures var frames, start, m := Accepted(s, evs), s.link.last, s.link.modulus;
      && m > 0 && Final(s, evs).link.last == LastNum(frames, start)
      && if StartLost(s, evs) then CountsFrom(frames, start, m)
         else frames != [] ==> frames[0].num == start && CountsFrom(frames[1..], start, m)
  {
    hide Sound, Step, Accepted, CountsFrom;
    AnnouncedStart(s, evs);
    FromStart(s, evs);
  }

  // ----- which frames are accepted

  /** The numbers a frame must have to be accepted. */
  lemma AdmittedExact(k: Link, f: Frame)
    requires LinkOk(k) && FrameOk(f)
    ensures Decide(k, f).verdict == Admitted <==>
      && !(k.ultra && f.special)
      && if k.valid then f.num == (k.last + 1) % k.modulus
         else if k.ultra then k.linkRecv && f.num == k.last else f.num == k.lowest
    ensures Decide(k, f).verdict == OutOfSequence <==>
      !(k.ultra && f.special) && k.valid && f.num != (k.last + 1) % k.modulus
  {
  }

  /** A frame passes the look at the rings exactly when its own ring, or if it has none every ring,
      can take a packet, and none is left that was found blocked before. */
  lemma RingsExact(s: State, f: Frame)
    requires StateOk(s) && FrameOk(f)
    ensures |s.sys.rings| == NUMQ
    ensures f.kind.Filed? ==>
      (Masked(s.sys, s.noack, QueueOf(f)) == {} <==>
         s.sys.rings[f.kind.q].Avail() && forall j | j in s.noack :: j == f.kind.q)
    ensures !f.kind.Filed? ==>
      (Masked(s.sys, s.noack, QueueOf(f)) == {} <==>
         (forall j | 0 <= j < NUMQ :: s.sys.rings[j].Avail()) && forall j | j in s.noack :: j < NUMQ)
  {
    var m := Masked(s.sys, s.noack, QueueOf(f));
    if f.kind.Filed? {
      if m == {} {
        assert forall j | j in s.noack && j != f.kind.q :: j in m;
      } else {
        var j :| j in m;
      }
    } else {
      assert forall j | 0 <= j < NUMQ && !s.sys.rings[j].Avail() :: j in m;
      assert forall j | j in s.noack && NUMQ <= j :: j in m;
      if m != {} {
        var j :| j in m;
      }
    }
  }

  /** The last number is acknowledged once more exactly for a frame out of sequence while no ring is
      blocked; a frame that is accepted is acknowledged, and no other. */
  lemma AcksExact(s: State, f: Frame)
    requires StateOk(s) && FrameOk(f)
    ensures Receive(s, f).acks ==
      if Accepts(s, f) then s.acks + [f.num]
      else if Decide(s.link, f).verdict == OutOfSequence && Masked(s.sys, s.noack, None) == {}
           then s.acks + [s.link.last] else s.acks
  {
    hide Sound, Masked;
  }

  /** The arrivals of some frames. */
  function Arrivals(frames: seq<Frame>): (evs: seq<Event>)
    ensures |evs| == |frames|
  {
    if frames == [] then [] else [Arrives(frames[0])] + Arrivals(frames[1..])
  }

  /** No frame of a run meets a blocked ring. */
  ghost predicate Free(s: State, frames: seq<Frame>)
    requires StateOk(s) && forall f | f in frames :: FrameOk(f)
    decreases |frames|
  {
    if frames == [] then true
    else
      assert FrameOk(frames[0]);
      Masked(s.sys, s.noack, QueueOf(frames[0])) == {} && Free(Step(s, Arrives(frames[0])), frames[1..])
  }

  lemma {:induction false} ArrivalsOk(frames: seq<Frame>, clients: nat)
    requires forall f | f in frames :: FrameOk(f)
    ensures RunOk(Arrivals(frames), clients)
  {
    if frames != [] {
      ArrivalsOk(frames[1..], clients);
    }
  }

  /** While no ring is blocked, frames that come in sequence are all accepted. */
  lemma {:induction false} InSequence(s: State, frames: seq<Frame>)
    requires StateOk(s) && s.link.valid && forall f | f in frames :: FrameOk(f) && !(s.link.ultra && f.special)
    requires LinkOk(s.link) && CountsFrom(frames, s.link.last, s.link.modulus) && Free(s, frames)
    ensures RunOk(Arrivals(frames), |s.sys.clients|) && Accepted(s, Arrivals(frames)) == frames
    decreases |frames|
  {
    ArrivalsOk(frames, |s.sys.clients|);
    if frames != [] {
      hide Sound, Masked, Nth, Step;
      var f, evs := frames[0], Arrivals(frames);
      var s' := Step(s, evs[0]);
      assert evs[0] == Arrives(f) && evs[1..] == Arrivals(frames[1..]);
      FirstCounts(frames, s.link.last, s.link.modulus);
      AdmittedExact(s.link, f);
      StepAccepted(s, f);
      InSequence(s', frames[1..]);
      assert [f] + frames[1..] == frames;
    }
  }

  /** A frame accepted in sequence starts the count of errors anew. */
  lemma StepAccepted(s: State, f: Frame)
    requires StateOk(s) && FrameOk(f) && s.link.valid && Accepts(s, f)
    ensures var s' := Step(s, Arrives(f));
      && s'.link.valid && s'.link.last == f.num && s'.link.errors == 0
      && s'.link.modulus == s.link.modulus && s'.link.ultra == s.link.ultra
  {
    hide Sound, Masked;
  }

  lemma FirstCounts(frames: seq<Frame>, last: Byte, m: nat)
    requires frames != [] && 1 <= m <= 256 && CountsFrom(frames, last, m)
    ensures frames[0].num == (last + 1) % m && CountsFrom(frames[1..], frames[0].num, m)
  {
    hide Nth;
    assert Nth(last, 1, m) == (last + 1) % m by {
      FirstNth(last, m);
    }
    forall k | 0 <= k < |frames| - 1
      ensures frames[1..][k].num == Nth(frames[0].num, k + 1, m)
    {
      NthNext(last, k + 1, m);
    }
  }

  lemma FirstNth(last: int, m: nat)
    requires m > 0
    ensures Nth(last, 1, m) == (last + 1) % m
  {
    assert Nth(last, 0, m) == last;
  }

  /** Nothing is known any more of where the other side is: no byte is the lowest number. */
  ghost predicate StartedOver(k: Link) {
    && LinkOk(k) && !k.linkRecv && k.lowest >= 256 && k.errors == 0
    && (!k.ultra ==> forall n | 0 <= n < DEFAULT_WINDOW_SIZE :: !k.seen[n])
  }

  /** After an accepted frame, as many frames out of sequence as the limit says leave the link valid,
      one more makes it start over; without a limit it never does. */
  lemma {:induction false} ErrorsInARow(s: State, frames: seq<Frame>)
    requires StateOk(s) && s.link.valid && forall f | f in frames :: FrameOk(f) && !(s.link.ultra && f.special)
    requires LinkOk(s.link) && forall f | f in frames :: f.num != (s.link.last + 1) % s.link.modulus
    requires s.link.errors == 0 && Masked(s.sys, s.noack, None) == {}
    requires s.link.errLimit > 0 ==> |frames| <= s.link.errLimit + 1
    ensures RunOk(Arrivals(frames), |s.sys.clients|)
    ensures var k := Final(s, Arrivals(frames)).link;
      && (k.valid <==> s.link.errLimit <= 0 || |frames| <= s.link.errLimit)
      && (k.valid ==> k == s.link.(errors := |frames|))
      && (!k.valid ==> StartedOver(k))
    decreases |frames|
  {
    WrongFrames(s, frames, 0);
  }

  lemma {:induction false} WrongFrames(s: State, frames: seq<Frame>, n: nat)
    requires StateOk(s) && s.link.valid && forall f | f in frames :: FrameOk(f) && !(s.link.ultra && f.special)
    requires LinkOk(s.link) && forall f | f in frames :: f.num != (s.link.last + 1) % s.link.modulus
    requires s.link.errors == n && Masked(s.sys, s.noack, None) == {}
    requires s.link.errLimit > 0 ==> n <= s.link.errLimit && n + |frames| <= s.link.errLimit + 1
    ensures RunOk(Arrivals(frames), |s.sys.clients|)
    ensures var k := Final(s, Arrivals(frames)).link;
      && (k.valid <==> s.link.errLimit <= 0 || n + |frames| <= s.link.errLimit)
      && (k.valid ==> k == s.link.(errors := n + |frames|))
      && (!k.valid ==> StartedOver(k))
    decreases |frames|
  {
    ArrivalsOk(frames, |s.sys.clients|);
    if frames != [] {
      hide Sound, Masked, Step;
      var evs := Arrivals(frames);
      assert evs[0] == Arrives(frames[0]) && evs[1..] == Arrivals(frames[1..]);
      WrongFrame(s, frames[0]);
      var s' := Step(s, evs[0]);
      if s'.link.valid {
        WrongFrames(s', frames[1..], n + 1);
      } else {
        assert frames[1..] == [];
      }
    }
  }

  lemma WrongFrame(s: State, f: Frame)
    requires StateOk(s) && FrameOk(f) && s.link.valid && !(s.link.ultra && f.special)
    requires LinkOk(s.link) && f.num != (s.link.last + 1) % s.link.modulus && Masked(s.sys, s.noack, None) == {}
    ensures var s', n := Step(s, Arrives(f)), s.link.errors + 1;
      && s'.sys == s.sys && Masked(s'.sys, s'.noack, None) == {}
      && (if s.link.errLimit > 0 && n > s.link.errLimit
          then !s'.link.valid && StartedOver(s'.link)
          else s'.link == s.link.(errors := n))
  {
    hide Sound;
  }

  // ----- the start of an older digitizer

  /** A frame with this number arrives. */
  predicate Brings(ev: Event, n: int) {
    ev.Arrives? && ev.f.num == n
  }

  /** One of the first `j` events does. */
  ghost predicate CameIn(evs: seq<Event>, j: int, n: int)
    requires j <= |evs|
  {
    exists i :: 0 <= i < j && Brings(evs[i], n)
  }

  /** The numbers of a window that were seen before a run or have come in it. */
  ghost function Came(seen: seq<bool>, evs: seq<Event>): (came: seq<bool>)
    requires |seen| == DEFAULT_WINDOW_SIZE
    ensures |came| == DEFAULT_WINDOW_SIZE
  {
    seq(DEFAULT_WINDOW_SIZE, n requires 0 <= n < DEFAULT_WINDOW_SIZE =>
      seen[n] || CameIn(evs, |evs|, n))
  }

  /** Event `j` brings a number of the window that has come before. */
  ghost predicate Again(seen: seq<bool>, evs: seq<Event>, j: nat)
    requires |seen| == DEFAULT_WINDOW_SIZE && j < |evs|
  {
    evs[j].Arrives? && evs[j].f.num < DEFAULT_WINDOW_SIZE && Came(seen, evs[..j])[evs[j].f.num]
  }

  lemma CameMore(seen: seq<bool>, evs: seq<Event>, seen1: seq<bool>, j: nat)
    requires |seen| == |seen1| == DEFAULT_WINDOW_SIZE && j < |evs|
    requires forall n | 0 <= n < DEFAULT_WINDOW_SIZE :: seen1[n] == (seen[n] || Brings(evs[0], n))
    ensures Came(seen1, evs[1..][..j]) == Came(seen, evs[..j + 1])
  {
    forall n | 0 <= n < DEFAULT_WINDOW_SIZE
      ensures Came(seen1, evs[1..][..j])[n] == Came(seen, evs[..j + 1])[n]
    {
      CameNext(evs, j, n);
    }
  }

  lemma CameNext(evs: seq<Event>, j: nat, n: int)
    requires j < |evs|
    ensures CameIn(evs[..j + 1], j + 1, n) <==> Brings(evs[0], n) || CameIn(evs[1..][..j], j, n)
  {
    var a, b := evs[..j + 1], evs[1..][..j];
    assert Brings(evs[0], n) ==> Brings(a[0], n);
    if CameIn(a, j + 1, n) {
      var k :| 0 <= k < j + 1 && Brings(a[k], n);
      assert k > 0 ==> Brings(b[k - 1], n);
    }
    if CameIn(b, j, n) {
      var k :| 0 <= k < j && Brings(b[k], n);
      assert Brings(a[k + 1], n);
    }
  }

  lemma OlderStep(s: State, ev: Event)
    requires StateOk(s) && EventOk(ev, |s.sys.clients|) && !Resets(s, ev) && !s.link.valid && !s.link.ultra
    requires !Step(s, ev).link.valid
    ensures var s' := Step(s, ev);
      && !s'.link.ultra && LinkOk(s.link) && LinkOk(s'.link)
      && (forall n | 0 <= n < DEFAULT_WINDOW_SIZE :: s'.link.seen[n] == (s.link.seen[n] || Brings(ev, n)))
      && s'.link.lowest == if Again(s.link.seen, [ev], 0) && LastRun(s.link.seen).Some?
                           then LastRun(s.link.seen).value else s.link.lowest
  {
    hide Sound, Masked;
    assert [ev][..0] == [];
    NoneCame(s.link.seen);
  }

  lemma NoneCame(seen: seq<bool>)
    requires |seen| == DEFAULT_WINDOW_SIZE
    ensures Came(seen, []) == seen
  {
  }

  /** While an older digitizer's link is not valid, the start is worked out anew whenever a number
      comes again: it is the start of the last run of the numbers that had come by then. */
  lemma {:induction false} WorkedOut(s: State, evs: seq<Event>) returns (j: int, end: nat)
    requires StateOk(s) && RunOk(evs, |s.sys.clients|) && Steady(s, evs) && !s.link.ultra && !s.link.valid
    requires !Final(s, evs).link.valid
    ensures var k := Final(s, evs).link;
      && LinkOk(s.link) && -1 <= j < |evs| && !k.ultra && k.seen == Came(s.link.seen, evs)
      && (forall i | j < i < |evs| :: !Again(s.link.seen, evs, i))
      && if j < 0 then k.lowest == s.link.lowest
         else Again(s.link.seen, evs, j) && IsLastRun(Came(s.link.seen, evs[..j]), k.lowest, end)
    decreases |evs|
  {
    j, end := -1, 0;
    if evs == [] {
      NoneCame(s.link.seen);
    } else {
      hide Sound, Step, Receive, Resets, Came, IsLastRun;
      var s', seen := Step(s, evs[0]), s.link.seen;
      if s'.link.valid {
        Consecutive(s', evs[1..]);
        assert false;
      }
      OlderStep(s, evs[0]);
      j, end := WorkedOut(s', evs[1..]);
      forall i | 0 < i < |evs|
        ensures Again(seen, evs, i) <==> Again(s'.link.seen, evs[1..], i - 1)
      {
        CameMore(seen, evs, s'.link.seen, i - 1);
      }
      CameWhole(seen, evs, s'.link.seen);
      FirstAgain(seen, evs);
      if j >= 0 {
        CameMore(seen, evs, s'.link.seen, j);
        j := j + 1;
      } else if Again(seen, evs, 0) {
        j := 0;
        assert evs[..0] == [];
        NoneCame(seen);
        SomeSeen(seen, evs[0].f.num);
        end := LastRunExact(seen);
      }
    }
  }

  lemma CameWhole(seen: seq<bool>, evs: seq<Event>, seen1: seq<bool>)
    requires |seen| == |seen1| == DEFAULT_WINDOW_SIZE && evs != []
    requires forall n | 0 <= n < DEFAULT_WINDOW_SIZE :: seen1[n] == (seen[n] || Brings(evs[0], n))
    ensures Came(seen1, evs[1..]) == Came(seen, evs)
  {
    CameMore(seen, evs, seen1, |evs| - 1);
    assert evs[1..][..|evs| - 1] == evs[1..] && evs[..|evs|] == evs;
  }

  lemma FirstAgain(seen: seq<bool>, evs: seq<Event>)
    requires |seen| == DEFAULT_WINDOW_SIZE && evs != []
    ensures Again(seen, evs, 0) <==> Again(seen, [evs[0]], 0)
    ensures Again(seen, evs, 0) <==> evs[0].Arrives? && evs[0].f.num < DEFAULT_WINDOW_SIZE && seen[evs[0].f.num]
  {
    assert evs[..0] == [] == [evs[0]][..0];
    NoneCame(seen);
  }

  lemma SomeSeen(seen: seq<bool>, n: nat)
    requires n < |seen| && seen[n]
    ensures LastRun(seen).Some?
  {
  }

  /** The first frame accepted from an older digitizer since it started over: a number of the window
      has come again, and the frame has the number that begins the last run of those that had come
      when one last did. */
  lemma OlderStart(s: State, evs: seq<Event>, f: Frame) returns (j: nat, end: nat)
    requires StateOk(s) && RunOk(evs, |s.sys.clients|) && Steady(s, evs) && !s.link.ultra && !s.link.valid
    requires StartedOver(s.link)
    requires !Final(s, evs).link.valid && FrameOk(f) && Accepts(Final(s, evs), f)
    ensures j < |evs| && evs[j].Arrives? && evs[j].f.num < DEFAULT_WINDOW_SIZE
    ensures CameIn(evs, j, evs[j].f.num)
    ensures forall k | j < k < |evs| && evs[k].Arrives? && evs[k].f.num < DEFAULT_WINDOW_SIZE ::
      !CameIn(evs, k, evs[k].f.num)
    ensures f.num <= end < DEFAULT_WINDOW_SIZE
    ensures forall n | f.num <= n <= end :: CameIn(evs, j, n)
    ensures forall n | n == f.num - 1 || end < n < DEFAULT_WINDOW_SIZE :: !CameIn(evs, j, n)
  {
    hide Sound, Masked, Step, Resets, LastRun, Came, CameIn;
    var last;
    last, end := WorkedOut(s, evs);
    j := last;
    forall k, n | 0 <= k <= |evs| && 0 <= n < DEFAULT_WINDOW_SIZE
      ensures Came(s.link.seen, evs[..k])[n] <==> CameIn(evs, k, n)
    {
      CameAfresh(s.link.seen, evs, k, n);
    }
    forall k | j < k < |evs| && evs[k].Arrives? && evs[k].f.num < DEFAULT_WINDOW_SIZE
      ensures !CameIn(evs, k, evs[k].f.num)
    {
      assert !Again(s.link.seen, evs, k);
    }
    NoneBelow(evs, j);
  }

  lemma NoneBelow(evs: seq<Event>, j: nat)
    requires j <= |evs|
    ensures !CameIn(evs, j, -1)
  {
  }

  lemma CameAfresh(seen: seq<bool>, evs: seq<Event>, j: nat, n: nat)
    requires |seen| == DEFAULT_WINDOW_SIZE && n < DEFAULT_WINDOW_SIZE && !seen[n] && j <= |evs|
    ensures Came(seen, evs[..j])[n] <==> CameIn(evs, j, n)
  {
    var front := evs[..j];
    if CameIn(evs, j, n) {
      var i :| 0 <= i < j && Brings(evs[i], n);
      assert Brings(front[i], n);
    }
    if CameIn(front, j, n) {
      var i :| 0 <= i < j && Brings(front[i], n);
      assert Brings(evs[i], n);
    }
  }

  /** A start that was refused is never made up for: once nothing is blocked, the frame is out of
      sequence when it comes again and is answered with the number that was last before, unless it
      happens to be the one after that.  After a link packet that number is the frame's own: it is
      acknowledged although it was never filed. */
  lemma LostStart(s: State, f: Frame)
    requires StateOk(s) && FrameOk(f) && !s.link.valid && Decide(s.link, f).verdict == Admitted && !Accepts(s, f)
    ensures var again := Receive(s, f);
      && again.sys == s.sys && again.acks == s.acks && again.link.valid
      && (f.num == NextNum(s.link) ==> Decide(again.link, f).verdict == Admitted)
      && (f.num != NextNum(s.link) && Masked(again.sys, again.noack, None) == {} ==>
            Receive(again, f).acks == s.acks + [s.link.last] && Receive(again, f).sys == s.sys)
    ensures s.link.ultra ==>
      f.num == s.link.last && (f.num < s.link.modulus && s.link.modulus > 1 ==> f.num != NextNum(s.link))
  {
  }

  // ----- the rings

  /** The packets an event of the receiver's files. */
  ghost function FiledBy(s: State, ev: Event): seq<Packet>
    requires StateOk(s) && EventOk(ev, |s.sys.clients|)
  {
    if ev.Arrives? && Accepts(s, ev.f) && ev.f.kind.Filed?
    then [Packet(ev.f.kind.q, s.sys.nextData, ev.f.kind.data)] else []
  }

  ghost function Filed(s: State, evs: seq<Event>): seq<Packet>
    requires StateOk(s) && RunOk(evs, |s.sys.clients|)
    decreases |evs|
  {
    if evs == [] then [] else FiledBy(s, evs[0]) + Filed(Step(s, evs[0]), evs[1..])
  }

  /** The frames that are filed, with packet numbers counted from `num`. */
  function Numbered(frames: seq<Frame>, num: int): seq<Packet> {
    if frames == [] then []
    else if frames[0].kind.Filed? then
      [Packet(frames[0].kind.q, num, frames[0].kind.data)] + Numbered(frames[1..], num + 1)
    else Numbered(frames[1..], num)
  }

  lemma ClientKeepsCount(sys: Sys, ev: Runs.Event)
    requires Sound(sys) && Runs.EventOk(ev, |sys.clients|) && !ev.Store?
    ensures Runs.Step(sys, ev).nextData == sys.nextData
  {
    hide Sound, Rests, Scan;
  }

  lemma FiledStep(s: State, ev: Event)
    requires StateOk(s) && EventOk(ev, |s.sys.clients|)
    ensures FiledBy(s, ev) == Numbered(AcceptedBy(s, ev), s.sys.nextData)
    ensures Step(s, ev).sys.nextData == s.sys.nextData + |FiledBy(s, ev)|
  {
    hide Sound, Decide, Runs.Step;
    match ev
    case Arrives(f) =>
      if Accepts(s, f) && f.kind.Filed? {
        AcceptedIsFiled(s, f);
      }
      assert [f][1..] == [];
    case Client(e) =>
      ClientKeepsCount(s.sys, e);
    case Disconnect(_) =>
  }

  lemma {:induction false} NumberedAppend(a: seq<Frame>, b: seq<Frame>, num: int)
    ensures Numbered(a + b, num) == Numbered(a, num) + Numbered(b, num + |Numbered(a, num)|)
    decreases |a|
  {
    if a == [] {
      assert a + b == b;
    } else {
      assert (a + b)[1..] == a[1..] + b;
      NumberedAppend(a[1..], b, if a[0].kind.Filed? then num + 1 else num);
    }
  }

  /** Over any run, resets or not, every accepted frame that goes into a ring is filed once, in
      the order accepted, under consecutive packet numbers, and nothing else is. */
  lemma {:induction false} FiledInOrder(s: State, evs: seq<Event>)
    requires StateOk(s) && RunOk(evs, |s.sys.clients|)
    ensures Filed(s, evs) == Numbered(Accepted(s, evs), s.sys.nextData)
    ensures Final(s, evs).sys.nextData == s.sys.nextData + |Filed(s, evs)|
    decreases |evs|
  {
    hide Sound, Receive, Accepts, Step, AcceptedBy, FiledBy;
    if evs != [] {
      FiledStep(s, evs[0]);
      FiledInOrder(Step(s, evs[0]), evs[1..]);
      NumberedAppend(AcceptedBy(s, evs[0]), Accepted(Step(s, evs[0]), evs[1..]), s.sys.nextData);
    }
  }
}
