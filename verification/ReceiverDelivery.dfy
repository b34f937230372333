/** From the link to the clients: what becomes of the frames a receiver accepts. */
module ReceiverDelivery {
  import opened RingModel
  import opened ServerModel
  import opened Delivery
  import opened ReceiverModel
  import opened ReceiverRuns
  import Runs = ExactDelivery
  import Starts = ClientStarts

  /** What an event of the receiver is for its rings. */
  ghost function DeliveryOf(s: State, ev: Event): (es: seq<Runs.Event>)
    requires StateOk(s) && EventOk(ev, |s.sys.clients|)
    ensures Runs.RunOk(es, |s.sys.clients|) && |es| <= 1
  {
    match ev
    case Arrives(f) => if Accepts(s, f) && f.kind.Filed? then [Runs.Store(f.kind.q, f.kind.data)] else []
    case Client(e) => [e]
    case Disconnect(_) => []
  }

  ghost function Deliveries(s: State, evs: seq<Event>): (es: seq<Runs.Event>)
    requires StateOk(s) && RunOk(evs, |s.sys.clients|)
    ensures Runs.RunOk(es, |s.sys.clients|)
    decreases |evs|
  {
    if evs == [] then [] else DeliveryOf(s, evs[0]) + Deliveries(Step(s, evs[0]), evs[1..])
  }

  /** The packets of selected queues. */
  function OfQueues(ps: seq<Packet>, mask: set<nat>): seq<Packet> {
    if ps == [] then [] else (if ps[0].q in mask then [ps[0]] else []) + OfQueues(ps[1..], mask)
  }

  lemma {:induction false} OfQueuesAppend(ps: seq<Packet>, qs: seq<Packet>, mask: set<nat>)
    ensures OfQueues(ps + qs, mask) == OfQueues(ps, mask) + OfQueues(qs, mask)
  {
    if ps == [] {
      assert ps + qs == qs;
    } else {
      assert (ps + qs)[0] == ps[0] && (ps + qs)[1..] == ps[1..] + qs;
      OfQueuesAppend(ps[1..], qs, mask);
    }
  }

  /** A run of no event or of one. */
  lemma ShortRun(sys: Sys, es: seq<Runs.Event>, mask: set<nat>)
    requires Sound(sys) && Runs.RunOk(es, |sys.clients|) && |es| <= 1
    ensures Runs.Final(sys, es) == if es == [] then sys else Runs.Step(sys, es[0])
    ensures Runs.Stored(sys, es, mask) == if es == [] then [] else Runs.StoredBy(sys, es[0], mask)
  {
    if es != [] {
      assert es[1..] == [];
      assert Runs.StoredBy(sys, es[0], mask) + [] == Runs.StoredBy(sys, es[0], mask);
    }
  }

  lemma DeliveryStep(s: State, ev: Event, mask: set<nat>)
    requires StateOk(s) && EventOk(ev, |s.sys.clients|)
    ensures Runs.Final(s.sys, DeliveryOf(s, ev)) == Step(s, ev).sys
    ensures Runs.Stored(s.sys, DeliveryOf(s, ev), mask) == OfQueues(FiledBy(s, ev), mask)
  {
    ShortRun(s.sys, DeliveryOf(s, ev), mask);
    if ev.Arrives? {
      if Accepts(s, ev.f) && ev.f.kind.Filed? {
        AcceptedIsFiled(s, ev.f);
        assert FiledBy(s, ev)[1..] == [];
      } else {
        RefusedOrOther(s, ev.f);
      }
    }
  }

  lemma RefusedOrOther(s: State, f: Frame)
    requires StateOk(s) && FrameOk(f) && !(Accepts(s, f) && f.kind.Filed?)
    ensures Receive(s, f).sys == s.sys
  {
    if !Accepts(s, f) {
      RefusedChangesNothing(s, f);
    }
  }

  /** A run of the receiver is a run of its rings: the accepted frames for selected queues are the
      packets stored there, in order and under consecutive numbers. */
  lemma {:induction false} RunDelivers(s: State, evs: seq<Event>, mask: set<nat>)
    requires StateOk(s) && RunOk(evs, |s.sys.clients|)
    ensures Final(s, evs).sys == Runs.Final(s.sys, Deliveries(s, evs))
    ensures Runs.Stored(s.sys, Deliveries(s, evs), mask) == OfQueues(Numbered(Accepted(s, evs), s.sys.nextData), mask)
    decreases |evs|
  {
    hide Sound, Step, DeliveryOf, AcceptedBy, FiledBy, Runs.Step, Runs.StoredBy, Runs.EventOk, Runs.Served,
         Runs.RunOk, Runs.Stored, Runs.Final, Numbered, OfQueues;
    if evs == [] {
      NoneNumbered(s.sys.nextData, mask);
      ShortRun(s.sys, [], mask);
    } else {
      var s1 := Step(s, evs[0]);
      DeliveryStep(s, evs[0], mask);
      RunDelivers(s1, evs[1..], mask);
      Runs.FinalAppend(s.sys, DeliveryOf(s, evs[0]), Deliveries(s1, evs[1..]), mask, 0);
      FiledStep(s, evs[0]);
      var a, rest := AcceptedBy(s, evs[0]), Accepted(s1, evs[1..]);
      NumberedAppend(a, rest, s.sys.nextData);
      OfQueuesAppend(Numbered(a, s.sys.nextData), Numbered(rest, s1.sys.nextData), mask);
    }
  }

  lemma NoneNumbered(from: int, mask: set<nat>)
    ensures OfQueues(Numbered([], from), mask) == []
  {
  }

  // ----- a blocking client

  ghost predicate WaitingFor(evs: seq<Event>, c: nat) {
    forall k | 0 <= k < |evs| && evs[k].Client? :: Starts.Waiting(evs[k].ev, c)
  }

  ghost predicate SteadyFor(evs: seq<Event>, c: nat, mask: set<nat>) {
    forall k | 0 <= k < |evs| && evs[k].Client? :: Runs.Steady(evs[k].ev, c, mask)
  }

  lemma {:induction false} WaitingDeliveries(s: State, evs: seq<Event>, c: nat)
    requires StateOk(s) && RunOk(evs, |s.sys.clients|) && WaitingFor(evs, c)
    ensures Starts.WaitingRun(Deliveries(s, evs), c)
    decreases |evs|
  {
    hide Sound, Step, Accepts;
    if evs != [] {
      WaitingDeliveries(Step(s, evs[0]), evs[1..], c);
      assert forall e | e in DeliveryOf(s, evs[0]) :: Starts.Waiting(e, c);
    }
  }

  lemma {:induction false} SteadyDeliveries(s: State, evs: seq<Event>, c: nat, mask: set<nat>)
    requires StateOk(s) && RunOk(evs, |s.sys.clients|) && SteadyFor(evs, c, mask)
    ensures Runs.SteadyRun(Deliveries(s, evs), c, mask)
    decreases |evs|
  {
    hide Sound, Step, Accepts;
    if evs != [] {
      SteadyDeliveries(Step(s, evs[0]), evs[1..], c, mask);
      assert forall e | e in DeliveryOf(s, evs[0]) :: Runs.Steady(e, c, mask);
    }
  }

  /** The packets filed of the frames a run accepts, for the selected queues. */
  ghost function DeliveredBy(s: State, evs: seq<Event>, mask: set<nat>): seq<Packet>
    requires StateOk(s) && RunOk(evs, |s.sys.clients|)
  {
    OfQueues(Numbered(Accepted(s, evs), s.sys.nextData), mask)
  }

  ghost function Asked(s: State, c: nat, first: Req): (s': State)
    requires StateOk(s) && c < |s.sys.clients| && first.WellFormed()
    ensures StateOk(s') && |s'.sys.clients| == |s.sys.clients|
  {
    Step(s, Event.Client(Runs.Ask(c, first)))
  }

  /** From the link to a client: the frames accepted for its queues, from the time its packets from
      `a` on are marked, are, one for one and in order, the packets it is served and those still
      owed to it, whatever the link and the other clients do meanwhile. */
  lemma FramesExact(s: State, waiting: seq<Event>, first: Req, after: seq<Event>, c: nat, a: int) returns (a': int)
    requires StateOk(s) && c < |s.sys.clients| && Runs.Marked(s.sys, c, a) && 0 <= a
    requires RunOk(waiting, |s.sys.clients|) && WaitingFor(waiting, c)
    requires first.WellFormed() && first.order == FIRST
    requires a == 0 || Request(Final(s, waiting).sys, c, first).taken != []
    requires RunOk(after, |s.sys.clients|) && SteadyFor(after, c, first.mask)
    ensures var waited := Final(s, waiting);
      var asked := Asked(waited, c, first);
      var end := Final(asked, after).sys;
      && Runs.Covered(end, c, a')
      && Runs.Pending(s.sys, first.mask, a)
        + (DeliveredBy(s, waiting, first.mask) + DeliveredBy(asked, after, first.mask))
         == (Request(waited.sys, c, first).taken + Runs.Served(asked.sys, Deliveries(asked, after), c))
            + Runs.Pending(end, first.mask, end.clients[c].nextData)
  {
    hide Sound, Runs.Marked, Runs.Covered, Runs.Pending, Request, Deliveries, Accepted, Step;
    var waited := Final(s, waiting);
    var asked := Asked(waited, c, first);
    RunDelivers(s, waiting, first.mask);
    RunDelivers(asked, after, first.mask);
    WaitingDeliveries(s, waiting, c);
    SteadyDeliveries(asked, after, c, first.mask);
    AskedIs(waited, c, first);
    a' := Starts.StartExact(s.sys, Deliveries(s, waiting), first, Deliveries(asked, after), c, a);
  }

  lemma AskedIs(s: State, c: nat, first: Req)
    requires StateOk(s) && c < |s.sys.clients| && first.WellFormed()
    ensures Asked(s, c, first).sys == Runs.Step(s.sys, Runs.Ask(c, first))
    ensures Runs.ServedBy(s.sys, Runs.Ask(c, first), c) == Request(s.sys, c, first).taken
  {
  }

  /** A client that blocks from the start is served, or still owed, every frame ever accepted for
      its queues. */
  lemma AllFramesExact(s: State, waiting: seq<Event>, first: Req, after: seq<Event>, c: nat) returns (a: int)
    requires StateOk(s) && Starts.Fresh(s.sys) && c < |s.sys.clients|
    requires s.sys.clients[c].blocking && c in s.sys.blockmask
    requires RunOk(waiting, |s.sys.clients|) && WaitingFor(waiting, c)
    requires first.WellFormed() && first.order == FIRST
    requires RunOk(after, |s.sys.clients|) && SteadyFor(after, c, first.mask)
    ensures var waited := Final(s, waiting);
      var asked := Asked(waited, c, first);
      var end := Final(asked, after).sys;
      && Runs.Covered(end, c, a)
      && DeliveredBy(s, waiting, first.mask) + DeliveredBy(asked, after, first.mask)
         == (Request(waited.sys, c, first).taken + Runs.Served(asked.sys, Deliveries(asked, after), c))
            + Runs.Pending(end, first.mask, end.clients[c].nextData)
  {
    hide Sound, Runs.Marked, Runs.Covered, Runs.Pending, Request, Deliveries, DeliveredBy, Step, Final, Starts.Fresh;
    FreshMarked(s.sys, c, first.mask);
    a := FramesExact(s, waiting, first, after, c, 0);
    var frames := DeliveredBy(s, waiting, first.mask)
      + DeliveredBy(Asked(Final(s, waiting), c, first), after, first.mask);
    assert [] + frames == frames;
  }

  lemma FreshMarked(sys: Sys, c: nat, mask: set<nat>)
    requires Starts.Fresh(sys) && c < |sys.clients| && sys.clients[c].blocking && c in sys.blockmask
    ensures Sound(sys) && Runs.Marked(sys, c, 0) && Runs.Pending(sys, mask, 0) == []
  {
    Starts.NothingOwed(Runs.Suffixes(sys, 0), mask);
  }
}
