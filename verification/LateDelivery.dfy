/** Exactly-once delivery from the queues a client selects, also to one that goes on from an empty
    answer to CSQ_FIRST. */
module LateDelivery {
  import opened Options
  import opened RingModel
  import opened ServerModel
  import opened Delivery
  import opened DeliveryRuns
  import opened ExactDelivery
  import opened ClientStarts
  import opened WedgedClients

  /** Packets not below `a`. */
  function Above(ps: seq<Packet>, a: int): seq<Packet> {
    if ps == [] then [] else (if a <= ps[0].num then [ps[0]] else []) + Above(ps[1..], a)
  }

  lemma {:induction false} AboveAppend(ps: seq<Packet>, qs: seq<Packet>, a: int)
    ensures Above(ps + qs, a) == Above(ps, a) + Above(qs, a)
  {
    if ps == [] {
      assert ps + qs == qs;
    } else {
      assert (ps + qs)[1..] == ps[1..] + qs;
      AboveAppend(ps[1..], qs, a);
    }
  }

  lemma {:induction false} AboveAll(ps: seq<Packet>, a: int)
    requires AllFrom(ps, a)
    ensures Above(ps, a) == ps
  {
    if ps != [] {
      AboveAll(ps[1..], a);
    }
  }

  function Max(x: int, y: int): int {
    if x < y then y else x
  }

  lemma {:induction false} OwedAboveIs(i: nat, l: seq<Slot>, nd: int, a: int)
    requires forall j, k | 0 <= j < k < |l| :: l[j].packetNum < l[k].packetNum
    ensures Above(Owed(i, l, nd), a) == Owed(i, l, Max(nd, a))
  {
    if l != [] {
      OwedAboveIs(i, l[1..], nd, a);
    }
  }

  /** The queues with the packets below `a` left out. */
  function AboveOf(rest: seq<seq<Packet>>, a: int): (above: seq<seq<Packet>>)
    ensures |above| == |rest|
  {
    seq(|rest|, i requires 0 <= i < |rest| => Above(rest[i], a))
  }

  lemma {:induction false} AboveMerge(rest: seq<seq<Packet>>, mask: set<nat>, a: int)
    requires Mergeable(rest)
    ensures Above(Merge(rest, mask), a) == Merge(AboveOf(rest, a), mask)
    decreases Total(rest)
  {
    hide Mergeable, Above, AboveOf;
    match Best(rest, mask, |rest|)
    case None =>
      AboveNone(rest, mask, a);
    case Some(b) =>
      TotalDrop(rest, b);
      PopMergeable(rest, b);
      AboveMerge(Pop(rest, b), mask, a);
      assert Merge(rest, mask) == [rest[b][0]] + Merge(Pop(rest, b), mask);
      AboveAppend([rest[b][0]], Merge(Pop(rest, b), mask), a);
      AboveOne(rest[b][0], a);
      if rest[b][0].num < a {
        AboveRest(rest, a, b);
      } else {
        AboveFirst(rest, mask, a, b);
      }
  }

  lemma AboveOne(p: Packet, a: int)
    ensures Above([p], a) == if a <= p.num then [p] else []
  {
    assert [p][1..] == [];
  }

  lemma AboveRest(rest: seq<seq<Packet>>, a: int, b: nat)
    requires b < |rest| && rest[b] != [] && rest[b][0].num < a
    ensures AboveOf(Pop(rest, b), a) == AboveOf(rest, a)
  {
    forall i | 0 <= i < |rest|
      ensures Above(Pop(rest, b)[i], a) == Above(rest[i], a)
    {
    }
  }

  lemma AboveNone(rest: seq<seq<Packet>>, mask: set<nat>, a: int)
    requires Best(rest, mask, |rest|) == None
    ensures Above(Merge(rest, mask), a) == [] && Merge(AboveOf(rest, a), mask) == []
  {
    BestNone(rest, mask, |rest|);
    BestOfNone(AboveOf(rest, a), mask, |rest|);
  }

  lemma {:induction false} BestNone(rest: seq<seq<Packet>>, mask: set<nat>, n: nat)
    requires n <= |rest| && Best(rest, mask, n) == None
    ensures forall i | 0 <= i < n && i in mask :: rest[i] == []
  {
    BestIsLowest(rest, mask, n);
  }

  lemma {:induction false} BestOfNone(rest: seq<seq<Packet>>, mask: set<nat>, n: nat)
    requires n <= |rest| && forall i | 0 <= i < n && i in mask :: rest[i] == []
    ensures Best(rest, mask, n) == None
  {
    if n > 0 {
      BestOfNone(rest, mask, n - 1);
    }
  }

  /** When the lowest packet is not below `a`, nothing selected is. */
  lemma AboveFirst(rest: seq<seq<Packet>>, mask: set<nat>, a: int, b: nat)
    requires Mergeable(rest) && Best(rest, mask, |rest|) == Some(b) && a <= rest[b][0].num
    ensures Merge(AboveOf(rest, a), mask) == [rest[b][0]] + Merge(AboveOf(Pop(rest, b), a), mask)
  {
    BestIsLowest(rest, mask, |rest|);
    var above: seq<seq<Packet>> := AboveOf(rest, a);
    forall i | 0 <= i < |rest| && i in mask
      ensures above[i] == rest[i] && AboveOf(Pop(rest, b), a)[i] == Pop(rest, b)[i]
    {
      RisingFromFirst(rest[i], a);
      AboveAll(rest[i], a);
      if i == b {
        AboveAll(rest[i][1..], a);
      }
    }
    MergeSelected(above, rest, mask);
    MergeSelected(AboveOf(Pop(rest, b), a), Pop(rest, b), mask);
  }

  /** What is owed to the client from `a` on. */
  ghost function Due(sys: Sys, c: nat, mask: set<nat>, a: int): seq<Packet>
    requires Sound(sys) && c < |sys.clients|
  {
    Pending(sys, mask, Max(sys.clients[c].nextData, a))
  }

  lemma PendingAbove(sys: Sys, mask: set<nat>, nd: int, a: int)
    requires Sound(sys)
    ensures Above(Pending(sys, mask, nd), a) == Pending(sys, mask, Max(nd, a))
  {
    var rest := Suffixes(sys, nd);
    forall i | 0 <= i < NUMQ
      ensures Rising(rest[i]) && AboveOf(rest, a)[i] == Suffixes(sys, Max(nd, a))[i]
    {
      assert sys.rings[i].Valid(sys.nextData);
      OwedRises(i, sys.rings[i].Live(), nd);
      OwedAboveIs(i, sys.rings[i].Live(), nd, a);
    }
    forall i, j | 0 <= i < j < NUMQ
      ensures Distinct(rest[i], rest[j])
    {
      assert ApartLive(sys.rings[i].Live(), sys.rings[j].Live());
      OwedDistinct(i, sys.rings[i].Live(), j, sys.rings[j].Live(), nd);
    }
    AboveMerge(rest, mask, a);
    assert AboveOf(rest, a) == Suffixes(sys, Max(nd, a));
  }

  lemma {:induction false} OwedIn(i: nat, l: seq<Slot>, nd: int, k: nat) returns (j: nat)
    requires k < |Owed(i, l, nd)|
    ensures j < |l| && l[j].packetNum == Owed(i, l, nd)[k].num
  {
    if l[0].packetNum < nd {
      j := OwedIn(i, l[1..], nd, k);
      j := j + 1;
    } else if k == 0 {
      j := 0;
    } else {
      j := OwedIn(i, l[1..], nd, k - 1);
      j := j + 1;
    }
  }

  lemma {:induction false} OwedRises(i: nat, l: seq<Slot>, nd: int)
    requires forall j, k | 0 <= j < k < |l| :: l[j].packetNum < l[k].packetNum
    ensures Rising(Owed(i, l, nd))
  {
    if l != [] {
      OwedRises(i, l[1..], nd);
      if nd <= l[0].packetNum {
        OwedAbove(i, l, nd);
        PacksRising(i, l, nd);
      }
    }
  }

  lemma OwedDistinct(i: nat, l: seq<Slot>, j: nat, m: seq<Slot>, nd: int)
    requires ApartLive(l, m)
    ensures Distinct(Owed(i, l, nd), Owed(j, m, nd))
  {
    forall k, n | 0 <= k < |Owed(i, l, nd)| && 0 <= n < |Owed(j, m, nd)|
      ensures Owed(i, l, nd)[k].num != Owed(j, m, nd)[n].num
    {
      var x := OwedIn(i, l, nd, k);
      var y := OwedIn(j, m, nd, n);
    }
  }

  // ----- the queues a client selects

  /** A cursor that matches the head has passed everything below `nd`. */
  ghost predicate HeadPassed(r: Ring, cur: Cursor, nd: int)
    requires r.Shape()
  {
    OnHead(r, cur) ==> forall k | 0 <= k < |r.Live()| :: r.Live()[k].packetNum < nd
  }

  ghost predicate Selected(sys: Sys, c: nat, mask: set<nat>, a: int)
    requires Sound(sys) && c < |sys.clients|
  {
    forall q | q in mask && q < NUMQ ::
      Clear(sys, c, q, a) && HeadPassed(sys.rings[q], sys.clients[c].last[q], sys.clients[c].nextData)
  }

  /** A continuing request sees the selected queues from the client's number on. */
  lemma SelectedRests(sys: Sys, c: nat, req: Req, a: int)
    requires Sound(sys) && c < |sys.clients| && Selected(sys, c, req.mask, a) && req.order == NEXT
    ensures forall i | i in req.mask && i < NUMQ ::
      Rests(sys, c, req)[i] == Suffixes(sys, sys.clients[c].nextData)[i]
  {
    var cl := sys.clients[c];
    forall i | i in req.mask && i < NUMQ
      ensures ScanRest(sys, c, req, i) == Owed(i, sys.rings[i].Live(), cl.nextData)
    {
      assert Clear(sys, c, i, a);
      NextScanExact(sys.rings[i], sys.nextData, i, c, cl.blocking, cl.nextData, cl.last[i]);
    }
  }

  lemma LeftOwed(sys: Sys, rest: seq<seq<Packet>>, mask: set<nat>, want: Want, budget: int, nd: int, nd': int)
    requires Sound(sys) && Ready(rest, mask, nd) && nd <= nd'
    requires forall i | i in mask && i < NUMQ :: rest[i] == Suffixes(sys, nd)[i]
    requires nd' == After(Taken(rest, mask, want, budget), nd)
    ensures Merge(Left(rest, mask, want, budget), mask) == Pending(sys, mask, nd')
  {
    var left := Left(rest, mask, want, budget);
    LeftAbove(rest, mask, want, budget, nd);
    forall i | 0 <= i < NUMQ && i in mask
      ensures left[i] == Suffixes(sys, nd')[i]
    {
      assert Cut(rest[i], left[i], nd');
      CutOwed(i, sys.rings[i].Live(), nd, nd', left[i]);
    }
    MergeSelected(left, Suffixes(sys, nd'), mask);
  }

  lemma SelectedPending(sys: Sys, c: nat, req: Req, a: int)
    requires Sound(sys) && c < |sys.clients| && Selected(sys, c, req.mask, a) && req.order == NEXT
    ensures var r: Response := Request(sys, c, req);
      Sound(r.sys)
      && Pending(sys, req.mask, sys.clients[c].nextData)
         == r.taken + Pending(r.sys, req.mask, r.sys.clients[c].nextData)
  {
    var r: Response := Request(sys, c, req);
    var nd, nd' := sys.clients[c].nextData, r.sys.clients[c].nextData;
    var want: Want := p => Wanted(req, p);
    var rest: seq<seq<Packet>> := Rests(sys, c, req);
    SelectedRests(sys, c, req, a);
    RestsReady(sys, c, req);
    RequestInOrder(sys, c, req);
    RequestSound(sys, c, req);
    RequestSame(sys, c, req);
    assert r.taken == Taken(rest, req.mask, want, req.count) && nd' == After(r.taken, nd);
    hide Sound, Selected, SameRings, Ready, Request, After, Merge, Taken, Left;
    MergeSelected(rest, Suffixes(sys, nd), req.mask);
    TakenSplits(rest, req.mask, want, req.count);
    LeftOwed(sys, rest, req.mask, want, req.count, nd, nd');
    SamePending(sys, r.sys, req.mask, nd');
  }

  // ----- what keeps it so

  lemma StoreHeadPassed(r: Ring, blockmask: set<nat>, counter: int, data: UserData, cur: Cursor, c: nat, a: int,
        nd: int)
    requires r.Valid(counter) && r.Avail() && CursorSound(r, cur, nd, counter) && ClearRing(r, cur, c, a, nd)
    ensures HeadPassed(r.Put(blockmask, counter, data), cur, nd)
  {
    if cur.scan.Some? {
      var s := cur.scan.value;
      PutDist(r, blockmask, counter, data, s);
      if s == r.Next(r.head) && r.slots[s].packetNum == cur.packet {
        HeadIsFull(r, s);
        AvailMeaning(r, counter);
      }
    }
  }

  /** The element behind the head is live in a full ring only, where it is the oldest. */
  lemma HeadIsFull(r: Ring, s: nat)
    requires r.Shape() && s == r.Next(r.head) && r.Dist(s) <= r.Len()
    ensures r.Len() == |r.slots| - 1 && s != r.head && r.Dist(s) == 0 && r.Live()[0] == r.slots[s]
  {
    assert r.At(0) == r.tail;
  }

  lemma ScanHeadPassed(r: Ring, counter: int, c: nat, nd: int, cur: Cursor, nd': int)
    requires r.Valid(counter) && CursorSound(r, cur, nd, counter) && HeadPassed(r, cur, nd) && nd <= nd'
    ensures var s := ScanRing(r, c, true, NEXT, nd, cur);
      s.ring.Shape() && HeadPassed(s.ring, s.cursor, nd')
  {
    var s := ScanRing(r, c, true, NEXT, nd, cur);
    ScanKeeps(r, counter, c, true, NEXT, nd, cur);
    AckMeaning(r, {c}, nd, r.AckStart(cur), cur);
    if s.scan != r.AckStart(cur) {
      MovedFrom(r, counter, {c}, nd, cur);
    }
    SameHeadPassed(r, s.ring, counter, s.cursor, nd');
  }

  lemma SameHeadPassed(r: Ring, r': Ring, counter: int, cur: Cursor, nd: int)
    requires r.Valid(counter) && r'.Shape() && SamePackets(r, r') && HeadPassed(r, cur, nd)
    ensures HeadPassed(r', cur, nd)
  {
    SamePacketsValid(r, r', counter);
  }

  /** One queue over one event. */
  lemma StepQueue(sys: Sys, ev: Event, c: nat, q: nat, mask: set<nat>, a: int)
    requires Sound(sys) && EventOk(ev, |sys.clients|) && c < |sys.clients| && q < NUMQ && Steady(ev, c, mask)
    requires Clear(sys, c, q, a) && HeadPassed(sys.rings[q], sys.clients[c].last[q], sys.clients[c].nextData)
    ensures var sys' := Step(sys, ev);
      HeadPassed(sys'.rings[q], sys'.clients[c].last[q], sys'.clients[c].nextData)
  {
    var r, cl := sys.rings[q], sys.clients[c];
    if ev.Store? {
      if ev.q == q && r.Avail() {
        StoreHeadPassed(r, sys.blockmask, sys.nextData, ev.data, cl.last[q], c, a, cl.nextData);
      }
    } else if ev.Ask? && ev.c == c {
      RequestInOrder(sys, c, ev.req);
      ScanHeadPassed(r, sys.nextData, c, cl.nextData, cl.last[q], Step(sys, ev).clients[c].nextData);
    } else {
      OthersStep(sys, ev, c);
      SameHeadPassed(r, Step(sys, ev).rings[q], sys.nextData, cl.last[q], cl.nextData);
    }
  }

  lemma StepSelected(sys: Sys, ev: Event, c: nat, mask: set<nat>, a: int)
    requires Sound(sys) && EventOk(ev, |sys.clients|) && c < |sys.clients|
    requires Selected(sys, c, mask, a) && Steady(ev, c, mask)
    ensures Selected(Step(sys, ev), c, mask, AckedTo(sys, ev, c, a))
  {
    hide Sound, Clear, HeadPassed, Step, Steady, EventOk;
    forall q | q in mask && q < NUMQ
      ensures var sys' := Step(sys, ev);
        && q < |sys'.rings| && sys'.rings[q].Shape() && q < |sys'.clients[c].last|
        && Clear(sys', c, q, AckedTo(sys, ev, c, a))
        && HeadPassed(sys'.rings[q], sys'.clients[c].last[q], sys'.clients[c].nextData)
    {
      SixRings(Step(sys, ev));
      SixRings(sys);
      StepQueue(sys, ev, c, q, mask, a);
      var a' := StepClear(sys, ev, c, q, a, mask);
    }
  }

  // ----- runs

  lemma AskDue(sys: Sys, c: nat, req: Req, a: int, from: int)
    requires Sound(sys) && c < |sys.clients| && Selected(sys, c, req.mask, a) && req.order == NEXT
    ensures Sound(Request(sys, c, req).sys)
    ensures Due(sys, c, req.mask, from)
      == Above(Request(sys, c, req).taken, from) + Due(Request(sys, c, req).sys, c, req.mask, from)
  {
    var r: Response := Request(sys, c, req);
    var nd, nd' := sys.clients[c].nextData, r.sys.clients[c].nextData;
    SelectedPending(sys, c, req, a);
    hide Sound, Selected, Pending, Request;
    PendingAbove(sys, req.mask, nd, from);
    PendingAbove(r.sys, req.mask, nd', from);
    AboveAppend(r.taken, Pending(r.sys, req.mask, nd'), from);
  }

  /** What the client has acknowledged lies below its number or below `from`. */
  ghost predicate InReach(sys: Sys, c: nat, a: int, from: int)
    requires c < |sys.clients|
  {
    && sys.clients[c].blocking && a <= Max(sys.clients[c].nextData, from)
    && sys.clients[c].nextData <= sys.nextData && from <= sys.nextData
  }

  lemma StoreDue(sys: Sys, q: nat, data: UserData, c: nat, mask: set<nat>, a: int, from: int)
    requires Sound(sys) && q < NUMQ && c < |sys.clients| && InReach(sys, c, a, from)
    requires q in mask ==> MarkedFrom(sys.rings[q].Live(), c, a)
    ensures var sys' := Step(sys, Store(q, data));
      && sys'.clients == sys.clients && InReach(sys', c, a, from)
      && Due(sys, c, mask, from) + StoredBy(sys, Store(q, data), mask) == Due(sys', c, mask, from)
  {
    StorePending(sys, q, data, c, a, mask, Max(sys.clients[c].nextData, from));
  }

  /** One event of a steady run. */
  lemma StepDue(sys: Sys, ev: Event, c: nat, mask: set<nat>, a: int, from: int)
    requires Sound(sys) && EventOk(ev, |sys.clients|) && c < |sys.clients|
    requires Selected(sys, c, mask, a) && Steady(ev, c, mask) && InReach(sys, c, a, from)
    ensures Due(sys, c, mask, from) + StoredBy(sys, ev, mask)
      == Above(ServedBy(sys, ev, c), from) + Due(Step(sys, ev), c, mask, from)
    ensures InReach(Step(sys, ev), c, AckedTo(sys, ev, c, a), from)
  {
    hide Sound, Pending, MarkedFrom, SameRings;
    if ev.Store? {
      if ev.q in mask {
        assert Clear(sys, c, ev.q, a);
      }
      StoreDue(sys, ev.q, ev.data, c, mask, a, from);
    } else if ev.Ask? && ev.c == c {
      RequestInOrder(sys, c, ev.req);
      RequestBelow(sys, c, ev.req);
      AskDue(sys, c, ev.req, a, from);
    } else {
      OthersStep(sys, ev, c);
      SamePending(sys, Step(sys, ev), mask, Max(sys.clients[c].nextData, from));
    }
  }

  /** Exactly once and in order, over every steady run, for the packets from `from` on of the
      selected queues: those owed at the start and those stored since are, one for one, those
      served and those still owed. */
  lemma {:induction false} SelectedExact(sys: Sys, evs: seq<Event>, c: nat, mask: set<nat>, a: int, from: int)
    requires Sound(sys) && RunOk(evs, |sys.clients|) && c < |sys.clients| && SteadyRun(evs, c, mask)
    requires Selected(sys, c, mask, a) && InReach(sys, c, a, from)
    ensures Due(sys, c, mask, from) + Stored(sys, evs, mask)
      == Above(Served(sys, evs, c), from) + Due(Final(sys, evs), c, mask, from)
    decreases |evs|
  {
    hide Sound, Selected, Step, Due, StoredBy, ServedBy, EventOk, Steady, InReach;
    if evs == [] {
      assert Due(sys, c, mask, from) + [] == [] + Due(sys, c, mask, from);
    } else {
      var sys1 := Step(sys, evs[0]);
      StepDue(sys, evs[0], c, mask, a, from);
      StepSelected(sys, evs[0], c, mask, a);
      SelectedExact(sys1, evs[1..], c, mask, AckedTo(sys, evs[0], c, a), from);
      AboveAppend(ServedBy(sys, evs[0], c), Served(sys1, evs[1..], c), from);
      Chain(Due(sys, c, mask, from), StoredBy(sys, evs[0], mask), Above(ServedBy(sys, evs[0], c), from),
            Due(sys1, c, mask, from), Stored(sys1, evs[1..], mask), Above(Served(sys1, evs[1..], c), from),
            Due(Final(sys1, evs[1..]), c, mask, from));
    }
  }

  /** A client whose answer to CSQ_FIRST considered nothing still gets every packet stored since it
      began to block exactly once, when none of its queues holds two packets from before. */
  lemma EmptyStartExact(sys: Sys, evs: seq<Event>, c: nat, mask: set<nat>, a: int)
    requires Sound(sys) && RunOk(evs, |sys.clients|) && c < |sys.clients| && SteadyRun(evs, c, mask)
    requires Behind(sys, c, a, 0) && forall q | q in mask && q < NUMQ :: !TwoBelow(sys.rings[q].Live(), a)
    ensures Pending(sys, mask, a) + Stored(sys, evs, mask)
      == Above(Served(sys, evs, c), a) + Due(Final(sys, evs), c, mask, a)
  {
    assert Selected(sys, c, mask, a);
    assert InReach(sys, c, a, a);
    SelectedExact(sys, evs, c, mask, a, a);
  }
}
