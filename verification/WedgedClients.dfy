/** What can become of a client that begins to block when packets are there already, and gets an
    empty answer to CSQ_FIRST: a queue that it sees empty, and that is full, for ever. */
module WedgedClients {
  import opened Options
  import opened RingModel
  import opened ServerModel
  import opened Delivery
  import opened DeliveryRuns
  import opened ExactDelivery
  import opened ClientStarts

  // ----- wedged for good

  /** The client blocks, its cursor is on the head of the queue and matches it, and the element behind the
      head waits for the client. */
  ghost predicate Wedged(sys: Sys, c: nat, q: nat)
    requires Sound(sys) && c < |sys.clients| && q < NUMQ
  {
    sys.clients[c].blocking && WedgedRing(sys.rings[q], sys.clients[c].last[q], c)
  }

  ghost predicate WedgedRing(r: Ring, cur: Cursor, c: nat)
    requires r.Shape()
  {
    cur == Cursor(Some(r.head), r.slots[r.head].packetNum) && c in r.slots[r.Next(r.head)].blockmap
  }

  /** The queue holds the same packets. */
  ghost predicate Stuck(sys: Sys, sys': Sys, q: nat)
    requires Sound(sys) && q < NUMQ
  {
    |sys'.rings| == NUMQ && sys'.rings[q].Shape() && SamePackets(sys.rings[q], sys'.rings[q])
  }

  ghost predicate NoneOf(ps: seq<Packet>, q: nat) {
    forall k | 0 <= k < |ps| :: ps[k].q != q
  }

  lemma WedgedScan(sys: Sys, c: nat, req: Req, q: nat)
    requires Sound(sys) && c < |sys.clients| && q < NUMQ && Wedged(sys, c, q) && req.order == NEXT
    ensures Scan(sys, c, req, q) == AckResult(sys.rings[q], sys.rings[q].head, sys.clients[c].last[q])
    ensures ScanRest(sys, c, req, q) == []
  {
  }

  lemma {:induction false} TakenNoneOf(rest: seq<seq<Packet>>, mask: set<nat>, want: Want, budget: int, q: nat)
    requires QueueTags(rest) && q < NUMQ && rest[q] == []
    ensures NoneOf(Taken(rest, mask, want, budget), q)
    decreases Total(rest)
  {
    match Best(rest, mask, |rest|)
    case None =>
    case Some(b) =>
      if budget > 0 {
        TotalDrop(rest, b);
        TakenTurn(rest, mask, want, budget, b);
        PopTags(rest, b);
        TakenNoneOf(Pop(rest, b), mask, want, budget - Cost(want, rest[b][0]), q);
      }
  }

  /** What other clients do takes no bit of this one away. */
  lemma OthersStep(sys: Sys, ev: Event, c: nat)
    requires Sound(sys) && EventOk(ev, |sys.clients|) && c < |sys.clients| && sys.clients[c].blocking
    requires !ev.Store? && (ev.Block? || ev.c != c)
    ensures OthersOnly(sys, Step(sys, ev), c) && Step(sys, ev).clients[c] == sys.clients[c]
  {
    match ev
    case Ask(d, req) =>
      RequestSame(sys, d, req);
    case Block(d) =>
    case NoBlock(d) =>
      UnblockSound(sys, d);
    case Unblock(d) =>
      UnblockSound(sys, d);
  }

  lemma OthersWedged(sys: Sys, sys': Sys, c: nat, q: nat)
    requires Sound(sys) && Sound(sys') && c < |sys.clients| && q < NUMQ && Wedged(sys, c, q)
    requires OthersOnly(sys, sys', c) && sys'.clients[c] == sys.clients[c]
    ensures Wedged(sys', c, q) && Stuck(sys, sys', q)
  {
  }

  lemma AskWedged(sys: Sys, c: nat, req: Req, q: nat)
    requires Sound(sys) && c < |sys.clients| && q < NUMQ && Wedged(sys, c, q) && req.order == NEXT
    ensures Sound(Request(sys, c, req).sys)
    ensures Wedged(Request(sys, c, req).sys, c, q) && Stuck(sys, Request(sys, c, req).sys, q)
    ensures NoneOf(Request(sys, c, req).taken, q)
  {
    RequestSound(sys, c, req);
    WedgedScan(sys, c, req, q);
    hide Sound, NoneOf, Taken;
    TakenNoneOf(Rests(sys, c, req), req.mask, p => Wanted(req, p), req.count, q);
    assert Request(sys, c, req).sys.rings[q] == sys.rings[q];
  }

  lemma StoreWedged(sys: Sys, p: nat, data: UserData, c: nat, q: nat)
    requires Sound(sys) && c < |sys.clients| && q < NUMQ && p < NUMQ && Wedged(sys, c, q)
    ensures Sound(StorePacket(sys, p, data)) && Wedged(StorePacket(sys, p, data), c, q)
    ensures Stuck(sys, StorePacket(sys, p, data), q) && (p == q ==> !sys.rings[q].Avail())
  {
    StoreSound(sys, p, data);
    hide Sound;
  }

  /** No event of a steady run changes it: the queue refuses every packet, and the client is
      served none from it. */
  lemma StepWedged(sys: Sys, ev: Event, c: nat, q: nat, mask: set<nat>)
    requires Sound(sys) && EventOk(ev, |sys.clients|) && c < |sys.clients| && q < NUMQ
    requires Wedged(sys, c, q) && Steady(ev, c, mask)
    ensures Wedged(Step(sys, ev), c, q) && Stuck(sys, Step(sys, ev), q)
    ensures StoredBy(sys, ev, {q}) == [] && NoneOf(ServedBy(sys, ev, c), q)
  {
    hide Sound, WedgedRing, Stuck, OthersOnly;
    if ev.Store? {
      StoreWedged(sys, ev.q, ev.data, c, q);
    } else if ev.Ask? && ev.c == c {
      AskWedged(sys, c, ev.req, q);
    } else {
      OthersStep(sys, ev, c);
      OthersWedged(sys, Step(sys, ev), c, q);
    }
  }

  lemma StuckTwice(r: Ring, r1: Ring, r2: Ring)
    requires r.Shape() && r1.Shape() && r2.Shape() && SamePackets(r, r1) && SamePackets(r1, r2)
    ensures SamePackets(r, r2)
  {
  }

  /** So it stays like that over every steady run. */
  lemma {:induction false} WedgeStays(sys: Sys, evs: seq<Event>, c: nat, q: nat, mask: set<nat>)
    requires Sound(sys) && RunOk(evs, |sys.clients|) && c < |sys.clients| && q < NUMQ
    requires Wedged(sys, c, q) && SteadyRun(evs, c, mask)
    ensures Wedged(Final(sys, evs), c, q) && Stuck(sys, Final(sys, evs), q)
    ensures Stored(sys, evs, {q}) == [] && NoneOf(Served(sys, evs, c), q)
    decreases |evs|
  {
    if evs != [] {
      var sys1 := Step(sys, evs[0]);
      StepWedged(sys, evs[0], c, q, mask);
      hide Step, Wedged, EventOk, Steady, StoredBy, ServedBy;
      WedgeStays(sys1, evs[1..], c, q, mask);
      StuckTwice(sys.rings[q], sys1.rings[q], Final(sys1, evs[1..]).rings[q]);
    }
  }

  // ----- how a client gets there

  /** A request for `count` packets of any time and channel. */
  function Anything(count: int, mask: set<nat>, since: real): Req {
    Req(NEXT, count, mask, since, seq(NUMQ, _ => (0, 0)), ["?????"])
  }

  lemma WantsAll(count: int, mask: set<nat>, since: real, p: Packet)
    requires p.q < NUMQ && p.data.headerTime >= since
    ensures Wanted(Anything(count, mask, since), p)
  {
    assert Matches("?????", p.data.channel);
    assert Anything(count, mask, since).selectors[0] == "?????";
  }

  lemma {:induction false} Earliest(ps: seq<Packet>) returns (since: real)
    ensures forall k | 0 <= k < |ps| :: ps[k].data.headerTime >= since
  {
    if ps == [] {
      since := 0.0;
    } else {
      var t := Earliest(ps[1..]);
      since := if ps[0].data.headerTime < t then ps[0].data.headerTime else t;
      assert forall k | 1 <= k < |ps| :: ps[k] == ps[1..][k - 1];
    }
  }

  /** A request that wants everything takes as many packets as it asks for. */
  lemma {:induction false} TakenAll(rest: seq<seq<Packet>>, mask: set<nat>, want: Want, n: nat)
    requires n <= |Merge(rest, mask)| && forall k | 0 <= k < |Merge(rest, mask)| :: want(Merge(rest, mask)[k])
    ensures Taken(rest, mask, want, n) == Merge(rest, mask)[..n]
    decreases Total(rest)
  {
    match Best(rest, mask, |rest|)
    case None =>
    case Some(b) =>
      TotalDrop(rest, b);
      var p, more := rest[b][0], Merge(Pop(rest, b), mask);
      assert Merge(rest, mask) == [p] + more;
      if n > 0 {
        TakenTurn(rest, mask, want, n, b);
        assert want(Merge(rest, mask)[0]);
        assert forall k | 0 <= k < |more| :: more[k] == Merge(rest, mask)[k + 1];
        TakenAll(Pop(rest, b), mask, want, n - 1);
      }
  }

  /** Every packet of a selected queue has its place in the merge. */
  lemma {:induction false} MergeHas(rest: seq<seq<Packet>>, mask: set<nat>, q: nat, i: nat) returns (j: nat)
    requires q < |rest| && q in mask && i < |rest[q]|
    ensures j < |Merge(rest, mask)| && Merge(rest, mask)[j] == rest[q][i]
    decreases Total(rest)
  {
    BestIsLowest(rest, mask, |rest|);
    var b := Best(rest, mask, |rest|).value;
    TotalDrop(rest, b);
    if b == q && i == 0 {
      j := 0;
    } else {
      var k := MergeHas(Pop(rest, b), mask, q, if b == q then i - 1 else i);
      j := k + 1;
    }
  }

  lemma {:induction false} MergeTags(rest: seq<seq<Packet>>, mask: set<nat>)
    requires QueueTags(rest)
    ensures forall k | 0 <= k < |Merge(rest, mask)| :: Merge(rest, mask)[k].q < NUMQ
    decreases Total(rest)
  {
    match Best(rest, mask, |rest|)
    case None =>
    case Some(b) =>
      TotalDrop(rest, b);
      PopTags(rest, b);
      MergeTags(Pop(rest, b), mask);
  }

  /** The client has no cursors, and has got as far as `nd`, not beyond the first marked packet. */
  ghost predicate Behind(sys: Sys, c: nat, a: int, nd: int)
    requires Sound(sys) && c < |sys.clients|
  {
    && Marked(sys, c, a) && sys.clients[c].nextData == nd && 0 <= nd <= a
    && forall i | 0 <= i < NUMQ :: sys.clients[c].last[i] == Cursor(None, -1)
  }

  lemma NoAck(r: Ring, counter: int, c: nat, cur: Cursor)
    requires r.Valid(counter) && cur == Cursor(None, -1)
    ensures ScanRing(r, c, true, NEXT, 0, cur) == AckResult(r, r.tail, cur)
  {
    if r.tail != r.head {
      assert r.At(0) == r.tail && r.Live()[0] == r.slots[r.tail];
    }
  }

  /** Some request that wants everything ends with a given packet of a selected queue. */
  lemma TakeTo(rest: seq<seq<Packet>>, mask: set<nat>, q: nat, k: nat) returns (req: Req)
    requires QueueTags(rest) && q < NUMQ && q in mask && k < |rest[q]| && forall i | i in mask :: i < NUMQ
    ensures req.order == NEXT && req.mask == mask && req.WellFormed()
    ensures After(Taken(rest, mask, p => Wanted(req, p), req.count), 0) == rest[q][k].num + 1
  {
    hide Taken, Wanted, Merge;
    var j := MergeHas(rest, mask, q, k);
    var all := Merge(rest, mask);
    var since := Earliest(all);
    req := Anything(j + 1, mask, since);
    MergeTags(rest, mask);
    forall i | 0 <= i < |all|
      ensures Wanted(req, all[i])
    {
      WantsAll(j + 1, mask, since, all[i]);
    }
    TakenAll(rest, mask, p => Wanted(req, p), j + 1);
    assert all[..j + 1][j] == all[j];
  }

  lemma AllOwed(sys: Sys)
    requires Sound(sys)
    ensures QueueTags(Suffixes(sys, 0))
    ensures forall i | 0 <= i < NUMQ :: Suffixes(sys, 0)[i] == Packs(i, sys.rings[i].Live())
  {
    forall i | 0 <= i < NUMQ
      ensures Suffixes(sys, 0)[i] == Packs(i, sys.rings[i].Live())
    {
      OwedAbove(i, sys.rings[i].Live(), 0);
    }
  }

  /** From the very first number on, a request can take the client just past any packet that a
      selected queue holds. */
  lemma TakePast(sys: Sys, c: nat, a: int, q: nat, mask: set<nat>, k: nat) returns (req: Req)
    requires Sound(sys) && c < |sys.clients| && Behind(sys, c, a, 0)
    requires q < NUMQ && q in mask && (forall i | i in mask :: i < NUMQ)
    requires k < |sys.rings[q].Live()| && 0 <= sys.rings[q].Live()[k].packetNum < a
    ensures req.order == NEXT && req.mask == mask && req.WellFormed()
    ensures var sys' := Step(sys, Ask(c, req));
      sys'.rings == sys.rings && Behind(sys', c, a, sys.rings[q].Live()[k].packetNum + 1)
  {
    AllOwed(sys);
    hide Sound, Behind, Suffixes, Rests, Taken, Wanted;
    req := TakeTo(Suffixes(sys, 0), mask, q, k);
    AllRests(sys, c, req, a);
    RequestSound(sys, c, req);
    TakenPast(sys, c, req, a, sys.rings[q].Live()[k].packetNum + 1);
  }

  lemma AllRests(sys: Sys, c: nat, req: Req, a: int)
    requires Sound(sys) && c < |sys.clients| && Behind(sys, c, a, 0) && req.order == NEXT
    ensures Rests(sys, c, req) == Suffixes(sys, 0)
  {
    forall i | 0 <= i < NUMQ
      ensures ScanRest(sys, c, req, i) == Owed(i, sys.rings[i].Live(), 0)
    {
      NextScanExact(sys.rings[i], sys.nextData, i, c, true, 0, sys.clients[c].last[i]);
    }
  }

  lemma TakenPast(sys: Sys, c: nat, req: Req, a: int, nd: int)
    requires Sound(sys) && c < |sys.clients| && Behind(sys, c, a, 0) && req.order == NEXT
    requires After(Request(sys, c, req).taken, 0) == nd && 0 <= nd <= a && Sound(Request(sys, c, req).sys)
    ensures var sys' := Request(sys, c, req).sys; sys'.rings == sys.rings && Behind(sys', c, a, nd)
  {
    var sys' := Request(sys, c, req).sys;
    forall i | 0 <= i < NUMQ
      ensures sys'.rings[i] == sys.rings[i] && sys'.clients[c].last[i] == Cursor(None, -1)
    {
      NoAck(sys.rings[i], sys.nextData, c, sys.clients[c].last[i]);
    }
    assert sys'.rings == sys.rings;
  }

  /** The cursor is on the last unmarked packet of the queue. */
  ghost predicate Poised(sys: Sys, c: nat, a: int, q: nat, s: nat)
    requires Sound(sys) && c < |sys.clients| && q < NUMQ
  {
    Marked(sys, c, a) && OnLast(sys.rings[q], sys.clients[c].last[q], a, s)
  }

  ghost predicate OnLast(r: Ring, cur: Cursor, a: int, s: nat)
    requires r.Shape()
  {
    && s < |r.slots| && r.Dist(s) < r.Len() && r.slots[s].packetNum < a && cur == Cursor(Some(s), r.slots[s].packetNum)
    && forall k | r.Dist(s) < k < r.Len() :: a <= r.Live()[k].packetNum
  }

  lemma ScanBehind(r: Ring, counter: int, c: nat, nd: int, cur: Cursor, a: int)
    requires r.Valid(counter) && cur == Cursor(None, -1) && MarkedFrom(r.Live(), c, a) && nd <= a
    ensures var s := ScanRing(r, c, true, NEXT, nd, cur);
      s.ring.Shape() && SamePackets(r, s.ring) && MarkedFrom(s.ring.Live(), c, a)
  {
    ScanKeeps(r, counter, c, true, NEXT, nd, cur);
    SameMarked(r, ScanRing(r, c, true, NEXT, nd, cur).ring, counter, c, a);
  }

  /** A pass that starts at the oldest packet ends on packet `k` when that is the first one not
      below `nd`, and leaves the cursor there. */
  lemma ScanOnto(r: Ring, counter: int, c: nat, nd: int, cur: Cursor, k: nat)
    requires r.Valid(counter) && cur == Cursor(None, -1) && 1 <= k < r.Len()
    requires r.Live()[k - 1].packetNum < nd <= r.Live()[k].packetNum
    ensures ScanRing(r, c, true, NEXT, nd, cur).cursor == Cursor(Some(r.At(k)), r.Live()[k].packetNum)
  {
    var e := ScanRing(r, c, true, NEXT, nd, cur).scan;
    NextScanEnd(r, counter, c, true, nd, cur);
    assert r.Dist(e) == k && e == r.At(k);
    MovedFrom(r, counter, {c}, nd, cur);
  }

  /** A request for nothing puts the cursor on the packet that is next. */
  lemma AckOnto(sys: Sys, c: nat, a: int, q: nat, mask: set<nat>, k: nat)
    requires Sound(sys) && c < |sys.clients| && q < NUMQ && 1 <= k < sys.rings[q].Len()
    requires Behind(sys, c, a, sys.rings[q].Live()[k - 1].packetNum + 1) && sys.rings[q].Live()[k].packetNum < a
    requires forall j | k < j < sys.rings[q].Len() :: a <= sys.rings[q].Live()[j].packetNum
    requires forall i | i in mask :: i < NUMQ
    ensures Poised(Step(sys, Ask(c, Anything(0, mask, 0.0))), c, a, q, sys.rings[q].At(k))
  {
    var req := Anything(0, mask, 0.0);
    var nd, cur := sys.clients[c].nextData, sys.clients[c].last[q];
    forall i | 0 <= i < NUMQ
      ensures Scan(sys, c, req, i).ring.Shape() && SamePackets(sys.rings[i], Scan(sys, c, req, i).ring)
      ensures MarkedFrom(Scan(sys, c, req, i).ring.Live(), c, a)
    {
      ScanBehind(sys.rings[i], sys.nextData, c, nd, sys.clients[c].last[i], a);
    }
    ScanOnto(sys.rings[q], sys.nextData, c, nd, cur, k);
    SameOnLast(sys.rings[q], Scan(sys, c, req, q).ring, sys.nextData, Scan(sys, c, req, q).cursor, a, k);
  }

  lemma SameOnLast(r: Ring, r': Ring, counter: int, cur: Cursor, a: int, k: nat)
    requires r.Valid(counter) && r'.Shape() && SamePackets(r, r') && k < r.Len() && r.Live()[k].packetNum < a
    requires cur == Cursor(Some(r.At(k)), r.Live()[k].packetNum)
    requires forall j | k < j < r.Len() :: a <= r.Live()[j].packetNum
    ensures OnLast(r', cur, a, r.At(k))
  {
    SamePacketsValid(r, r', counter);
    assert r'.At(k) == r.At(k);
  }

  // ----- the other clients let go

  ghost predicate OnlyOf(r: Ring, who: set<nat>) {
    forall t | 0 <= t < |r.slots| :: r.slots[t].blockmap <= who
  }

  lemma StaysPoised(sys: Sys, d: nat, c: nat, a: int, q: nat, s: nat)
    requires Sound(sys) && c < |sys.clients| && q < NUMQ && d != c && Poised(sys, c, a, q, s)
    ensures Poised(Step(sys, Unblock(d)), c, a, q, s)
  {
    OtherStep(sys, Unblock(d), c, a);
    SamePacketsValid(sys.rings[q], Step(sys, Unblock(d)).rings[q], sys.nextData);
  }

  lemma {:induction false} FreeOthers(sys: Sys, c: nat, a: int, q: nat, s: nat, who: set<nat>, mask: set<nat>)
      returns (evs: seq<Event>)
    requires Sound(sys) && c < |sys.clients| && q < NUMQ && c !in who && Poised(sys, c, a, q, s)
    requires OnlyOf(sys.rings[q], who + {c})
    ensures RunOk(evs, |sys.clients|) && SteadyRun(evs, c, mask)
    ensures Poised(Final(sys, evs), c, a, q, s) && OnlyOf(Final(sys, evs).rings[q], {c})
    decreases |who|
  {
    hide Sound, Poised;
    if who == {} {
      evs := [];
      assert who + {c} == {c};
    } else {
      var d :| d in who;
      var sys1 := Step(sys, Unblock(d));
      StaysPoised(sys, d, c, a, q, s);
      FewerBits(sys, d, q, who + {c});
      assert who + {c} - {d} == (who - {d}) + {c};
      var more := FreeOthers(sys1, c, a, q, s, who - {d}, mask);
      evs := [Unblock(d)] + more;
      assert evs[1..] == more;
    }
  }

  lemma FewerBits(sys: Sys, d: nat, q: nat, who: set<nat>)
    requires Sound(sys) && q < NUMQ && OnlyOf(sys.rings[q], who)
    ensures OnlyOf(Step(sys, Unblock(d)).rings[q], who - {d})
  {
  }

  ghost function AllBits(slots: seq<Slot>): (who: set<nat>)
    ensures forall t | 0 <= t < |slots| :: slots[t].blockmap <= who
  {
    if slots == [] then {} else AllBits(slots[..|slots| - 1]) + slots[|slots| - 1].blockmap
  }

  // ----- the packet under the cursor is pushed out

  /** One more packet in a full queue pushes out the oldest one, which is under the cursor. */
  lemma PushLast(r: Ring, counter: int, c: nat, cur: Cursor, a: int, s: nat, mask: set<nat>, data: UserData)
    requires r.Valid(counter) && OnLast(r, cur, a, s) && c in mask && MarkedFrom(r.Live(), c, a) && a <= counter
    requires r.Len() == |r.slots| - 1 && r.Dist(s) == 0
    ensures WedgedRing(r.Put(mask, counter, data), cur, c)
  {
    PutLive(r, mask, counter, data);
    PutDist(r, mask, counter, data, s);
    PutMarked(r, mask, counter, data, c, a);
    var r' := r.Put(mask, counter, data);
    assert r.At(0) == r.tail == s;
    assert r'.At(0) == r'.tail == r'.Next(r'.head) && r'.Live()[0] == r'.slots[r'.tail];
  }

  /** In any other case it brings that one packet closer. */
  lemma PushFull(r: Ring, counter: int, cur: Cursor, a: int, s: nat, mask: set<nat>, data: UserData)
    requires r.Valid(counter) && OnLast(r, cur, a, s) && a <= counter
    requires forall k | 0 <= k <= r.Dist(s) :: r.Live()[k].blockmap == {}
    requires r.Len() == |r.slots| - 1 && r.Dist(s) > 0
    ensures var r' := r.Put(mask, counter, data);
      && OnLast(r', cur, a, s) && (forall k | 0 <= k <= r'.Dist(s) :: r'.Live()[k].blockmap == {})
      && Distance(r', s) < Distance(r, s)
  {
    PutLive(r, mask, counter, data);
    PutDist(r, mask, counter, data, s);
    assert r.Live()[1..][r.Dist(s) - 1] == r.Live()[r.Dist(s)];
  }

  lemma PushRoom(r: Ring, counter: int, cur: Cursor, a: int, s: nat, mask: set<nat>, data: UserData)
    requires r.Valid(counter) && OnLast(r, cur, a, s) && a <= counter
    requires forall k | 0 <= k <= r.Dist(s) :: r.Live()[k].blockmap == {}
    requires r.Len() < |r.slots| - 1
    ensures var r' := r.Put(mask, counter, data);
      && OnLast(r', cur, a, s) && (forall k | 0 <= k <= r'.Dist(s) :: r'.Live()[k].blockmap == {})
      && Distance(r', s) < Distance(r, s)
  {
    PutLive(r, mask, counter, data);
    PutDist(r, mask, counter, data, s);
  }

  /** Nobody waits for the packets up to the one under the cursor. */
  ghost predicate Loose(sys: Sys, c: nat, a: int, q: nat, s: nat)
    requires Sound(sys) && c < |sys.clients| && q < NUMQ
  {
    Poised(sys, c, a, q, s) && forall k | 0 <= k <= sys.rings[q].Dist(s) :: sys.rings[q].Live()[k].blockmap == {}
  }

  ghost function Distance(r: Ring, s: nat): int
    requires r.Shape() && s < |r.slots|
  {
    |r.slots| - r.Len() + r.Dist(s)
  }

  lemma PushStep(sys: Sys, c: nat, a: int, q: nat, s: nat, data: UserData)
    requires Sound(sys) && c < |sys.clients| && q < NUMQ && Loose(sys, c, a, q, s)
    ensures s < |sys.rings[q].slots| && |Step(sys, Store(q, data)).rings| == NUMQ
    ensures var sys1 := Step(sys, Store(q, data));
      || Wedged(sys1, c, q)
      || (Loose(sys1, c, a, q, s) && 0 <= Distance(sys1.rings[q], s) < Distance(sys.rings[q], s))
  {
    var r, cur := sys.rings[q], sys.clients[c].last[q];
    AvailMeaning(r, sys.nextData);
    StoreMarked(sys, q, data, c, a);
    if r.Len() == |r.slots| - 1 && r.Dist(s) == 0 {
      PushLast(r, sys.nextData, c, cur, a, s, sys.blockmask, data);
    } else if r.Len() < |r.slots| - 1 {
      PushRoom(r, sys.nextData, cur, a, s, sys.blockmask, data);
    } else {
      PushFull(r, sys.nextData, cur, a, s, sys.blockmask, data);
    }
  }

  lemma {:induction false} PushOut(sys: Sys, c: nat, a: int, q: nat, s: nat, data: UserData, mask: set<nat>, n: nat)
      returns (evs: seq<Event>)
    requires Sound(sys) && c < |sys.clients| && q < NUMQ && Loose(sys, c, a, q, s)
    requires |sys.rings| == NUMQ && s < |sys.rings[q].slots| && Distance(sys.rings[q], s) == n
    ensures RunOk(evs, |sys.clients|) && SteadyRun(evs, c, mask)
    ensures Wedged(Final(sys, evs), c, q)
    decreases n
  {
    hide Sound, Loose, Wedged, Step, Distance;
    var sys1 := Step(sys, Store(q, data));
    PushStep(sys, c, a, q, s, data);
    evs := [Store(q, data)];
    assert evs[1..] == [];
    if !Wedged(sys1, c, q) {
      SixRings(sys1);
      LooseIn(sys1, c, a, q, s);
      var more := PushOut(sys1, c, a, q, s, data, mask, Distance(sys1.rings[q], s));
      evs := [Store(q, data)] + more;
      assert evs[1..] == more;
    }
  }

  lemma LooseIn(sys: Sys, c: nat, a: int, q: nat, s: nat)
    requires Sound(sys) && c < |sys.clients| && q < NUMQ && Loose(sys, c, a, q, s)
    ensures |sys.rings| == NUMQ && s < |sys.rings[q].slots| && 0 <= Distance(sys.rings[q], s)
  {
  }

  // ----- when it happens

  /** The queue holds two packets below `a`. */
  ghost predicate TwoBelow(live: seq<Slot>, a: int) {
    2 <= |live| && live[1].packetNum < a
  }

  lemma {:induction false} LastBelow(live: seq<Slot>, a: int, n: nat) returns (k: nat)
    requires 1 <= n < |live| && live[n].packetNum < a
    ensures n <= k < |live| && live[k].packetNum < a && (k + 1 < |live| ==> a <= live[k + 1].packetNum)
    decreases |live| - n
  {
    k := n;
    if n + 1 < |live| && live[n + 1].packetNum < a {
      k := LastBelow(live, a, n + 1);
    }
  }

  lemma UnmarkedFree(r: Ring, c: nat, a: int, k: nat)
    requires r.Shape() && MarkedFrom(r.Live(), c, a) && OnlyOf(r, {c}) && k < |r.Live()| && r.Live()[k].packetNum < a
    ensures r.Live()[k].blockmap == {}
  {
    assert r.Live()[k] == r.slots[r.At(k)];
  }

  /** Once the cursor is on the last unmarked packet the other clients and the digitizer do the
      rest. */
  lemma PoisedWedges(sys: Sys, c: nat, a: int, q: nat, s: nat, data: UserData, mask: set<nat>) returns (evs: seq<Event>)
    requires Sound(sys) && c < |sys.clients| && q < NUMQ && Poised(sys, c, a, q, s)
    ensures RunOk(evs, |sys.clients|) && SteadyRun(evs, c, mask)
    ensures Wedged(Final(sys, evs), c, q)
  {
    hide Sound, Poised, Wedged, Final, OnlyOf;
    SixRings(sys);
    var who := AllBits(sys.rings[q].slots) - {c};
    OnlyAll(sys.rings[q], c);
    var free := FreeOthers(sys, c, a, q, s, who, mask);
    var sys1 := Final(sys, free);
    PoisedFree(sys1, c, a, q, s);
    SixRings(sys1);
    LooseIn(sys1, c, a, q, s);
    var push := PushOut(sys1, c, a, q, s, data, mask, Distance(sys1.rings[q], s));
    FinalAppend(sys, free, push, mask, c);
    evs := free + push;
  }

  lemma SixRings(sys: Sys)
    requires Sound(sys)
    ensures |sys.rings| == NUMQ && forall i | 0 <= i < NUMQ :: sys.rings[i].Shape()
    ensures forall c | 0 <= c < |sys.clients| :: |sys.clients[c].last| == NUMQ
  {
  }

  lemma OnlyAll(r: Ring, c: nat)
    ensures OnlyOf(r, AllBits(r.slots) - {c} + {c})
  {
  }

  lemma PoisedFree(sys: Sys, c: nat, a: int, q: nat, s: nat)
    requires Sound(sys) && c < |sys.clients| && q < NUMQ && Poised(sys, c, a, q, s) && OnlyOf(sys.rings[q], {c})
    ensures Loose(sys, c, a, q, s)
  {
    var r := sys.rings[q];
    assert r.At(r.Dist(s)) == s && r.Live()[r.Dist(s)] == r.slots[s];
    forall k | 0 <= k <= r.Dist(s)
      ensures r.Live()[k].blockmap == {}
    {
      UnmarkedFree(r, c, a, k);
    }
  }

  lemma FinalTwo(sys: Sys, e1: Event, e2: Event)
    requires Sound(sys) && EventOk(e1, |sys.clients|) && EventOk(e2, |sys.clients|)
    ensures Final(sys, [e1, e2]) == Step(Step(sys, e1), e2)
  {
    hide Sound, Step, EventOk;
    assert [e1, e2][1..] == [e2] && [e2][1..] == [];
    assert Final(Step(sys, e1), [e2]) == Final(Step(Step(sys, e1), e2), []);
  }

  lemma LastTwo(sys: Sys, q: nat, a: int) returns (k: nat)
    requires Sound(sys) && q < NUMQ && TwoBelow(sys.rings[q].Live(), a)
    ensures |sys.rings| == NUMQ && sys.rings[q].Shape()
    ensures var live := sys.rings[q].Live();
      && 1 <= k < |live| && 0 <= live[k - 1].packetNum < a && live[k].packetNum < a
      && forall j | k < j < |live| :: a <= live[j].packetNum
  {
    assert sys.rings[q].Valid(sys.nextData);
    k := LastBelow(sys.rings[q].Live(), a, 1);
  }

  lemma LatePoised(sys: Sys, c: nat, a: int, q: nat, mask: set<nat>) returns (asks: seq<Event>, s: nat)
    requires Sound(sys) && c < |sys.clients| && Behind(sys, c, a, 0) && q < NUMQ && q in mask
    requires (forall i | i in mask :: i < NUMQ) && TwoBelow(sys.rings[q].Live(), a)
    ensures RunOk(asks, |sys.clients|) && SteadyRun(asks, c, mask)
    ensures Poised(Final(sys, asks), c, a, q, s)
  {
    hide Sound, Behind, Poised, Step, TwoBelow;
    var k := LastTwo(sys, q, a);
    var take := TakePast(sys, c, a, q, mask, k - 1);
    var sys1 := Step(sys, Ask(c, take));
    AckOnto(sys1, c, a, q, mask, k);
    var none := Anything(0, mask, 0.0);
    asks, s := [Ask(c, take), Ask(c, none)], sys1.rings[q].At(k);
    FinalTwo(sys, Ask(c, take), Ask(c, none));
  }

  /** A client that continues from an empty answer can get wedged on a selected queue that holds
      two packets from before it began to block. */
  lemma LateWedges(sys: Sys, c: nat, a: int, q: nat, mask: set<nat>, data: UserData) returns (evs: seq<Event>)
    requires Sound(sys) && c < |sys.clients| && Behind(sys, c, a, 0) && q < NUMQ && q in mask
    requires (forall i | i in mask :: i < NUMQ) && TwoBelow(sys.rings[q].Live(), a)
    ensures RunOk(evs, |sys.clients|) && SteadyRun(evs, c, mask)
    ensures Wedged(Final(sys, evs), c, q)
  {
    hide Sound, Behind, Poised, Wedged, Step, Final, TwoBelow;
    var asks, s := LatePoised(sys, c, a, q, mask);
    var more := PoisedWedges(Final(sys, asks), c, a, q, s, data, mask);
    FinalAppend(sys, asks, more, mask, c);
    evs := asks + more;
  }

  /** What keeps a client off the head of a queue: the packets from `a` on are marked, the cursor
      is not on one below, and as long as the client is below `a` there is at most one. */
  ghost predicate Clear(sys: Sys, c: nat, q: nat, a: int)
    requires Sound(sys) && c < |sys.clients| && q < NUMQ
  {
    && sys.clients[c].blocking && c in sys.blockmask && a <= sys.nextData && sys.clients[c].nextData <= sys.nextData
    && ClearRing(sys.rings[q], sys.clients[c].last[q], c, a, sys.clients[c].nextData)
  }

  ghost predicate ClearRing(r: Ring, cur: Cursor, c: nat, a: int, nd: int)
    requires r.Shape()
  {
    MarkedFrom(r.Live(), c, a) && CursorAt(r, cur, a) && (nd < a ==> !TwoBelow(r.Live(), a))
  }

  lemma ClearNotWedged(r: Ring, counter: int, cur: Cursor, c: nat, a: int, nd: int)
    requires r.Valid(counter) && ClearRing(r, cur, c, a, nd)
    ensures !WedgedRing(r, cur, c)
  {
    if c in r.slots[r.Next(r.head)].blockmap {
      BlockedIsLive(r, counter, r.Next(r.head));
    }
  }

  lemma BlockedIsLive(r: Ring, counter: int, t: nat)
    requires r.Valid(counter) && t < |r.slots| && r.slots[t].blockmap != {}
    ensures r.Dist(t) < r.Len() && r.Live()[r.Dist(t)] == r.slots[t]
  {
    assert r.At(r.Dist(t)) == t;
  }

  lemma SameClear(r: Ring, r': Ring, counter: int, cur: Cursor, c: nat, a: int, nd: int)
    requires r.Valid(counter) && r'.Shape() && SamePackets(r, r') && ClearRing(r, cur, c, a, nd)
    requires forall t | 0 <= t < |r.slots| && a <= r.slots[t].packetNum ::
      c in r.slots[t].blockmap ==> c in r'.slots[t].blockmap
    ensures ClearRing(r', cur, c, a, nd)
  {
    SamePacketsValid(r, r', counter);
    SameMarked(r, r', counter, c, a);
    SameCursorAt(r, r', counter, cur, a);
  }

  /** A pass below `a` does not leave the cursor below `a`. */
  lemma ScanClear(r: Ring, counter: int, c: nat, nd: int, cur: Cursor, a: int, nd': int)
    requires r.Valid(counter) && CursorSound(r, cur, nd, counter) && ClearRing(r, cur, c, a, nd) && nd < a && nd <= nd'
    ensures var s := ScanRing(r, c, true, NEXT, nd, cur);
      s.ring.Shape() && ClearRing(s.ring, s.cursor, c, a, nd')
  {
    hide MarkedFrom, CursorAt;
    var s := ScanRing(r, c, true, NEXT, nd, cur);
    ScanKeeps(r, counter, c, true, NEXT, nd, cur);
    ScanCursor(r, counter, c, nd, cur, a);
    SameClear(r, s.ring, counter, s.cursor, c, a, nd');
  }

  lemma ScanCursor(r: Ring, counter: int, c: nat, nd: int, cur: Cursor, a: int)
    requires r.Valid(counter) && CursorSound(r, cur, nd, counter) && CursorAt(r, cur, a) && !TwoBelow(r.Live(), a)
    requires nd < a
    ensures CursorAt(r, ScanRing(r, c, true, NEXT, nd, cur).cursor, a)
  {
    var s := r.AckStart(cur);
    var e := r.Ack({c}, nd, s, cur).scan;
    AckMeaning(r, {c}, nd, s, cur);
    if e != s {
      MovedFrom(r, counter, {c}, nd, cur);
      PastOne(r, e, nd, a);
    }
  }

  lemma PastOne(r: Ring, e: nat, nd: int, a: int)
    requires r.Shape() && e < |r.slots| && 0 < r.Dist(e) <= r.Len() && PassedBefore(r, e, nd) && nd < a
    requires !TwoBelow(r.Live(), a)
    requires forall i, j | 0 <= i < j < |r.Live()| :: r.Live()[i].packetNum < r.Live()[j].packetNum
    ensures PassedBefore(r, e, a) && (e != r.head ==> a <= r.slots[e].packetNum)
  {
    if e != r.head {
      assert r.At(r.Dist(e)) == e && r.Live()[r.Dist(e)] == r.slots[e];
    }
  }

  lemma NextClear(r: Ring, counter: int, c: nat, nd: int, cur: Cursor, a: int, nd': int)
    requires r.Valid(counter) && CursorSound(r, cur, nd, counter) && ClearRing(r, cur, c, a, nd) && a <= nd <= nd'
    ensures var s := ScanRing(r, c, true, NEXT, nd, cur);
      s.ring.Shape() && ClearRing(s.ring, s.cursor, c, nd, nd')
  {
    NextCursorAt(r, counter, c, nd, cur, a);
    NextMarked(r, counter, c, nd, cur, a);
  }

  lemma PutClear(r: Ring, blockmask: set<nat>, counter: int, data: UserData, cur: Cursor, c: nat, a: int, nd: int)
    requires r.Valid(counter) && r.Avail() && CursorSound(r, cur, nd, counter) && ClearRing(r, cur, c, a, nd)
    requires c in blockmask && a <= counter
    ensures ClearRing(r.Put(blockmask, counter, data), cur, c, a, nd)
  {
    PutMarked(r, blockmask, counter, data, c, a);
    PutCursorAt(r, blockmask, counter, data, cur, c, a);
    PutLive(r, blockmask, counter, data);
  }

  lemma FromBelow(r: Ring, counter: int, i: nat, s: nat)
    requires r.Valid(counter) && s < |r.slots|
    ensures forall k | 0 <= k < |r.From(i, s)| :: r.From(i, s)[k].num < counter
  {
  }

  /** No request takes a client past the packets there are. */
  lemma RequestBelow(sys: Sys, c: nat, req: Req)
    requires Sound(sys) && c < |sys.clients| && sys.clients[c].nextData <= sys.nextData && req.order == NEXT
    ensures Request(sys, c, req).sys.clients[c].nextData <= sys.nextData
  {
    var rest: seq<seq<Packet>> := Rests(sys, c, req);
    RequestSame(sys, c, req);
    SameRingsSound(sys, Request(sys, c, req).sys);
    forall i | 0 <= i < NUMQ
      ensures forall k | 0 <= k < |rest[i]| :: rest[i][k].num < sys.nextData
    {
      ScanInRange(sys, c, req, i);
      FromBelow(Request(sys, c, req).sys.rings[i], sys.nextData, i, Scan(sys, c, req, i).scan);
    }
    TakenBelow(rest, req.mask, p => Wanted(req, p), req.count, sys.nextData);
  }

  lemma AskClear(sys: Sys, c: nat, req: Req, q: nat, a: int) returns (a': int)
    requires Sound(sys) && c < |sys.clients| && q < NUMQ && Clear(sys, c, q, a) && req.order == NEXT
    ensures Sound(Request(sys, c, req).sys) && Clear(Request(sys, c, req).sys, c, q, a')
    ensures a' == if sys.clients[c].nextData < a then a else sys.clients[c].nextData
  {
    var sys', cl := Request(sys, c, req).sys, sys.clients[c];
    RequestSound(sys, c, req);
    RequestInOrder(sys, c, req);
    RequestBelow(sys, c, req);
    var nd' := sys'.clients[c].nextData;
    assert CursorSound(sys.rings[q], cl.last[q], cl.nextData, sys.nextData);
    if cl.nextData < a {
      a' := a;
      ScanClear(sys.rings[q], sys.nextData, c, cl.nextData, cl.last[q], a, nd');
    } else {
      a' := cl.nextData;
      NextClear(sys.rings[q], sys.nextData, c, cl.nextData, cl.last[q], a, nd');
    }
    assert sys'.rings[q] == Scan(sys, c, req, q).ring;
  }

  lemma OthersClear(sys: Sys, sys': Sys, c: nat, q: nat, a: int)
    requires Sound(sys) && Sound(sys') && c < |sys.clients| && q < NUMQ && OthersOnly(sys, sys', c)
    requires Clear(sys, c, q, a)
    requires sys'.clients[c] == sys.clients[c]
    ensures Clear(sys', c, q, a)
  {
    SameClear(sys.rings[q], sys'.rings[q], sys.nextData, sys.clients[c].last[q], c, a, sys.clients[c].nextData);
  }

  /** The number below which the client has acknowledged, after an event. */
  function AckedTo(sys: Sys, ev: Event, c: nat, a: int): int
    requires c < |sys.clients|
  {
    if ev.Ask? && ev.c == c && a <= sys.clients[c].nextData then sys.clients[c].nextData else a
  }

  lemma StepClear(sys: Sys, ev: Event, c: nat, q: nat, a: int, mask: set<nat>) returns (a': int)
    requires Sound(sys) && EventOk(ev, |sys.clients|) && c < |sys.clients| && q < NUMQ
    requires Clear(sys, c, q, a) && Steady(ev, c, mask)
    ensures Clear(Step(sys, ev), c, q, a') && a' == AckedTo(sys, ev, c, a)
  {
    hide Sound, ClearRing, OthersOnly;
    a' := a;
    if ev.Store? {
      StoreClear(sys, ev.q, ev.data, c, q, a);
    } else if ev.Ask? && ev.c == c {
      a' := AskClear(sys, c, ev.req, q, a);
    } else {
      OthersStep(sys, ev, c);
      OthersClear(sys, Step(sys, ev), c, q, a);
    }
  }

  lemma StoreClear(sys: Sys, p: nat, data: UserData, c: nat, q: nat, a: int)
    requires Sound(sys) && p < NUMQ && c < |sys.clients| && q < NUMQ && Clear(sys, c, q, a)
    ensures Sound(StorePacket(sys, p, data)) && Clear(StorePacket(sys, p, data), c, q, a)
  {
    var r, cl := sys.rings[q], sys.clients[c];
    StoreSound(sys, p, data);
    if p == q && r.Avail() {
      PutClear(r, sys.blockmask, sys.nextData, data, cl.last[q], c, a, cl.nextData);
    }
  }

  lemma {:induction false} StaysClear(sys: Sys, evs: seq<Event>, c: nat, q: nat, a: int, mask: set<nat>)
      returns (a': int)
    requires Sound(sys) && RunOk(evs, |sys.clients|) && c < |sys.clients| && q < NUMQ
    requires Clear(sys, c, q, a) && SteadyRun(evs, c, mask)
    ensures Clear(Final(sys, evs), c, q, a')
    decreases |evs|
  {
    hide Sound, Clear, Step, EventOk, Steady;
    a' := a;
    if evs != [] {
      a' := StepClear(sys, evs[0], c, q, a, mask);
      a' := StaysClear(Step(sys, evs[0]), evs[1..], c, q, a', mask);
    }
  }

  /** Whether some steady run wedges the client on a queue. */
  ghost predicate MayWedge(sys: Sys, c: nat, q: nat, mask: set<nat>)
    requires Sound(sys) && c < |sys.clients| && q < NUMQ
  {
    exists evs: seq<Event> :: RunOk(evs, |sys.clients|) && SteadyRun(evs, c, mask) && Wedged(Final(sys, evs), c, q)
  }

  /** A client whose answer to CSQ_FIRST considered nothing, so that it goes on from the very first
      number, can get wedged on a selected queue exactly when that holds at least two packets from
      before it began to block. */
  lemma WedgeExact(sys: Sys, c: nat, a: int, q: nat, mask: set<nat>, data: UserData)
    requires Sound(sys) && c < |sys.clients| && Behind(sys, c, a, 0) && q < NUMQ && q in mask
    requires forall i | i in mask :: i < NUMQ
    ensures MayWedge(sys, c, q, mask) <==> TwoBelow(sys.rings[q].Live(), a)
  {
    if TwoBelow(sys.rings[q].Live(), a) {
      var evs := LateWedges(sys, c, a, q, mask, data);
    } else if MayWedge(sys, c, q, mask) {
      var evs: seq<Event> :| RunOk(evs, |sys.clients|) && SteadyRun(evs, c, mask) && Wedged(Final(sys, evs), c, q);
      var a' := StaysClear(sys, evs, c, q, a, mask);
      var end := Final(sys, evs);
      ClearNotWedged(end.rings[q], end.nextData, end.clients[c].last[q], c, a', end.clients[c].nextData);
    }
  }

  /** A client that is covered, as after an answer to CSQ_FIRST that considered a packet, never
      gets wedged on any queue. */
  lemma CoveredNeverWedged(sys: Sys, c: nat, a: int, q: nat, mask: set<nat>)
    requires Sound(sys) && c < |sys.clients| && Covered(sys, c, a) && q < NUMQ
    ensures !MayWedge(sys, c, q, mask)
  {
    if MayWedge(sys, c, q, mask) {
      var evs: seq<Event> :| RunOk(evs, |sys.clients|) && SteadyRun(evs, c, mask) && Wedged(Final(sys, evs), c, q);
      var a' := StaysClear(sys, evs, c, q, a, mask);
      var end := Final(sys, evs);
      ClearNotWedged(end.rings[q], end.nextData, end.clients[c].last[q], c, a', end.clients[c].nextData);
    }
  }

  // ----- it does happen

  /** Two packets in a queue that was empty and has room for them. */
  lemma TwoStored(sys: Sys, c: nat, q: nat, data: UserData)
    requires Fresh(sys) && c < |sys.clients| && q < NUMQ && c !in sys.blockmask && 3 <= |sys.rings[q].slots|
    ensures var sys' := Final(sys, [Store(q, data), Store(q, data)]);
      sys'.nextData == 2 && Off(sys', c) && TwoBelow(sys'.rings[q].Live(), 2)
  {
    var r := sys.rings[q];
    var r1 := r.Put(sys.blockmask, 0, data);
    AvailMeaning(r, 0);
    PutLive(r, sys.blockmask, 0, data);
    PutValid(r, sys.blockmask, 0, data);
    AvailMeaning(r1, 1);
    PutLive(r1, sys.blockmask, 1, data);
    StaysOff(sys, [Store(q, data), Store(q, data)], c);
    FinalTwo(sys, Store(q, data), Store(q, data));
  }

  /** A packet of the queue waits for the client. */
  ghost predicate SomeWaits(r: Ring, c: nat)
    requires r.Shape()
  {
    exists k :: 0 <= k < |r.Live()| && c in r.Live()[k].blockmap
  }

  lemma WedgedWaits(sys: Sys, c: nat, q: nat)
    requires Sound(sys) && c < |sys.clients| && q < NUMQ && Wedged(sys, c, q)
    ensures SomeWaits(sys.rings[q], c)
  {
    var r := sys.rings[q];
    BlockedIsLive(r, sys.nextData, r.Next(r.head));
    assert c in r.Live()[r.Dist(r.Next(r.head))].blockmap;
  }

  /** On every server that starts with a queue of three or more elements a client can begin to
      block, get an empty answer to CSQ_FIRST, continue, and be wedged: packets that wait for it
      are in the queue, and it will never be served another one from there (`WedgeStays`). */
  lemma WedgedQueue(sys: Sys, c: nat, q: nat, mask: set<nat>, first: Req, data: UserData) returns (after: seq<Event>)
    requires Fresh(sys) && c < |sys.clients| && c !in sys.blockmask && q < NUMQ && q in mask
    requires 3 <= |sys.rings[q].slots| && first.WellFormed() && first.order == FIRST && first.mask == mask
    ensures var early := Final(sys, [Store(q, data), Store(q, data)]);
      var began := Step(early, Block(c));
      var asked := Step(began, Ask(c, first));
      && NotBlocking([Store(q, data), Store(q, data)], c) && ServedBy(began, Ask(c, first), c) == []
      && RunOk(after, |sys.clients|) && SteadyRun(after, c, mask) && Wedged(Final(asked, after), c, q)
      && SomeWaits(Final(asked, after).rings[q], c)
  {
    var early := Final(sys, [Store(q, data), Store(q, data)]);
    TwoStored(sys, c, q, data);
    BlockMarks(early, c, mask);
    var began := Step(early, Block(c));
    FirstExact(began, c, first, 2);
    FirstKeeps(began, c, first);
    SameRingsMarked(began, Request(began, c, first).sys, c, 2, mask, 2);
    var asked := Step(began, Ask(c, first));
    assert Behind(asked, c, 2, 0);
    after := LateWedges(asked, c, 2, q, mask, data);
    WedgedWaits(Final(asked, after), c, q);
  }
}
