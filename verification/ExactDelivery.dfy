/** Exactly-once, in-order delivery to a blocking client, over whole runs. */
module ExactDelivery {
  import opened Options
  import opened RingModel
  import opened ServerModel
  import opened Delivery
  import opened DeliveryRuns

  /** What happens to a server: a packet arrives, a client asks for data, a client is made
      blocking or non-blocking when it attaches, or its packets are unblocked. */
  datatype Event =
    | Store(q: nat, data: UserData)
    | Ask(c: nat, req: Req)
    | Block(c: nat)
    | NoBlock(c: nat)
    | Unblock(c: nat)

  ghost predicate EventOk(ev: Event, clients: nat) {
    match ev
    case Store(q, _) => q < NUMQ
    case Ask(c, req) => c < clients && req.WellFormed()
    case Block(c) => c < clients
    case NoBlock(c) => c < clients
    case Unblock(c) => true
  }

  function SetBlocking(sys: Sys, c: nat, on: bool): Sys
    requires c < |sys.clients|
  {
    sys.(clients := sys.clients[c := sys.clients[c].(blocking := on)],
         blockmask := if on then sys.blockmask + {c} else sys.blockmask - {c})
  }

  ghost function Step(sys: Sys, ev: Event): (sys': Sys)
    requires Sound(sys) && EventOk(ev, |sys.clients|)
    ensures Sound(sys') && |sys'.clients| == |sys.clients|
  {
    match ev
    case Store(q, data) => StoreSound(sys, q, data); StorePacket(sys, q, data)
    case Ask(c, req) => RequestSound(sys, c, req); Request(sys, c, req).sys
    case Block(c) => SetBlocking(sys, c, true)
    case NoBlock(c) => UnblockSound(sys, c); SetBlocking(UnblockClient(sys, c), c, false)
    case Unblock(c) => UnblockSound(sys, c); UnblockClient(sys, c).(blockmask := sys.blockmask - {c})
  }

  ghost predicate RunOk(evs: seq<Event>, clients: nat) {
    forall k | 0 <= k < |evs| :: EventOk(evs[k], clients)
  }

  ghost function Final(sys: Sys, evs: seq<Event>): (sys': Sys)
    requires Sound(sys) && RunOk(evs, |sys.clients|)
    decreases |evs|
    ensures Sound(sys') && |sys'.clients| == |sys.clients|
  {
    if evs == [] then sys else Final(Step(sys, evs[0]), evs[1..])
  }

  /** The packets of selected queues that a run stores, in the order stored. */
  ghost function Stored(sys: Sys, evs: seq<Event>, mask: set<nat>): seq<Packet>
    requires Sound(sys) && RunOk(evs, |sys.clients|)
    decreases |evs|
  {
    if evs == [] then []
    else StoredBy(sys, evs[0], mask) + Stored(Step(sys, evs[0]), evs[1..], mask)
  }

  ghost function StoredBy(sys: Sys, ev: Event, mask: set<nat>): seq<Packet>
    requires Sound(sys) && EventOk(ev, |sys.clients|)
  {
    if ev.Store? && ev.q in mask && sys.rings[ev.q].Avail() then [Packet(ev.q, sys.nextData, ev.data)] else []
  }

  /** The packets client `c` is served over a run, in the order served. */
  ghost function Served(sys: Sys, evs: seq<Event>, c: nat): seq<Packet>
    requires Sound(sys) && RunOk(evs, |sys.clients|)
    decreases |evs|
  {
    if evs == [] then [] else ServedBy(sys, evs[0], c) + Served(Step(sys, evs[0]), evs[1..], c)
  }

  ghost function ServedBy(sys: Sys, ev: Event, c: nat): seq<Packet>
    requires Sound(sys) && EventOk(ev, |sys.clients|)
  {
    if ev.Ask? && ev.c == c then Request(sys, c, ev.req).taken else []
  }

  /** The packets not below `nd` that the selected queues hold, in order. */
  ghost function Pending(sys: Sys, mask: set<nat>, nd: int): seq<Packet>
    requires Sound(sys)
  {
    Merge(Suffixes(sys, nd), mask)
  }

  ghost function Suffixes(sys: Sys, nd: int): (s: seq<seq<Packet>>)
    requires Sound(sys)
    ensures |s| == NUMQ
  {
    seq(NUMQ, i requires 0 <= i < NUMQ => Owed(i, sys.rings[i].Live(), nd))
  }

  // ----- the invariant of a blocking client

  ghost predicate MarkedFrom(live: seq<Slot>, c: nat, a: int) {
    forall k | 0 <= k < |live| :: c in live[k].blockmap <==> a <= live[k].packetNum
  }

  /** The client blocks, and exactly the live packets from `a` on carry its bit. */
  ghost predicate Marked(sys: Sys, c: nat, a: int)
    requires Sound(sys) && c < |sys.clients|
  {
    && sys.clients[c].blocking && c in sys.blockmask && a <= sys.nextData
    && forall i | 0 <= i < NUMQ :: MarkedFrom(sys.rings[i].Live(), c, a)
  }

  /** A cursor that still shows its packet is at the first packet not below `a`. */
  ghost predicate CursorAt(r: Ring, cur: Cursor, a: int)
    requires r.Shape()
  {
    cur.scan.Some? ==>
      cur.scan.value < |r.slots| && r.Dist(cur.scan.value) <= r.Len() &&
      (r.slots[cur.scan.value].packetNum == cur.packet ==>
         PassedBefore(r, cur.scan.value, a) &&
         (cur.scan.value != r.head ==> a <= r.slots[cur.scan.value].packetNum))
  }

  /** `a` is the number below which the client has acknowledged. */
  ghost predicate Covered(sys: Sys, c: nat, a: int)
    requires Sound(sys) && c < |sys.clients|
  {
    && Marked(sys, c, a) && a <= sys.clients[c].nextData <= sys.nextData
    && forall i | 0 <= i < NUMQ :: CursorAt(sys.rings[i], sys.clients[c].last[i], a)
  }

  // ----- storing

  /** A packet that still carries the client's bit is not discarded. */
  lemma DiscardedBelow(r: Ring, counter: int, c: nat, a: int)
    requires r.Valid(counter) && r.Avail() && MarkedFrom(r.Live(), c, a) && r.Len() == |r.slots| - 1
    ensures r.Live()[0].packetNum < a
  {
    AvailMeaning(r, counter);
  }

  lemma PutMarked(r: Ring, blockmask: set<nat>, counter: int, data: UserData, c: nat, a: int)
    requires r.Shape() && MarkedFrom(r.Live(), c, a) && c in blockmask && a <= counter
    ensures MarkedFrom(r.Put(blockmask, counter, data).Live(), c, a)
  {
    PutLive(r, blockmask, counter, data);
  }

  lemma PutCursorAt(r: Ring, blockmask: set<nat>, counter: int, data: UserData, cur: Cursor, c: nat, a: int)
    requires r.Valid(counter) && r.Avail() && MarkedFrom(r.Live(), c, a) && a <= counter
    requires CursorAt(r, cur, a) && (cur.scan.Some? ==> cur.packet < counter)
    ensures CursorAt(r.Put(blockmask, counter, data), cur, a)
  {
    if cur.scan.Some? {
      var s := cur.scan.value;
      PutDist(r, blockmask, counter, data, s);
      if s != r.head && r.slots[s].packetNum == cur.packet {
        if r.Len() == |r.slots| - 1 {
          DiscardedBelow(r, counter, c, a);
          assert r.At(0) == r.tail;
        }
        PutPassed(r, blockmask, counter, data, s, a);
      }
    }
  }

  lemma PutOwed(r: Ring, blockmask: set<nat>, counter: int, data: UserData, c: nat, a: int, i: nat, nd: int)
    requires r.Valid(counter) && r.Avail() && MarkedFrom(r.Live(), c, a) && a <= nd <= counter
    ensures Owed(i, r.Put(blockmask, counter, data).Live(), nd)
      == Owed(i, r.Live(), nd) + [Packet(i, counter, data)]
  {
    PutLive(r, blockmask, counter, data);
    var fresh_ := Slot(blockmask, counter, data);
    if r.Len() == |r.slots| - 1 {
      DiscardedBelow(r, counter, c, a);
      OwedAppend(i, r.Live()[1..], [fresh_], nd);
    } else {
      OwedAppend(i, r.Live(), [fresh_], nd);
    }
    assert Owed(i, [fresh_], nd) == [Packet(i, counter, data)];
  }

  lemma {:induction false} OwedFrom(i: nat, l: seq<Slot>, nd: int, counter: int)
    requires forall k | 0 <= k < |l| :: l[k].packetNum < counter
    ensures forall k | 0 <= k < |Owed(i, l, nd)| :: Owed(i, l, nd)[k].num < counter
  {
    if l != [] {
      OwedFrom(i, l[1..], nd, counter);
    }
  }

  /** A stored packet of a selected queue is owed, behind everything owed before. */
  lemma StorePending(sys: Sys, q: nat, data: UserData, c: nat, a: int, mask: set<nat>, nd: int)
    requires Sound(sys) && q < NUMQ && c < |sys.clients| && a <= nd <= sys.nextData
    requires q in mask ==> MarkedFrom(sys.rings[q].Live(), c, a)
    ensures var sys' := Step(sys, Store(q, data));
      Pending(sys', mask, nd) == Pending(sys, mask, nd) + StoredBy(sys, Store(q, data), mask)
  {
    var sys' := Step(sys, Store(q, data));
    var rest, rest' := Suffixes(sys, nd), Suffixes(sys', nd);
    if sys.rings[q].Avail() {
      var p := Packet(q, sys.nextData, data);
      if q in mask {
        PutOwed(sys.rings[q], sys.blockmask, sys.nextData, data, c, a, q, nd);
        assert rest' == rest[q := rest[q] + [p]];
        forall i | 0 <= i < NUMQ
          ensures forall k | 0 <= k < |rest[i]| :: rest[i][k].num < p.num
        {
          OwedFrom(i, sys.rings[i].Live(), nd, sys.nextData);
        }
        MergeAppend(rest, mask, q, p);
      } else {
        MergeSelected(rest, rest', mask);
      }
    }
  }

  lemma StoreMarked(sys: Sys, q: nat, data: UserData, c: nat, a: int)
    requires Sound(sys) && q < NUMQ && c < |sys.clients| && Marked(sys, c, a)
    ensures Marked(Step(sys, Store(q, data)), c, a)
  {
    if sys.rings[q].Avail() {
      PutMarked(sys.rings[q], sys.blockmask, sys.nextData, data, c, a);
    }
  }

  lemma StoreCovered(sys: Sys, q: nat, data: UserData, c: nat, a: int)
    requires Sound(sys) && q < NUMQ && c < |sys.clients| && Covered(sys, c, a)
    ensures Covered(Step(sys, Store(q, data)), c, a)
  {
    StoreMarked(sys, q, data, c, a);
    if sys.rings[q].Avail() {
      PutCursorAt(sys.rings[q], sys.blockmask, sys.nextData, data, sys.clients[c].last[q], c, a);
    }
  }

  // ----- what the other clients do

  /** Rings that only lost bits, none of them the client's. */
  ghost predicate OthersOnly(sys: Sys, sys': Sys, c: nat)
    requires Sound(sys)
  {
    && SameRings(sys, sys') && |sys'.clients| == |sys.clients|
    && (c in sys.blockmask ==> c in sys'.blockmask)
    && forall i, t | 0 <= i < NUMQ && 0 <= t < |sys.rings[i].slots| ::
         c in sys.rings[i].slots[t].blockmap ==> c in sys'.rings[i].slots[t].blockmap
  }

  lemma SameMarked(r: Ring, r': Ring, counter: int, c: nat, a: int)
    requires r.Valid(counter) && r'.Shape() && SamePackets(r, r') && MarkedFrom(r.Live(), c, a)
    requires forall t | 0 <= t < |r.slots| && a <= r.slots[t].packetNum ::
      c in r.slots[t].blockmap ==> c in r'.slots[t].blockmap
    ensures MarkedFrom(r'.Live(), c, a)
  {
    forall k | 0 <= k < |r'.Live()|
      ensures c in r'.Live()[k].blockmap <==> a <= r'.Live()[k].packetNum
    {
      assert r'.At(k) == r.At(k) && r.Live()[k] == r.slots[r.At(k)];
    }
  }

  lemma SameCursorAt(r: Ring, r': Ring, counter: int, cur: Cursor, a: int)
    requires r.Valid(counter) && r'.Shape() && SamePackets(r, r') && CursorAt(r, cur, a)
    ensures CursorAt(r', cur, a)
  {
    SamePacketsValid(r, r', counter);
  }

  lemma OthersMarked(sys: Sys, sys': Sys, c: nat, a: int)
    requires Sound(sys) && Sound(sys') && c < |sys.clients| && OthersOnly(sys, sys', c) && Marked(sys, c, a)
    requires sys'.clients[c] == sys.clients[c]
    ensures Marked(sys', c, a)
    ensures Covered(sys, c, a) ==> Covered(sys', c, a)
  {
    forall i | 0 <= i < NUMQ
      ensures MarkedFrom(sys'.rings[i].Live(), c, a)
      ensures Covered(sys, c, a) ==> CursorAt(sys'.rings[i], sys.clients[c].last[i], a)
    {
      SameMarked(sys.rings[i], sys'.rings[i], sys.nextData, c, a);
      if Covered(sys, c, a) {
        SameCursorAt(sys.rings[i], sys'.rings[i], sys.nextData, sys.clients[c].last[i], a);
      }
    }
  }

  lemma SamePending(sys: Sys, sys': Sys, mask: set<nat>, nd: int)
    requires Sound(sys) && Sound(sys') && SameRings(sys, sys')
    ensures Pending(sys', mask, nd) == Pending(sys, mask, nd)
  {
    forall i | 0 <= i < NUMQ
      ensures Owed(i, sys.rings[i].Live(), nd) == Owed(i, sys'.rings[i].Live(), nd)
    {
      SamePacketsValid(sys.rings[i], sys'.rings[i], sys.nextData);
      OwedSame(i, sys.rings[i].Live(), sys'.rings[i].Live(), nd);
    }
    assert Suffixes(sys, nd) == Suffixes(sys', nd);
  }

  // ----- a continuing request of the client

  lemma CoveredNotStale(r: Ring, cur: Cursor, a: int, nd: int)
    requires r.Shape() && CursorAt(r, cur, a) && a <= nd
    ensures !StaleHead(r, cur, nd)
  {
  }

  /** A covered client's request starts exactly at what is owed to it. */
  lemma NextRests(sys: Sys, c: nat, req: Req, a: int)
    requires Sound(sys) && c < |sys.clients| && Covered(sys, c, a) && req.order == NEXT
    ensures Rests(sys, c, req) == Suffixes(sys, sys.clients[c].nextData)
  {
    var cl := sys.clients[c];
    forall i | 0 <= i < NUMQ
      ensures ScanRest(sys, c, req, i) == Owed(i, sys.rings[i].Live(), cl.nextData)
    {
      CoveredNotStale(sys.rings[i], cl.last[i], a, cl.nextData);
      NextScanExact(sys.rings[i], sys.nextData, i, c, cl.blocking, cl.nextData, cl.last[i]);
    }
  }

  lemma CutFirst(ps: seq<Packet>, left: seq<Packet>, nd: int)
    requires Cut(ps, left, nd) && ps != []
    ensures ps[0].num < nd ==> Cut(ps[1..], left, nd)
  {
    assert |left| == |ps| ==> left == ps;
    if |left| < |ps| {
      assert ps[1..][|ps[1..]| - |left|..] == left;
    }
  }

  lemma CutNothing(ps: seq<Packet>, left: seq<Packet>, nd: int)
    requires Cut(ps, left, nd) && AllFrom(ps, nd)
    ensures left == ps
  {
    assert ps == [] || nd <= ps[0].num;
  }

  lemma {:induction false} CutOwed(i: nat, l: seq<Slot>, nd: int, nd': int, left: seq<Packet>)
    requires nd <= nd' && Cut(Owed(i, l, nd), left, nd')
    requires forall j, k | 0 <= j < k < |l| :: l[j].packetNum < l[k].packetNum
    ensures left == Owed(i, l, nd')
  {
    if l != [] {
      if l[0].packetNum < nd {
        CutOwed(i, l[1..], nd, nd', left);
      } else if l[0].packetNum < nd' {
        CutFirst(Owed(i, l, nd), left, nd');
        CutOwed(i, l[1..], nd, nd', left);
      } else {
        OwedAbove(i, l, nd);
        OwedAbove(i, l, nd');
        CutNothing(Owed(i, l, nd), left, nd');
      }
    }
  }

  lemma {:induction false} TakenBelow(rest: seq<seq<Packet>>, mask: set<nat>, want: Want, budget: int, counter: int)
    requires forall i, k | 0 <= i < |rest| && 0 <= k < |rest[i]| :: rest[i][k].num < counter
    ensures forall k | 0 <= k < |Taken(rest, mask, want, budget)| :: Taken(rest, mask, want, budget)[k].num < counter
    decreases Total(rest)
  {
    match Best(rest, mask, |rest|)
    case None =>
    case Some(b) =>
      if budget > 0 {
        TotalDrop(rest, b);
        TakenTurn(rest, mask, want, budget, b);
        TakenBelow(Pop(rest, b), mask, want, budget - Cost(want, rest[b][0]), counter);
      }
  }

  lemma NextBelow(sys: Sys, c: nat, req: Req, a: int)
    requires Sound(sys) && c < |sys.clients| && Covered(sys, c, a) && req.order == NEXT
    ensures Request(sys, c, req).sys.clients[c].nextData <= sys.nextData
  {
    var rest: seq<seq<Packet>> := Rests(sys, c, req);
    var nd := sys.clients[c].nextData;
    NextRests(sys, c, req, a);
    forall i | 0 <= i < NUMQ
      ensures forall k | 0 <= k < |rest[i]| :: rest[i][k].num < sys.nextData
    {
      OwedFrom(i, sys.rings[i].Live(), nd, sys.nextData);
    }
    TakenBelow(rest, req.mask, p => Wanted(req, p), req.count, sys.nextData);
  }

  /** A continuing request takes a prefix of what is owed and leaves the rest. */
  lemma NextPending(sys: Sys, c: nat, req: Req, a: int)
    requires Sound(sys) && c < |sys.clients| && Covered(sys, c, a) && req.order == NEXT
    ensures var r: Response := Request(sys, c, req);
      var nd := sys.clients[c].nextData;
      Sound(r.sys)
      && Pending(sys, req.mask, nd) == r.taken + Pending(r.sys, req.mask, r.sys.clients[c].nextData)
  {
    var r: Response := Request(sys, c, req);
    var nd := sys.clients[c].nextData;
    var want: Want := p => Wanted(req, p);
    var rest := Suffixes(sys, nd);
    assert r.taken == Taken(rest, req.mask, want, req.count) by {
      NextRests(sys, c, req, a);
    }
    assert Ready(rest, req.mask, nd) by {
      NextRests(sys, c, req, a);
      RestsReady(sys, c, req);
    }
    var nd' := r.sys.clients[c].nextData;
    assert nd' == After(r.taken, nd);
    assert nd <= nd' by {
      RequestInOrder(sys, c, req);
    }
    assert Sound(r.sys) && SameRings(sys, r.sys) by {
      RequestSound(sys, c, req);
      RequestSame(sys, c, req);
    }
    hide Sound, SameRings, Ready, Covered, Request, After, Merge, Taken, Left;
    TakenSplits(rest, req.mask, want, req.count);
    LeftPending(sys, req.mask, want, req.count, nd, nd');
    SamePending(sys, r.sys, req.mask, nd');
  }

  lemma LeftPending(sys: Sys, mask: set<nat>, want: Want, budget: int, nd: int, nd': int)
    requires Sound(sys) && Ready(Suffixes(sys, nd), mask, nd) && nd <= nd'
    requires nd' == After(Taken(Suffixes(sys, nd), mask, want, budget), nd)
    ensures Merge(Left(Suffixes(sys, nd), mask, want, budget), mask) == Pending(sys, mask, nd')
  {
    var left := Left(Suffixes(sys, nd), mask, want, budget);
    LeftAbove(Suffixes(sys, nd), mask, want, budget, nd);
    forall i | 0 <= i < NUMQ && i in mask
      ensures left[i] == Suffixes(sys, nd')[i]
    {
      CutOwed(i, sys.rings[i].Live(), nd, nd', left[i]);
    }
    MergeSelected(left, Suffixes(sys, nd'), mask);
  }

  lemma NextCursorAt(r: Ring, counter: int, c: nat, nd: int, cur: Cursor, a: int)
    requires r.Valid(counter) && CursorSound(r, cur, nd, counter) && CursorAt(r, cur, a) && a <= nd
    ensures var s := ScanRing(r, c, true, NEXT, nd, cur);
      s.ring.Shape() && CursorAt(s.ring, s.cursor, nd)
  {
    var s := ScanRing(r, c, true, NEXT, nd, cur);
    ScanKeeps(r, counter, c, true, NEXT, nd, cur);
    ScanFirst(r, counter, c, true, NEXT, nd, cur);
    AckMeaning(r, {c}, nd, r.AckStart(cur), cur);
    if s.scan != r.AckStart(cur) {
      MovedFrom(r, counter, {c}, nd, cur);
    }
    assert CursorAt(r, s.cursor, nd);
    SameCursorAt(r, s.ring, counter, s.cursor, nd);
  }

  lemma NextMarked(r: Ring, counter: int, c: nat, nd: int, cur: Cursor, a: int)
    requires r.Valid(counter) && CursorSound(r, cur, nd, counter) && MarkedFrom(r.Live(), c, a) && a <= nd
    requires CursorAt(r, cur, a)
    ensures var s := ScanRing(r, c, true, NEXT, nd, cur);
      s.ring.Shape() && MarkedFrom(s.ring.Live(), c, nd)
  {
    var s := ScanRing(r, c, true, NEXT, nd, cur);
    ScanKeeps(r, counter, c, true, NEXT, nd, cur);
    AckMeaning(r, {c}, nd, r.AckStart(cur), cur);
    forall k | 0 <= k < |s.ring.Live()|
      ensures c in s.ring.Live()[k].blockmap <==> nd <= s.ring.Live()[k].packetNum
    {
      Cleared(r, s.ring, c, nd, r.AckStart(cur), s.scan, a, k);
    }
  }

  /** Below the number reached, a live packet was either passed before or is cleared now. */
  lemma Cleared(r: Ring, r': Ring, c: nat, nd: int, s: nat, e: nat, a: int, k: nat)
    requires r.Shape() && r'.Shape() && SamePackets(r, r') && s < |r.slots| && e < |r.slots| && k < |r.Live()|
    requires MarkedFrom(r.Live(), c, a) && a <= nd && r.Dist(s) <= r.Dist(e) <= r.Len() && PassedBefore(r, s, a)
    requires e != r.head ==> nd <= r.slots[e].packetNum
    requires forall i, j | 0 <= i < j < |r.Live()| :: r.Live()[i].packetNum < r.Live()[j].packetNum
    requires forall t | 0 <= t < |r.slots| ::
      if r.Dist(s) <= r.Dist(t) < r.Dist(e) then r.slots[t].packetNum < nd && c !in r'.slots[t].blockmap
      else r'.slots[t] == r.slots[t]
    ensures k < |r'.Live()| && (c in r'.Live()[k].blockmap <==> nd <= r'.Live()[k].packetNum)
  {
    var t := r.At(k);
    assert r'.At(k) == t && r.Live()[k] == r.slots[t];
    if k >= r.Dist(e) {
      assert r.At(r.Dist(e)) == e && r.Live()[r.Dist(e)] == r.slots[e];
    }
  }

  /** A continuing request acknowledges just what earlier requests considered. */
  lemma NextCovered(sys: Sys, c: nat, req: Req, a: int)
    requires Sound(sys) && c < |sys.clients| && Covered(sys, c, a) && req.order == NEXT
    ensures Sound(Request(sys, c, req).sys) && Covered(Request(sys, c, req).sys, c, sys.clients[c].nextData)
  {
    var cl, sys' := sys.clients[c], Request(sys, c, req).sys;
    RequestSound(sys, c, req);
    assert cl.nextData <= sys'.clients[c].nextData <= sys.nextData by {
      RequestInOrder(sys, c, req);
      NextBelow(sys, c, req, a);
    }
    forall i | 0 <= i < NUMQ
      ensures MarkedFrom(sys'.rings[i].Live(), c, cl.nextData)
      ensures CursorAt(sys'.rings[i], sys'.clients[c].last[i], cl.nextData)
    {
      NextCursorAt(sys.rings[i], sys.nextData, c, cl.nextData, cl.last[i], a);
      NextMarked(sys.rings[i], sys.nextData, c, cl.nextData, cl.last[i], a);
      assert sys'.rings[i] == Scan(sys, c, req, i).ring;
    }
  }

  // ----- runs

  /** The client keeps asking with CSQ_NEXT and one queue mask, and stays blocking; the other
      clients and the arriving packets are free. */
  ghost predicate Steady(ev: Event, c: nat, mask: set<nat>) {
    match ev
    case Store(_, _) => true
    case Ask(d, req) => d == c ==> req.order == NEXT && req.mask == mask
    case Block(_) => true
    case NoBlock(d) => d != c
    case Unblock(d) => d != c
  }

  ghost predicate SteadyRun(evs: seq<Event>, c: nat, mask: set<nat>) {
    forall k | 0 <= k < |evs| :: Steady(evs[k], c, mask)
  }

  /** Events of other clients leave the client's bits and what is owed to it alone. */
  lemma OtherStep(sys: Sys, ev: Event, c: nat, a: int)
    requires Sound(sys) && EventOk(ev, |sys.clients|) && c < |sys.clients| && Marked(sys, c, a)
    requires !ev.Store? && (ev.Block? || ev.c != c)
    ensures Marked(Step(sys, ev), c, a) && SameRings(sys, Step(sys, ev))
    ensures Step(sys, ev).clients[c] == sys.clients[c]
    ensures Covered(sys, c, a) ==> Covered(Step(sys, ev), c, a)
  {
    var sys' := Step(sys, ev);
    match ev
    case Ask(d, req) =>
      RequestSame(sys, d, req);
      OthersMarked(sys, sys', c, a);
    case Block(d) =>
      OthersMarked(sys, sys', c, a);
    case NoBlock(d) =>
      UnblockSound(sys, d);
      OthersMarked(sys, sys', c, a);
    case Unblock(d) =>
      UnblockSound(sys, d);
      OthersMarked(sys, sys', c, a);
  }

  lemma CoveredParts(sys: Sys, c: nat, a: int)
    requires Sound(sys) && c < |sys.clients| && Covered(sys, c, a)
    ensures Marked(sys, c, a) && a <= sys.clients[c].nextData <= sys.nextData
  {
  }

  /** One event of a steady run: what was owed and what is stored is what is served and what
      is owed afterwards. */
  lemma StepExact(sys: Sys, ev: Event, c: nat, mask: set<nat>, a: int) returns (a': int)
    requires Sound(sys) && EventOk(ev, |sys.clients|) && c < |sys.clients|
    requires Covered(sys, c, a) && Steady(ev, c, mask)
    ensures Covered(Step(sys, ev), c, a')
    ensures Pending(sys, mask, sys.clients[c].nextData) + StoredBy(sys, ev, mask)
      == ServedBy(sys, ev, c) + Pending(Step(sys, ev), mask, Step(sys, ev).clients[c].nextData)
  {
    hide Sound, Covered, Marked, Pending;
    a' := a;
    CoveredParts(sys, c, a);
    if ev.Store? {
      StoreCovered(sys, ev.q, ev.data, c, a);
      StorePending(sys, ev.q, ev.data, c, a, mask, sys.clients[c].nextData);
    } else if ev.Ask? && ev.c == c {
      a' := sys.clients[c].nextData;
      NextCovered(sys, c, ev.req, a);
      NextPending(sys, c, ev.req, a);
    } else {
      OtherStep(sys, ev, c, a);
      SamePending(sys, Step(sys, ev), mask, sys.clients[c].nextData);
    }
  }

  /** Exactly once and in order, over every steady run of a covered client: the packets owed
      at the start followed by the packets stored since are, one for one, the packets served
      followed by the packets still owed; and every packet still owed is live and marked. */
  lemma {:induction false} RunExact(sys: Sys, evs: seq<Event>, c: nat, mask: set<nat>, a: int) returns (a': int)
    requires Sound(sys) && RunOk(evs, |sys.clients|) && c < |sys.clients|
    requires Covered(sys, c, a) && SteadyRun(evs, c, mask)
    ensures Covered(Final(sys, evs), c, a')
    ensures Pending(sys, mask, sys.clients[c].nextData) + Stored(sys, evs, mask)
      == Served(sys, evs, c) + Pending(Final(sys, evs), mask, Final(sys, evs).clients[c].nextData)
    decreases |evs|
  {
    hide Sound, Covered, Step, Pending, StoredBy, ServedBy, EventOk, Steady;
    if evs == [] {
      a' := a;
    } else {
      var sys1 := Step(sys, evs[0]);
      a' := StepExact(sys, evs[0], c, mask, a);
      a' := RunExact(sys1, evs[1..], c, mask, a');
      var end := Final(sys1, evs[1..]);
      Chain(Pending(sys, mask, sys.clients[c].nextData), StoredBy(sys, evs[0], mask), ServedBy(sys, evs[0], c),
            Pending(sys1, mask, sys1.clients[c].nextData), Stored(sys1, evs[1..], mask), Served(sys1, evs[1..], c),
            Pending(end, mask, end.clients[c].nextData));
    }
  }

  lemma Associative<T>(a: seq<T>, b: seq<T>, d: seq<T>)
    ensures a + (b + d) == (a + b) + d
  {
  }

  /** A run in two parts. */
  lemma {:induction false} FinalAppend(sys: Sys, es: seq<Event>, fs: seq<Event>, mask: set<nat>, c: nat)
    requires Sound(sys) && RunOk(es, |sys.clients|) && RunOk(fs, |sys.clients|)
    ensures RunOk(es + fs, |sys.clients|)
    ensures Final(sys, es + fs) == Final(Final(sys, es), fs)
    ensures Stored(sys, es + fs, mask) == Stored(sys, es, mask) + Stored(Final(sys, es), fs, mask)
    ensures Served(sys, es + fs, c) == Served(sys, es, c) + Served(Final(sys, es), fs, c)
    decreases |es|
  {
    hide Sound, Step, EventOk, StoredBy, ServedBy;
    if es == [] {
      assert es + fs == fs;
      assert Stored(sys, fs, mask) == [] + Stored(sys, fs, mask);
      assert Served(sys, fs, c) == [] + Served(sys, fs, c);
    } else {
      assert (es + fs)[1..] == es[1..] + fs && (es + fs)[0] == es[0];
      var sys1 := Step(sys, es[0]);
      FinalAppend(sys1, es[1..], fs, mask, c);
      Associative(StoredBy(sys, es[0], mask), Stored(sys1, es[1..], mask), Stored(Final(sys, es), fs, mask));
      Associative(ServedBy(sys, es[0], c), Served(sys1, es[1..], c), Served(Final(sys, es), fs, c));
    }
  }

  lemma Chain<T>(a: seq<T>, s0: seq<T>, t0: seq<T>, b: seq<T>, s1: seq<T>, t1: seq<T>, d: seq<T>)
    requires a + s0 == t0 + b && b + s1 == t1 + d
    ensures a + (s0 + s1) == (t0 + t1) + d
  {
    assert a + (s0 + s1) == (a + s0) + s1;
    assert (t0 + b) + s1 == t0 + (b + s1);
  }

  /** A request that comes back with fewer packets than it asked for has emptied the queues. */
  lemma {:induction false} ShortAnswer(rest: seq<seq<Packet>>, mask: set<nat>, want: Want, budget: int)
    requires |Delivered(want, Taken(rest, mask, want, budget))| < budget
    ensures Merge(Left(rest, mask, want, budget), mask) == []
    decreases Total(rest)
  {
    match Best(rest, mask, |rest|)
    case None =>
    case Some(b) =>
      TotalDrop(rest, b);
      TakenTurn(rest, mask, want, budget, b);
      var p, more := rest[b][0], Taken(Pop(rest, b), mask, want, budget - Cost(want, rest[b][0]));
      assert ([p] + more)[1..] == more;
      ShortAnswer(Pop(rest, b), mask, want, budget - Cost(want, p));
  }

  /** So a covered client whose CSQ_NEXT answer is short is owed nothing. */
  lemma ShortAnswerDrains(sys: Sys, c: nat, req: Req, a: int)
    requires Sound(sys) && c < |sys.clients| && Covered(sys, c, a) && req.order == NEXT
    requires |Delivered(p => Wanted(req, p), Request(sys, c, req).taken)| < req.count
    ensures Sound(Request(sys, c, req).sys)
    ensures Pending(Request(sys, c, req).sys, req.mask, Request(sys, c, req).sys.clients[c].nextData) == []
  {
    var rest: seq<seq<Packet>> := Rests(sys, c, req);
    var want: Want := p => Wanted(req, p);
    NextRests(sys, c, req, a);
    NextPending(sys, c, req, a);
    TakenSplits(rest, req.mask, want, req.count);
    ShortAnswer(rest, req.mask, want, req.count);
  }

  // ----- every client

  ghost predicate OnlyNext(evs: seq<Event>, c: nat) {
    forall k | 0 <= k < |evs| && evs[k].Ask? && evs[k].c == c :: evs[k].req.order == NEXT
  }

  lemma StepServesUp(sys: Sys, ev: Event, c: nat)
    requires Sound(sys) && EventOk(ev, |sys.clients|) && c < |sys.clients|
    requires ev.Ask? && ev.c == c ==> ev.req.order == NEXT
    ensures var nd, nd' := sys.clients[c].nextData, Step(sys, ev).clients[c].nextData;
      && nd <= nd' && Rising(ServedBy(sys, ev, c)) && AllFrom(ServedBy(sys, ev, c), nd)
      && (forall k | 0 <= k < |ServedBy(sys, ev, c)| :: ServedBy(sys, ev, c)[k].num < nd')
  {
    if ev.Ask? && ev.c == c {
      RequestInOrder(sys, c, ev.req);
    }
  }

  /** Blocking or not, a client that continues is never served a packet twice or out of order. */
  lemma {:induction false} RunInOrder(sys: Sys, evs: seq<Event>, c: nat)
    requires Sound(sys) && RunOk(evs, |sys.clients|) && c < |sys.clients| && OnlyNext(evs, c)
    ensures Rising(Served(sys, evs, c)) && AllFrom(Served(sys, evs, c), sys.clients[c].nextData)
    decreases |evs|
  {
    hide Sound, Step, ServedBy;
    if evs != [] {
      StepServesUp(sys, evs[0], c);
      RunInOrder(Step(sys, evs[0]), evs[1..], c);
    }
  }
}
