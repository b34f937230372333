/** What the answer to a request holds: which of the considered packets the client gets, and where
    the orders other than CSQ_NEXT start. */
module Answers {
  import opened Options
  import opened RingModel
  import opened ServerModel
  import opened Delivery
  import opened DeliveryRuns

  // ----- selectors

  /** A selector without '?' lets just its own channel through. */
  lemma SelectorExact(selector: ChannelId, channel: ChannelId)
    requires forall j | 0 <= j < 5 :: selector[j] != '?'
    ensures Matches(selector, channel) <==> selector == channel
  {
    if Matches(selector, channel) {
      assert forall j | 0 <= j < 5 :: selector[j] == channel[j];
    }
  }

  /** A '?' at one place lets through just the channels that agree at the other four. */
  lemma SelectorWild(selector: ChannelId, channel: ChannelId, i: nat)
    requires i < 5 && forall j | 0 <= j < 5 :: selector[j] != '?'
    ensures Matches(selector[i := '?'], channel) <==> forall j | 0 <= j < 5 && j != i :: selector[j] == channel[j]
  {
    var s := selector[i := '?'];
    if Matches(s, channel) {
      assert forall j | 0 <= j < 5 && j != i :: s[j] == selector[j];
    }
  }

  /** At every place a selector leaves open or has the same character as the channel. */
  predicate Agrees(selector: ChannelId, channel: ChannelId) {
    channel == seq(5, j requires 0 <= j < 5 => if selector[j] == '?' then channel[j] else selector[j])
  }

  // ----- the packets handed over

  /** The places among the considered packets of those that are handed over. */
  ghost predicate Places(want: Want, taken: seq<Packet>, delivered: seq<UserData>, kept: seq<nat>) {
    && |kept| == |delivered|
    && (forall m | 0 <= m < |kept| :: kept[m] < |taken| && delivered[m] == taken[kept[m]].data)
    && (forall l, m | 0 <= l < m < |kept| :: kept[l] < kept[m])
    && (forall i | 0 <= i < |taken| :: i in kept <==> want(taken[i]))
  }

  lemma PlacesMore(want: Want, taken: seq<Packet>, delivered: seq<UserData>, kept: seq<nat>, p: Packet)
    requires Places(want, taken, delivered, kept)
    ensures want(p) ==> Places(want, taken + [p], delivered + [p.data], kept + [|taken|])
    ensures !want(p) ==> Places(want, taken + [p], delivered, kept)
  {
    if want(p) {
      var kept' := kept + [|taken|];
      assert kept'[|kept|] == |taken|;
      assert forall i | 0 <= i < |taken| :: i in kept' <==> i in kept;
    }
  }

  lemma {:induction false} DeliveredPlaces(want: Want, taken: seq<Packet>) returns (kept: seq<nat>)
    ensures Places(want, taken, Delivered(want, taken), kept)
  {
    hide Delivered;
    if taken == [] {
      kept := [];
      NoneDelivered(want);
    } else {
      hide Places;
      var n := |taken| - 1;
      assert taken == taken[..n] + [taken[n]];
      DeliveredAppend(want, taken[..n], taken[n]);
      kept := DeliveredPlaces(want, taken[..n]);
      PlacesMore(want, taken[..n], Delivered(want, taken[..n]), kept, taken[n]);
      assert Delivered(want, taken[..n]) + [] == Delivered(want, taken[..n]);
      kept := if want(taken[n]) then kept + [n] else kept;
    }
  }

  lemma NoneDelivered(want: Want)
    ensures Delivered(want, []) == []
  {
  }

  lemma {:induction false} DeliveredCount(rest: seq<seq<Packet>>, mask: set<nat>, want: Want, budget: int)
    ensures |Delivered(want, Taken(rest, mask, want, budget))| <= if budget > 0 then budget else 0
    decreases Total(rest)
  {
    match Best(rest, mask, |rest|)
    case None =>
    case Some(b) =>
      if budget > 0 {
        TotalDrop(rest, b);
        TakenTurn(rest, mask, want, budget, b);
        hide Taken, Best, Total;
        var more := Taken(Pop(rest, b), mask, want, budget - Cost(want, rest[b][0]));
        DeliveredCount(Pop(rest, b), mask, want, budget - Cost(want, rest[b][0]));
        assert ([rest[b][0]] + more)[1..] == more;
      }
  }

  /** A packet is wanted when it is late enough and on a channel that agrees with one of the selectors
      for its queue. */
  lemma WantedExact(req: Req, p: Packet)
    requires req.WellFormed() && p.q < NUMQ
    ensures |req.sels| == NUMQ
    ensures Wanted(req, p) <==>
      && req.startTime <= p.data.headerTime
      && exists k | 0 <= k < |req.selectors| ::
           req.sels[p.q].0 <= k <= req.sels[p.q].1 && Agrees(req.selectors[k], p.data.channel)
  {
    forall k | 0 <= k < |req.selectors|
      ensures Matches(req.selectors[k], p.data.channel) <==> Agrees(req.selectors[k], p.data.channel)
    {
      var s, ch := req.selectors[k], p.data.channel;
      if Agrees(s, ch) {
        assert forall j | 0 <= j < 5 :: ch[j] == if s[j] == '?' then ch[j] else s[j];
      }
    }
  }

  /** What a client's buffers get of the considered packets: in their order, just those that are late
      enough and on a channel that agrees with one of the selectors for their queue. */
  lemma HandedOver(req: Req, taken: seq<Packet>) returns (kept: seq<nat>)
    requires req.WellFormed() && forall i | 0 <= i < |taken| :: taken[i].q < NUMQ
    ensures var delivered := Delivered(p => Wanted(req, p), taken);
      && |kept| == |delivered| && |req.sels| == NUMQ
      && (forall m | 0 <= m < |kept| :: kept[m] < |taken| && delivered[m] == taken[kept[m]].data)
      && (forall l, m | 0 <= l < m < |kept| :: kept[l] < kept[m])
    ensures forall i | 0 <= i < |taken| :: i in kept <==>
      && req.startTime <= taken[i].data.headerTime
      && exists k | 0 <= k < |req.selectors| ::
           req.sels[taken[i].q].0 <= k <= req.sels[taken[i].q].1 && Agrees(req.selectors[k], taken[i].data.channel)
  {
    hide Wanted, Delivered, Agrees;
    kept := DeliveredPlaces(p => Wanted(req, p), taken);
    forall i | 0 <= i < |taken|
      ensures Wanted(req, taken[i]) <==>
        && req.startTime <= taken[i].data.headerTime
        && exists k | 0 <= k < |req.selectors| ::
             req.sels[taken[i].q].0 <= k <= req.sels[taken[i].q].1 && Agrees(req.selectors[k], taken[i].data.channel)
    {
      WantedExact(req, taken[i]);
    }
  }

  /** An answer holds no more packets than were asked for. */
  lemma AnswerFits(sys: Sys, c: nat, req: Req)
    requires Sound(sys) && c < |sys.clients|
    ensures |Delivered(p => Wanted(req, p), Request(sys, c, req).taken)| <= if req.count > 0 then req.count else 0
  {
    DeliveredCount(Rests(sys, c, req), req.mask, p => Wanted(req, p), req.count);
  }

  lemma ConsideredQueues(sys: Sys, c: nat, req: Req)
    requires Sound(sys) && c < |sys.clients|
    ensures forall i | 0 <= i < |Request(sys, c, req).taken| :: Request(sys, c, req).taken[i].q < NUMQ
  {
    RequestInOrder(sys, c, req);
  }

  // ----- where a request starts

  /** A ring in which nothing is below `nd` but where the pass starts afresh. */
  lemma FreshScan(r: Ring, counter: int, i: nat, c: nat, blocking: bool, order: Order, nd: int, cur: Cursor)
    requires r.Valid(counter) && (order == LAST || order == TIME) && (cur.scan.Some? ==> cur.scan.value < |r.slots|)
    ensures var a := ScanRing(r, c, blocking, order, nd, cur);
      a.ring.Shape() && a.scan < |a.ring.slots| && a.ring.From(i, a.scan) == Owed(i, r.Live(), nd)
  {
    var none := Cursor(None, -1);
    assert ScanRing(r, c, blocking, order, nd, cur) == ScanRing(r, c, blocking, NEXT, nd, none);
    NextScanExact(r, counter, i, c, blocking, nd, none);
  }

  /** CSQ_TIME, and CSQ_FIRST of a client that does not block, start with the oldest packet of every
      queue. */
  lemma StartsOldest(sys: Sys, c: nat, req: Req, i: nat)
    requires Sound(sys) && c < |sys.clients| && i < NUMQ
    requires req.order == TIME || (req.order == FIRST && !sys.clients[c].blocking)
    ensures ScanRest(sys, c, req, i) == Packs(i, sys.rings[i].Live())
  {
    var r := sys.rings[i];
    if req.order == TIME {
      FreshScan(r, sys.nextData, i, c, sys.clients[c].blocking, TIME, 0, sys.clients[c].last[i]);
      OwedAbove(i, r.Live(), 0);
    } else {
      assert r.Dist(r.tail) == 0 && r.Live()[0..] == r.Live();
    }
  }

  /** CSQ_LAST starts with the newest packet of all queues. */
  lemma StartsNewest(sys: Sys, c: nat, req: Req, i: nat)
    requires Sound(sys) && c < |sys.clients| && i < NUMQ && req.order == LAST
    ensures forall k | 0 <= k < |ScanRest(sys, c, req, i)| :: ScanRest(sys, c, req, i)[k].num == sys.nextData - 1
    ensures forall k | 0 <= k < |sys.rings[i].Live()| && sys.rings[i].Live()[k].packetNum == sys.nextData - 1 ::
      ScanRest(sys, c, req, i) == [Packet(i, sys.nextData - 1, sys.rings[i].Live()[k].data)]
  {
    var r := sys.rings[i];
    var nd := if sys.nextData > 0 then sys.nextData - 1 else 0;
    FreshScan(r, sys.nextData, i, c, sys.clients[c].blocking, LAST, nd, sys.clients[c].last[i]);
    hide Sound, Owed;
    OwedNewest(i, r.Live(), sys.nextData);
  }

  lemma OwedNewest(q: nat, l: seq<Slot>, counter: int)
    requires forall k | 0 <= k < |l| :: 0 <= l[k].packetNum < counter
    requires forall j, k | 0 <= j < k < |l| :: l[j].packetNum < l[k].packetNum
    ensures var owed := Owed(q, l, if counter > 0 then counter - 1 else 0);
      && (forall k | 0 <= k < |owed| :: owed[k].num == counter - 1)
      && forall k | 0 <= k < |l| && l[k].packetNum == counter - 1 :: owed == [Packet(q, counter - 1, l[k].data)]
  {
    hide Owed;
    if l == [] {
      OwedBelow(q, l, if counter > 0 then counter - 1 else 0);
    } else {
      var n := |l| - 1;
      assert l == l[..n] + [l[n]];
      OwedAppend(q, l[..n], [l[n]], counter - 1);
      OwedBelow(q, l[..n], counter - 1);
      if l[n].packetNum == counter - 1 {
        OwedAbove(q, [l[n]], counter - 1);
        assert Packs(q, [l[n]]) == [Pack(q, l[n])];
        assert forall k | 0 <= k < n :: l[k].packetNum < l[n].packetNum;
      } else {
        OwedBelow(q, [l[n]], counter - 1);
        assert forall k | 0 <= k < |l| :: l[k].packetNum <= l[n].packetNum;
      }
    }
  }

  /** A request that starts afresh leaves the client at a number that no later packet is below. */
  lemma NumberReached(sys: Sys, c: nat, req: Req)
    requires Sound(sys) && c < |sys.clients| && req.order != NEXT
    ensures 0 <= Request(sys, c, req).sys.clients[c].nextData <= sys.nextData
  {
    var taken := Request(sys, c, req).taken;
    RequestInOrder(sys, c, req);
    if taken != [] {
      TakenLive(sys, c, req);
    }
  }

  lemma TakenLive(sys: Sys, c: nat, req: Req)
    requires Sound(sys) && c < |sys.clients|
    ensures forall k | 0 <= k < |Request(sys, c, req).taken| :: 0 <= Request(sys, c, req).taken[k].num < sys.nextData
  {
    hide Sound;
    var rest := Rests(sys, c, req);
    forall i | 0 <= i < NUMQ
      ensures NumsBelow(rest[i], sys.nextData)
    {
      RestLive(sys, c, req, i);
    }
    TakenBelow(rest, req.mask, p => Wanted(req, p), req.count, sys.nextData);
  }

  ghost predicate NumsBelow(ps: seq<Packet>, n: int) {
    forall k | 0 <= k < |ps| :: 0 <= ps[k].num < n
  }

  lemma RestLive(sys: Sys, c: nat, req: Req, i: nat)
    requires Sound(sys) && c < |sys.clients| && i < NUMQ
    ensures NumsBelow(ScanRest(sys, c, req, i), sys.nextData)
  {
    var cl := sys.clients[c];
    ScanKeeps(sys.rings[i], sys.nextData, c, cl.blocking, req.order,
              StartData(req.order, cl.nextData, sys.nextData), cl.last[i]);
  }

  lemma {:induction false} TakenBelow(rest: seq<seq<Packet>>, mask: set<nat>, want: Want, budget: int, n: int)
    requires forall i | 0 <= i < |rest| :: NumsBelow(rest[i], n)
    ensures NumsBelow(Taken(rest, mask, want, budget), n)
    decreases Total(rest)
  {
    match Best(rest, mask, |rest|)
    case None =>
    case Some(b) =>
      if budget > 0 {
        TotalDrop(rest, b);
        TakenTurn(rest, mask, want, budget, b);
        hide Taken, Best, Total;
        assert NumsBelow(rest[b], n);
        TakenBelow(Pop(rest, b), mask, want, budget - Cost(want, rest[b][0]), n);
      }
  }
}
