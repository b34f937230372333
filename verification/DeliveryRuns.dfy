/** Whole runs of the packet server: exactly-once, in-order delivery to blocking clients. */
module DeliveryRuns {
  import opened Options
  import opened RingModel
  import opened ServerModel
  import opened Delivery

  // ----- storing a packet keeps every client's cursors meaningful

  lemma PutDist(r: Ring, blockmask: set<nat>, num: int, data: UserData, s: nat)
    requires r.Shape() && s < |r.slots| && r.Dist(s) <= r.Len()
    ensures var r' := r.Put(blockmask, num, data);
      r'.Dist(s) == (if r.Len() < |r.slots| - 1 then r.Dist(s) else if s == r.tail then r'.Len() else r.Dist(s) - 1)
    ensures s != r.head ==> r.Put(blockmask, num, data).slots[s] == r.slots[s]
    ensures r.Len() == |r.slots| - 1 && s == r.tail ==> r.Put(blockmask, num, data).head == s
    ensures s != r.head ==> r.Dist(s) < r.Len() && r.Live()[r.Dist(s)] == r.slots[s]
  {
    if s != r.head {
      assert r.At(r.Dist(s)) == s;
    }
  }

  /** Packets before a slot stay passed when a packet is stored, unless the slot itself goes. */
  lemma PutPassed(r: Ring, blockmask: set<nat>, num: int, data: UserData, s: nat, nd: int)
    requires r.Shape() && s < |r.slots| && r.Dist(s) < r.Len() && PassedBefore(r, s, nd)
    requires !(r.Len() == |r.slots| - 1 && s == r.tail)
    ensures var r' := r.Put(blockmask, num, data); r'.Dist(s) < r'.Len() && PassedBefore(r', s, nd)
  {
    PutLive(r, blockmask, num, data);
    PutDist(r, blockmask, num, data, s);
  }

  lemma PutCursorSound(r: Ring, blockmask: set<nat>, counter: int, data: UserData, cur: Cursor, nd: int)
    requires r.Valid(counter) && CursorSound(r, cur, nd, counter)
    ensures CursorSound(r.Put(blockmask, counter, data), cur, nd, counter + 1)
  {
    if cur.scan.Some? {
      var s := cur.scan.value;
      PutDist(r, blockmask, counter, data, s);
      if s != r.head && r.slots[s].packetNum == cur.packet && !(r.Len() == |r.slots| - 1 && s == r.tail) {
        PutPassed(r, blockmask, counter, data, s, nd);
      }
    }
  }

  lemma PutApart(sys: Sys, q: nat, data: UserData, i: nat)
    requires Sound(sys) && q < NUMQ && i < NUMQ && i != q
    ensures var r' := sys.rings[q].Put(sys.blockmask, sys.nextData, data);
      ApartLive(r'.Live(), sys.rings[i].Live()) && ApartLive(sys.rings[i].Live(), r'.Live())
  {
    PutLive(sys.rings[q], sys.blockmask, sys.nextData, data);
    if i < q {
      assert ApartLive(sys.rings[i].Live(), sys.rings[q].Live());
    } else {
      assert ApartLive(sys.rings[q].Live(), sys.rings[i].Live());
    }
  }

  lemma StoreSound(sys: Sys, q: nat, data: UserData)
    requires Sound(sys) && q < NUMQ
    ensures Sound(StorePacket(sys, q, data))
  {
    var sys' := StorePacket(sys, q, data);
    if sys.rings[q].Avail() {
      PutValid(sys.rings[q], sys.blockmask, sys.nextData, data);
      forall i, j | 0 <= i < j < NUMQ
        ensures ApartLive(sys'.rings[i].Live(), sys'.rings[j].Live())
      {
        if i == q {
          PutApart(sys, q, data, j);
        } else if j == q {
          PutApart(sys, q, data, i);
        }
      }
      forall c, i | 0 <= c < |sys.clients| && 0 <= i < NUMQ
        ensures CursorSound(sys'.rings[i], sys'.clients[c].last[i], sys'.clients[c].nextData, sys'.nextData)
      {
        if i == q {
          PutCursorSound(sys.rings[q], sys.blockmask, sys.nextData, data, sys.clients[c].last[i],
            sys.clients[c].nextData);
        }
      }
    }
  }

  // ----- a request keeps the packets of every ring

  lemma SameCursorSound(r: Ring, r': Ring, counter: int, cur: Cursor, nd: int)
    requires r.Valid(counter) && r'.Shape() && SamePackets(r, r') && CursorSound(r, cur, nd, counter)
    ensures CursorSound(r', cur, nd, counter)
  {
    SamePacketsValid(r, r', counter);
  }

  /** The same server up to blocking bits and one client's own state. */
  ghost predicate SameRings(sys: Sys, sys': Sys)
    requires Sound(sys)
  {
    && |sys'.rings| == NUMQ && sys'.nextData == sys.nextData
    && forall i | 0 <= i < NUMQ :: sys'.rings[i].Shape() && SamePackets(sys.rings[i], sys'.rings[i])
  }

  lemma SameApart(r: Ring, r': Ring, q: Ring, q': Ring, counter: int)
    requires r.Valid(counter) && q.Valid(counter) && r'.Shape() && q'.Shape()
    requires SamePackets(r, r') && SamePackets(q, q') && ApartLive(r.Live(), q.Live())
    ensures ApartLive(r'.Live(), q'.Live())
  {
    SamePacketsValid(r, r', counter);
    SamePacketsValid(q, q', counter);
  }

  lemma SameRingsSound(sys: Sys, sys': Sys)
    requires Sound(sys) && SameRings(sys, sys')
    ensures forall i | 0 <= i < NUMQ :: sys'.rings[i].Valid(sys.nextData)
    ensures forall i, j | 0 <= i < j < NUMQ :: ApartLive(sys'.rings[i].Live(), sys'.rings[j].Live())
  {
    forall i | 0 <= i < NUMQ
      ensures sys'.rings[i].Valid(sys.nextData)
    {
      SamePacketsValid(sys.rings[i], sys'.rings[i], sys.nextData);
    }
    forall i, j | 0 <= i < j < NUMQ
      ensures ApartLive(sys'.rings[i].Live(), sys'.rings[j].Live())
    {
      SameApart(sys.rings[i], sys'.rings[i], sys.rings[j], sys'.rings[j], sys.nextData);
    }
  }

  lemma RequestSame(sys: Sys, c: nat, req: Req)
    requires Sound(sys) && c < |sys.clients|
    ensures SameRings(sys, Request(sys, c, req).sys)
    ensures forall i, t | 0 <= i < NUMQ && 0 <= t < |sys.rings[i].slots| ::
      Request(sys, c, req).sys.rings[i].slots[t].blockmap >= sys.rings[i].slots[t].blockmap - {c}
  {
    var cl := sys.clients[c];
    forall i | 0 <= i < NUMQ
      ensures Scan(sys, c, req, i).ring.Shape() && SamePackets(sys.rings[i], Scan(sys, c, req, i).ring)
      ensures forall t | 0 <= t < |sys.rings[i].slots| ::
        Scan(sys, c, req, i).ring.slots[t].blockmap >= sys.rings[i].slots[t].blockmap - {c}
    {
      ScanKeeps(sys.rings[i], sys.nextData, c, cl.blocking, req.order,
                StartData(req.order, cl.nextData, sys.nextData), cl.last[i]);
    }
  }

  /** A pass that moves started on a live slot with everything older passed. */
  lemma MovedFrom(r: Ring, counter: int, who: set<nat>, nd: int, cur: Cursor)
    requires r.Valid(counter) && CursorSound(r, cur, nd, counter)
    requires r.Ack(who, nd, r.AckStart(cur), cur).scan != r.AckStart(cur)
    ensures var e := r.Ack(who, nd, r.AckStart(cur), cur).scan;
      && e < |r.slots| && r.Dist(e) <= r.Len() && PassedBefore(r, e, nd) && r.slots[e].packetNum < counter
      && (e != r.head ==> nd <= r.slots[e].packetNum)
      && r.Ack(who, nd, r.AckStart(cur), cur).cursor == Cursor(Some(e), r.slots[e].packetNum)
  {
    var s := r.AckStart(cur);
    AckMeaning(r, who, nd, s, cur);
    var e := r.Ack(who, nd, s, cur).scan;
    assert s != r.head && r.At(r.Dist(s)) == s;
    assert PassedBefore(r, s, nd);
    ScanEnd(r, nd, s, e);
    assert r.Live()[r.Dist(s)].packetNum < counter;
  }

  /** After a pass below `nd` the cursor of the client that asked is sound for `nd`. */
  lemma ScanCursorSound(r: Ring, counter: int, c: nat, blocking: bool, order: Order, nd: int, cur: Cursor, nd': int)
    requires r.Valid(counter) && nd <= nd'
    requires order == NEXT ==> CursorSound(r, cur, nd, counter)
    requires cur.scan.Some? ==> cur.scan.value < |r.slots| && r.Dist(cur.scan.value) <= r.Len()
    ensures var a := ScanRing(r, c, blocking, order, nd, cur);
      a.ring.Shape() && CursorSound(a.ring, a.cursor, nd', counter)
  {
    var a := ScanRing(r, c, blocking, order, nd, cur);
    ScanKeeps(r, counter, c, blocking, order, nd, cur);
    if order != FIRST {
      var from := if order == NEXT then cur else Cursor(None, -1);
      if a.scan != r.AckStart(from) {
        MovedFrom(r, counter, if blocking then {c} else {}, nd, from);
        SamePassed(r, a.ring, counter, a.scan, nd, nd');
      } else {
        AckMeaning(r, if blocking then {c} else {}, nd, r.AckStart(from), from);
        CursorGrows(r, from, nd, nd', counter);
        SameCursorSound(r, a.ring, counter, from, nd');
      }
    }
  }

  lemma CursorGrows(r: Ring, cur: Cursor, nd: int, nd': int, counter: int)
    requires r.Shape() && CursorSound(r, cur, nd, counter) && nd <= nd'
    ensures CursorSound(r, cur, nd', counter)
  {
  }

  lemma SamePassed(r: Ring, r': Ring, counter: int, s: nat, nd: int, nd': int)
    requires r.Valid(counter) && r'.Shape() && SamePackets(r, r') && nd <= nd'
    requires s < |r.slots| && r.Dist(s) <= r.Len() && PassedBefore(r, s, nd)
    ensures PassedBefore(r', s, nd')
  {
    SamePacketsValid(r, r', counter);
  }

  // ----- what one request considers

  lemma PacksRising(q: nat, l: seq<Slot>, nd: int)
    requires forall j, k | 0 <= j < k < |l| :: l[j].packetNum < l[k].packetNum
    ensures Rising(Packs(q, l)) && Tagged(Packs(q, l), q)
    ensures l != [] && nd <= l[0].packetNum ==> AllFrom(Packs(q, l), nd)
  {
  }

  /** A scan ends on `head` or on a packet not below `nd`. */
  lemma ScanFirst(r: Ring, counter: int, c: nat, blocking: bool, order: Order, nd: int, cur: Cursor)
    requires r.Valid(counter) && (order == FIRST ==> nd <= 0)
    requires cur.scan.Some? ==> cur.scan.value < |r.slots| && r.Dist(cur.scan.value) <= r.Len()
    ensures var a := ScanRing(r, c, blocking, order, nd, cur);
      a.scan < |r.slots| && (a.scan != r.head ==> nd <= r.slots[a.scan].packetNum)
  {
    if order != FIRST {
      var from := if order == NEXT then cur else Cursor(None, -1);
      AckMeaning(r, if blocking then {c} else {}, nd, r.AckStart(from), from);
    } else {
      SkipMeaning(r, c, r.tail);
    }
  }

  lemma ScanRestFrom(sys: Sys, c: nat, req: Req, i: nat)
    requires Sound(sys) && c < |sys.clients| && i < NUMQ
    ensures var nd := StartData(req.order, sys.clients[c].nextData, sys.nextData);
      Rising(ScanRest(sys, c, req, i)) && AllFrom(ScanRest(sys, c, req, i), nd)
  {
    var cl, r := sys.clients[c], sys.rings[i];
    var nd := StartData(req.order, cl.nextData, sys.nextData);
    var a := Scan(sys, c, req, i);
    ScanKeeps(r, sys.nextData, c, cl.blocking, req.order, nd, cl.last[i]);
    ScanFirst(r, sys.nextData, c, cl.blocking, req.order, nd, cl.last[i]);
    FromRises(a.ring, sys.nextData, i, a.scan, nd);
  }

  lemma FromRises(r: Ring, counter: int, i: nat, s: nat, nd: int)
    requires r.Valid(counter) && s < |r.slots| && r.Dist(s) <= r.Len()
    requires s != r.head ==> nd <= r.slots[s].packetNum
    ensures Rising(r.From(i, s)) && AllFrom(r.From(i, s), nd)
  {
    var l := r.Live()[r.Dist(s)..];
    if l != [] {
      assert r.At(r.Dist(s)) == s;
      assert l[0] == r.slots[s];
    }
    PacksRising(i, l, nd);
  }

  lemma FromDistinct(r: Ring, i: nat, s: nat, q: Ring, j: nat, t: nat)
    requires r.Shape() && q.Shape() && s < |r.slots| && t < |q.slots| && ApartLive(r.Live(), q.Live())
    ensures Distinct(r.From(i, s), q.From(j, t))
  {
  }

  lemma ScanRestApart(sys: Sys, c: nat, req: Req, i: nat, j: nat)
    requires Sound(sys) && c < |sys.clients| && i < j < NUMQ
    ensures Distinct(ScanRest(sys, c, req, i), ScanRest(sys, c, req, j))
  {
    var a, b := Scan(sys, c, req, i), Scan(sys, c, req, j);
    assert a.ring.Shape() && b.ring.Shape() && ApartLive(a.ring.Live(), b.ring.Live()) by {
      RequestSame(sys, c, req);
      var sys' := Request(sys, c, req).sys;
      assert a.ring == sys'.rings[i] && b.ring == sys'.rings[j];
      SameRingsSound(sys, sys');
    }
    assert a.scan < |a.ring.slots| && b.scan < |b.ring.slots| by {
      ScanInRange(sys, c, req, i);
      ScanInRange(sys, c, req, j);
    }
    hide Sound;
    FromDistinct(a.ring, i, a.scan, b.ring, j, b.scan);
  }

  lemma ScanInRange(sys: Sys, c: nat, req: Req, i: nat)
    requires Sound(sys) && c < |sys.clients| && i < NUMQ
    ensures Scan(sys, c, req, i).ring.Shape() && Scan(sys, c, req, i).scan < |Scan(sys, c, req, i).ring.slots|
  {
    var cl := sys.clients[c];
    ScanKeeps(sys.rings[i], sys.nextData, c, cl.blocking, req.order,
              StartData(req.order, cl.nextData, sys.nextData), cl.last[i]);
  }

  lemma RestsReady(sys: Sys, c: nat, req: Req)
    requires Sound(sys) && c < |sys.clients|
    ensures Ready(Rests(sys, c, req), req.mask, StartData(req.order, sys.clients[c].nextData, sys.nextData))
  {
    var rest := Rests(sys, c, req);
    forall i | 0 <= i < NUMQ
      ensures Rising(rest[i]) && AllFrom(rest[i], StartData(req.order, sys.clients[c].nextData, sys.nextData))
    {
      ScanRestFrom(sys, c, req, i);
    }
    forall i, j | 0 <= i < j < NUMQ
      ensures Distinct(rest[i], rest[j])
    {
      ScanRestApart(sys, c, req, i, j);
    }
  }

  /** For every client and every request: the packets considered rise over all six queues,
      come from selected queues, are not below where the request starts, and the next
      request starts above the last of them. */
  lemma RequestInOrder(sys: Sys, c: nat, req: Req)
    requires Sound(sys) && c < |sys.clients|
    ensures var r := Request(sys, c, req);
      var nd := StartData(req.order, sys.clients[c].nextData, sys.nextData);
      && InOrder(r.taken, req.mask, nd)
      && nd <= r.sys.clients[c].nextData
      && (forall k | 0 <= k < |r.taken| :: r.taken[k].num < r.sys.clients[c].nextData)
  {
    var nd := StartData(req.order, sys.clients[c].nextData, sys.nextData);
    RestsReady(sys, c, req);
    TakenInOrder(Rests(sys, c, req), req.mask, p => Wanted(req, p), req.count, nd);
    AfterBounds(Request(sys, c, req).taken, req.mask, nd);
  }

  lemma RequestSound(sys: Sys, c: nat, req: Req)
    requires Sound(sys) && c < |sys.clients|
    ensures Sound(Request(sys, c, req).sys)
  {
    var sys' := Request(sys, c, req).sys;
    var cl := sys.clients[c];
    var nd := StartData(req.order, cl.nextData, sys.nextData);
    RequestSame(sys, c, req);
    SameRingsSound(sys, sys');
    RequestInOrder(sys, c, req);
    forall d, i | 0 <= d < |sys.clients| && 0 <= i < NUMQ
      ensures CursorSound(sys'.rings[i], sys'.clients[d].last[i], sys'.clients[d].nextData, sys'.nextData)
    {
      if d == c {
        ScanCursorSound(sys.rings[i], sys.nextData, c, cl.blocking, req.order, nd, cl.last[i],
          sys'.clients[c].nextData);
      } else {
        SameCursorSound(sys.rings[i], sys'.rings[i], sys.nextData, sys.clients[d].last[i], sys.clients[d].nextData);
      }
    }
  }

  /** Unblocking clears bits and nothing else. */
  lemma UnblockSound(sys: Sys, c: nat)
    requires Sound(sys)
    ensures Sound(UnblockClient(sys, c)) && SameRings(sys, UnblockClient(sys, c))
    ensures forall i, t | 0 <= i < NUMQ && 0 <= t < |sys.rings[i].slots| ::
      UnblockClient(sys, c).rings[i].slots[t].blockmap == sys.rings[i].slots[t].blockmap - {c}
  {
    var sys' := UnblockClient(sys, c);
    SameRingsSound(sys, sys');
    forall d, i | 0 <= d < |sys.clients| && 0 <= i < NUMQ
      ensures CursorSound(sys'.rings[i], sys'.clients[d].last[i], sys'.clients[d].nextData, sys'.nextData)
    {
      SameCursorSound(sys.rings[i], sys'.rings[i], sys.nextData, sys.clients[d].last[i], sys.clients[d].nextData);
    }
  }
}
