/** Runs of the packet server, and what they guarantee to its clients. */
module Delivery {
  import opened Options
  import opened RingModel
  import opened ServerModel

  // ----- the operations on the whole server

  /** One ring's part of a request: forget the cursor unless the request continues, skip to
      the client's own packets on CSQ_FIRST, acknowledge what is below `nd` otherwise. */
  function ScanRing(r: Ring, c: nat, blocking: bool, order: Order, nd: int, cur: Cursor): (a: AckResult)
    requires r.Shape() && (cur.scan.Some? ==> cur.scan.value < |r.slots|)
  {
    if order == FIRST then
      AckResult(r, if blocking then r.SkipUnmarked(c, r.tail) else r.tail, Cursor(None, -1))
    else
      var from := if order == NEXT then cur else Cursor(None, -1);
      r.Ack(if blocking then {c} else {}, nd, r.AckStart(from), from)
  }

  function StartData(order: Order, nextData: int, counter: int): int {
    match order
    case NEXT => nextData
    case LAST => if counter > 0 then counter - 1 else 0
    case _ => 0
  }

  ghost predicate Sound(sys: Sys) {
    && |sys.rings| == NUMQ
    && (forall i | 0 <= i < NUMQ :: sys.rings[i].Valid(sys.nextData))
    && (forall i, j | 0 <= i < j < NUMQ :: ApartLive(sys.rings[i].Live(), sys.rings[j].Live()))
    && (forall c | 0 <= c < |sys.clients| :: |sys.clients[c].last| == NUMQ)
    && (forall c, i | 0 <= c < |sys.clients| && 0 <= i < NUMQ ::
          CursorSound(sys.rings[i], sys.clients[c].last[i], sys.clients[c].nextData, sys.nextData))
  }

  ghost predicate ApartLive(l: seq<Slot>, m: seq<Slot>) {
    forall j, k | 0 <= j < |l| && 0 <= k < |m| :: l[j].packetNum != m[k].packetNum
  }

  /** A cached cursor names a live slot or `head`; while it is live and still holds the packet
      seen there, everything older has been passed. */
  ghost predicate CursorSound(r: Ring, cur: Cursor, nd: int, counter: int)
    requires r.Shape()
  {
    cur.scan.Some? ==>
      && cur.scan.value < |r.slots| && r.Dist(cur.scan.value) <= r.Len() && 0 <= cur.packet < counter
      && (r.slots[cur.scan.value].packetNum == cur.packet && cur.scan.value != r.head ==>
            PassedBefore(r, cur.scan.value, nd))
  }

  ghost predicate PassedBefore(r: Ring, s: nat, nd: int)
    requires r.Shape() && s < |r.slots| && r.Dist(s) <= r.Len()
  {
    forall k | 0 <= k < r.Dist(s) :: r.Live()[k].packetNum < nd
  }

  datatype Response = Response(sys: Sys, taken: seq<Packet>)

  function Scan(sys: Sys, c: nat, req: Req, i: nat): AckResult
    requires Sound(sys) && c < |sys.clients| && i < NUMQ
  {
    var cl := sys.clients[c];
    ScanRing(sys.rings[i], c, cl.blocking, req.order, StartData(req.order, cl.nextData, sys.nextData), cl.last[i])
  }

  ghost function Rests(sys: Sys, c: nat, req: Req): (rest: seq<seq<Packet>>)
    requires Sound(sys) && c < |sys.clients|
    ensures QueueTags(rest)
  {
    seq(NUMQ, i requires 0 <= i < NUMQ => ScanRest(sys, c, req, i))
  }

  ghost function ScanRest(sys: Sys, c: nat, req: Req, i: nat): (ps: seq<Packet>)
    requires Sound(sys) && c < |sys.clients| && i < NUMQ
    ensures Tagged(ps, i)
  {
    var cl := sys.clients[c];
    ScanKeeps(sys.rings[i], sys.nextData, c, cl.blocking, req.order,
              StartData(req.order, cl.nextData, sys.nextData), cl.last[i]);
    var a := Scan(sys, c, req, i);
    a.ring.From(i, a.scan)
  }

  ghost function Request(sys: Sys, c: nat, req: Req): (r: Response)
    requires Sound(sys) && c < |sys.clients|
  {
    var cl := sys.clients[c];
    var taken := Taken(Rests(sys, c, req), req.mask, p => Wanted(req, p), req.count);
    var nd := After(taken, StartData(req.order, cl.nextData, sys.nextData));
    var rings := seq(NUMQ, i requires 0 <= i < NUMQ => Scan(sys, c, req, i).ring);
    var last := seq(NUMQ, i requires 0 <= i < NUMQ => Scan(sys, c, req, i).cursor);
    Response(sys.(rings := rings, clients := sys.clients[c := Client(cl.blocking, nd, last)]), taken)
  }

  function StorePacket(sys: Sys, q: nat, data: UserData): Sys
    requires Sound(sys) && q < NUMQ
  {
    if sys.rings[q].Avail() then
      sys.(rings := sys.rings[q := sys.rings[q].Put(sys.blockmask, sys.nextData, data)], nextData := sys.nextData + 1)
    else sys
  }

  function UnblockClient(sys: Sys, c: nat): Sys
    requires Sound(sys)
  {
    sys.(rings := seq(NUMQ, i requires 0 <= i < NUMQ => sys.rings[i].ClearAll({c})))
  }

  // ----- what a scan of one ring does

  lemma SkipMeaning(r: Ring, c: nat, s: nat)
    requires r.Shape() && s < |r.slots| && r.Dist(s) <= r.Len()
    ensures r.Dist(s) <= r.Dist(r.SkipUnmarked(c, s)) <= r.Len()
    ensures forall k | r.Dist(s) <= k < r.Dist(r.SkipUnmarked(c, s)) :: c !in r.Live()[k].blockmap
    decreases r.ToHead(s)
  {
    if s != r.head && c !in r.slots[s].blockmap {
      assert r.Dist(r.Next(s)) == r.Dist(s) + 1;
      assert r.At(r.Dist(s)) == s;
      SkipMeaning(r, c, r.Next(s));
    }
  }

  /** A scan keeps the ring's packets and takes away only the client's own bit, from packets
      below `nd`; it ends on a live slot or `head`. */
  lemma ScanKeeps(r: Ring, counter: int, c: nat, blocking: bool, order: Order, nd: int, cur: Cursor)
    requires r.Valid(counter)
    requires cur.scan.Some? ==> cur.scan.value < |r.slots| && r.Dist(cur.scan.value) <= r.Len()
    ensures var a := ScanRing(r, c, blocking, order, nd, cur);
      && a.ring.Shape() && SamePackets(r, a.ring) && a.ring.Valid(counter)
      && a.scan < |a.ring.slots| == |r.slots| && a.ring.Dist(a.scan) == r.Dist(a.scan) <= r.Len()
      && (forall t | 0 <= t < |r.slots| :: a.ring.slots[t].blockmap >= r.slots[t].blockmap - {c})
      && (forall t | 0 <= t < |r.slots| && r.slots[t].packetNum >= nd :: a.ring.slots[t] == r.slots[t])
  {
    if order == FIRST {
      if blocking {
        SkipMeaning(r, c, r.tail);
      }
    } else {
      var from := if order == NEXT then cur else Cursor(None, -1);
      AckMeaning(r, if blocking then {c} else {}, nd, r.AckStart(from), from);
    }
    SamePacketsValid(r, ScanRing(r, c, blocking, order, nd, cur).ring, counter);
  }

  /** When a queue looks empty although it is not: the cursor's slot was discarded, became
      `head`, and still shows the old packet number. */
  ghost predicate StaleHead(r: Ring, cur: Cursor, nd: int)
    requires r.Shape() && (cur.scan.Some? ==> cur.scan.value < |r.slots|)
  {
    && cur.scan == Some(r.head) && r.slots[r.head].packetNum == cur.packet
    && exists k :: 0 <= k < |r.Live()| && nd <= r.Live()[k].packetNum
  }

  ghost predicate OnHead(r: Ring, cur: Cursor)
    requires r.Shape()
  {
    cur.scan == Some(r.head) && r.slots[r.head].packetNum == cur.packet
  }

  /** Unless it starts on `head`, the pass ends at the first packet not below `nd`. */
  lemma NextScanEnd(r: Ring, counter: int, c: nat, blocking: bool, nd: int, cur: Cursor)
    requires r.Shape() && CursorSound(r, cur, nd, counter) && !OnHead(r, cur)
    ensures var e := ScanRing(r, c, blocking, NEXT, nd, cur).scan;
      && e < |r.slots| && r.Dist(e) <= r.Len() && PassedBefore(r, e, nd)
      && (r.Dist(e) < r.Len() ==> nd <= r.Live()[r.Dist(e)].packetNum)
  {
    var s := r.AckStart(cur);
    AckMeaning(r, if blocking then {c} else {}, nd, s, cur);
    ScanEnd(r, nd, s, ScanRing(r, c, blocking, NEXT, nd, cur).scan);
  }

  /** A continuing request sees a queue's packets from its `nextData` on, all of them and
      nothing else, exactly when the cursor is not on a stale head. */
  lemma NextScanExact(r: Ring, counter: int, i: nat, c: nat, blocking: bool, nd: int, cur: Cursor)
    requires r.Valid(counter) && CursorSound(r, cur, nd, counter)
    ensures var a := ScanRing(r, c, blocking, NEXT, nd, cur);
      && a.ring.Shape() && a.scan < |a.ring.slots|
      && (a.ring.From(i, a.scan) == Owed(i, r.Live(), nd) <==> !StaleHead(r, cur, nd))
  {
    var a := ScanRing(r, c, blocking, NEXT, nd, cur);
    if OnHead(r, cur) {
      assert a == AckResult(r, r.head, cur) && a.ring.From(i, a.scan) == [];
      if StaleHead(r, cur, nd) {
        var k :| 0 <= k < |r.Live()| && nd <= r.Live()[k].packetNum;
        OwedHas(i, r.Live(), nd, k);
      } else {
        OwedBelow(i, r.Live(), nd);
      }
    } else {
      ScanKeeps(r, counter, c, blocking, NEXT, nd, cur);
      NextScanEnd(r, counter, c, blocking, nd, cur);
      FromOwedAfter(r, a.ring, counter, i, a.scan, nd);
    }
  }

  lemma FromOwedAfter(r: Ring, r': Ring, counter: int, i: nat, e: nat, nd: int)
    requires r.Valid(counter) && r'.Shape() && SamePackets(r, r')
    requires e < |r.slots| && r.Dist(e) <= r.Len() && PassedBefore(r, e, nd)
    requires r.Dist(e) < r.Len() ==> nd <= r.Live()[r.Dist(e)].packetNum
    ensures r'.From(i, e) == Owed(i, r.Live(), nd)
  {
    SamePacketsValid(r, r', counter);
    OwedSame(i, r.Live(), r'.Live(), nd);
    FromIsOwed(r', counter, i, e, nd);
  }

  /** Live packets between where the pass started and where it ended are below `nd`. */
  lemma ScanEnd(r: Ring, nd: int, s: nat, e: nat)
    requires r.Shape() && s < |r.slots| && e < |r.slots| && r.Dist(s) <= r.Dist(e) <= r.Len()
    requires forall t | 0 <= t < |r.slots| && r.Dist(s) <= r.Dist(t) < r.Dist(e) :: r.slots[t].packetNum < nd
    ensures PassedBefore(r, s, nd) ==> PassedBefore(r, e, nd)
    ensures e != r.head ==> r.Dist(e) < r.Len() && r.Live()[r.Dist(e)] == r.slots[e]
  {
    if e != r.head {
      assert r.At(r.Dist(e)) == e;
    }
  }

  lemma {:induction false} OwedHas(q: nat, l: seq<Slot>, nd: int, k: nat)
    requires k < |l| && nd <= l[k].packetNum
    ensures Owed(q, l, nd) != []
  {
    if k > 0 {
      OwedHas(q, l[1..], nd, k - 1);
    }
  }
}
