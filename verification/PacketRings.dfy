/** The server's packet rings and its data requests, updated in place. */
module PacketRings {
  import opened Options
  import opened RingModel
  import opened ServerModel
  import opened Delivery
  import opened DeliveryRuns
  import opened ExactDelivery
  import opened ClientStarts
  import opened Answers

  const CLEARED := UserData(0.0, ['\0', '\0', '\0', '\0', '\0'], [])

  /** One ring.  The elements are linked in a fixed circle in memory order, so the link of
      element `s` is the element after it, and the first one after the last. */
  class RingBuffer {
    const slots: array<Slot>
    var head: nat
    var tail: nat

    ghost predicate Shape()
      reads this, slots
    {
      2 <= slots.Length && head < slots.Length && tail < slots.Length
    }

    ghost function Abs(): (r: Ring)
      reads this, slots
      requires Shape()
      ensures r.Shape()
    {
      Ring(slots[..], head, tail)
    }

    constructor (count: nat)
      requires 2 <= count
      ensures Shape() && fresh(slots) && slots.Length == count
      ensures Abs().Valid(0) && Abs().Live() == []
    {
      slots := new Slot[count](_ => Slot({}, 0, CLEARED));
      head, tail := 0, 0;
    }

    method Link(s: nat) returns (t: nat)
      requires Shape() && s < slots.Length
      ensures t == Abs().Next(s)
    {
      t := if s + 1 == slots.Length then 0 else s + 1;
    }

    /** A cleared element for the next packet, unless the element that would become free is
        still blocked. */
    method GetBuffer(blockmask: set<nat>, num: int) returns (s: Option<nat>)
      requires Shape()
      modifies this, slots
      ensures Shape()
      ensures s == if old(Abs()).Avail() then Some(old(head)) else None
      ensures Abs() == if old(Abs()).Avail() then old(Abs()).Put(blockmask, num, CLEARED) else old(Abs())
    {
      var bscan := head;
      var nbscan := Link(bscan);
      if slots[nbscan].blockmap != {} {
        return None;
      }
      head := nbscan;
      slots[bscan] := Slot(blockmask, num, CLEARED);
      if nbscan == tail {
        tail := Link(tail);
      }
      s := Some(bscan);
    }

    method BufAvail() returns (avail: bool)
      requires Shape()
      ensures avail == Abs().Avail()
    {
      var nbscan := Link(head);
      avail := slots[nbscan].blockmap == {};
    }

    /** Takes one client's bit from every element. */
    method Unblock(c: nat)
      requires Shape()
      modifies slots
      ensures Shape() && Abs() == old(Abs()).ClearAll({c})
    {
      ghost var r := Abs();
      var datatemp := head;
      var i := 0;
      while i < slots.Length
        invariant i <= slots.Length && datatemp < slots.Length
        invariant datatemp == if head + i < slots.Length then head + i else head + i - slots.Length
        invariant head == r.head && tail == r.tail && |r.slots| == slots.Length
        invariant forall t | 0 <= t < slots.Length ::
          slots[t] == (if (head <= t < head + i) || t < head + i - slots.Length
                       then r.slots[t].(blockmap := r.slots[t].blockmap - {c}) else r.slots[t])
      {
        slots[datatemp] := slots[datatemp].(blockmap := slots[datatemp].blockmap - {c});
        datatemp := Link(datatemp);
        i := i + 1;
      }
      assert slots[..] == r.ClearAll({c}).slots;
    }

    /** Acknowledges this client's packets below `nextData`. */
    method AckPass(c: nat, blocking: bool, nextData: int, last: Cursor) returns (bscan: nat, plast: Cursor)
      requires Shape() && (last.scan.Some? ==> last.scan.value < slots.Length)
      modifies slots
      ensures Shape()
      ensures AckResult(Abs(), bscan, plast)
        == old(Abs()).Ack(if blocking then {c} else {}, nextData, old(Abs()).AckStart(last), last)
    {
      ghost var who := if blocking then {c} else {};
      plast := last;
      bscan := tail;
      if last.scan.Some? && slots[last.scan.value].packetNum == last.packet {
        bscan := last.scan.value;
      }
      while bscan != head && slots[bscan].packetNum < nextData
        invariant Shape() && bscan < slots.Length
        invariant Abs().Ack(who, nextData, bscan, plast)
          == old(Abs()).Ack(who, nextData, old(Abs()).AckStart(last), last)
        decreases Abs().ToHead(bscan)
      {
        ghost var r := Abs();
        if blocking {
          slots[bscan] := slots[bscan].(blockmap := slots[bscan].blockmap - {c});
        }
        assert blocking || r.slots[bscan].blockmap - who == r.slots[bscan].blockmap;
        assert slots[..] == r.ClearAt(bscan, who).slots;
        bscan := Link(bscan);
        plast := Cursor(Some(bscan), slots[bscan].packetNum);
      }
    }

    method SkipPass(c: nat) returns (bscan: nat)
      requires Shape()
      ensures bscan == Abs().SkipUnmarked(c, tail)
    {
      bscan := tail;
      while bscan != head && c !in slots[bscan].blockmap
        invariant bscan < slots.Length && Abs().SkipUnmarked(c, bscan) == Abs().SkipUnmarked(c, tail)
        decreases Abs().ToHead(bscan)
      {
        bscan := Link(bscan);
      }
    }
  }

  /** The server's global state for the rings and the client table. */
  class Server {
    const rings: seq<RingBuffer>
    var nextData: int
    var blockmask: set<nat>
    var noackmask: set<nat>
    var clients: seq<Client>

    ghost function Repr(): set<object>
      reads this
    {
      (set i | 0 <= i < |rings| :: rings[i] as object) + (set i | 0 <= i < |rings| :: rings[i].slots as object)
    }

    /** Six rings, none sharing anything with another. */
    ghost predicate Shape()
      reads this, Repr()
    {
      && |rings| == NUMQ
      && (forall i, j | 0 <= i < j < NUMQ :: rings[i] != rings[j] && rings[i].slots != rings[j].slots)
      && (forall i | 0 <= i < NUMQ :: rings[i].Shape())
    }

    ghost function Abs(): Sys
      reads this, Repr()
      requires Shape()
    {
      Sys(seq(NUMQ, i requires 0 <= i < NUMQ reads this, Repr() requires rings[i].Shape() => rings[i].Abs()),
          nextData, blockmask, clients)
    }

    ghost predicate Valid()
      reads this, Repr()
    {
      Shape() && Sound(Abs())
    }

    /** Empty rings of the given sizes and a client table without requests yet. */
    constructor (counts: seq<nat>, blocking: seq<bool>)
      requires |counts| == NUMQ && forall i | 0 <= i < NUMQ :: 2 <= counts[i]
      ensures Valid() && fresh(Repr()) && Fresh(Abs())
      ensures |clients| == |blocking|
      ensures blockmask == set c | 0 <= c < |blocking| && blocking[c]
      ensures forall c | 0 <= c < |blocking| :: clients[c] == Client(blocking[c], 0, seq(NUMQ, _ => Cursor(None, -1)))
    {
      hide Sound;
      var rs: seq<RingBuffer> := [];
      var i: nat := 0;
      while i < NUMQ
        invariant i == |rs| <= NUMQ
        invariant forall j | 0 <= j < i :: fresh(rs[j]) && fresh(rs[j].slots) && rs[j].Shape()
        invariant forall j | 0 <= j < i :: rs[j].Abs().Valid(0) && rs[j].Abs().Live() == []
        invariant forall j, k | 0 <= j < k < i :: rs[j] != rs[k] && rs[j].slots != rs[k].slots
      {
        var r := new RingBuffer(counts[i]);
        rs := rs + [r];
        i := i + 1;
      }
      rings := rs;
      nextData, blockmask, noackmask := 0, set c | 0 <= c < |blocking| && blocking[c], {};
      clients := seq(|blocking|, c requires 0 <= c < |blocking| =>
        Client(blocking[c], 0, seq(NUMQ, _ => Cursor(None, -1))));
      new;
      FreshSound(Abs());
    }

    /** A reserved client attaches and says whether it wants to block the server. */
    method Attach(c: nat, wantsBlocking: bool)
      requires Valid() && c < |clients|
      modifies Repr(), `clients, `blockmask
      ensures Valid() && Abs() == Step(old(Abs()), if wantsBlocking then Block(c) else NoBlock(c))
    {
      hide Sound;
      clients := clients[c := clients[c].(blocking := wantsBlocking)];
      ghost var sys := old(Abs());
      if wantsBlocking {
        blockmask := blockmask + {c};
        assert Abs().rings == sys.rings;
        assert Abs() == Step(sys, Block(c));
      } else {
        ClientSound(sys, c, false);
        assert Abs().rings == sys.rings;
        assert Abs() == sys.(clients := clients);
        UnblockAll(c);
        blockmask := blockmask - {c};
        assert Abs().rings == UnblockClient(sys, c).rings;
        assert Abs() == Step(sys, NoBlock(c));
      }
    }

    /** Whether any queue is known to be full of blocked packets, after looking at one queue
        or, for -1, at all. */
    method CheckMask(qnum: int) returns (blocked: bool)
      requires Shape() && -1 <= qnum < NUMQ
      modifies `noackmask
      ensures Shape() && Abs() == old(Abs())
      ensures qnum >= 0 ==>
        noackmask == (if Abs().rings[qnum].Avail() then old(noackmask) - {qnum} else old(noackmask) + {qnum})
      ensures qnum == -1 ==> forall j | 0 <= j < NUMQ :: j in noackmask <==> !Abs().rings[j].Avail()
      ensures forall j | NUMQ <= j :: j in noackmask <==> j in old(noackmask)
      ensures blocked == (noackmask != {})
    {
      ghost var sys := Abs();
      if qnum != -1 {
        var avail := rings[qnum].BufAvail();
        noackmask := if avail then noackmask - {qnum} else noackmask + {qnum};
      } else {
        var j: nat := 0;
        while j < NUMQ
          invariant j <= NUMQ
          invariant forall k | 0 <= k < j :: k in noackmask <==> !Abs().rings[k].Avail()
          invariant forall k | NUMQ <= k :: k in noackmask <==> k in old(noackmask)
        {
          var avail := rings[j].BufAvail();
          noackmask := if avail then noackmask - {j} else noackmask + {j};
          j := j + 1;
        }
      }
      assert Abs().rings == sys.rings;
      blocked := noackmask != {};
    }

    /** Stores a packet, if the queue can take it. */
    method Store(q: nat, data: UserData) returns (ok: bool)
      requires Valid() && q < NUMQ && nextData < INT32_MAX
      modifies Repr(), `nextData
      ensures Valid() && ok == old(Abs()).rings[q].Avail()
      ensures Abs() == StorePacket(old(Abs()), q, data)
    {
      hide Sound;
      ghost var sys := Abs();
      var s := rings[q].GetBuffer(blockmask, nextData);
      ok := s.Some?;
      if ok {
        nextData := nextData + 1;
        rings[q].slots[s.value] := rings[q].slots[s.value].(data := data);
        assert rings[q].slots[..] == sys.rings[q].Put(blockmask, sys.nextData, data).slots;
      }
      assert Abs().rings == StorePacket(sys, q, data).rings;
      StoreSound(sys, q, data);
    }

    method UnblockAll(c: nat)
      requires Valid()
      modifies Repr()
      ensures Valid() && Abs() == UnblockClient(old(Abs()), c)
    {
      hide Sound;
      ghost var sys := Abs();
      var j: nat := 0;
      while j < NUMQ
        invariant j <= NUMQ && Shape()
        invariant nextData == sys.nextData && blockmask == sys.blockmask && clients == sys.clients
        invariant forall i | 0 <= i < NUMQ ::
          rings[i].Abs() == (if i < j then sys.rings[i].ClearAll({c}) else sys.rings[i])
      {
        rings[j].Unblock(c);
        j := j + 1;
      }
      assert Abs().rings == UnblockClient(sys, c).rings;
      UnblockSound(sys, c);
    }

    ghost predicate CursorsInRange(last: seq<Cursor>)
      reads this, Repr()
      requires Shape()
    {
      |last| == NUMQ && forall i | 0 <= i < NUMQ && last[i].scan.Some? :: last[i].scan.value < rings[i].slots.Length
    }

    /** Starting fresh: every queue from its oldest packet, or for a blocking client from the
        oldest one that is marked for it. */
    method StartQueues(c: nat, blocking: bool) returns (bscan: seq<nat>)
      requires Shape()
      ensures |bscan| == NUMQ
      ensures forall j | 0 <= j < NUMQ ::
        ScanRing(Abs().rings[j], c, blocking, FIRST, 0, Cursor(None, -1))
          == AckResult(Abs().rings[j], bscan[j], Cursor(None, -1))
    {
      bscan := seq(NUMQ, _ => 0);
      var i: nat := 0;
      while i < NUMQ
        invariant i <= NUMQ && |bscan| == NUMQ
        invariant forall j | 0 <= j < i ::
          bscan[j] == (if blocking then Abs().rings[j].SkipUnmarked(c, rings[j].tail) else rings[j].tail)
      {
        var start := rings[i].tail;
        if blocking {
          start := rings[i].SkipPass(c);
        }
        bscan := bscan[i := start];
        i := i + 1;
      }
    }

    /** Acknowledging: every queue from its cursor, past the client's packets below `nd`. */
    method AckQueues(c: nat, blocking: bool, nd: int, last0: seq<Cursor>) returns (bscan: seq<nat>, last: seq<Cursor>)
      requires Shape() && CursorsInRange(last0)
      modifies Repr()
      ensures Shape() && |bscan| == NUMQ && |last| == NUMQ
      ensures nextData == old(nextData) && blockmask == old(blockmask) && clients == old(clients)
      ensures forall j | 0 <= j < NUMQ ::
        ScanRing(old(Abs()).rings[j], c, blocking, NEXT, nd, last0[j])
          == AckResult(Abs().rings[j], bscan[j], last[j])
    {
      ghost var sys := Abs();
      bscan, last := seq(NUMQ, _ => 0), last0;
      var i: nat := 0;
      while i < NUMQ
        invariant i <= NUMQ && Shape() && |bscan| == NUMQ && |last| == NUMQ
        invariant nextData == sys.nextData && blockmask == sys.blockmask && clients == sys.clients
        invariant forall j | i <= j < NUMQ :: rings[j].Abs() == sys.rings[j] && last[j] == last0[j]
        invariant forall j | 0 <= j < i ::
          ScanRing(sys.rings[j], c, blocking, NEXT, nd, last0[j])
            == AckResult(rings[j].Abs(), bscan[j], last[j])
      {
        var start, cur := rings[i].AckPass(c, blocking, nd, last[i]);
        bscan := bscan[i := start];
        last := last[i := cur];
        i := i + 1;
      }
    }

    method MatchSelector(selector: ChannelId, channel: ChannelId) returns (goodone: bool)
      ensures goodone == Matches(selector, channel)
    {
      var j := 0;
      while j < 5
        invariant 0 <= j <= 5
        invariant forall m | 0 <= m < j :: selector[m] == '?' || selector[m] == channel[m]
      {
        if selector[j] != '?' && selector[j] != channel[j] {
          return false;
        }
        j := j + 1;
      }
      goodone := true;
    }

    /** Whether a packet is late enough and on a channel the client selected. */
    method Selected(req: Req, q: nat, data: UserData) returns (good: bool)
      requires req.WellFormed() && q < NUMQ
      ensures forall num :: good == Wanted(req, Packet(q, num, data))
    {
      good := data.headerTime >= req.startTime;
      if good {
        good := false;
        var k := req.sels[q].0;
        while k <= req.sels[q].1
          invariant req.sels[q].0 <= k
          invariant forall m | req.sels[q].0 <= m < k && m <= req.sels[q].1 :: !Matches(req.selectors[m], data.channel)
        {
          good := MatchSelector(req.selectors[k], data.channel);
          if good {
            return;
          }
          k := k + 1;
        }
        good := false;
      }
    }

    /** The selected queue whose next packet has the lowest number. */
    method PickLowest(bscan: seq<nat>, mask: set<nat>, ghost rs: seq<Ring>) returns (lowi: nat, lowest: int)
      requires Shape() && rs == Abs().rings && ScansOk(rs, bscan, nextData) && nextData <= INT32_MAX
      ensures Best(RestAt(rs, bscan, nextData), mask, NUMQ) == if lowest == INT32_MAX then None else Some(lowi)
    {
      ghost var rest: seq<seq<Packet>> := RestAt(rs, bscan, nextData);
      AllFronts(rs, bscan, nextData);
      hide ScansOk, RestAt;
      lowi, lowest := 0, INT32_MAX;
      var i: nat := 0;
      while i < NUMQ
        invariant i <= NUMQ
        invariant lowest == INT32_MAX ==> Best(rest, mask, i) == None
        invariant lowest != INT32_MAX ==> Best(rest, mask, i) == Some(lowi) && lowest == rest[lowi][0].num
      {
        assert Front(rs[i], bscan[i], rest[i]) && rs[i] == rings[i].Abs();
        if i in mask && bscan[i] != rings[i].head && rings[i].slots[bscan[i]].packetNum < lowest {
          lowi, lowest := i, rings[i].slots[bscan[i]].packetNum;
        }
        i := i + 1;
      }
    }

    /** Takes the next packet of one queue. */
    method TakeNext(bscan: seq<nat>, lowi: nat, req: Req, ghost rs: seq<Ring>)
      returns (slot: Slot, good: bool, next: seq<nat>)
      requires Shape() && rs == Abs().rings && ScansOk(rs, bscan, nextData) && req.WellFormed()
      requires lowi < NUMQ && RestAt(rs, bscan, nextData)[lowi] != []
      ensures Pack(lowi, slot) == RestAt(rs, bscan, nextData)[lowi][0] && good == Wanted(req, Pack(lowi, slot))
      ensures ScansOk(rs, next, nextData)
      ensures RestAt(rs, next, nextData) == Pop(RestAt(rs, bscan, nextData), lowi)
    {
      AdvanceRest(rs, bscan, nextData, lowi);
      assert rs[lowi] == rings[lowi].Abs();
      slot := rings[lowi].slots[bscan[lowi]];
      good := Selected(req, lowi, slot.data);
      var after := rings[lowi].Link(bscan[lowi]);
      next := bscan[lowi := after];
    }

    /** The transfer loop: packets in the order they were received, whatever their queue,
        until the buffers asked for are full or nothing is left. */
    method MergeQueues(bscan0: seq<nat>, req: Req, nd0: int, ghost rs: seq<Ring>)
      returns (delivered: seq<UserData>, nd: int, ghost taken: seq<Packet>)
      requires Shape() && rs == Abs().rings && ScansOk(rs, bscan0, nextData)
      requires nextData <= INT32_MAX && req.WellFormed()
      ensures taken == Taken(RestAt(rs, bscan0, nextData), req.mask, p => Wanted(req, p), req.count)
      ensures delivered == Delivered(p => Wanted(req, p), taken)
      ensures nd == After(taken, nd0)
    {
      hide ScansOk, Taken, Delivered, RestAt, Best, Total, After, Wanted, Matches;
      ghost var want: Want := p => Wanted(req, p);
      ghost var rest: seq<seq<Packet>> := RestAt(rs, bscan0, nextData);
      ghost var all := Taken(rest, req.mask, want, req.count);
      DeliveredNothing(want, nd0);
      var bscan, valdbuf := bscan0, 0;
      delivered, nd, taken := [], nd0, [];
      while valdbuf < req.count
        invariant ScansOk(rs, bscan, nextData) && rest == RestAt(rs, bscan, nextData)
        invariant all == taken + Taken(rest, req.mask, want, req.count - valdbuf)
        invariant delivered == Delivered(want, taken) && nd == After(taken, nd0)
        decreases Total(rest)
      {
        var lowi, lowest := PickLowest(bscan, req.mask, rs);
        if lowest == INT32_MAX {
          break;
        }
        PopTurn(rest, req.mask, want, req.count - valdbuf, lowi);
        var slot, good;
        slot, good, bscan := TakeNext(bscan, lowi, req, rs);
        TransferKeeps(all, taken, slot, lowi, want, rest, req.mask, req.count - valdbuf);
        rest := Pop(rest, lowi);
        if good {
          delivered := delivered + [slot.data];
          valdbuf := valdbuf + 1;
        }
        taken := taken + [Pack(lowi, slot)];
        nd := slot.packetNum + 1;
      }
      TakenNothing(rest, req.mask, want, req.count - valdbuf);
    }

    /** The first part of a request: where each queue starts. */
    method ScanQueues(c: nat, req: Req) returns (bscan: seq<nat>, last: seq<Cursor>, nd: int)
      requires Valid() && c < |clients|
      modifies Repr()
      ensures Shape() && nextData == old(nextData) && blockmask == old(blockmask) && clients == old(clients)
      ensures Scanned(old(Abs()), c, req, Abs().rings, bscan, last)
      ensures nd == StartData(req.order, clients[c].nextData, nextData)
    {
      hide Sound;
      SoundCursors(Abs(), c);
      var client := clients[c];
      bscan, last, nd := [], client.last, client.nextData;
      if req.order != NEXT {
        nd := 0;
        last := seq(NUMQ, _ => Cursor(None, -1));
        bscan := StartQueues(c, client.blocking);
        if req.order == LAST && nextData > 0 {
          nd := nextData - 1;
        }
      }
      if req.order != FIRST {
        bscan, last := AckQueues(c, client.blocking, nd, last);
      }
    }

    /** A CSCM_DATA_BLK request.  The client gets, in order, just those of the considered packets that
        are late enough and agree with a selector for their queue, and no more than it asked for. */
    method DataBlk(c: nat, req: Req)
      returns (delivered: seq<UserData>, ghost taken: seq<Packet>, ghost kept: seq<nat>)
      requires Valid() && c < |clients| && req.WellFormed() && nextData <= INT32_MAX
      modifies Repr(), `clients
      ensures Valid()
      ensures Response(Abs(), taken) == Request(old(Abs()), c, req)
      ensures delivered == Delivered(p => Wanted(req, p), taken)
      ensures |kept| == |delivered| <= (if req.count > 0 then req.count else 0) && |req.sels| == NUMQ
      ensures forall m | 0 <= m < |kept| :: kept[m] < |taken| && delivered[m] == taken[kept[m]].data
      ensures forall l, m | 0 <= l < m < |kept| :: kept[l] < kept[m]
      ensures forall i | 0 <= i < |taken| :: taken[i].q < NUMQ && (i in kept <==>
        && req.startTime <= taken[i].data.headerTime
        && exists k | 0 <= k < |req.selectors| ::
             req.sels[taken[i].q].0 <= k <= req.sels[taken[i].q].1
             && Agrees(req.selectors[k], taken[i].data.channel))
    {
      hide Sound, Request, Rests, ScanRest, Scanned, Wanted, Delivered, Agrees, InOrder, Taken, Best, Total, After,
           Scan, Matches, StartData, RestAt, ScansOk;
      ghost var sys := Abs();
      var bscan, last, nd := ScanQueues(c, req);
      ghost var rs := Abs().rings;
      ScannedRests(sys, c, req, rs, bscan, last);
      delivered, nd, taken := MergeQueues(bscan, req, nd, rs);
      clients := clients[c := Client(clients[c].blocking, nd, last)];
      assert Abs() == Sys(rs, nextData, blockmask, clients);
      ScannedResponse(sys, c, req, rs, bscan, last);
      RequestSound(sys, c, req);
      AnswerFits(sys, c, req);
      ConsideredQueues(sys, c, req);
      kept := HandedOver(req, taken);
    }
  }

  lemma FreshSound(sys: Sys)
    requires |sys.rings| == NUMQ && sys.nextData == 0
    requires forall i | 0 <= i < NUMQ :: sys.rings[i].Valid(0) && sys.rings[i].Live() == []
    requires forall c | 0 <= c < |sys.clients| :: sys.clients[c].last == seq(NUMQ, _ => Cursor(None, -1))
    ensures Sound(sys) && Fresh(sys)
  {
  }

  lemma ClientSound(sys: Sys, c: nat, on: bool)
    requires Sound(sys) && c < |sys.clients|
    ensures Sound(sys.(clients := sys.clients[c := sys.clients[c].(blocking := on)]))
  {
  }

  lemma SoundCursors(sys: Sys, c: nat)
    requires Sound(sys) && c < |sys.clients|
    ensures |sys.clients[c].last| == |sys.rings| == NUMQ
    ensures forall i | 0 <= i < NUMQ && sys.clients[c].last[i].scan.Some? ::
      sys.clients[c].last[i].scan.value < |sys.rings[i].slots|
  {
    forall i | 0 <= i < NUMQ
      ensures sys.clients[c].last[i].scan.Some? ==> sys.clients[c].last[i].scan.value < |sys.rings[i].slots|
    {
      assert CursorSound(sys.rings[i], sys.clients[c].last[i], sys.clients[c].nextData, sys.nextData);
    }
  }

  lemma TransferKeeps(all: seq<Packet>, taken: seq<Packet>, slot: Slot, b: nat, want: Want,
                      rest: seq<seq<Packet>>, mask: set<nat>, budget: int)
    requires b < |rest| && rest[b] != [] && Pack(b, slot) == rest[b][0]
    requires all == taken + ([rest[b][0]] + Taken(Pop(rest, b), mask, want, budget - Cost(want, rest[b][0])))
    ensures var p := Pack(b, slot);
      && all == (taken + [p]) + Taken(Pop(rest, b), mask, want, if want(p) then budget - 1 else budget)
      && Delivered(want, taken + [p])
        == (if want(p) then Delivered(want, taken) + [slot.data] else Delivered(want, taken))
      && forall nd :: After(taken + [p], nd) == slot.packetNum + 1
  {
    DeliveredAppend(want, taken, Pack(b, slot));
  }

  lemma DeliveredNothing(want: Want, nd: int)
    ensures Delivered(want, []) == [] && After([], nd) == nd
  {
  }

  lemma TakenNothing(rest: seq<seq<Packet>>, mask: set<nat>, want: Want, budget: int)
    requires budget <= 0 || Best(rest, mask, |rest|) == None
    ensures Taken(rest, mask, want, budget) == []
  {
  }

  // ----- the scan positions of the six queues, on values

  ghost predicate ScanOk(r: Ring, s: nat, counter: int) {
    r.Valid(counter) && s < |r.slots| && r.Dist(s) <= r.Len()
  }

  ghost predicate ScansOk(rings: seq<Ring>, bscan: seq<nat>, counter: int) {
    |rings| == |bscan| == NUMQ && forall i | 0 <= i < NUMQ :: ScanOk(rings[i], bscan[i], counter)
  }

  ghost function RestAt(rings: seq<Ring>, bscan: seq<nat>, counter: int): (rest: seq<seq<Packet>>)
    requires ScansOk(rings, bscan, counter)
    ensures |rest| == NUMQ
  {
    seq(NUMQ, i requires 0 <= i < NUMQ => (assert ScanOk(rings[i], bscan[i], counter); rings[i].From(i, bscan[i])))
  }

  lemma NextPacket(r: Ring, i: nat, s: nat, counter: int)
    requires ScanOk(r, s, counter)
    ensures s == r.head <==> r.From(i, s) == []
    ensures s != r.head ==> 0 <= r.slots[s].packetNum < counter && r.From(i, s)[0] == Pack(i, r.slots[s])
    ensures s != r.head ==> ScanOk(r, r.Next(s), counter) && r.From(i, r.Next(s)) == r.From(i, s)[1..]
  {
    if s != r.head {
      assert r.At(r.Dist(s)) == s && r.Live()[r.Dist(s)] == r.slots[s];
      assert r.Dist(r.Next(s)) == r.Dist(s) + 1;
      assert r.Live()[r.Dist(s)..][1..] == r.Live()[r.Dist(s) + 1..];
    }
  }

  /** What a queue's next element shows. */
  ghost predicate Front(r: Ring, s: nat, ps: seq<Packet>) {
    && r.Shape() && s < |r.slots| && (s == r.head <==> ps == [])
    && (ps != [] ==> r.slots[s].packetNum == ps[0].num < INT32_MAX)
  }

  lemma AllFronts(rings: seq<Ring>, bscan: seq<nat>, counter: int)
    requires ScansOk(rings, bscan, counter) && counter <= INT32_MAX
    ensures |rings| == |bscan| == NUMQ
    ensures forall i | 0 <= i < NUMQ :: Front(rings[i], bscan[i], RestAt(rings, bscan, counter)[i])
  {
    forall i | 0 <= i < NUMQ
      ensures Front(rings[i], bscan[i], RestAt(rings, bscan, counter)[i])
    {
      assert ScanOk(rings[i], bscan[i], counter);
      NextPacket(rings[i], i, bscan[i], counter);
    }
  }

  /** Moving one queue on pops its packet off what is left. */
  lemma AdvanceRest(rings: seq<Ring>, bscan: seq<nat>, counter: int, b: nat)
    requires ScansOk(rings, bscan, counter) && b < NUMQ && RestAt(rings, bscan, counter)[b] != []
    ensures rings[b].Shape() && bscan[b] < |rings[b].slots|
    ensures RestAt(rings, bscan, counter)[b][0] == Pack(b, rings[b].slots[bscan[b]])
    ensures var bscan' := bscan[b := rings[b].Next(bscan[b])];
      ScansOk(rings, bscan', counter) && RestAt(rings, bscan', counter) == Pop(RestAt(rings, bscan, counter), b)
  {
    assert ScanOk(rings[b], bscan[b], counter);
    NextPacket(rings[b], b, bscan[b], counter);
  }

  lemma PopTurn(rest: seq<seq<Packet>>, mask: set<nat>, want: Want, budget: int, b: nat)
    requires budget > 0 && Best(rest, mask, |rest|) == Some(b)
    ensures Total(Pop(rest, b)) < Total(rest)
    ensures Taken(rest, mask, want, budget)
      == [rest[b][0]] + Taken(Pop(rest, b), mask, want, budget - Cost(want, rest[b][0]))
  {
    TakenTurn(rest, mask, want, budget, b);
    TotalDrop(rest, b);
  }

  /** The state of a request between its two parts. */
  ghost predicate Scanned(sys: Sys, c: nat, req: Req, rings: seq<Ring>, bscan: seq<nat>, last: seq<Cursor>)
    requires Sound(sys) && c < |sys.clients|
  {
    && |rings| == |bscan| == |last| == NUMQ
    && forall i | 0 <= i < NUMQ :: Scan(sys, c, req, i) == AckResult(rings[i], bscan[i], last[i])
  }

  lemma ScannedRests(sys: Sys, c: nat, req: Req, rings: seq<Ring>, bscan: seq<nat>, last: seq<Cursor>)
    requires Sound(sys) && c < |sys.clients| && Scanned(sys, c, req, rings, bscan, last)
    ensures ScansOk(rings, bscan, sys.nextData)
    ensures RestAt(rings, bscan, sys.nextData) == Rests(sys, c, req)
  {
    var cl := sys.clients[c];
    forall i | 0 <= i < NUMQ
      ensures ScanOk(rings[i], bscan[i], sys.nextData)
    {
      ScanKeeps(sys.rings[i], sys.nextData, c, cl.blocking, req.order,
                StartData(req.order, cl.nextData, sys.nextData), cl.last[i]);
      assert Scan(sys, c, req, i) == AckResult(rings[i], bscan[i], last[i]);
    }
  }

  lemma ScannedResponse(sys: Sys, c: nat, req: Req, rings: seq<Ring>, bscan: seq<nat>, last: seq<Cursor>)
    requires Sound(sys) && c < |sys.clients| && Scanned(sys, c, req, rings, bscan, last)
    ensures var cl := sys.clients[c];
      var taken := Taken(Rests(sys, c, req), req.mask, p => Wanted(req, p), req.count);
      var nd := After(taken, StartData(req.order, cl.nextData, sys.nextData));
      Request(sys, c, req)
        == Response(sys.(rings := rings, clients := sys.clients[c := Client(cl.blocking, nd, last)]), taken)
  {
    var r: Response := Request(sys, c, req);
    assert r.sys.rings == rings;
    assert r.sys.clients[c].last == last;
  }
}
