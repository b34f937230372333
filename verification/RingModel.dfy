/** The packet rings of comserv as values: one ring is a circle of slots with the slot at
    `head` always free; the live slots run from `tail` up to `head`.  Everything the
    imperative module `PacketRings` does is specified by a function of this module. */
module RingModel {
  import opened Options

  type ChannelId = s: string | |s| == 5 witness "?????"

  /** `channel` stands for bytes 13 to 17 of the record (location and channel name). */
  datatype UserData = UserData(headerTime: real, channel: ChannelId, body: seq<int>)

  datatype Slot = Slot(blockmap: set<nat>, packetNum: int, data: UserData)

  datatype Packet = Packet(q: nat, num: int, data: UserData)

  datatype Cursor = Cursor(scan: Option<nat>, packet: int)

  datatype AckResult = AckResult(ring: Ring, scan: nat, cursor: Cursor)

  datatype Ring = Ring(slots: seq<Slot>, head: nat, tail: nat) {
    predicate Shape() {
      2 <= |slots| && head < |slots| && tail < |slots|
    }

    function Next(s: nat): (t: nat)
      requires Shape() && s < |slots|
      ensures t < |slots|
    {
      if s + 1 == |slots| then 0 else s + 1
    }

    /** Distance from the oldest live slot to `s`. */
    function Dist(s: nat): (d: nat)
      requires Shape() && s < |slots|
      ensures d < |slots|
    {
      if tail <= s then s - tail else s - tail + |slots|
    }

    function Len(): (n: nat)
      requires Shape()
      ensures n < |slots|
    {
      Dist(head)
    }

    /** The slot at distance `k` from the oldest live slot. */
    function At(k: nat): (s: nat)
      requires Shape() && k < |slots|
      ensures s < |slots| && Dist(s) == k
    {
      if tail + k < |slots| then tail + k else tail + k - |slots|
    }

    /** The live slots, oldest first. */
    function Live(): (l: seq<Slot>)
      requires Shape()
      ensures |l| == Len()
    {
      seq(Len(), k requires 0 <= k < Len() => slots[At(k)])
    }

    function ToHead(s: nat): nat
      requires Shape() && s < |slots|
    {
      if s <= head then head - s else head - s + |slots|
    }

    /** A buffer can be had when the slot after `head` holds nobody's packet. */
    predicate Avail()
      requires Shape()
    {
      slots[Next(head)].blockmap == {}
    }

    function Put(blockmask: set<nat>, num: int, data: UserData): (r: Ring)
      requires Shape()
      ensures r.Shape()
    {
      var n := Next(head);
      Ring(slots[head := Slot(blockmask, num, data)], n, if n == tail then Next(tail) else tail)
    }

    function ClearAt(s: nat, who: set<nat>): (r: Ring)
      requires Shape() && s < |slots|
      ensures r.Shape()
    {
      this.(slots := slots[s := slots[s].(blockmap := slots[s].blockmap - who)])
    }

    function ClearAll(who: set<nat>): (r: Ring)
      requires Shape()
      ensures r.Shape()
    {
      this.(slots := seq(|slots|, i requires 0 <= i < |slots| => slots[i].(blockmap := slots[i].blockmap - who)))
    }

    /** Where the acknowledge pass starts: at the cached slot while it still holds the
        packet seen there, otherwise at the oldest slot. */
    function AckStart(cur: Cursor): (s: nat)
      requires Shape() && (cur.scan.Some? ==> cur.scan.value < |slots|)
      ensures s < |slots|
    {
      if cur.scan == None || slots[cur.scan.value].packetNum != cur.packet then tail else cur.scan.value
    }

    /** Acknowledges the packets below `nd` from slot `s` on. */
    function Ack(who: set<nat>, nd: int, s: nat, cur: Cursor): (a: AckResult)
      requires Shape() && s < |slots|
      decreases ToHead(s)
    {
      if s == head || slots[s].packetNum >= nd then AckResult(this, s, cur)
      else
        var r := ClearAt(s, who);
        var t := Next(s);
        r.Ack(who, nd, t, Cursor(Some(t), r.slots[t].packetNum))
    }

    /** The first slot from `s` on that is `head` or carries a bit of `who`. */
    function SkipUnmarked(who: nat, s: nat): (t: nat)
      requires Shape() && s < |slots|
      ensures t < |slots|
      decreases ToHead(s)
    {
      if s == head || who in slots[s].blockmap then s else SkipUnmarked(who, Next(s))
    }

    /** What every reachable ring satisfies: packet numbers grow from tail to head and stay
        below the shared counter, and no free slot is blocked. */
    ghost predicate Valid(nextData: int) {
      && Shape()
      && (forall k | 0 <= k < |Live()| :: 0 <= Live()[k].packetNum < nextData)
      && (forall j, k | 0 <= j < k < |Live()| :: Live()[j].packetNum < Live()[k].packetNum)
      && (forall s | 0 <= s < |slots| && Len() <= Dist(s) :: slots[s].blockmap == {})
      && (forall s | 0 <= s < |slots| :: 0 <= slots[s].packetNum < nextData || slots[s].packetNum == 0)
      && 0 <= nextData
    }

    /** The packets from slot `s` up to `head`, as packets of queue `q`. */
    function From(q: nat, s: nat): (ps: seq<Packet>)
      requires Shape() && s < |slots|
    {
      if Dist(s) <= Len() then Packs(q, Live()[Dist(s)..]) else []
    }
  }

  function Packs(q: nat, l: seq<Slot>): (ps: seq<Packet>)
    ensures |ps| == |l| && forall k | 0 <= k < |l| :: ps[k] == Pack(q, l[k])
  {
    if l == [] then [] else [Pack(q, l[0])] + Packs(q, l[1..])
  }

  function Pack(q: nat, s: Slot): Packet {
    Packet(q, s.packetNum, s.data)
  }

  /** Live packets of queue `q` not below `nd`. */
  function Owed(q: nat, live: seq<Slot>, nd: int): seq<Packet> {
    if live == [] then []
    else if live[0].packetNum < nd then Owed(q, live[1..], nd)
    else [Pack(q, live[0])] + Owed(q, live[1..], nd)
  }

  // ----- one ring, one operation

  /** Storing appends the packet; the oldest one goes only when the ring is full. */
  lemma PutLive(r: Ring, blockmask: set<nat>, num: int, data: UserData)
    requires r.Shape()
    ensures var r' := r.Put(blockmask, num, data);
      r'.Live() == (if r.Len() == |r.slots| - 1 then r.Live()[1..] else r.Live()) + [Slot(blockmask, num, data)]
  {
    var r' := r.Put(blockmask, num, data);
    var kept := if r.Len() == |r.slots| - 1 then r.Live()[1..] else r.Live();
    assert r'.Len() == |kept| + 1;
    forall k | 0 <= k < |kept|
      ensures r'.Live()[k] == kept[k]
    {
      assert r'.At(k) == if r.Len() == |r.slots| - 1 then r.At(k + 1) else r.At(k);
    }
  }

  /** A ring refuses a packet exactly when it is full and its oldest packet is blocked. */
  lemma AvailMeaning(r: Ring, nextData: int)
    requires r.Valid(nextData)
    ensures r.Avail() <==> !(r.Len() == |r.slots| - 1 && r.Live()[0].blockmap != {})
  {
    var n := r.Next(r.head);
    if r.Len() == |r.slots| - 1 {
      assert n == r.tail == r.At(0);
    } else {
      assert r.Dist(n) == r.Len() + 1;
    }
  }

  lemma PutFree(r: Ring, blockmask: set<nat>, num: int, data: UserData)
    requires r.Shape() && r.Avail()
    requires forall s | 0 <= s < |r.slots| && r.Len() <= r.Dist(s) :: r.slots[s].blockmap == {}
    ensures var r' := r.Put(blockmask, num, data);
      forall s | 0 <= s < |r'.slots| && r'.Len() <= r'.Dist(s) :: r'.slots[s].blockmap == {}
  {
    var r' := r.Put(blockmask, num, data);
    forall s | 0 <= s < |r'.slots| && r'.Len() <= r'.Dist(s)
      ensures r'.slots[s].blockmap == {}
    {
      if s != r.Next(r.head) {
        assert s != r.head;
        assert r.Len() <= r.Dist(s);
      }
    }
  }

  lemma PutRising(live: seq<Slot>, live': seq<Slot>, new_: Slot, nextData: int)
    requires forall k | 0 <= k < |live| :: 0 <= live[k].packetNum < nextData
    requires forall j, k | 0 <= j < k < |live| :: live[j].packetNum < live[k].packetNum
    requires live' == live + [new_] || (live != [] && live' == live[1..] + [new_])
    requires new_.packetNum == nextData >= 0
    ensures forall k | 0 <= k < |live'| :: 0 <= live'[k].packetNum < nextData + 1
    ensures forall j, k | 0 <= j < k < |live'| :: live'[j].packetNum < live'[k].packetNum
  {
  }

  lemma PutValid(r: Ring, blockmask: set<nat>, nextData: int, data: UserData)
    requires r.Valid(nextData) && r.Avail()
    ensures r.Put(blockmask, nextData, data).Valid(nextData + 1)
    // no packet that still has a bit set is discarded
    ensures r.Len() == |r.slots| - 1 ==> r.Live()[0].blockmap == {}
  {
    var r' := r.Put(blockmask, nextData, data);
    PutLive(r, blockmask, nextData, data);
    PutFree(r, blockmask, nextData, data);
    PutRising(r.Live(), r'.Live(), Slot(blockmask, nextData, data), nextData);
    AvailMeaning(r, nextData);
  }

  /** What the acknowledge pass has done when it stopped: it moved over live packets below
      `nd` only, stopped at the first one that is not, took away just the bits of `who`, and
      cached where it stopped. */
  ghost predicate Acked(r: Ring, who: set<nat>, nd: int, s: nat, cur: Cursor, a: AckResult)
    requires r.Shape() && s < |r.slots|
  {
    && |a.ring.slots| == |r.slots| && a.ring.head == r.head && a.ring.tail == r.tail
    && a.scan < |r.slots| && r.Dist(s) <= r.Dist(a.scan) <= r.Len()
    && (a.scan != r.head ==> r.slots[a.scan].packetNum >= nd)
    && (forall t | 0 <= t < |r.slots| ::
          if r.Dist(s) <= r.Dist(t) < r.Dist(a.scan) then
            && r.slots[t].packetNum < nd
            && a.ring.slots[t] == r.slots[t].(blockmap := r.slots[t].blockmap - who)
          else a.ring.slots[t] == r.slots[t])
    && a.cursor == if a.scan == s then cur else Cursor(Some(a.scan), r.slots[a.scan].packetNum)
  }

  lemma {:induction false} AckMeaning(r: Ring, who: set<nat>, nd: int, s: nat, cur: Cursor)
    requires r.Shape() && s < |r.slots| && r.Dist(s) <= r.Len()
    ensures Acked(r, who, nd, s, cur, r.Ack(who, nd, s, cur))
    decreases r.ToHead(s)
  {
    if s != r.head && r.slots[s].packetNum < nd {
      var r1, t := r.ClearAt(s, who), r.Next(s);
      assert r.Dist(t) == r.Dist(s) + 1;
      AckMeaning(r1, who, nd, t, Cursor(Some(t), r1.slots[t].packetNum));
      AckStep(r, who, nd, s, cur, r.Ack(who, nd, s, cur));
    }
  }

  lemma AckStep(r: Ring, who: set<nat>, nd: int, s: nat, cur: Cursor, a: AckResult)
    requires r.Shape() && s < |r.slots| && r.Dist(s) < r.Len() && r.slots[s].packetNum < nd
    requires var r1, t := r.ClearAt(s, who), r.Next(s);
      Acked(r1, who, nd, t, Cursor(Some(t), r1.slots[t].packetNum), a)
    ensures Acked(r, who, nd, s, cur, a)
  {
    var r1, t := r.ClearAt(s, who), r.Next(s);
    assert r.Dist(t) == r.Dist(s) + 1;
    forall u | 0 <= u < |r.slots|
      ensures r1.Dist(u) == r.Dist(u)
      ensures r.Dist(u) == r.Dist(s) <==> u == s
    {
    }
  }

  /** Taking bits away changes neither the numbers nor the data of a ring. */
  ghost predicate SamePackets(r: Ring, r': Ring)
    requires r.Shape() && r'.Shape()
  {
    && |r.slots| == |r'.slots| && r.head == r'.head && r.tail == r'.tail
    && forall t | 0 <= t < |r.slots| ::
         && r'.slots[t].packetNum == r.slots[t].packetNum && r'.slots[t].data == r.slots[t].data
         && r'.slots[t].blockmap <= r.slots[t].blockmap
  }

  lemma SamePacketsValid(r: Ring, r': Ring, nextData: int)
    requires r.Valid(nextData) && r'.Shape() && SamePackets(r, r')
    ensures r'.Valid(nextData)
    ensures |r'.Live()| == |r.Live()|
    ensures forall k | 0 <= k < |r.Live()| ::
      && r'.Live()[k].packetNum == r.Live()[k].packetNum && r'.Live()[k].data == r.Live()[k].data
      && r'.Live()[k].blockmap <= r.Live()[k].blockmap
  {
    forall k | 0 <= k < |r.Live()|
      ensures
        && r'.Live()[k].packetNum == r.Live()[k].packetNum && r'.Live()[k].data == r.Live()[k].data
        && r'.Live()[k].blockmap <= r.Live()[k].blockmap
    {
      assert r'.At(k) == r.At(k);
    }
  }

  lemma {:induction false} OwedSame(q: nat, l: seq<Slot>, l': seq<Slot>, nd: int)
    requires |l| == |l'|
    requires forall k | 0 <= k < |l| :: l'[k].packetNum == l[k].packetNum && l'[k].data == l[k].data
    ensures Owed(q, l, nd) == Owed(q, l', nd)
  {
    if l != [] {
      OwedSame(q, l[1..], l'[1..], nd);
    }
  }

  lemma {:induction false} OwedAppend(q: nat, l: seq<Slot>, m: seq<Slot>, nd: int)
    ensures Owed(q, l + m, nd) == Owed(q, l, nd) + Owed(q, m, nd)
  {
    if l == [] {
      assert l + m == m;
    } else {
      assert (l + m)[1..] == l[1..] + m;
      OwedAppend(q, l[1..], m, nd);
    }
  }

  lemma {:induction false} OwedBelow(q: nat, l: seq<Slot>, nd: int)
    requires forall k | 0 <= k < |l| :: l[k].packetNum < nd
    ensures Owed(q, l, nd) == []
  {
    if l != [] {
      OwedBelow(q, l[1..], nd);
    }
  }

  lemma {:induction false} OwedAbove(q: nat, l: seq<Slot>, nd: int)
    requires forall k | 0 <= k < |l| :: nd <= l[k].packetNum
    ensures Owed(q, l, nd) == Packs(q, l)
  {
    if l != [] {
      OwedAbove(q, l[1..], nd);
    }
  }

  /** A split of the live packets at distance `d` into those below `nd` and the others is
      what `From` and `Owed` agree on. */
  lemma FromIsOwed(r: Ring, nextData: int, q: nat, s: nat, nd: int)
    requires r.Valid(nextData) && s < |r.slots| && r.Dist(s) <= r.Len()
    requires forall k | 0 <= k < r.Dist(s) :: r.Live()[k].packetNum < nd
    requires r.Dist(s) < r.Len() ==> nd <= r.Live()[r.Dist(s)].packetNum
    ensures r.From(q, s) == Owed(q, r.Live(), nd)
  {
    var d := r.Dist(s);
    var l := r.Live();
    assert l == l[..d] + l[d..];
    OwedAppend(q, l[..d], l[d..], nd);
    OwedBelow(q, l[..d], nd);
    OwedAbove(q, l[d..], nd);
  }
}
