/** How a blocking client starts, and from where on it gets every packet exactly once. */
module ClientStarts {
  import opened Options
  import opened RingModel
  import opened ServerModel
  import opened Delivery
  import opened DeliveryRuns
  import opened ExactDelivery

  // ----- before the first answer

  /** The client does not stop blocking, and if it asks, it asks with CSQ_FIRST. */
  ghost predicate Waiting(ev: Event, c: nat) {
    match ev
    case Store(_, _) => true
    case Ask(d, req) => d == c ==> req.order == FIRST
    case Block(_) => true
    case NoBlock(d) => d != c
    case Unblock(d) => d != c
  }

  ghost predicate WaitingRun(evs: seq<Event>, c: nat) {
    forall k | 0 <= k < |evs| :: Waiting(evs[k], c)
  }

  /** A request with CSQ_FIRST leaves the rings as they are and starts the client over. */
  lemma FirstKeeps(sys: Sys, c: nat, req: Req)
    requires Sound(sys) && c < |sys.clients| && req.order == FIRST
    ensures var r: Response := Request(sys, c, req);
      && Sound(r.sys) && r.sys.rings == sys.rings && r.sys.nextData == sys.nextData && r.sys.blockmask == sys.blockmask
      && r.sys.clients[c].blocking == sys.clients[c].blocking && r.sys.clients[c].nextData == After(r.taken, 0)
      && forall i | 0 <= i < NUMQ :: r.sys.clients[c].last[i] == Cursor(None, -1)
  {
    RequestSound(sys, c, req);
    hide Sound;
    assert Request(sys, c, req).sys.rings == sys.rings;
  }

  lemma SameRingsMarked(sys: Sys, sys': Sys, c: nat, a: int, mask: set<nat>, nd: int)
    requires Sound(sys) && Sound(sys') && c < |sys.clients| && c < |sys'.clients|
    requires sys'.rings == sys.rings && sys'.nextData == sys.nextData && sys'.blockmask == sys.blockmask
    requires sys'.clients[c].blocking == sys.clients[c].blocking
    ensures Marked(sys, c, a) ==> Marked(sys', c, a)
    ensures Pending(sys', mask, nd) == Pending(sys, mask, nd)
  {
    assert Suffixes(sys', nd) == Suffixes(sys, nd);
  }

  lemma StepWaiting(sys: Sys, ev: Event, c: nat, a: int, mask: set<nat>)
    requires Sound(sys) && EventOk(ev, |sys.clients|) && c < |sys.clients|
    requires Marked(sys, c, a) && Waiting(ev, c)
    ensures Marked(Step(sys, ev), c, a)
    ensures Pending(Step(sys, ev), mask, a) == Pending(sys, mask, a) + StoredBy(sys, ev, mask)
  {
    hide Sound, Pending;
    if ev.Store? {
      StoreMarked(sys, ev.q, ev.data, c, a);
      StorePending(sys, ev.q, ev.data, c, a, mask, a);
    } else if ev.Ask? && ev.c == c {
      FirstKeeps(sys, c, ev.req);
      SameRingsMarked(sys, Step(sys, ev), c, a, mask, a);
    } else {
      OtherStep(sys, ev, c, a);
      SamePending(sys, Step(sys, ev), mask, a);
    }
  }

  /** Until it continues, a blocking client loses nothing: the packets from `a` on stay live and
      marked, and those stored are owed to it behind them. */
  lemma {:induction false} WhileWaiting(sys: Sys, evs: seq<Event>, c: nat, a: int, mask: set<nat>)
    requires Sound(sys) && RunOk(evs, |sys.clients|) && c < |sys.clients|
    requires Marked(sys, c, a) && WaitingRun(evs, c)
    ensures Marked(Final(sys, evs), c, a)
    ensures Pending(Final(sys, evs), mask, a) == Pending(sys, mask, a) + Stored(sys, evs, mask)
    decreases |evs|
  {
    hide Sound, Marked, Step, Pending, StoredBy, EventOk, Waiting;
    if evs != [] {
      var sys1 := Step(sys, evs[0]);
      StepWaiting(sys, evs[0], c, a, mask);
      WhileWaiting(sys1, evs[1..], c, a, mask);
      Associative(Pending(sys, mask, a), StoredBy(sys, evs[0], mask), Stored(sys1, evs[1..], mask));
    }
  }

  // ----- the first answer

  /** The skip over unmarked packets ends at the first one from `a` on. */
  lemma FirstScan(r: Ring, counter: int, i: nat, c: nat, a: int)
    requires r.Valid(counter) && MarkedFrom(r.Live(), c, a)
    ensures var s := r.SkipUnmarked(c, r.tail); r.Dist(s) <= r.Len() && r.From(i, s) == Owed(i, r.Live(), a)
  {
    var s := r.SkipUnmarked(c, r.tail);
    SkipMeaning(r, c, r.tail);
    SkipEnd(r, c, r.tail);
    if s != r.head {
      assert r.At(r.Dist(s)) == s && r.Live()[r.Dist(s)] == r.slots[s];
    }
    FromIsOwed(r, counter, i, s, a);
  }

  lemma SkipEnd(r: Ring, c: nat, s: nat)
    requires r.Shape() && s < |r.slots|
    ensures var t := r.SkipUnmarked(c, s); t == r.head || c in r.slots[t].blockmap
    decreases r.ToHead(s)
  {
    if s != r.head && c !in r.slots[s].blockmap {
      SkipEnd(r, c, r.Next(s));
    }
  }

  lemma {:induction false} OwedNotBelow(i: nat, l: seq<Slot>, nd: int)
    ensures AllFrom(Owed(i, l, nd), nd)
  {
    if l != [] {
      OwedNotBelow(i, l[1..], nd);
    }
  }

  /** A request with CSQ_FIRST starts exactly at what is owed from `a` on. */
  lemma FirstRests(sys: Sys, c: nat, req: Req, a: int)
    requires Sound(sys) && c < |sys.clients| && Marked(sys, c, a) && req.order == FIRST
    ensures Rests(sys, c, req) == Suffixes(sys, a) && Ready(Suffixes(sys, a), req.mask, a)
  {
    forall i | 0 <= i < NUMQ
      ensures ScanRest(sys, c, req, i) == Owed(i, sys.rings[i].Live(), a)
      ensures AllFrom(Suffixes(sys, a)[i], a)
    {
      FirstScan(sys.rings[i], sys.nextData, i, c, a);
      OwedNotBelow(i, sys.rings[i].Live(), a);
    }
    RestsReady(sys, c, req);
    assert Rests(sys, c, req) == Suffixes(sys, a);
  }

  lemma FirstTaken(sys: Sys, c: nat, req: Req, a: int)
    requires Sound(sys) && c < |sys.clients| && Marked(sys, c, a) && req.order == FIRST
    ensures Ready(Suffixes(sys, a), req.mask, a)
    ensures Request(sys, c, req).taken == Taken(Suffixes(sys, a), req.mask, p => Wanted(req, p), req.count)
    ensures forall k | 0 <= k < |Request(sys, c, req).taken| :: Request(sys, c, req).taken[k].num < sys.nextData
    ensures InOrder(Request(sys, c, req).taken, req.mask, a)
  {
    var rest: seq<seq<Packet>> := Suffixes(sys, a);
    FirstRests(sys, c, req, a);
    forall i | 0 <= i < NUMQ
      ensures forall k | 0 <= k < |rest[i]| :: rest[i][k].num < sys.nextData
    {
      OwedFrom(i, sys.rings[i].Live(), a, sys.nextData);
    }
    TakenBelow(rest, req.mask, p => Wanted(req, p), req.count, sys.nextData);
    TakenInOrder(rest, req.mask, p => Wanted(req, p), req.count, a);
  }

  /** The answer to CSQ_FIRST takes a prefix of the packets from `a` on and leaves the rest owed,
      and the client is covered from then on, exactly when the answer considered a packet or
      there never was one before `a`.  Otherwise nothing was owed, or nothing was asked for, and
      the client goes on from the very first number. */
  lemma FirstExact(sys: Sys, c: nat, req: Req, a: int)
    requires Sound(sys) && c < |sys.clients| && Marked(sys, c, a) && 0 <= a && req.order == FIRST
    ensures var r: Response := Request(sys, c, req);
      && Sound(r.sys) && (Covered(r.sys, c, a) <==> r.taken != [] || a == 0)
      && (r.taken != [] || a == 0 ==>
            Pending(sys, req.mask, a) == r.taken + Pending(r.sys, req.mask, r.sys.clients[c].nextData))
      && (r.taken == [] <==> Pending(sys, req.mask, a) == [] || req.count <= 0)
  {
    var r: Response := Request(sys, c, req);
    var want: Want := p => Wanted(req, p);
    var rest := Suffixes(sys, a);
    var nd' := r.sys.clients[c].nextData;
    FirstKeeps(sys, c, req);
    FirstTaken(sys, c, req, a);
    TakenSplits(rest, req.mask, want, req.count);
    FirstCovers(sys, r.sys, c, a, r.taken);
    SameRingsMarked(sys, r.sys, c, a, req.mask, nd');
    if r.taken != [] || a == 0 {
      LeftPending(sys, req.mask, want, req.count, a, nd');
    }
  }

  lemma FirstCovers(sys: Sys, sys': Sys, c: nat, a: int, taken: seq<Packet>)
    requires Sound(sys) && Sound(sys') && c < |sys.clients| && c < |sys'.clients| && Marked(sys, c, a) && 0 <= a
    requires sys'.rings == sys.rings && sys'.nextData == sys.nextData && sys'.blockmask == sys.blockmask
    requires sys'.clients[c].blocking && sys'.clients[c].nextData == After(taken, 0)
    requires forall i | 0 <= i < NUMQ :: sys'.clients[c].last[i] == Cursor(None, -1)
    requires forall k | 0 <= k < |taken| :: a <= taken[k].num < sys.nextData
    ensures Covered(sys', c, a) <==> taken != [] || a == 0
  {
  }

  // ----- runs

  /** Nothing carries the client's bit, and nothing new will. */
  ghost predicate Off(sys: Sys, c: nat)
    requires Sound(sys)
  {
    c !in sys.blockmask && forall i | 0 <= i < NUMQ :: NoneMarked(sys.rings[i].Live(), c)
  }

  ghost predicate NoneMarked(live: seq<Slot>, c: nat) {
    forall k | 0 <= k < |live| :: c !in live[k].blockmap
  }

  ghost predicate NotBlocking(evs: seq<Event>, c: nat) {
    forall k | 0 <= k < |evs| :: evs[k] != Block(c)
  }

  /** Taking a client's packets away from it turns it off, when it times out as when it chooses
      not to block. */
  lemma UnblockOff(sys: Sys, c: nat)
    requires Sound(sys) && c < |sys.clients|
    ensures Off(Step(sys, Unblock(c)), c) && Off(Step(sys, NoBlock(c)), c)
  {
    UnblockSound(sys, c);
    forall i | 0 <= i < NUMQ
      ensures NoneMarked(Step(sys, Unblock(c)).rings[i].Live(), c)
      ensures NoneMarked(Step(sys, NoBlock(c)).rings[i].Live(), c)
    {
    }
  }

  lemma StepOff(sys: Sys, ev: Event, c: nat)
    requires Sound(sys) && EventOk(ev, |sys.clients|) && Off(sys, c) && ev != Block(c)
    ensures Off(Step(sys, ev), c)
  {
    if ev.Store? {
      PutLive(sys.rings[ev.q], sys.blockmask, sys.nextData, ev.data);
    } else if !ev.Block? {
      if ev.Ask? {
        RequestSame(sys, ev.c, ev.req);
      } else {
        UnblockSound(sys, ev.c);
      }
      forall i | 0 <= i < NUMQ
        ensures NoneMarked(Step(sys, ev).rings[i].Live(), c)
      {
        SamePacketsValid(sys.rings[i], Step(sys, ev).rings[i], sys.nextData);
      }
    }
  }

  lemma {:induction false} StaysOff(sys: Sys, evs: seq<Event>, c: nat)
    requires Sound(sys) && RunOk(evs, |sys.clients|) && Off(sys, c) && NotBlocking(evs, c)
    ensures Off(Final(sys, evs), c)
    decreases |evs|
  {
    hide Sound, Off, Step, EventOk;
    if evs != [] {
      StepOff(sys, evs[0], c);
      StaysOff(Step(sys, evs[0]), evs[1..], c);
    }
  }

  /** A client that begins to block is marked from the next packet on, and owed nothing yet. */
  lemma BlockMarks(sys: Sys, c: nat, mask: set<nat>)
    requires Sound(sys) && c < |sys.clients| && Off(sys, c)
    ensures Marked(Step(sys, Block(c)), c, sys.nextData) && 0 <= sys.nextData
    ensures Pending(Step(sys, Block(c)), mask, sys.nextData) == []
  {
    var sys' := Step(sys, Block(c));
    forall i | 0 <= i < NUMQ
      ensures MarkedFrom(sys'.rings[i].Live(), c, sys.nextData) && Suffixes(sys', sys.nextData)[i] == []
    {
      assert sys.rings[i].Valid(sys.nextData) && NoneMarked(sys.rings[i].Live(), c);
      OwedBelow(i, sys.rings[i].Live(), sys.nextData);
    }
    NothingOwed(Suffixes(sys', sys.nextData), mask);
  }

  lemma NothingOwed(rest: seq<seq<Packet>>, mask: set<nat>)
    requires forall i | 0 <= i < |rest| :: rest[i] == []
    ensures Merge(rest, mask) == []
  {
  }

  /** From the time the packets from `a` on are marked: over any run in which the client waits,
      then gets an answer to CSQ_FIRST that considers a packet, then goes on steadily, what was
      owed and what is stored is what it is served and what is still owed to it. */
  lemma StartExact(sys: Sys, waiting: seq<Event>, first: Req, after: seq<Event>, c: nat, a: int) returns (a': int)
    requires Sound(sys) && c < |sys.clients| && Marked(sys, c, a) && 0 <= a
    requires RunOk(waiting, |sys.clients|) && RunOk(after, |sys.clients|)
    requires WaitingRun(waiting, c) && SteadyRun(after, c, first.mask)
    requires first.WellFormed() && first.order == FIRST
    requires a == 0 || ServedBy(Final(sys, waiting), Ask(c, first), c) != []
    ensures var asked := Step(Final(sys, waiting), Ask(c, first));
      var end := Final(asked, after);
      && Covered(end, c, a')
      && Pending(sys, first.mask, a) + (Stored(sys, waiting, first.mask) + Stored(asked, after, first.mask))
         == (ServedBy(Final(sys, waiting), Ask(c, first), c) + Served(asked, after, c))
            + Pending(end, first.mask, end.clients[c].nextData)
  {
    var s1 := Final(sys, waiting);
    WhileWaiting(sys, waiting, c, a, first.mask);
    FirstExact(s1, c, first, a);
    var asked := Step(s1, Ask(c, first));
    hide Sound, Marked, Covered, Pending, Stored, Served, ServedBy, Final, Step;
    a' := RunExact(asked, after, c, first.mask, a);
    var end := Final(asked, after);
    Chained(Pending(sys, first.mask, a), Stored(sys, waiting, first.mask), Pending(s1, first.mask, a),
            ServedBy(s1, Ask(c, first), c), Pending(asked, first.mask, asked.clients[c].nextData),
            Stored(asked, after, first.mask), Served(asked, after, c),
            Pending(end, first.mask, end.clients[c].nextData));
  }

  lemma Chained<T>(p: seq<T>, s0: seq<T>, p1: seq<T>, t0: seq<T>, p2: seq<T>, s1: seq<T>, t1: seq<T>, d: seq<T>)
    requires p1 == p + s0 && p1 == t0 + p2 && p2 + s1 == t1 + d
    ensures p + (s0 + s1) == (t0 + t1) + d
  {
    assert p + (s0 + s1) == p1 + s1;
    assert (t0 + p2) + s1 == t0 + (p2 + s1);
  }

  /** A server as it starts: nothing stored yet. */
  ghost predicate Fresh(sys: Sys) {
    Sound(sys) && sys.nextData == 0 && forall i | 0 <= i < NUMQ :: sys.rings[i].Live() == []
  }

  /** A client that blocks from the start gets all packets ever stored in its queues. */
  lemma ReservedClientExact(sys: Sys, waiting: seq<Event>, first: Req, after: seq<Event>, c: nat) returns (a: int)
    requires Fresh(sys) && c < |sys.clients| && sys.clients[c].blocking && c in sys.blockmask
    requires RunOk(waiting, |sys.clients|) && RunOk(after, |sys.clients|)
    requires WaitingRun(waiting, c) && SteadyRun(after, c, first.mask)
    requires first.WellFormed() && first.order == FIRST
    ensures var asked := Step(Final(sys, waiting), Ask(c, first));
      var end := Final(asked, after);
      && Covered(end, c, a)
      && Stored(sys, waiting, first.mask) + Stored(asked, after, first.mask)
         == (ServedBy(Final(sys, waiting), Ask(c, first), c) + Served(asked, after, c))
            + Pending(end, first.mask, end.clients[c].nextData)
  {
    assert Marked(sys, c, 0) && Pending(sys, first.mask, 0) == [] by {
      NothingOwed(Suffixes(sys, 0), first.mask);
    }
    a := StartExact(sys, waiting, first, after, c, 0);
  }

  /** A client that begins to block at any time gets all packets stored in its queues since, if
      the first answer it goes on from considered one of them. */
  lemma LateClientExact(sys: Sys, early: seq<Event>, waiting: seq<Event>, first: Req, after: seq<Event>, c: nat)
      returns (a: int)
    requires Sound(sys) && c < |sys.clients| && Off(sys, c)
    requires RunOk(early, |sys.clients|) && RunOk(waiting, |sys.clients|) && RunOk(after, |sys.clients|)
    requires NotBlocking(early, c) && WaitingRun(waiting, c) && SteadyRun(after, c, first.mask)
    requires first.WellFormed() && first.order == FIRST
    requires var began := Step(Final(sys, early), Block(c));
      Final(sys, early).nextData == 0 || ServedBy(Final(began, waiting), Ask(c, first), c) != []
    ensures var began := Step(Final(sys, early), Block(c));
      var asked := Step(Final(began, waiting), Ask(c, first));
      var end := Final(asked, after);
      && Covered(end, c, a)
      && Stored(began, waiting, first.mask) + Stored(asked, after, first.mask)
         == (ServedBy(Final(began, waiting), Ask(c, first), c) + Served(asked, after, c))
            + Pending(end, first.mask, end.clients[c].nextData)
  {
    hide Sound, Marked, Covered, Pending, Stored, Served, ServedBy, Off, Final;
    var s0 := Final(sys, early);
    StaysOff(sys, early, c);
    BlockMarks(s0, c, first.mask);
    var began := Step(s0, Block(c));
    a := StartExact(began, waiting, first, after, c, s0.nextData);
    var stored := Stored(began, waiting, first.mask)
      + Stored(Step(Final(began, waiting), Ask(c, first)), after, first.mask);
    assert [] + stored == stored;
  }
}
