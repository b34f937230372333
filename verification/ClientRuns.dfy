/** Runs of the whole server with its table of clients: for the reserved clients each is a run of
    the packet server, and their packets wait for them until they have acknowledged them. */
module ClientRuns {
  import opened Options
  import opened RingModel
  import opened ServerModel
  import opened Delivery
  import opened DeliveryRuns
  import opened ExactDelivery
  import opened ClientStarts
  import opened ClientModel

  ghost predicate TableRunOk(st: State, evs: seq<TableEvent>)
    requires Ok(st)
    decreases |evs|
  {
    evs != [] ==> TableEventOk(evs[0], st.high) && TableRunOk(TableStep(st, evs[0]), evs[1..])
  }

  ghost function TableFinal(st: State, evs: seq<TableEvent>): (st': State)
    requires Ok(st) && TableRunOk(st, evs)
    ensures Ok(st') && st'.resclient == st.resclient && MayBlock(st') == MayBlock(st)
    decreases |evs|
  {
    if evs == [] then st else TableFinal(TableStep(st, evs[0]), evs[1..])
  }

  /** What an event of the table is for the packets that wait for reserved clients. */
  ghost function Amounts(st: State, ev: TableEvent): (es: seq<Event>)
    requires Ok(st) && TableEventOk(ev, st.high)
    ensures |es| <= 1 && forall e | e in es :: EventOk(e, MAXCLIENTS)
  {
    match ev
    case Arrives(q, data) => [Store(q, data)]
    case Asks(c, _, req) => if c < st.resclient then [Ask(c, req)] else []
    case Unblocks(c) => [Unblock(c)]
    case Attaches(name, pid, _, wantsBlocking) =>
      if !Chooses(st, name, pid) then []
      else if wantsBlocking then [Block(PlaceOf(st, name, pid))] else [NoBlock(PlaceOf(st, name, pid))]
    case Checks(now, dead, combusy) =>
      if OutNext(st, now, dead, combusy) then [Unblock(NextPoll(st))] else []
  }

  ghost function AmountsTo(st: State, evs: seq<TableEvent>): (es: seq<Event>)
    requires Ok(st) && TableRunOk(st, evs)
    ensures RunOk(es, MAXCLIENTS)
    decreases |evs|
  {
    if evs == [] then [] else Amounts(st, evs[0]) + AmountsTo(TableStep(st, evs[0]), evs[1..])
  }

  // ----- the two servers side by side

  /** The same packets and bits, and the same to each reserved client. */
  ghost predicate Alike(sys: Sys, s: Sys, resclient: nat) {
    && Sound(sys) && Sound(s)
    && sys.rings == s.rings && sys.nextData == s.nextData && sys.blockmask == s.blockmask
    && |sys.clients| == |s.clients| && resclient <= |s.clients|
    && forall c | 0 <= c < resclient :: sys.clients[c] == s.clients[c]
  }

  lemma AlikeRequest(sys: Sys, s: Sys, resclient: nat, c: nat, req: Req)
    requires Alike(sys, s, resclient) && c < resclient
    ensures Request(sys, c, req).taken == Request(s, c, req).taken
    ensures Sound(Request(sys, c, req).sys) && Sound(Request(s, c, req).sys)
    ensures Alike(Request(sys, c, req).sys, Request(s, c, req).sys, resclient)
  {
    forall i | 0 <= i < NUMQ
      ensures Scan(sys, c, req, i) == Scan(s, c, req, i) && ScanRest(sys, c, req, i) == ScanRest(s, c, req, i)
    {
    }
    RequestSound(sys, c, req);
    RequestSound(s, c, req);
    assert Rests(sys, c, req) == Rests(s, c, req);
    hide Sound;
    assert Request(sys, c, req).sys.rings == Request(s, c, req).sys.rings;
    assert Request(sys, c, req).sys.clients[c].last == Request(s, c, req).sys.clients[c].last;
  }

  lemma AlikeStep(sys: Sys, s: Sys, resclient: nat, ev: Event)
    requires Alike(sys, s, resclient) && EventOk(ev, |s.clients|) && (ev.Ask? ==> ev.c < resclient)
    ensures Alike(Step(sys, ev), Step(s, ev), resclient)
    ensures forall mask :: StoredBy(sys, ev, mask) == StoredBy(s, ev, mask)
    ensures forall c | 0 <= c < resclient :: ServedBy(sys, ev, c) == ServedBy(s, ev, c)
  {
    hide Sound, Request;
    if ev.Ask? {
      AlikeRequest(sys, s, resclient, ev.c, ev.req);
    }
  }

  /** A client that does not block changes nothing but its own number and cursors. */
  lemma OpenAsk(sys: Sys, resclient: nat, c: nat, req: Req)
    requires Sound(sys) && resclient <= c < |sys.clients| && !sys.clients[c].blocking
    ensures Sound(Request(sys, c, req).sys) && Alike(Request(sys, c, req).sys, sys, resclient)
  {
    var cl, sys' := sys.clients[c], Request(sys, c, req).sys;
    var nd := StartData(req.order, cl.nextData, sys.nextData);
    RequestSound(sys, c, req);
    forall i | 0 <= i < NUMQ
      ensures sys'.rings[i] == sys.rings[i]
    {
      OpenScan(sys.rings[i], sys.nextData, c, req.order, nd, cl.last[i]);
    }
    assert sys'.rings == sys.rings;
  }

  lemma OpenScan(r: Ring, counter: int, c: nat, order: Order, nd: int, cur: Cursor)
    requires r.Valid(counter)
    requires cur.scan.Some? ==> cur.scan.value < |r.slots| && r.Dist(cur.scan.value) <= r.Len()
    ensures ScanRing(r, c, false, order, nd, cur).ring == r
  {
    if order != FIRST {
      var from := if order == NEXT then cur else Cursor(None, -1);
      AckMeaning(r, {}, nd, r.AckStart(from), from);
      var a := r.Ack({}, nd, r.AckStart(from), from);
      forall t | 0 <= t < |r.slots|
        ensures a.ring.slots[t] == r.slots[t]
      {
        assert r.slots[t].blockmap - {} == r.slots[t].blockmap;
      }
      assert a.ring.slots == r.slots;
    }
  }

  lemma AlikeMoved(sys: Sys, resclient: nat, c: nat, high: nat)
    requires Sound(sys) && resclient <= c < high <= |sys.clients|
    ensures Alike(sys.(clients := Moved(sys.clients, c, high)), sys, resclient)
  {
    MovedSound(sys, c, high);
    MovedFront(sys.clients, c, high, resclient);
    forall d | 0 <= d < resclient
      ensures Moved(sys.clients, c, high)[d] == sys.clients[d]
    {
      assert Moved(sys.clients, c, high)[..resclient][d] == sys.clients[..resclient][d];
    }
  }

  lemma AlikeSame(sys: Sys, resclient: nat)
    requires Sound(sys) && resclient <= |sys.clients|
    ensures Alike(sys, sys, resclient)
  {
  }

  lemma AlikeThrough(sys: Sys, s: Sys, t: Sys, resclient: nat)
    requires Alike(sys, s, resclient) && Alike(s, t, resclient)
    ensures Alike(sys, t, resclient)
  {
    hide Sound;
  }

  /** One event of the table is, for the reserved clients, what it amounts to. */
  lemma TurnAlike(st: State, ev: TableEvent)
    requires Ok(st) && TableEventOk(ev, st.high)
    ensures Alike(TableStep(st, ev).sys, Final(st.sys, Amounts(st, ev)), st.resclient)
  {
    hide Sound, MasksOk, Alike, Step;
    match ev
    case Arrives(q, data) =>
      FinalOne(st.sys, Store(q, data));
      AlikeSame(Step(st.sys, Store(q, data)), st.resclient);
    case Asks(c, now, req) =>
      if c < st.resclient {
        FinalOne(st.sys, Ask(c, req));
        AlikeSame(Step(st.sys, Ask(c, req)), st.resclient);
      } else {
        OpenAsk(st.sys, st.resclient, c, req);
        StepAsk(st.sys, c, req);
      }
    case Unblocks(c) =>
      FinalOne(st.sys, Unblock(c));
      AlikeSame(Step(st.sys, Unblock(c)), st.resclient);
    case Attaches(name, pid, uid, wantsBlocking) =>
      var i := PlaceOf(st, name, pid);
      if Chooses(st, name, pid) {
        FinalOne(st.sys, if wantsBlocking then Block(i) else NoBlock(i));
      }
      AlikeSame(Final(st.sys, Amounts(st, ev)), st.resclient);
    case Checks(now, dead, combusy) =>
      CheckAlike(st, now, dead, combusy);
  }

  lemma FinalOne(sys: Sys, ev: Event)
    requires Sound(sys) && EventOk(ev, |sys.clients|)
    ensures Final(sys, [ev]) == Step(sys, ev)
  {
    assert [ev][1..] == [];
  }

  lemma StepAsk(sys: Sys, c: nat, req: Req)
    requires Sound(sys) && c < |sys.clients| && req.WellFormed()
    ensures Step(sys, Ask(c, req)) == Request(sys, c, req).sys
  {
  }

  lemma CheckAlike(st: State, now: real, dead: bool, combusy: int)
    requires Ok(st)
    ensures Alike(TableStep(st, Checks(now, dead, combusy)).sys,
                  Final(st.sys, Amounts(st, Checks(now, dead, combusy))), st.resclient)
  {
    hide Sound, MasksOk, Alike, Step;
    var p := NextPoll(st);
    var s := Final(st.sys, Amounts(st, Checks(now, dead, combusy)));
    if OutNext(st, now, dead, combusy) {
      FinalOne(st.sys, Unblock(p));
    }
    AlikeSame(s, st.resclient);
    if LostNext(st, now, dead, combusy) && st.resclient <= p {
      AlikeMoved(s, st.resclient, p, st.high);
    }
  }

  // ----- runs

  ghost function ArrivedIn(st: State, evs: seq<TableEvent>, mask: set<nat>): seq<Packet>
    requires Ok(st) && TableRunOk(st, evs)
    decreases |evs|
  {
    if evs == [] then []
    else ArrivedBy(st, evs[0], mask) + ArrivedIn(TableStep(st, evs[0]), evs[1..], mask)
  }

  /** The packet of a selected queue that an event stores. */
  ghost function ArrivedBy(st: State, ev: TableEvent, mask: set<nat>): seq<Packet>
    requires Ok(st) && TableEventOk(ev, st.high)
  {
    if ev.Arrives? && ev.q in mask && st.sys.rings[ev.q].Avail() then [Packet(ev.q, st.sys.nextData, ev.data)] else []
  }

  ghost function AnsweredIn(st: State, evs: seq<TableEvent>, c: nat): seq<Packet>
    requires Ok(st) && TableRunOk(st, evs)
    decreases |evs|
  {
    if evs == [] then [] else AnsweredBy(st, evs[0], c) + AnsweredIn(TableStep(st, evs[0]), evs[1..], c)
  }

  /** The packets that the client at place `c` is served. */
  ghost function AnsweredBy(st: State, ev: TableEvent, c: nat): seq<Packet>
    requires Ok(st) && TableEventOk(ev, st.high)
  {
    if ev.Asks? && ev.c == c then Request(st.sys, c, ev.req).taken else []
  }

  lemma {:induction false} AlikeFinal(sys: Sys, s: Sys, resclient: nat, es: seq<Event>, mask: set<nat>, c: nat)
    requires Alike(sys, s, resclient) && RunOk(es, |s.clients|) && c < resclient
    requires forall e | e in es && e.Ask? :: e.c < resclient
    ensures Alike(Final(sys, es), Final(s, es), resclient)
    ensures Stored(sys, es, mask) == Stored(s, es, mask) && Served(sys, es, c) == Served(s, es, c)
    decreases |es|
  {
    hide Sound, Step, EventOk, StoredBy, ServedBy;
    if es != [] {
      AlikeStep(sys, s, resclient, es[0]);
      AlikeFinal(Step(sys, es[0]), Step(s, es[0]), resclient, es[1..], mask, c);
    }
  }

  /** What one event stores and serves is what it amounts to. */
  lemma TurnSame(st: State, ev: TableEvent, mask: set<nat>, c: nat)
    requires Ok(st) && TableEventOk(ev, st.high) && c < st.resclient
    ensures ArrivedBy(st, ev, mask) == Stored(st.sys, Amounts(st, ev), mask)
    ensures AnsweredBy(st, ev, c) == Served(st.sys, Amounts(st, ev), c)
  {
    if Amounts(st, ev) != [] {
      StoredOne(st.sys, Amounts(st, ev)[0], mask, c);
    }
  }

  lemma StoredOne(sys: Sys, ev: Event, mask: set<nat>, c: nat)
    requires Sound(sys) && EventOk(ev, |sys.clients|)
    ensures Stored(sys, [ev], mask) == StoredBy(sys, ev, mask) && Served(sys, [ev], c) == ServedBy(sys, ev, c)
  {
    assert [ev][1..] == [];
    assert StoredBy(sys, ev, mask) + [] == StoredBy(sys, ev, mask);
    assert ServedBy(sys, ev, c) + [] == ServedBy(sys, ev, c);
  }

  lemma {:induction false} AmountsAsk(st: State, evs: seq<TableEvent>)
    requires Ok(st) && TableRunOk(st, evs)
    ensures forall e | e in AmountsTo(st, evs) && e.Ask? :: e.c < st.resclient
    decreases |evs|
  {
    hide Ok, TableStep;
    if evs != [] {
      AmountsAsk(TableStep(st, evs[0]), evs[1..]);
    }
  }

  /** A run of the server with its table of clients, whatever clients come and go, is a run of the
      packet server for the reserved clients: the same packets are stored and served to them, and
      the server is in the same state. */
  lemma {:induction false} RunRefines(st: State, evs: seq<TableEvent>, mask: set<nat>, c: nat)
    requires Ok(st) && TableRunOk(st, evs) && c < st.resclient
    ensures Alike(TableFinal(st, evs).sys, Final(st.sys, AmountsTo(st, evs)), st.resclient)
    ensures ArrivedIn(st, evs, mask) == Stored(st.sys, AmountsTo(st, evs), mask)
    ensures AnsweredIn(st, evs, c) == Served(st.sys, AmountsTo(st, evs), c)
    decreases |evs|
  {
    hide Sound, MasksOk, Alike, TableStep, Amounts, ArrivedBy, AnsweredBy;
    if evs == [] {
      AlikeSame(st.sys, st.resclient);
    } else {
      var ev, st1 := evs[0], TableStep(st, evs[0]);
      var es, fs := Amounts(st, ev), AmountsTo(st1, evs[1..]);
      var s1 := Final(st.sys, es);
      TurnAlike(st, ev);
      TurnSame(st, ev, mask, c);
      RunRefines(st1, evs[1..], mask, c);
      AmountsAsk(st1, evs[1..]);
      AlikeFinal(st1.sys, s1, st.resclient, fs, mask, c);
      FinalAppend(st.sys, es, fs, mask, c);
      AlikeThrough(TableFinal(st, evs).sys, Final(st1.sys, fs), Final(s1, fs), st.resclient);
    }
  }

  // ----- when the packets of a reserved client stop waiting for it

  /** An event that takes a client's bit from every packet: it timed out, somebody unblocked it,
      or it came back and chose not to block. */
  ghost predicate Releases(st: State, ev: TableEvent, c: nat)
    requires Ok(st) && TableEventOk(ev, st.high)
  {
    match ev
    case Unblocks(d) => d == c
    case Attaches(name, pid, _, wantsBlocking) => Chooses(st, name, pid) && PlaceOf(st, name, pid) == c
      && !wantsBlocking
    case Checks(now, dead, combusy) => OutNext(st, now, dead, combusy) && NextPoll(st) == c
    case _ => false
  }

  /** The client at place `c` shows up with a segment, which may be a new one with a number of its
      own. */
  ghost predicate Reattaches(st: State, ev: TableEvent, c: nat)
    requires st.high <= |st.entries|
  {
    ev.Attaches? && PlaceOf(st, ev.name, ev.pid) == c
  }

  /** A request of the client that starts above a packet, other than a fresh start. */
  predicate Acknowledges(sys: Sys, ev: TableEvent, c: nat, num: int)
    requires c < |sys.clients|
  {
    && ev.Asks? && ev.c == c && ev.req.order != FIRST
    && num < StartData(ev.req.order, sys.clients[c].nextData, sys.nextData)
  }

  /** A packet of queue `q` is there and waits for the client. */
  ghost predicate HeldFor(r: Ring, q: nat, c: nat, p: Packet)
    requires r.Shape()
  {
    exists k :: 0 <= k < |r.Live()| && Pack(q, r.Live()[k]) == p && c in r.Live()[k].blockmap
  }

  lemma StoreWaits(r: Ring, blockmask: set<nat>, counter: int, data: UserData, q: nat, c: nat, p: Packet)
    requires r.Valid(counter) && r.Avail() && HeldFor(r, q, c, p)
    ensures HeldFor(r.Put(blockmask, counter, data), q, c, p)
  {
    var k :| 0 <= k < |r.Live()| && Pack(q, r.Live()[k]) == p && c in r.Live()[k].blockmap;
    var r' := r.Put(blockmask, counter, data);
    PutLive(r, blockmask, counter, data);
    AvailMeaning(r, counter);
    var j := if r.Len() == |r.slots| - 1 then k - 1 else k;
    assert r'.Live()[j] == r.Live()[k];
  }

  lemma SameWaits(r: Ring, r': Ring, counter: int, q: nat, c: nat, p: Packet)
    requires r.Valid(counter) && r'.Shape() && SamePackets(r, r') && HeldFor(r, q, c, p)
    requires forall t | 0 <= t < |r.slots| && r.slots[t].packetNum == p.num ::
      c in r.slots[t].blockmap ==> c in r'.slots[t].blockmap
    ensures HeldFor(r', q, c, p)
  {
    var k :| 0 <= k < |r.Live()| && Pack(q, r.Live()[k]) == p && c in r.Live()[k].blockmap;
    SamePacketsValid(r, r', counter);
    assert r'.At(k) == r.At(k) && r.Live()[k] == r.slots[r.At(k)];
    assert Pack(q, r'.Live()[k]) == p && c in r'.Live()[k].blockmap;
  }

  lemma AskWaits(sys: Sys, d: nat, req: Req, q: nat, c: nat, p: Packet)
    requires Sound(sys) && d < |sys.clients| && q < NUMQ && HeldFor(sys.rings[q], q, c, p)
    requires d == c && req.order != FIRST ==> StartData(req.order, sys.clients[c].nextData, sys.nextData) <= p.num
    ensures Request(sys, d, req).sys.rings[q].Shape() && HeldFor(Request(sys, d, req).sys.rings[q], q, c, p)
  {
    var r, cl := sys.rings[q], sys.clients[d];
    RequestSame(sys, d, req);
    if d == c {
      ScanKeeps(r, sys.nextData, c, cl.blocking, req.order,
                StartData(req.order, cl.nextData, sys.nextData), cl.last[q]);
    }
    SameWaits(r, Request(sys, d, req).sys.rings[q], sys.nextData, q, c, p);
  }

  lemma StepWaits(sys: Sys, ev: Event, q: nat, c: nat, p: Packet)
    requires Sound(sys) && EventOk(ev, |sys.clients|) && q < NUMQ && c < |sys.clients|
    requires HeldFor(sys.rings[q], q, c, p) && ev != Unblock(c) && ev != NoBlock(c)
    requires ev.Ask? && ev.c == c && ev.req.order != FIRST ==>
      StartData(ev.req.order, sys.clients[c].nextData, sys.nextData) <= p.num
    ensures HeldFor(Step(sys, ev).rings[q], q, c, p)
  {
    var r, r' := sys.rings[q], Step(sys, ev).rings[q];
    if ev.Store? {
      if ev.q == q && r.Avail() {
        StoreWaits(r, sys.blockmask, sys.nextData, ev.data, q, c, p);
      }
    } else if ev.Ask? {
      AskWaits(sys, ev.c, ev.req, q, c, p);
    } else if !ev.Block? {
      UnblockSound(sys, ev.c);
      SameWaits(r, r', sys.nextData, q, c, p);
    }
  }

  /** A packet that waits for a reserved client goes on waiting, whatever happens to the table,
      unless that client acknowledges it or is released. */
  lemma TurnWaits(st: State, ev: TableEvent, q: nat, c: nat, p: Packet)
    requires Ok(st) && TableEventOk(ev, st.high) && q < NUMQ && c < st.resclient
    requires HeldFor(st.sys.rings[q], q, c, p)
    requires !Acknowledges(st.sys, ev, c, p.num) && !Releases(st, ev, c)
    ensures HeldFor(TableStep(st, ev).sys.rings[q], q, c, p)
  {
    TurnAlike(st, ev);
    hide Sound, MasksOk, Step, TableStep, HeldFor;
    if Amounts(st, ev) != [] {
      FinalOne(st.sys, Amounts(st, ev)[0]);
      StepWaits(st.sys, Amounts(st, ev)[0], q, c, p);
    }
  }

  /** Over a run the client acknowledges no packet from `num` on, keeps its segment, and is not
      released. */
  ghost predicate Patient(st: State, evs: seq<TableEvent>, c: nat, num: int)
    requires Ok(st) && TableRunOk(st, evs) && c < st.resclient
    decreases |evs|
  {
    evs != [] ==>
      && !Acknowledges(st.sys, evs[0], c, num) && !Releases(st, evs[0], c) && !Reattaches(st, evs[0], c)
      && Patient(TableStep(st, evs[0]), evs[1..], c, num)
  }

  lemma {:induction false} RunWaits(st: State, evs: seq<TableEvent>, q: nat, c: nat, p: Packet)
    requires Ok(st) && TableRunOk(st, evs) && q < NUMQ && c < st.resclient
    requires HeldFor(st.sys.rings[q], q, c, p) && Patient(st, evs, c, p.num)
    ensures HeldFor(TableFinal(st, evs).sys.rings[q], q, c, p)
    decreases |evs|
  {
    hide Sound, MasksOk, TableStep, HeldFor, Acknowledges, Releases;
    if evs != [] {
      TurnWaits(st, evs[0], q, c, p);
      RunWaits(TableStep(st, evs[0]), evs[1..], q, c, p);
    }
  }

  /** A released client's bit is nowhere: no packet waits for it, and no new one will. */
  lemma Released(st: State, ev: TableEvent, c: nat)
    requires Ok(st) && TableEventOk(ev, st.high) && c < st.resclient && Releases(st, ev, c)
    ensures Off(TableStep(st, ev).sys, c)
  {
    TurnAlike(st, ev);
    UnblockOff(st.sys, c);
    hide Sound, MasksOk, Step, TableStep;
    FinalOne(st.sys, Amounts(st, ev)[0]);
  }

  /** Over every run from the configuration on, whoever comes and goes: a packet waits for nobody
      but clients that are configured with a timeout. */
  lemma BitsOfBlockers(st: State, names: seq<string>, timeouts: seq<int>, evs: seq<TableEvent>, q: nat, c: nat,
        p: Packet)
    requires Configured(st, names, timeouts) && Ok(st) && TableRunOk(st, evs) && q < NUMQ
    requires HeldFor(TableFinal(st, evs).sys.rings[q], q, c, p)
    ensures c < |names| && timeouts[c] != 0
  {
    ConfiguredOk(st, names, timeouts);
    var r := TableFinal(st, evs).sys.rings[q];
    var k :| 0 <= k < |r.Live()| && Pack(q, r.Live()[k]) == p && c in r.Live()[k].blockmap;
    assert BitsIn(r, Timed(timeouts)) && r.Live()[k] == r.slots[r.At(k)];
  }

  // ----- names and places

  /** The reserved places keep their names and timeouts. */
  ghost predicate SameReserved(st: State, st': State) {
    && st.resclient == st'.resclient <= |st.entries| && |st'.entries| == |st.entries|
    && forall k | 0 <= k < st.resclient ::
         st'.entries[k].name == st.entries[k].name && st'.entries[k].timeout == st.entries[k].timeout
  }

  lemma TurnReserved(st: State, ev: TableEvent)
    requires Ok(st) && TableEventOk(ev, st.high)
    ensures SameReserved(st, TableStep(st, ev))
  {
    hide Sound, MasksOk, Step;
    match ev
    case Attaches(name, pid, uid, wantsBlocking) =>
      AttachMeaning(st, name, pid, uid, wantsBlocking);
    case _ =>
  }

  lemma {:induction false} RunReserved(st: State, evs: seq<TableEvent>)
    requires Ok(st) && TableRunOk(st, evs)
    ensures SameReserved(st, TableFinal(st, evs))
    decreases |evs|
  {
    hide Ok, TableStep;
    OkSizes(st);
    if evs != [] {
      TurnReserved(st, evs[0]);
      RunReserved(TableStep(st, evs[0]), evs[1..]);
    }
  }

  lemma OkSizes(st: State)
    requires Ok(st)
    ensures st.resclient <= st.high <= |st.entries| == MAXCLIENTS
  {
  }

  /** With distinct configured names, after any run a client that shows up under the name of reserved
      client `c` gets place `c`, whatever its process, and one under another name never does. */
  lemma NamedPlace(st: State, names: seq<string>, timeouts: seq<int>, evs: seq<TableEvent>, name: string, pid: int,
                   c: nat)
    requires Configured(st, names, timeouts) && Ok(st) && TableRunOk(st, evs) && c < |names|
    requires forall j, k | 0 <= j < k < |names| :: names[j] != names[k]
    ensures TableFinal(st, evs).high <= |TableFinal(st, evs).entries|
    ensures PlaceOf(TableFinal(st, evs), name, pid) == c <==> name == names[c]
  {
    hide Sound, MasksOk, TableStep, Fresh;
    var end := TableFinal(st, evs);
    RunReserved(st, evs);
    forall k | 0 <= k < |names|
      ensures end.entries[k].name == names[k]
    {
      assert InPlace(st.entries[k], st.sys.clients[k], k, names, timeouts);
    }
    AttachMeaning(end, name, pid, 0, false);
  }

  // ----- a silent client

  /** How many looks it takes until place `c` is looked at. */
  function Looks(poll: nat, high: nat, c: nat): nat
    requires c < high
  {
    if poll < c then c - poll else (if poll + 1 < high then high - poll else 1) + c
  }

  /** A blocking client that has asked for nothing for longer than its timeout at each of the times. */
  ghost predicate Silent(st: State, evs: seq<TableEvent>, c: nat)
    requires c < |st.entries| == |st.sys.clients|
  {
    && st.entries[c].active && st.sys.clients[c].blocking
    && forall k | 0 <= k < |evs| ::
         evs[k].Checks? && evs[k].now - st.entries[c].lastService > st.entries[c].timeout as real
  }

  lemma LookPasses(st: State, ev: TableEvent, c: nat)
    requires Ok(st) && TableEventOk(ev, st.high) && c < st.resclient && Silent(st, [ev], c)
    ensures var st' := TableStep(st, ev);
      && st'.resclient == st.resclient <= st'.high && |st'.entries| == |st'.sys.clients| == |st.entries|
      && (Looks(st.poll, st.high, c) == 1 ==> Releases(st, ev, c))
      && (Looks(st.poll, st.high, c) > 1 ==>
            && Looks(st'.poll, st'.high, c) < Looks(st.poll, st.high, c)
            && st'.entries[c] == st.entries[c] && st'.sys.clients[c] == st.sys.clients[c])
  {
    assert [ev][0] == ev;
    LostExact(st, ev.now, ev.dead, ev.combusy);
    CheckMeaning(st, ev.now, ev.dead, ev.combusy);
    if NextPoll(st) != c {
      LookedElsewhere(st, ev, c);
    }
  }

  lemma LookedElsewhere(st: State, ev: TableEvent, c: nat)
    requires Ok(st) && ev.Checks? && c < st.resclient && NextPoll(st) != c
    ensures var st' := TableStep(st, ev);
      && |st'.entries| == |st'.sys.clients| == |st.entries| && c < |st'.entries|
      && st'.entries[c] == st.entries[c] && st'.sys.clients[c] == st.sys.clients[c]
  {
    var p := NextPoll(st);
    UnblockSound(st.sys, p);
    if LostNext(st, ev.now, ev.dead, ev.combusy) && st.resclient <= p {
      LeaveMeaning(st.(poll := p), p, OutNext(st, ev.now, ev.dead, ev.combusy));
    }
  }

  /** A blocking client that stays silent is released by the time everybody has been looked at once:
      from then on no packet waits for it. */
  lemma {:induction false} SilentReleased(st: State, evs: seq<TableEvent>, c: nat) returns (k: nat)
    requires Ok(st) && TableRunOk(st, evs) && c < st.resclient <= |st.entries| == |st.sys.clients|
    requires Silent(st, evs, c) && st.high <= |evs|
    ensures k < st.high && TableRunOk(st, evs[..k + 1])
    ensures Off(TableFinal(st, evs[..k + 1]).sys, c)
  {
    OkSizes(st);
    assert Looks(st.poll, st.high, c) <= st.high;
    k := ReleasedWithin(st, evs, c);
  }

  lemma {:induction false} ReleasedWithin(st: State, evs: seq<TableEvent>, c: nat) returns (k: nat)
    requires Ok(st) && TableRunOk(st, evs) && c < st.resclient <= st.high <= |st.entries| == |st.sys.clients|
    requires Silent(st, evs, c) && Looks(st.poll, st.high, c) <= |evs|
    ensures k < Looks(st.poll, st.high, c) && TableRunOk(st, evs[..k + 1])
    ensures Off(TableFinal(st, evs[..k + 1]).sys, c)
    decreases |evs|
  {
    hide Ok, TableStep, Releases, Off, Looks;
    LooksOnce(st, c);
    var ev, st' := evs[0], TableStep(st, evs[0]);
    assert Silent(st, [ev], c);
    LookPasses(st, ev, c);
    if Looks(st.poll, st.high, c) == 1 {
      Released(st, ev, c);
      k := 0;
      assert evs[..1] == [ev] && [ev][1..] == [];
    } else {
      OkSizes(st');
      k := ReleasedWithin(st', evs[1..], c);
      k := k + 1;
      assert evs[..k + 1][1..] == evs[1..][..k];
    }
  }

  lemma LooksOnce(st: State, c: nat)
    requires c < st.high
    ensures 1 <= Looks(st.poll, st.high, c)
  {
  }

  // ----- exactly once

  ghost predicate Unreleased(st: State, evs: seq<TableEvent>, c: nat)
    requires Ok(st) && TableRunOk(st, evs)
    decreases |evs|
  {
    evs != [] ==> !Releases(st, evs[0], c) && Unreleased(TableStep(st, evs[0]), evs[1..], c)
  }

  /** Over a run the client goes on with the segment it has, and is not released. */
  ghost predicate Stays(st: State, evs: seq<TableEvent>, c: nat)
    requires Ok(st) && TableRunOk(st, evs)
    decreases |evs|
  {
    evs != [] ==>
      !Releases(st, evs[0], c) && !Reattaches(st, evs[0], c) && Stays(TableStep(st, evs[0]), evs[1..], c)
  }

  lemma {:induction false} StaysUnreleased(st: State, evs: seq<TableEvent>, c: nat)
    requires Ok(st) && TableRunOk(st, evs) && Stays(st, evs, c)
    ensures Unreleased(st, evs, c)
    decreases |evs|
  {
    hide Ok, TableStep, Releases, Reattaches;
    if evs != [] {
      StaysUnreleased(TableStep(st, evs[0]), evs[1..], c);
    }
  }

  predicate AsksFirst(evs: seq<TableEvent>, c: nat) {
    forall k | 0 <= k < |evs| && evs[k].Asks? && evs[k].c == c :: evs[k].req.order == FIRST
  }

  predicate AsksNext(evs: seq<TableEvent>, c: nat, mask: set<nat>) {
    forall k | 0 <= k < |evs| && evs[k].Asks? && evs[k].c == c :: evs[k].req.order == NEXT && evs[k].req.mask == mask
  }

  lemma {:induction false} AmountsWaiting(st: State, evs: seq<TableEvent>, c: nat)
    requires Ok(st) && TableRunOk(st, evs) && Unreleased(st, evs, c) && AsksFirst(evs, c)
    ensures WaitingRun(AmountsTo(st, evs), c)
    decreases |evs|
  {
    hide Ok, TableStep;
    if evs != [] {
      AmountsWaiting(TableStep(st, evs[0]), evs[1..], c);
      assert forall e | e in Amounts(st, evs[0]) :: Waiting(e, c);
    }
  }

  lemma {:induction false} AmountsSteady(st: State, evs: seq<TableEvent>, c: nat, mask: set<nat>)
    requires Ok(st) && TableRunOk(st, evs) && Unreleased(st, evs, c) && AsksNext(evs, c, mask)
    ensures SteadyRun(AmountsTo(st, evs), c, mask)
    decreases |evs|
  {
    hide Ok, TableStep;
    if evs != [] {
      AmountsSteady(TableStep(st, evs[0]), evs[1..], c, mask);
      assert forall e | e in Amounts(st, evs[0]) :: Steady(e, c, mask);
    }
  }

  /** Exactly once and in order, whoever comes and goes: over every run in which a covered reserved
      client goes on with the segment it has and is not released, what was owed to it and what arrives
      is what it is served and what is owed to it afterwards. */
  lemma TableRunExact(st: State, evs: seq<TableEvent>, c: nat, mask: set<nat>, a: int) returns (a': int)
    requires Ok(st) && TableRunOk(st, evs) && c < st.resclient && Covered(st.sys, c, a)
    requires Stays(st, evs, c) && AsksNext(evs, c, mask)
    ensures var end := TableFinal(st, evs).sys;
      && Covered(end, c, a')
      && Pending(st.sys, mask, st.sys.clients[c].nextData) + ArrivedIn(st, evs, mask)
         == AnsweredIn(st, evs, c) + Pending(end, mask, end.clients[c].nextData)
  {
    StaysUnreleased(st, evs, c);
    AmountsSteady(st, evs, c, mask);
    RunRefines(st, evs, mask, c);
    a' := RunExact(st.sys, AmountsTo(st, evs), c, mask, a);
    AlikeOwed(TableFinal(st, evs).sys, Final(st.sys, AmountsTo(st, evs)), st.resclient, c, mask,
              TableFinal(st, evs).sys.clients[c].nextData, a');
  }

  lemma AlikeOwed(sys: Sys, s: Sys, resclient: nat, c: nat, mask: set<nat>, nd: int, a: int)
    requires Alike(sys, s, resclient) && c < resclient
    ensures Marked(s, c, a) ==> Marked(sys, c, a)
    ensures Covered(s, c, a) ==> Covered(sys, c, a)
    ensures Pending(sys, mask, nd) == Pending(s, mask, nd)
  {
    assert Suffixes(sys, nd) == Suffixes(s, nd);
  }

  /** From the time the packets from `a` on are marked for a reserved client: over any run in which
      it waits, with whatever segments, gets an answer to CSQ_FIRST that considers a packet, goes on
      with the segment it has then, and is not released, what was owed and what arrives is what it is
      served and what is still owed. */
  lemma TableStartExact(st: State, waiting: seq<TableEvent>, now: real, first: Req, after: seq<TableEvent>, c: nat,
                        a: int) returns (a': int)
    requires Ok(st) && c < st.resclient && Marked(st.sys, c, a) && 0 <= a
    requires TableRunOk(st, waiting) && Unreleased(st, waiting, c) && AsksFirst(waiting, c)
    requires first.WellFormed() && first.order == FIRST
    requires a == 0 || AnsweredBy(TableFinal(st, waiting), Asks(c, now, first), c) != []
    requires var asked := TableStep(TableFinal(st, waiting), Asks(c, now, first));
      TableRunOk(asked, after) && Stays(asked, after, c) && AsksNext(after, c, first.mask)
    ensures var waited := TableFinal(st, waiting);
      var asked := TableStep(waited, Asks(c, now, first));
      var end := TableFinal(asked, after).sys;
      && Covered(end, c, a')
      && Pending(st.sys, first.mask, a) + (ArrivedIn(st, waiting, first.mask) + ArrivedIn(asked, after, first.mask))
         == (AnsweredBy(waited, Asks(c, now, first), c) + AnsweredIn(asked, after, c))
            + Pending(end, first.mask, end.clients[c].nextData)
  {
    hide Sound, Marked, Covered, Pending, ArrivedIn, AnsweredIn, TableFinal;
    var waited := TableFinal(st, waiting);
    var asked := TableStep(waited, Asks(c, now, first));
    AmountsWaiting(st, waiting, c);
    RunRefines(st, waiting, first.mask, c);
    var s := Final(st.sys, AmountsTo(st, waiting));
    WhileWaiting(st.sys, AmountsTo(st, waiting), c, a, first.mask);
    AlikeOwed(waited.sys, s, st.resclient, c, first.mask, a, a);
    FirstExact(waited.sys, c, first, a);
    a' := TableRunExact(asked, after, c, first.mask, a);
    var end := TableFinal(asked, after).sys;
    Chained(Pending(st.sys, first.mask, a), ArrivedIn(st, waiting, first.mask), Pending(waited.sys, first.mask, a),
            AnsweredBy(waited, Asks(c, now, first), c), Pending(asked.sys, first.mask, asked.sys.clients[c].nextData),
            ArrivedIn(asked, after, first.mask), AnsweredIn(asked, after, c),
            Pending(end, first.mask, end.clients[c].nextData));
  }

  /** A client configured with a timeout gets every packet that ever arrived in its queues exactly
      once, as long as it does not time out, nobody unblocks it, and it keeps its segment once it has
      its first answer. */
  lemma TableClientExact(st: State, names: seq<string>, timeouts: seq<int>, waiting: seq<TableEvent>, now: real,
                         first: Req, after: seq<TableEvent>, c: nat) returns (a: int)
    requires Configured(st, names, timeouts) && c < |names| && timeouts[c] != 0 && Ok(st)
    requires TableRunOk(st, waiting) && Unreleased(st, waiting, c) && AsksFirst(waiting, c)
    requires first.WellFormed() && first.order == FIRST
    requires var asked := TableStep(TableFinal(st, waiting), Asks(c, now, first));
      TableRunOk(asked, after) && Stays(asked, after, c) && AsksNext(after, c, first.mask)
    ensures var waited := TableFinal(st, waiting);
      var asked := TableStep(waited, Asks(c, now, first));
      var end := TableFinal(asked, after).sys;
      && Covered(end, c, a)
      && ArrivedIn(st, waiting, first.mask) + ArrivedIn(asked, after, first.mask)
         == (AnsweredBy(waited, Asks(c, now, first), c) + AnsweredIn(asked, after, c))
            + Pending(end, first.mask, end.clients[c].nextData)
  {
    hide Sound, Marked, Covered, Pending, ArrivedIn, AnsweredIn, TableFinal;
    ConfiguredMarked(st, names, timeouts, c, first.mask);
    a := TableStartExact(st, waiting, now, first, after, c, 0);
    var asked := TableStep(TableFinal(st, waiting), Asks(c, now, first));
    var stored := ArrivedIn(st, waiting, first.mask) + ArrivedIn(asked, after, first.mask);
    assert [] + stored == stored;
  }

  lemma ConfiguredMarked(st: State, names: seq<string>, timeouts: seq<int>, c: nat, mask: set<nat>)
    requires Configured(st, names, timeouts) && c < |names| && timeouts[c] != 0
    ensures Marked(st.sys, c, 0) && Pending(st.sys, mask, 0) == []
  {
    assert InPlace(st.entries[c], st.sys.clients[c], c, names, timeouts);
    NothingOwed(Suffixes(st.sys, 0), mask);
  }

  /** A client shows up under the name of the reserved client `c`, which has a timeout, and chooses to
      block. */
  ghost predicate Returns(st: State, ev: TableEvent, c: nat)
    requires c < |st.entries|
  {
    && ev.Attaches? && ev.wantsBlocking && ev.name == st.entries[c].name && st.entries[c].timeout != 0
    && forall k | 0 <= k < c :: st.entries[k].name != ev.name
  }

  lemma ReturnsTo(st: State, ev: TableEvent, c: nat)
    requires Ok(st) && c < st.resclient && Returns(st, ev, c)
    ensures PlaceOf(st, ev.name, ev.pid) == c && Chooses(st, ev.name, ev.pid)
  {
    hide Sound, MasksOk;
    AttachMeaning(st, ev.name, ev.pid, ev.uid, ev.wantsBlocking);
  }

  /** A client that comes back after it timed out gets every packet that arrives in its queues from
      then on exactly once, if the first answer it goes on from considers one of them and it keeps its
      segment from there on. */
  lemma TableLateExact(st: State, ev: TableEvent, waiting: seq<TableEvent>, now: real, first: Req,
                       after: seq<TableEvent>, c: nat) returns (a: int)
    requires Ok(st) && c < st.resclient && Off(st.sys, c) && Returns(st, ev, c)
    requires var back := TableStep(st, ev);
      TableRunOk(back, waiting) && Unreleased(back, waiting, c) && AsksFirst(waiting, c)
    requires first.WellFormed() && first.order == FIRST
    requires AnsweredBy(TableFinal(TableStep(st, ev), waiting), Asks(c, now, first), c) != []
    requires var asked := TableStep(TableFinal(TableStep(st, ev), waiting), Asks(c, now, first));
      TableRunOk(asked, after) && Stays(asked, after, c) && AsksNext(after, c, first.mask)
    ensures var back := TableStep(st, ev);
      var waited := TableFinal(back, waiting);
      var asked := TableStep(waited, Asks(c, now, first));
      var end := TableFinal(asked, after).sys;
      && Covered(end, c, a)
      && ArrivedIn(back, waiting, first.mask) + ArrivedIn(asked, after, first.mask)
         == (AnsweredBy(waited, Asks(c, now, first), c) + AnsweredIn(asked, after, c))
            + Pending(end, first.mask, end.clients[c].nextData)
  {
    hide Sound, Marked, Covered, Pending, ArrivedIn, AnsweredIn, TableFinal, Off;
    var back := TableStep(st, ev);
    ReturnsTo(st, ev, c);
    BlockMarks(st.sys, c, first.mask);
    assert back.sys == Step(st.sys, Block(c));
    a := TableStartExact(back, waiting, now, first, after, c, st.sys.nextData);
    var asked := TableStep(TableFinal(back, waiting), Asks(c, now, first));
    var stored := ArrivedIn(back, waiting, first.mask) + ArrivedIn(asked, after, first.mask);
    assert [] + stored == stored;
  }
}
