/** The table of clients as values, over the packet server of the run model: the reserved clients,
    which may block the server, keep their places at the front; the others come and go behind
    them. */
module ClientModel {
  import opened RingModel
  import opened ServerModel
  import opened Delivery
  import opened DeliveryRuns
  import opened ExactDelivery
  import opened ClientStarts

  const MAXCLIENTS: nat := 64
  const NOCLIENT: int := -1
  const NON_PRIVILEGED_TO: real := 60.0

  /** What the table holds on a client besides its flag, number and cursors, which are those of
      the run model.  `timeout` is zero for a client that may not block. */
  datatype Entry = Entry(name: string, pid: int, uid: int, attached: bool, timeout: int, active: bool,
    lastService: real)

  datatype State = State(entries: seq<Entry>, resclient: nat, high: nat, poll: nat, serverUid: int, sys: Sys)

  /** What happens to the table: a packet arrives, a client's request for data is served, a client
      has another one's packets unblocked, a client shows up with a new segment, or the next
      client in turn is looked at.  `dead` is what a signal to its process gives. */
  datatype TableEvent =
    | Arrives(q: nat, data: UserData)
    | Asks(c: nat, now: real, req: Req)
    | Unblocks(c: nat)
    | Attaches(name: string, pid: int, uid: int, wantsBlocking: bool)
    | Checks(now: real, dead: bool, combusy: int)

  // ----- the invariant

  /** The clients that are configured to block. */
  function MayBlock(st: State): set<nat>
    requires st.resclient <= |st.entries|
  {
    set c: nat | 0 <= c < st.resclient && st.entries[c].timeout != 0
  }

  ghost predicate BitsIn(r: Ring, who: set<nat>) {
    forall s | 0 <= s < |r.slots| :: r.slots[s].blockmap <= who
  }

  /** Every bit is one of `who`, those in packets as those that new packets get. */
  ghost predicate MasksOk(sys: Sys, who: set<nat>) {
    sys.blockmask <= who && forall q | 0 <= q < |sys.rings| :: BitsIn(sys.rings[q], who)
  }

  /** Places behind the reserved ones have no timeout, and nobody without one blocks. */
  ghost predicate AllOpen(entries: seq<Entry>, clients: seq<Client>, resclient: nat)
    requires |entries| == |clients|
  {
    forall c | 0 <= c < |entries| ::
      (resclient <= c ==> entries[c].timeout == 0) && (entries[c].timeout == 0 ==> !clients[c].blocking)
  }

  ghost predicate Places(st: State) {
    && |st.entries| == |st.sys.clients| == MAXCLIENTS && st.resclient <= st.high <= MAXCLIENTS
    && AllOpen(st.entries, st.sys.clients, st.resclient)
    && (st.high == 0 ==> !st.entries[0].active)
  }

  ghost predicate Ok(st: State) {
    Sound(st.sys) && Places(st) && MasksOk(st.sys, MayBlock(st))
  }

  // ----- what happens to the table

  /** What is left when the client at place `c` goes and those behind it move up; the last of them
      stays behind where it was, too. */
  function Moved<T>(s: seq<T>, c: nat, high: nat): (t: seq<T>)
    requires c < high <= |s|
    ensures |t| == |s|
  {
    s[..c] + s[c + 1..high] + s[high - 1..]
  }

  /** A client that has gone; its place keeps what else it was. */
  function Gone(e: Entry, timedout: bool): Entry {
    e.(pid := NOCLIENT, uid := NOCLIENT, attached := false, active := e.active && !timedout)
  }

  /** A client has gone.  A reserved one keeps its place. */
  ghost function Leave(st: State, c: nat, timedout: bool): State
    requires Sound(st.sys) && c < st.high <= |st.entries| == |st.sys.clients|
  {
    var sys := if timedout then Step(st.sys, Unblock(c)) else st.sys;
    var e := Gone(st.entries[c], timedout);
    if c < st.resclient then st.(entries := st.entries[c := e], sys := sys)
    else st.(entries := Moved(st.entries[c := e.(active := false)], c, st.high), high := st.high - 1,
             sys := sys.(clients := Moved(sys.clients, c, st.high)))
  }

  predicate Alive(e: Entry) {
    e.attached && e.pid != NOCLIENT
  }

  /** A blocking client that has asked for nothing for longer than its timeout. */
  predicate TimedOut(e: Entry, blocking: bool, now: real) {
    blocking && now - e.lastService > e.timeout as real
  }

  /** Whether a client is taken to be gone: it timed out, its process is there no more, or it
      belongs to another user, of whom nothing else can be known, and has been silent. */
  predicate Lost(e: Entry, blocking: bool, now: real, dead: bool, busy: bool, serverUid: int) {
    || TimedOut(e, blocking, now)
    || (Alive(e) && e.uid == serverUid && dead)
    || (Alive(e) && e.uid != serverUid && now - e.lastService > NON_PRIVILEGED_TO && !busy)
  }

  function NextPoll(st: State): (p: nat)
    ensures p == 0 || p < st.high
  {
    if st.poll + 1 >= st.high then 0 else st.poll + 1
  }

  /** The client looked at next is gone, and whether because it timed out. */
  predicate LostNext(st: State, now: real, dead: bool, combusy: int)
    requires 0 < |st.entries| == |st.sys.clients| && st.high <= |st.entries|
  {
    var p := NextPoll(st);
    var e := st.entries[p];
    e.active && Lost(e, st.sys.clients[p].blocking, now, dead, combusy == p, st.serverUid)
  }

  predicate OutNext(st: State, now: real, dead: bool, combusy: int)
    requires 0 < |st.entries| == |st.sys.clients| && st.high <= |st.entries|
  {
    && LostNext(st, now, dead, combusy)
    && TimedOut(st.entries[NextPoll(st)], st.sys.clients[NextPoll(st)].blocking, now)
  }

  ghost function Check(st: State, now: real, dead: bool, combusy: int): State
    requires Sound(st.sys) && Places(st)
  {
    var st1 := st.(poll := NextPoll(st));
    if LostNext(st, now, dead, combusy) then Leave(st1, NextPoll(st), OutNext(st, now, dead, combusy)) else st1
  }

  predicate MatchesEntry(e: Entry, i: nat, resclient: nat, name: string, pid: int) {
    e.name == name && (e.pid == pid || e.pid == NOCLIENT || i < resclient)
  }

  /** The first place from `i` on that matches a segment's name and process, or the one behind all. */
  function Find(entries: seq<Entry>, high: nat, resclient: nat, name: string, pid: int, i: nat): (f: nat)
    requires i <= high <= |entries|
    ensures i <= f <= high && (f < high ==> MatchesEntry(entries[f], f, resclient, name, pid))
    ensures forall k | i <= k < f :: !MatchesEntry(entries[k], k, resclient, name, pid)
    decreases high - i
  {
    if i == high || MatchesEntry(entries[i], i, resclient, name, pid) then i
    else Find(entries, high, resclient, name, pid, i + 1)
  }

  function PlaceOf(st: State, name: string, pid: int): (i: nat)
    requires st.high <= |st.entries|
    ensures i <= st.high
  {
    Find(st.entries, st.high, st.resclient, name, pid, 0)
  }

  /** Whether a client that shows up may choose to block. */
  predicate Chooses(st: State, name: string, pid: int)
    requires st.high <= |st.entries|
  {
    var i := PlaceOf(st, name, pid);
    i < st.high && st.entries[i].timeout != 0
  }

  /** A client shows up: it gets its old place back, or one behind the others, or is refused when
      the table is full. */
  ghost function Attach(st: State, name: string, pid: int, uid: int, wantsBlocking: bool): State
    requires Sound(st.sys) && st.high <= |st.entries| == |st.sys.clients|
  {
    var i := PlaceOf(st, name, pid);
    if i == |st.entries| then st
    else
      var e := st.entries[i].(name := name, pid := pid, uid := uid, attached := true);
      var sys :=
        if Chooses(st, name, pid) then Step(st.sys, if wantsBlocking then Block(i) else NoBlock(i)) else st.sys;
      st.(entries := st.entries[i := e], high := if i == st.high then st.high + 1 else st.high, sys := sys)
  }

  ghost predicate TableEventOk(ev: TableEvent, high: nat) {
    match ev
    case Arrives(q, _) => q < NUMQ
    case Asks(c, _, req) => c < high && req.WellFormed()
    case _ => true
  }

  ghost function Turn(st: State, ev: TableEvent): State
    requires Sound(st.sys) && Places(st) && TableEventOk(ev, st.high)
  {
    match ev
    case Arrives(q, data) => st.(sys := Step(st.sys, Store(q, data)))
    case Asks(c, now, req) => st.(entries := st.entries[c := st.entries[c].(active := true, lastService := now)],
                                  sys := Step(st.sys, Ask(c, req)))
    case Unblocks(c) => st.(sys := Step(st.sys, Unblock(c)))
    case Attaches(name, pid, uid, wantsBlocking) => Attach(st, name, pid, uid, wantsBlocking)
    case Checks(now, dead, combusy) => Check(st, now, dead, combusy)
  }

  // ----- bits

  /** No event but a client's choice to block puts a new client's bit anywhere. */
  lemma StepMasks(sys: Sys, ev: Event, who: set<nat>)
    requires Sound(sys) && EventOk(ev, |sys.clients|) && MasksOk(sys, who) && (ev.Block? ==> ev.c in who)
    ensures MasksOk(Step(sys, ev), who)
  {
    var sys' := Step(sys, ev);
    if ev.Ask? {
      RequestSame(sys, ev.c, ev.req);
    } else if !ev.Store? && !ev.Block? {
      UnblockSound(sys, ev.c);
    }
    forall q | 0 <= q < NUMQ
      ensures BitsIn(sys'.rings[q], who)
    {
      assert BitsIn(sys.rings[q], who);
      if !ev.Store? {
        assert SamePackets(sys.rings[q], sys'.rings[q]);
      }
    }
  }

  /** Taking away a bit that nobody can have changes nothing. */
  lemma UnblockedNone(sys: Sys, who: set<nat>, c: nat)
    requires Sound(sys) && MasksOk(sys, who) && c !in who
    ensures Step(sys, Unblock(c)) == sys
  {
    forall q | 0 <= q < NUMQ
      ensures sys.rings[q].ClearAll({c}) == sys.rings[q]
    {
      var r := sys.rings[q];
      assert BitsIn(r, who);
      forall s | 0 <= s < |r.slots|
        ensures r.ClearAll({c}).slots[s] == r.slots[s]
      {
        assert r.slots[s].blockmap - {c} == r.slots[s].blockmap;
      }
      assert r.ClearAll({c}).slots == r.slots;
    }
    assert Step(sys, Unblock(c)).rings == sys.rings;
  }

  // ----- places

  lemma MovedAt<T>(s: seq<T>, c: nat, high: nat, k: nat)
    requires c < high <= |s| && k < |s|
    ensures Moved(s, c, high)[k] == if k < c || high - 1 <= k then s[k] else s[k + 1]
  {
  }

  lemma MovedSound(sys: Sys, c: nat, high: nat)
    requires Sound(sys) && c < high <= |sys.clients|
    ensures Sound(sys.(clients := Moved(sys.clients, c, high)))
  {
    var sys' := sys.(clients := Moved(sys.clients, c, high));
    forall d | 0 <= d < |sys'.clients|
      ensures |sys'.clients[d].last| == NUMQ
      ensures forall i | 0 <= i < NUMQ ::
        CursorSound(sys'.rings[i], sys'.clients[d].last[i], sys'.clients[d].nextData, sys'.nextData)
    {
      MovedAt(sys.clients, c, high, d);
      var e := if d < c || high - 1 <= d then d else d + 1;
      assert sys'.clients[d] == sys.clients[e];
    }
  }

  lemma MovedOpen(entries: seq<Entry>, clients: seq<Client>, resclient: nat, c: nat, high: nat)
    requires |entries| == |clients| && AllOpen(entries, clients, resclient) && resclient <= c < high <= |entries|
    ensures AllOpen(Moved(entries, c, high), Moved(clients, c, high), resclient)
  {
    forall d | 0 <= d < |entries|
      ensures resclient <= d ==> Moved(entries, c, high)[d].timeout == 0
      ensures Moved(entries, c, high)[d].timeout == 0 ==> !Moved(clients, c, high)[d].blocking
    {
      MovedAt(entries, c, high, d);
      MovedAt(clients, c, high, d);
    }
  }

  lemma MovedFront<T>(s: seq<T>, c: nat, high: nat, resclient: nat)
    requires resclient <= c < high <= |s|
    ensures Moved(s, c, high)[..resclient] == s[..resclient]
  {
  }

  lemma SameMayBlock(st: State, st': State)
    requires st.resclient == st'.resclient <= |st.entries| && |st'.entries| == |st.entries|
    requires forall c | 0 <= c < st.resclient :: st'.entries[c].timeout == st.entries[c].timeout
    ensures MayBlock(st') == MayBlock(st)
  {
  }

  // ----- the invariant is kept

  lemma StillClosed(sys: Sys, ev: Event, d: nat)
    requires Sound(sys) && EventOk(ev, |sys.clients|) && d < |sys.clients| && !sys.clients[d].blocking && ev != Block(d)
    ensures !Step(sys, ev).clients[d].blocking
  {
  }

  lemma SysOk(st: State, ev: Event)
    requires Ok(st) && EventOk(ev, MAXCLIENTS) && (ev.Block? ==> ev.c in MayBlock(st))
    ensures Ok(st.(sys := Step(st.sys, ev)))
  {
    hide Sound, MasksOk;
    StepMasks(st.sys, ev, MayBlock(st));
    assert MayBlock(st.(sys := Step(st.sys, ev))) == MayBlock(st);
    forall d | 0 <= d < MAXCLIENTS && st.entries[d].timeout == 0
      ensures !Step(st.sys, ev).clients[d].blocking
    {
      StillClosed(st.sys, ev, d);
    }
  }

  lemma EntryOk(st: State, c: nat, e: Entry)
    requires Ok(st) && c < MAXCLIENTS && e.timeout == st.entries[c].timeout
    requires e.active && !st.entries[c].active ==> 0 < st.high
    ensures Ok(st.(entries := st.entries[c := e])) && MayBlock(st.(entries := st.entries[c := e])) == MayBlock(st)
  {
    hide Sound, MasksOk;
    SameMayBlock(st, st.(entries := st.entries[c := e]));
  }

  lemma ShrunkOk(st: State, c: nat)
    requires Ok(st) && st.resclient <= c < st.high && !st.entries[c].active
    ensures var st' := st.(entries := Moved(st.entries, c, st.high), high := st.high - 1,
                           sys := st.sys.(clients := Moved(st.sys.clients, c, st.high)));
      Ok(st') && MayBlock(st') == MayBlock(st)
  {
    var st' := st.(entries := Moved(st.entries, c, st.high), high := st.high - 1,
                   sys := st.sys.(clients := Moved(st.sys.clients, c, st.high)));
    MovedSound(st.sys, c, st.high);
    MovedOpen(st.entries, st.sys.clients, st.resclient, c, st.high);
    MovedFront(st.entries, c, st.high, st.resclient);
    forall k | 0 <= k < st.resclient
      ensures st'.entries[k] == st.entries[k]
    {
      assert st'.entries[..st.resclient][k] == st.entries[..st.resclient][k];
    }
    SameMayBlock(st, st');
    hide Sound;
  }

  lemma LeaveOk(st: State, c: nat, timedout: bool)
    requires Ok(st) && c < st.high
    ensures Ok(Leave(st, c, timedout)) && MayBlock(Leave(st, c, timedout)) == MayBlock(st)
    ensures Leave(st, c, timedout).resclient == st.resclient
  {
    hide Ok, MayBlock;
    OkParts(st);
    var st1 := if timedout then st.(sys := Step(st.sys, Unblock(c))) else st;
    assert Ok(st1) && MayBlock(st1) == MayBlock(st) by {
      if timedout {
        SysOk(st, Unblock(c));
        SameMayBlock(st, st1);
      }
    }
    OkParts(st1);
    var e := Gone(st.entries[c], timedout);
    if c < st.resclient {
      EntryOk(st1, c, e);
    } else {
      EntryOk(st1, c, e.(active := false));
      ShrunkOk(st1.(entries := st1.entries[c := e.(active := false)]), c);
    }
  }

  lemma OkParts(st: State)
    requires Ok(st)
    ensures Sound(st.sys) && Places(st)
  {
  }

  lemma AttachOk(st: State, name: string, pid: int, uid: int, wantsBlocking: bool)
    requires Ok(st)
    ensures var st' := Attach(st, name, pid, uid, wantsBlocking);
      Ok(st') && MayBlock(st') == MayBlock(st) && st'.resclient == st.resclient
  {
    var i := PlaceOf(st, name, pid);
    if i < MAXCLIENTS {
      var e := st.entries[i].(name := name, pid := pid, uid := uid, attached := true);
      EntryOk(st, i, e);
      var st1 := st.(entries := st.entries[i := e]);
      var st2 := st1.(high := if i == st.high then st.high + 1 else st.high);
      assert MayBlock(st2) == MayBlock(st1);
      assert Ok(st2);
      if Chooses(st, name, pid) {
        assert i in MayBlock(st);
        SysOk(st2, if wantsBlocking then Block(i) else NoBlock(i));
        SameMayBlock(st2, Attach(st, name, pid, uid, wantsBlocking));
      }
    }
  }

  lemma CheckOk(st: State, now: real, dead: bool, combusy: int)
    requires Ok(st)
    ensures var st' := Check(st, now, dead, combusy);
      Ok(st') && MayBlock(st') == MayBlock(st) && st'.resclient == st.resclient
  {
    var st1 := st.(poll := NextPoll(st));
    assert MayBlock(st1) == MayBlock(st);
    if LostNext(st, now, dead, combusy) {
      LeaveOk(st1, NextPoll(st), OutNext(st, now, dead, combusy));
    }
  }

  lemma TurnOk(st: State, ev: TableEvent)
    requires Ok(st) && TableEventOk(ev, st.high)
    ensures var st' := Turn(st, ev); Ok(st') && MayBlock(st') == MayBlock(st) && st'.resclient == st.resclient
  {
    hide MayBlock, Sound, MasksOk;
    match ev
    case Arrives(q, data) =>
      SysOk(st, Store(q, data));
      SameMayBlock(st, Turn(st, ev));
    case Asks(c, now, req) =>
      SysOk(st, Ask(c, req));
      var st1 := st.(sys := Step(st.sys, Ask(c, req)));
      SameMayBlock(st, st1);
      EntryOk(st1, c, st.entries[c].(active := true, lastService := now));
    case Unblocks(c) =>
      SysOk(st, Unblock(c));
      SameMayBlock(st, Turn(st, ev));
    case Attaches(name, pid, uid, wantsBlocking) =>
      AttachOk(st, name, pid, uid, wantsBlocking);
    case Checks(now, dead, combusy) =>
      CheckOk(st, now, dead, combusy);
  }

  ghost function TableStep(st: State, ev: TableEvent): (st': State)
    requires Ok(st) && TableEventOk(ev, st.high)
    ensures Ok(st') && st'.resclient == st.resclient && MayBlock(st') == MayBlock(st)
  {
    TurnOk(st, ev);
    Turn(st, ev)
  }

  // ----- the start

  /** The table as the configuration has it: the configured clients at the front in order, those
      with a timeout blocking, over a server that has stored nothing. */
  ghost predicate Configured(st: State, names: seq<string>, timeouts: seq<int>) {
    && |names| == |timeouts| == st.resclient == st.high <= MAXCLIENTS == |st.entries| == |st.sys.clients|
    && Fresh(st.sys) && st.sys.blockmask == Timed(timeouts)
    && forall c | 0 <= c < MAXCLIENTS :: InPlace(st.entries[c], st.sys.clients[c], c, names, timeouts)
  }

  function Timed(timeouts: seq<int>): set<nat> {
    set c: nat | 0 <= c < |timeouts| && timeouts[c] != 0
  }

  ghost predicate InPlace(e: Entry, cl: Client, c: nat, names: seq<string>, timeouts: seq<int>)
    requires |names| == |timeouts|
  {
    && e.active == cl.blocking == (e.timeout != 0)
    && if c < |names| then e.name == names[c] && e.timeout == timeouts[c] && e.pid == NOCLIENT else e.timeout == 0
  }

  lemma FreshUnmarked(sys: Sys, who: set<nat>)
    requires Fresh(sys)
    ensures forall q | 0 <= q < |sys.rings| :: BitsIn(sys.rings[q], who)
  {
    forall q | 0 <= q < NUMQ
      ensures BitsIn(sys.rings[q], who)
    {
      assert sys.rings[q].Valid(0) && |sys.rings[q].Live()| == 0;
    }
  }

  lemma ConfiguredOk(st: State, names: seq<string>, timeouts: seq<int>)
    requires Configured(st, names, timeouts)
    ensures Ok(st) && MayBlock(st) == Timed(timeouts)
  {
    forall c | 0 <= c < MAXCLIENTS
      ensures c < |names| ==> st.entries[c].timeout == timeouts[c]
      ensures |names| <= c ==> st.entries[c].timeout == 0
      ensures !st.entries[c].active ==> st.entries[c].timeout == 0
      ensures st.entries[c].timeout == 0 ==> !st.sys.clients[c].blocking && !st.entries[c].active
    {
      assert InPlace(st.entries[c], st.sys.clients[c], c, names, timeouts);
    }
    FreshUnmarked(st.sys, MayBlock(st));
  }

  // ----- what leaving, looking and attaching do

  /** Whoever leaves, the others keep their places in order, and nobody but a reserved client that
      timed out loses its bits. */
  lemma LeaveMeaning(st: State, c: nat, timedout: bool)
    requires Ok(st) && c < st.high
    ensures var st' := Leave(st, c, timedout);
      && (c < st.resclient ==>
            && st'.high == st.high
            && st'.entries == st.entries[c := Entry(st.entries[c].name, -1, -1, false, st.entries[c].timeout,
                 if timedout then false else st.entries[c].active, st.entries[c].lastService)]
            && st'.sys == if timedout then Step(st.sys, Unblock(c)) else st.sys)
      && (st.resclient <= c ==>
            && st'.high == st.high - 1 && st'.sys.rings == st.sys.rings && st'.sys.blockmask == st.sys.blockmask
            && st'.entries[..st'.high] == st.entries[..c] + st.entries[c + 1..st.high]
            && st'.sys.clients[..st'.high] == st.sys.clients[..c] + st.sys.clients[c + 1..st.high])
  {
    if st.resclient <= c {
      UnblockedNone(st.sys, MayBlock(st), c);
    }
  }

  /** Who is looked at next, and when that client is gone: it blocks and has asked for nothing for
      longer than its timeout, its process is dead, or it is another user's, has been silent for a
      minute and is not busy. */
  lemma LostExact(st: State, now: real, dead: bool, combusy: int)
    requires Ok(st)
    ensures var p := if st.poll + 1 < st.high then st.poll + 1 else 0;
      var e, blocking := st.entries[p], st.sys.clients[p].blocking;
      var silent, alive := now - e.lastService, e.attached && e.pid != -1;
      && NextPoll(st) == p
      && (OutNext(st, now, dead, combusy) <==> e.active && blocking && silent > e.timeout as real)
      && (LostNext(st, now, dead, combusy) <==>
            || (e.active && blocking && silent > e.timeout as real)
            || (e.active && alive && e.uid == st.serverUid && dead)
            || (e.active && alive && e.uid != st.serverUid && silent > 60.0 && combusy != p))
  {
  }

  /** The look at one client: only one that is gone leaves, and bits go only with a reserved client
      that timed out. */
  lemma CheckMeaning(st: State, now: real, dead: bool, combusy: int)
    requires Ok(st)
    ensures var st', p := Check(st, now, dead, combusy), NextPoll(st);
      && st'.poll == p < MAXCLIENTS
      && (!LostNext(st, now, dead, combusy) ==> st' == st.(poll := p))
      && st'.high == (if LostNext(st, now, dead, combusy) && st.resclient <= p then st.high - 1 else st.high)
      && (OutNext(st, now, dead, combusy) ==> p in MayBlock(st) && st'.sys == Step(st.sys, Unblock(p)))
      && (!OutNext(st, now, dead, combusy) ==> st'.sys.rings == st.sys.rings && st'.sys.blockmask == st.sys.blockmask)
      && (forall k | 0 <= k < st.resclient && k != p :: st'.entries[k] == st.entries[k])
      && (LostNext(st, now, dead, combusy) && p < st.resclient ==> !Alive(st'.entries[p]))
  {
  }

  /** A client that shows up is refused exactly when the table is full and no place matches; it gets
      the first place that does, or a new one; it may begin to block only if it is configured to,
      and no packet is touched unless it chooses not to. */
  lemma AttachMeaning(st: State, name: string, pid: int, uid: int, wantsBlocking: bool)
    requires Ok(st)
    ensures var st', i := Attach(st, name, pid, uid, wantsBlocking), PlaceOf(st, name, pid);
      && i <= st.high
      && (i < st.high ==> st.entries[i].name == name)
      && (st.resclient <= i < st.high ==> st.entries[i].pid == pid || st.entries[i].pid == NOCLIENT)
      && (forall k | 0 <= k < i && st.entries[k].name == name ::
            st.resclient <= k && st.entries[k].pid != pid && st.entries[k].pid != NOCLIENT)
      && (i == MAXCLIENTS ==> st.high == MAXCLIENTS)
      && (i < MAXCLIENTS ==> st'.entries[i] == Entry(name, pid, uid, true, st.entries[i].timeout, st.entries[i].active,
            st.entries[i].lastService))
      && (i == MAXCLIENTS ==> st' == st)
      && (i < MAXCLIENTS ==> st'.high == if i == st.high then st.high + 1 else st.high)
      && (forall k | 0 <= k < MAXCLIENTS && k != i :: st'.entries[k] == st.entries[k])
      && st'.sys.blockmask <= st.sys.blockmask + (MayBlock(st) * {i})
      && (st'.sys.rings != st.sys.rings ==> !wantsBlocking && i in MayBlock(st) && Off(st'.sys, i))
  {
    var i := PlaceOf(st, name, pid);
    if Chooses(st, name, pid) {
      assert i in MayBlock(st);
      UnblockOff(st.sys, i);
    }
  }
}
