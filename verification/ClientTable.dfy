/** The server with its table of clients, updated in place. */
module ClientTable {
  import opened Options
  import opened RingModel
  import opened ServerModel
  import opened Delivery
  import opened ExactDelivery
  import opened ClientModel
  import opened PacketRings

  class Table {
    const clients: array<Entry>
    const server: Server
    const resclient: nat
    const serverUid: int
    var highclient: nat
    var clientpoll: nat

    ghost function Repr(): set<object>
      reads server
    {
      {server, clients} + server.Repr()
    }

    /** The table and the server's rings share nothing. */
    ghost predicate Shape()
      reads this, Repr()
    {
      && server.Valid() && clients.Length == MAXCLIENTS
      && this !in server.Repr() && server !in server.Repr() && clients !in server.Repr()
    }

    ghost function Abs(): State
      reads this, Repr()
      requires Shape()
    {
      State(clients[..], resclient, highclient, clientpoll, serverUid, server.Abs())
    }

    ghost predicate Valid()
      reads this, Repr()
    {
      Shape() && Ok(Abs())
    }

    /** The table as the configuration has it: a reserved client with a timeout blocks. */
    constructor (names: seq<string>, timeouts: seq<int>, now: real, uid: int, counts: seq<nat>)
      requires |names| == |timeouts| <= MAXCLIENTS
      requires |counts| == NUMQ && forall i | 0 <= i < NUMQ :: 2 <= counts[i]
      ensures Valid() && Configured(Abs(), names, timeouts) && serverUid == uid && fresh(Repr())
    {
      var flags: seq<bool> := seq(MAXCLIENTS, c requires 0 <= c => c < |names| && timeouts[c] != 0);
      var rings := new Server(counts, flags);
      clients := new Entry[MAXCLIENTS](c requires 0 <= c =>
        if c < |names| then Entry(names[c], NOCLIENT, NOCLIENT, false, timeouts[c], timeouts[c] != 0, now)
        else Entry("", NOCLIENT, NOCLIENT, false, 0, false, 0.0));
      resclient, highclient, clientpoll, serverUid, server := |names|, |names|, 0, uid, rings;
      new;
      forall c | 0 <= c < MAXCLIENTS
        ensures InPlace(clients[c], server.clients[c], c, names, timeouts)
      {
      }
      assert server.blockmask == Timed(timeouts);
      ConfiguredOk(Abs(), names, timeouts);
    }

    /** A packet arrives. */
    method Store(q: nat, data: UserData) returns (ok: bool)
      requires Valid() && q < NUMQ && server.nextData < INT32_MAX
      modifies server, server.Repr()
      ensures Valid() && ok == old(Abs()).sys.rings[q].Avail()
      ensures Abs() == TableStep(old(Abs()), Arrives(q, data))
    {
      hide Sound, Places, MasksOk, Step;
      ghost var st := Abs();
      StepStore(st.sys, q, data);
      ok := server.Store(q, data);
      TurnOk(st, Arrives(q, data));
    }

    /** A client asks for data. */
    method Serve(c: nat, now: real, req: Req) returns (delivered: seq<UserData>)
      requires Valid() && c < highclient && req.WellFormed() && server.nextData <= INT32_MAX
      modifies clients, server, server.Repr()
      ensures Valid() && Abs() == TableStep(old(Abs()), Asks(c, now, req))
      ensures delivered == Delivered(p => Wanted(req, p), Request(old(Abs()).sys, c, req).taken)
    {
      hide Sound, MasksOk, Step, Request;
      ghost var st := Abs();
      StepRequest(st.sys, c, req);
      clients[c] := clients[c].(active := true, lastService := now);
      ghost var taken, kept;
      delivered, taken, kept := server.DataBlk(c, req);
      assert clients[..] == st.entries[c := st.entries[c].(active := true, lastService := now)];
      TurnOk(st, Asks(c, now, req));
    }

    /** The packets of a client are unblocked, as a command of some client or because it timed out. */
    method Unblock(c: nat)
      requires Shape()
      modifies server, server.Repr()
      ensures Shape() && Abs() == old(Abs()).(sys := Step(old(Abs()).sys, ExactDelivery.Unblock(c)))
    {
      hide Sound, Step;
      ghost var sys := server.Abs();
      StepUnblock(sys, c);
      server.UnblockAll(c);
      server.blockmask := server.blockmask - {c};
      assert server.Abs().rings == UnblockClient(sys, c).rings;
      assert server.Abs() == Step(sys, ExactDelivery.Unblock(c));
    }

    /** Moves the clients behind one up by a place, with their flags, numbers and cursors. */
    method Contract(c: nat)
      requires Shape() && c < highclient <= MAXCLIENTS == |server.clients|
      modifies this`highclient, clients, server`clients
      ensures Shape() && Abs() == old(Abs()).(entries := Moved(old(Abs()).entries, c, old(highclient)),
        high := old(highclient) - 1,
        sys := old(Abs()).sys.(clients := Moved(old(Abs()).sys.clients, c, old(highclient))))
    {
      hide Sound, Moved, Shifted;
      ghost var before, sys := clients[..], server.Abs();
      ShiftedNone(before, c);
      ShiftedNone(sys.clients, c);
      var i := c;
      while i < highclient - 1
        invariant c <= i <= highclient - 1 && |server.clients| == MAXCLIENTS
        invariant Shifted(before, clients[..], c, i) && Shifted(sys.clients, server.clients, c, i)
        modifies clients, server`clients
      {
        ghost var entries, others := clients[..], server.clients;
        clients[i] := clients[i + 1];
        server.clients := server.clients[i := server.clients[i + 1]];
        assert clients[..] == entries[i := entries[i + 1]];
        ShiftedOne(before, entries, c, i);
        ShiftedOne(sys.clients, others, c, i);
        i := i + 1;
      }
      ShiftedAll(before, clients[..], c, highclient);
      ShiftedAll(sys.clients, server.clients, c, highclient);
      highclient := highclient - 1;
      MovedSound(sys, c, highclient + 1);
      assert server.Abs().rings == sys.rings;
      assert server.Abs() == sys.(clients := server.clients);
    }

    /** A client has gone. */
    method DetachClient(c: nat, timedout: bool)
      requires Valid() && c < highclient
      modifies this`highclient, clients, server, server.Repr()
      ensures Valid() && Abs() == Leave(old(Abs()), c, timedout)
    {
      hide Sound, MasksOk, Step, Moved;
      ghost var st := Abs();
      LeaveOk(st, c, timedout);
      clients[c] := clients[c].(pid := NOCLIENT, uid := NOCLIENT, attached := false);
      if timedout {
        clients[c] := clients[c].(active := false);
        Unblock(c);
      }
      assert clients[..] == st.entries[c := Gone(st.entries[c], timedout)];
      if c >= resclient {
        clients[c] := clients[c].(active := false);
        assert clients[..] == st.entries[c := Gone(st.entries[c], timedout).(active := false)];
        Contract(c);
      }
    }

    /** Looks at one client, the next in turn, and detaches it when it is gone. */
    method CheckClients(now: real, dead: bool, combusy: int) returns (lost: bool)
      requires Valid()
      modifies this`clientpoll, this`highclient, clients, server, server.Repr()
      ensures Valid() && lost == LostNext(old(Abs()), now, dead, combusy)
      ensures Abs() == TableStep(old(Abs()), Checks(now, dead, combusy))
    {
      hide Sound, MasksOk, Leave;
      ghost var st := Abs();
      TurnOk(st, Checks(now, dead, combusy));
      clientpoll := clientpoll + 1;
      if clientpoll >= highclient {
        clientpoll := 0;
      }
      var pt, blocking := clients[clientpoll], server.clients[clientpoll].blocking;
      if !pt.active {
        return false;
      }
      var timedout, alive := blocking && now - pt.lastService > pt.timeout as real, pt.attached && pt.pid != NOCLIENT;
      var sameuid := alive && pt.uid == serverUid;
      var died := alive && sameuid && dead;
      var foreignTo := alive && !sameuid && now - pt.lastService > NON_PRIVILEGED_TO && combusy != clientpoll;
      lost := died || timedout || foreignTo;
      if lost {
        DetachClient(clientpoll, timedout);
      }
    }

    /** The first entry that matches a segment's name and process, or a reserved one with its
        name alone. */
    method FindClient(name: string, pid: int) returns (i: nat)
      requires Valid()
      ensures i <= highclient && i == PlaceOf(Abs(), name, pid)
    {
      i := 0;
      while i < highclient && !MatchesEntry(clients[i], i, resclient, name, pid)
        invariant i <= highclient
        invariant PlaceOf(Abs(), name, pid) == Find(clients[..], highclient, resclient, name, pid, i)
      {
        i := i + 1;
      }
    }

    /** A client shows up with a new segment. */
    method AttachClient(name: string, pid: int, uid: int, wantsBlocking: bool) returns (place: Option<nat>)
      requires Valid()
      modifies this`highclient, clients, server, server.Repr()
      ensures Valid() && Abs() == TableStep(old(Abs()), Attaches(name, pid, uid, wantsBlocking))
      ensures place.None? <==> PlaceOf(old(Abs()), name, pid) == MAXCLIENTS
      ensures place.Some? ==> place.value == PlaceOf(old(Abs()), name, pid) < MAXCLIENTS
      // an old place has the same name, and behind the reserved ones the same process or none
      ensures place.Some? && place.value < old(highclient) ==> old(clients[..])[place.value].name == name
      ensures place.Some? && resclient <= place.value < old(highclient) ==>
        old(clients[..])[place.value].pid == pid || old(clients[..])[place.value].pid == NOCLIENT
      // a reserved place is always found by its name
      ensures forall k | 0 <= k < resclient && old(clients[..])[k].name == name ::
        place.Some? && place.value <= k
    {
      hide Sound, MasksOk, Step, Find;
      ghost var st := Abs();
      TurnOk(st, Attaches(name, pid, uid, wantsBlocking));
      AttachMeaning(st, name, pid, uid, wantsBlocking);
      var i := FindClient(name, pid);
      if i == highclient {
        if highclient >= MAXCLIENTS {
          return None;
        }
        highclient := highclient + 1;
        clients[i] := clients[i].(name := name, pid := pid, uid := uid, attached := true);
      } else {
        clients[i] := clients[i].(name := name, pid := pid, uid := uid, attached := true);
        if clients[i].timeout != 0 {
          server.Attach(i, wantsBlocking);
        }
      }
      assert clients[..] == st.entries[i := st.entries[i].(name := name, pid := pid, uid := uid, attached := true)];
      place := Some(i);
    }
  }

  /** The first places from `c` on hold what was behind them. */
  ghost predicate Shifted<T>(s: seq<T>, t: seq<T>, c: nat, i: nat) {
    c <= i < |s| == |t| && forall k | 0 <= k < |s| :: t[k] == s[if c <= k < i then k + 1 else k]
  }

  lemma ShiftedNone<T>(s: seq<T>, c: nat)
    requires c < |s|
    ensures Shifted(s, s, c, c)
  {
  }

  lemma ShiftedOne<T>(s: seq<T>, t: seq<T>, c: nat, i: nat)
    requires Shifted(s, t, c, i) && i + 1 < |s|
    ensures Shifted(s, t[i := t[i + 1]], c, i + 1)
  {
  }

  lemma ShiftedAll<T>(s: seq<T>, t: seq<T>, c: nat, high: nat)
    requires c < high <= |s| && Shifted(s, t, c, high - 1)
    ensures t == Moved(s, c, high)
  {
  }

  lemma StepStore(sys: Sys, q: nat, data: UserData)
    requires Sound(sys) && q < NUMQ
    ensures Step(sys, ExactDelivery.Store(q, data)) == StorePacket(sys, q, data)
  {
  }

  lemma StepRequest(sys: Sys, c: nat, req: Req)
    requires Sound(sys) && c < |sys.clients| && req.WellFormed()
    ensures Step(sys, Ask(c, req)) == Request(sys, c, req).sys
  {
  }

  lemma StepUnblock(sys: Sys, c: nat)
    requires Sound(sys)
    ensures var sys' := UnblockClient(sys, c);
      Sound(sys') && Sound(sys'.(blockmask := sys.blockmask - {c}))
      && Step(sys, ExactDelivery.Unblock(c)) == sys'.(blockmask := sys.blockmask - {c})
  {
    assert Sound(Step(sys, ExactDelivery.Unblock(c)));
  }
}
