/** The packet server as a state machine: six rings that share one packet counter, a mask of
    blocking clients, and the per-client request state.  A run is a sequence of events. */
module ServerModel {
  import opened Options
  import opened RingModel

  const NUMQ: nat := 6
  const INT32_MAX: int := 0x7fffffff

  datatype Order = NEXT | FIRST | LAST | TIME

  /** A CSCM_DATA_BLK request: sequence control, buffers wanted, queue mask, earliest time,
      and per queue the range of channel selectors to try. */
  datatype Req = Req(order: Order, count: int, mask: set<nat>, startTime: real,
                     sels: seq<(int, int)>, selectors: seq<ChannelId>) {
    ghost predicate WellFormed() {
      && |sels| == NUMQ
      && (forall q | 0 <= q < NUMQ :: 0 <= sels[q].0 && sels[q].1 < |selectors|)
      && (forall q | q in mask :: q < NUMQ)
    }
  }

  /** A selector matches a channel when each of its five characters is '?' or the same. */
  predicate Matches(selector: ChannelId, channel: ChannelId) {
    forall j | 0 <= j < 5 :: selector[j] == '?' || selector[j] == channel[j]
  }

  predicate Wanted(req: Req, p: Packet) {
    && p.q < |req.sels| && p.data.headerTime >= req.startTime
    && exists k | 0 <= k < |req.selectors| ::
         req.sels[p.q].0 <= k <= req.sels[p.q].1 && Matches(req.selectors[k], p.data.channel)
  }

  datatype Client = Client(blocking: bool, nextData: int, last: seq<Cursor>)

  datatype Sys = Sys(rings: seq<Ring>, nextData: int, blockmask: set<nat>, clients: seq<Client>)

  // ----- the six-way merge

  ghost function Total(rest: seq<seq<Packet>>): nat {
    if rest == [] then 0 else |rest[0]| + Total(rest[1..])
  }

  lemma {:induction false} TotalDrop(rest: seq<seq<Packet>>, b: nat)
    requires b < |rest| && rest[b] != []
    ensures Total(rest[b := rest[b][1..]]) == Total(rest) - 1
  {
    if b > 0 {
      TotalDrop(rest[1..], b - 1);
      assert rest[b := rest[b][1..]][1..] == rest[1..][b - 1 := rest[b][1..]];
    } else {
      assert rest[0 := rest[0][1..]][1..] == rest[1..];
    }
  }

  /** The selected queue among the first `n` whose next packet has the lowest number. */
  function Best(rest: seq<seq<Packet>>, mask: set<nat>, n: nat): (b: Option<nat>)
    requires n <= |rest|
    ensures b.Some? ==> b.value < n && b.value in mask && rest[b.value] != []
  {
    if n == 0 then None
    else
      var b := Best(rest, mask, n - 1);
      if n - 1 in mask && rest[n - 1] != [] && (b == None || rest[n - 1][0].num < rest[b.value][0].num)
      then Some(n - 1) else b
  }

  /** The lowest next number, or nothing when every selected queue is empty. */
  lemma {:induction false} BestIsLowest(rest: seq<seq<Packet>>, mask: set<nat>, n: nat)
    requires n <= |rest|
    ensures forall i | 0 <= i < n && i in mask && rest[i] != [] ::
      Best(rest, mask, n).Some? && rest[Best(rest, mask, n).value][0].num <= rest[i][0].num
  {
    if n > 0 {
      BestIsLowest(rest, mask, n - 1);
    }
  }

  function Pop(rest: seq<seq<Packet>>, b: nat): (rest': seq<seq<Packet>>)
    requires b < |rest| && rest[b] != []
    ensures |rest'| == |rest|
  {
    rest[b := rest[b][1..]]
  }

  /** All remaining packets of the selected queues, lowest number first. */
  ghost function Merge(rest: seq<seq<Packet>>, mask: set<nat>): seq<Packet>
    decreases Total(rest)
  {
    match Best(rest, mask, |rest|)
    case None => []
    case Some(b) => TotalDrop(rest, b); [rest[b][0]] + Merge(Pop(rest, b), mask)
  }

  ghost predicate Tagged(ps: seq<Packet>, q: nat) {
    forall k | 0 <= k < |ps| :: ps[k].q == q
  }

  ghost predicate QueueTags(rest: seq<seq<Packet>>) {
    |rest| == NUMQ && forall i | 0 <= i < |rest| :: Tagged(rest[i], i)
  }

  type Want = Packet -> bool

  function Cost(want: Want, p: Packet): int {
    if want(p) then 1 else 0
  }

  /** The packets one request considers: it goes on until `budget` wanted packets were found
      or nothing is left. */
  ghost function Taken(rest: seq<seq<Packet>>, mask: set<nat>, want: Want, budget: int): seq<Packet>
    decreases Total(rest)
  {
    match Best(rest, mask, |rest|)
    case None => []
    case Some(b) =>
      if budget <= 0 then [] else
      TotalDrop(rest, b);
      [rest[b][0]] + Taken(Pop(rest, b), mask, want, budget - Cost(want, rest[b][0]))
  }

  /** What is left in the queues after that request. */
  ghost function Left(rest: seq<seq<Packet>>, mask: set<nat>, want: Want, budget: int): (left: seq<seq<Packet>>)
    ensures |left| == |rest|
    decreases Total(rest)
  {
    match Best(rest, mask, |rest|)
    case None => rest
    case Some(b) =>
      if budget <= 0 then rest else
      TotalDrop(rest, b);
      Left(Pop(rest, b), mask, want, budget - Cost(want, rest[b][0]))
  }

  /** The packets handed to the client: the considered ones that are wanted. */
  ghost function Delivered(want: Want, taken: seq<Packet>): seq<UserData> {
    if taken == [] then []
    else (if want(taken[0]) then [taken[0].data] else []) + Delivered(want, taken[1..])
  }

  lemma {:induction false} DeliveredAppend(want: Want, taken: seq<Packet>, p: Packet)
    ensures Delivered(want, taken + [p]) == Delivered(want, taken) + (if want(p) then [p.data] else [])
  {
    if taken == [] {
      assert [] + [p] == [p];
    } else {
      DeliveredAppend(want, taken[1..], p);
      assert (taken + [p])[0] == taken[0];
      assert (taken + [p])[1..] == taken[1..] + [p];
    }
  }

  // ----- facts about the merge

  ghost predicate Rising(ps: seq<Packet>) {
    forall j, k | 0 <= j < k < |ps| :: ps[j].num < ps[k].num
  }

  ghost predicate Distinct(ps: seq<Packet>, qs: seq<Packet>) {
    forall k, l | 0 <= k < |ps| && 0 <= l < |qs| :: ps[k].num != qs[l].num
  }

  /** Each queue rises and no number occurs in two queues. */
  ghost predicate Mergeable(rest: seq<seq<Packet>>) {
    && (forall i | 0 <= i < |rest| :: Rising(rest[i]))
    && (forall i, j | 0 <= i < j < |rest| :: Distinct(rest[i], rest[j]))
  }

  ghost predicate AllFrom(ps: seq<Packet>, nd: int) {
    forall k | 0 <= k < |ps| :: nd <= ps[k].num
  }

  ghost predicate NotBelow(rest: seq<seq<Packet>>, mask: set<nat>, nd: int) {
    forall i | 0 <= i < |rest| && i in mask :: AllFrom(rest[i], nd)
  }

  lemma PopMergeable(rest: seq<seq<Packet>>, b: nat)
    requires Mergeable(rest) && b < |rest| && rest[b] != []
    ensures Mergeable(Pop(rest, b))
  {
    var rest': seq<seq<Packet>> := Pop(rest, b);
    forall i, j | 0 <= i < j < |rest'|
      ensures Distinct(rest'[i], rest'[j])
    {
      assert Distinct(rest[i], rest[j]);
    }
  }

  lemma PopTags(rest: seq<seq<Packet>>, b: nat)
    requires QueueTags(rest) && b < |rest| && rest[b] != []
    ensures QueueTags(Pop(rest, b)) && rest[b][0].q == b
  {
  }

  /** After the lowest packet is taken, everything selected that is left is above it. */
  lemma PopAbove(rest: seq<seq<Packet>>, mask: set<nat>, b: nat)
    requires Mergeable(rest) && Best(rest, mask, |rest|) == Some(b)
    ensures NotBelow(Pop(rest, b), mask, rest[b][0].num + 1)
  {
    var rest': seq<seq<Packet>> := Pop(rest, b);
    var p := rest[b][0];
    BestIsLowest(rest, mask, |rest|);
    forall i | 0 <= i < |rest'| && i in mask
      ensures AllFrom(rest'[i], p.num + 1)
    {
      RisingFromFirst(rest[i], p.num);
      if i != b && rest[i] != [] {
        assert p.num <= rest[i][0].num;
        if i < b {
          assert Distinct(rest[i], rest[b]);
        } else {
          assert Distinct(rest[b], rest[i]);
        }
        RisingFromFirst(rest[i], p.num + 1);
      }
    }
  }

  lemma RisingFromFirst(ps: seq<Packet>, nd: int)
    requires Rising(ps)
    ensures ps != [] && nd <= ps[0].num ==> AllFrom(ps, nd) && AllFrom(ps[1..], nd + 1)
  {
  }

  /** What a merge starts from: tagged, rising, disjoint queues with nothing selected below `nd`. */
  ghost predicate Ready(rest: seq<seq<Packet>>, mask: set<nat>, nd: int) {
    QueueTags(rest) && Mergeable(rest) && NotBelow(rest, mask, nd)
  }

  /** One turn of the merge loop. */
  lemma MergeTurn(rest: seq<seq<Packet>>, mask: set<nat>, nd: int) returns (b: nat, p: Packet)
    requires Ready(rest, mask, nd) && Best(rest, mask, NUMQ).Some?
    ensures b < NUMQ && Best(rest, mask, NUMQ) == Some(b) && rest[b] != [] && p == rest[b][0]
    ensures p.q == b && b in mask && nd <= p.num
    ensures Ready(Pop(rest, b), mask, p.num + 1)
    ensures Total(Pop(rest, b)) < Total(rest)
  {
    b := Best(rest, mask, NUMQ).value;
    p := rest[b][0];
    TotalDrop(rest, b);
    PopMergeable(rest, b);
    PopTags(rest, b);
    PopAbove(rest, mask, b);
    assert AllFrom(rest[b], nd);
  }

  /** A request splits what is owed: the considered packets, then the rest. */
  lemma {:induction false} TakenSplits(rest: seq<seq<Packet>>, mask: set<nat>, want: Want, budget: int)
    ensures Merge(rest, mask) == Taken(rest, mask, want, budget) + Merge(Left(rest, mask, want, budget), mask)
    decreases Total(rest)
  {
    match Best(rest, mask, |rest|)
    case None =>
    case Some(b) =>
      if budget > 0 {
        TotalDrop(rest, b);
        TakenTurn(rest, mask, want, budget, b);
        assert Merge(rest, mask) == [rest[b][0]] + Merge(Pop(rest, b), mask);
        hide Taken, Left, Merge, Best, Total;
        TakenSplits(Pop(rest, b), mask, want, budget - Cost(want, rest[b][0]));
      } else {
        assert Taken(rest, mask, want, budget) == [] && Left(rest, mask, want, budget) == rest;
      }
  }

  ghost function After(taken: seq<Packet>, nd: int): int {
    if taken == [] then nd else taken[|taken| - 1].num + 1
  }

  /** `qs` is `ps` without a prefix of packets below `nd`. */
  ghost predicate Cut(ps: seq<Packet>, qs: seq<Packet>, nd: int) {
    && |qs| <= |ps| && qs == ps[|ps| - |qs|..] && AllFrom(qs, nd)
    && forall k | 0 <= k < |ps| - |qs| :: ps[k].num < nd
  }

  /** Considered packets: rising, from selected queues, none below `nd`. */
  ghost predicate InOrder(taken: seq<Packet>, mask: set<nat>, nd: int) {
    && Rising(taken)
    && forall k | 0 <= k < |taken| :: nd <= taken[k].num && taken[k].q < NUMQ && taken[k].q in mask
  }

  lemma InOrderCons(p: Packet, taken: seq<Packet>, mask: set<nat>, nd: int)
    requires nd <= p.num && p.q < NUMQ && p.q in mask && InOrder(taken, mask, p.num + 1)
    ensures InOrder([p] + taken, mask, nd)
    ensures After([p] + taken, nd) == After(taken, p.num + 1) > p.num
  {
  }

  /** What a request leaves in each selected queue is what lies above the last packet it
      considered. */
  ghost predicate Leaves(rest: seq<seq<Packet>>, left: seq<seq<Packet>>, mask: set<nat>, nd: int) {
    |left| == |rest| && forall i | 0 <= i < |rest| && i in mask :: Cut(rest[i], left[i], nd)
  }

  lemma {:induction false} TakenInOrder(rest: seq<seq<Packet>>, mask: set<nat>, want: Want, budget: int, nd: int)
    requires Ready(rest, mask, nd)
    ensures InOrder(Taken(rest, mask, want, budget), mask, nd)
    decreases Total(rest)
  {
    if budget > 0 && Best(rest, mask, |rest|).Some? {
      hide InOrder, Mergeable, NotBelow;
      var b, p := MergeTurn(rest, mask, nd);
      TakenInOrder(Pop(rest, b), mask, want, budget - Cost(want, p), p.num + 1);
      InOrderCons(p, Taken(Pop(rest, b), mask, want, budget - Cost(want, p)), mask, nd);
    }
  }

  lemma AfterBounds(taken: seq<Packet>, mask: set<nat>, nd: int)
    requires InOrder(taken, mask, nd)
    ensures nd <= After(taken, nd)
    ensures forall k | 0 <= k < |taken| :: taken[k].num < After(taken, nd)
  {
  }

  lemma {:induction false} LeftAbove(rest: seq<seq<Packet>>, mask: set<nat>, want: Want, budget: int, nd: int)
    requires Ready(rest, mask, nd)
    ensures Leaves(rest, Left(rest, mask, want, budget), mask, After(Taken(rest, mask, want, budget), nd))
    decreases Total(rest)
  {
    hide Leaves, InOrder, Mergeable, NotBelow;
    if budget > 0 && Best(rest, mask, |rest|).Some? {
      var b, p := MergeTurn(rest, mask, nd);
      LeftAbove(Pop(rest, b), mask, want, budget - Cost(want, p), p.num + 1);
      TakenInOrder(Pop(rest, b), mask, want, budget - Cost(want, p), p.num + 1);
      LeavesTurn(rest, mask, want, budget, nd, b);
    } else {
      LeavesAll(rest, mask, nd);
      assert Taken(rest, mask, want, budget) == [] && Left(rest, mask, want, budget) == rest;
    }
  }

  lemma LeavesTurn(rest: seq<seq<Packet>>, mask: set<nat>, want: Want, budget: int, nd: int, b: nat)
    requires budget > 0 && Best(rest, mask, |rest|) == Some(b)
    ensures var p, left := rest[b][0], Pop(rest, b);
      var more := Taken(left, mask, want, budget - Cost(want, p));
      InOrder(more, mask, p.num + 1) ==>
      Leaves(left, Left(left, mask, want, budget - Cost(want, p)), mask, After(more, p.num + 1)) ==>
      Leaves(rest, Left(rest, mask, want, budget), mask, After(Taken(rest, mask, want, budget), nd))
  {
    TakenTurn(rest, mask, want, budget, b);
    hide Taken, Left, Best, Total, Leaves, InOrder;
    var p, left := rest[b][0], Pop(rest, b);
    var more := Taken(left, mask, want, budget - Cost(want, p));
    AfterCons(p, more, nd);
    if InOrder(more, mask, p.num + 1) {
      AfterBounds(more, mask, p.num + 1);
      if Leaves(left, Left(left, mask, want, budget - Cost(want, p)), mask, After(more, p.num + 1)) {
        LeavesPop(rest, Left(left, mask, want, budget - Cost(want, p)), mask, b, After(more, p.num + 1));
      }
    }
  }

  lemma TakenTurn(rest: seq<seq<Packet>>, mask: set<nat>, want: Want, budget: int, b: nat)
    requires budget > 0 && Best(rest, mask, |rest|) == Some(b)
    ensures Taken(rest, mask, want, budget)
      == [rest[b][0]] + Taken(Pop(rest, b), mask, want, budget - Cost(want, rest[b][0]))
    ensures Left(rest, mask, want, budget) == Left(Pop(rest, b), mask, want, budget - Cost(want, rest[b][0]))
  {
  }

  lemma LeavesPop(rest: seq<seq<Packet>>, left: seq<seq<Packet>>, mask: set<nat>, b: nat, nd: int)
    requires b < |rest| && rest[b] != [] && rest[b][0].num < nd && Leaves(Pop(rest, b), left, mask, nd)
    ensures Leaves(rest, left, mask, nd)
  {
  }

  lemma LeavesAll(rest: seq<seq<Packet>>, mask: set<nat>, nd: int)
    requires NotBelow(rest, mask, nd)
    ensures Leaves(rest, rest, mask, nd)
  {
    forall i | 0 <= i < |rest| && i in mask
      ensures Cut(rest[i], rest[i], nd)
    {
      assert AllFrom(rest[i], nd);
    }
  }

  lemma AfterCons(p: Packet, taken: seq<Packet>, nd: int)
    ensures After([p] + taken, nd) == After(taken, p.num + 1)
  {
  }

  lemma {:induction false} MergeSelected(rest: seq<seq<Packet>>, rest': seq<seq<Packet>>, mask: set<nat>)
    requires |rest| == |rest'| && forall i | 0 <= i < |rest| && i in mask :: rest[i] == rest'[i]
    ensures Merge(rest, mask) == Merge(rest', mask)
    decreases Total(rest)
  {
    BestSelected(rest, rest', mask, |rest|);
    match Best(rest, mask, |rest|)
    case None =>
    case Some(b) =>
      TotalDrop(rest, b);
      MergeSelected(Pop(rest, b), Pop(rest', b), mask);
  }

  lemma {:induction false} BestSelected(rest: seq<seq<Packet>>, rest': seq<seq<Packet>>, mask: set<nat>, n: nat)
    requires n <= |rest| == |rest'| && forall i | 0 <= i < |rest| && i in mask :: rest[i] == rest'[i]
    ensures Best(rest, mask, n) == Best(rest', mask, n)
  {
    if n > 0 {
      BestSelected(rest, rest', mask, n - 1);
    }
  }

  /** A packet newer than everything owed comes last in the merge. */
  lemma {:induction false} MergeAppend(rest: seq<seq<Packet>>, mask: set<nat>, q: nat, p: Packet)
    requires q < |rest| && q in mask
    requires forall i, k | 0 <= i < |rest| && 0 <= k < |rest[i]| :: rest[i][k].num < p.num
    ensures Merge(rest[q := rest[q] + [p]], mask) == Merge(rest, mask) + [p]
    decreases Total(rest)
  {
    var more := rest[q := rest[q] + [p]];
    BestAppend(rest, mask, q, p, |rest|);
    match Best(rest, mask, |rest|)
    case None =>
      BestIsLowest(rest, mask, |rest|);
      assert rest[q] == [];
      assert Best(more, mask, |more|) == Some(q);
      assert Pop(more, q)[q] == [];
      assert Pop(more, q) == rest;
    case Some(b) =>
      TotalDrop(rest, b);
      MergeAppend(Pop(rest, b), mask, q, p);
      if b == q {
        assert more[q][0] == rest[q][0] && more[q][1..] == rest[q][1..] + [p];
      }
      assert Pop(more, b) == Pop(rest, b)[q := Pop(rest, b)[q] + [p]];
      assert more[b][0] == rest[b][0];
  }

  lemma {:induction false} BestAppend(rest: seq<seq<Packet>>, mask: set<nat>, q: nat, p: Packet, n: nat)
    requires q < |rest| && q in mask && n <= |rest|
    requires forall i, k | 0 <= i < |rest| && 0 <= k < |rest[i]| :: rest[i][k].num < p.num
    ensures var more := rest[q := rest[q] + [p]];
      Best(more, mask, n) == if Best(rest, mask, n) == None && q < n then Some(q) else Best(rest, mask, n)
  {
    if n > 0 {
      BestIsLowest(rest, mask, n - 1);
      BestAppend(rest, mask, q, p, n - 1);
    }
  }
}
