/** The cache of records that lets a channel go on after a restart: a list of those of the last
    save and a list of buffers to use again. */
module Continuity {
  import opened Lists

  const NO_FIT: int := 99999999

  /** A buffer: the next one in its list, the size of what is in it and what fits into it. */
  datatype Cache = Cache(next: int, size: int, allocsize: int, payload: seq<int>)

  type Heap = map<int, Cache>

  function Last(list: seq<int>): int {
    if list == [] then NIL else list[|list| - 1]
  }

  ghost predicate At(heap: Heap, list: seq<int>, i: nat)
    requires i < |list|
  {
    list[i] != NIL && list[i] in heap && heap[list[i]].next == NextOf(list, i)
  }

  ghost predicate Chained(heap: Heap, list: seq<int>) {
    Distinct(list) && forall i | 0 <= i < |list| :: At(heap, list, i)
  }

  ghost predicate Apart(a: seq<int>, b: seq<int>) {
    forall x | x in a :: x !in b
  }

  ghost predicate Fits(heap: Heap, list: seq<int>) {
    forall x | x in list && x in heap :: |heap[x].payload| == heap[x].size <= heap[x].allocsize
  }

  function WithNext(heap: Heap, a: int, b: int): Heap {
    if a in heap then heap[a := heap[a].(next := b)] else heap
  }

  /** What the buffers of a list have room for. */
  function Rooms(heap: Heap, list: seq<int>): (rooms: seq<int>)
    ensures |rooms| == |list|
  {
    seq(|list|, i requires 0 <= i < |list| => if list[i] in heap then heap[list[i]].allocsize else 0)
  }

  function Payloads(heap: Heap, list: seq<int>): (ps: seq<seq<int>>)
    ensures |ps| == |list|
  {
    seq(|list|, i requires 0 <= i < |list| => if list[i] in heap then heap[list[i]].payload else [])
  }

  lemma InList(heap: Heap, list: seq<int>, x: int)
    requires Chained(heap, list) && x in list
    ensures x in heap && x != NIL
  {
    var k :| 0 <= k < |list| && list[k] == x;
    assert At(heap, list, k);
  }

  /** Headers that are the same for a list link the same list. */
  lemma SameNexts(heap: Heap, heap': Heap, list: seq<int>)
    requires Chained(heap, list) && forall x | x in list :: x in heap && x in heap' && heap'[x].next == heap[x].next
    ensures Chained(heap', list)
  {
    forall i | 0 <= i < |list|
      ensures At(heap', list, i)
    {
      assert At(heap, list, i) && list[i] in list;
    }
  }

  lemma ChainWithout(heap: Heap, list: seq<int>, i: nat)
    requires Chained(heap, list) && i < |list|
    ensures Chained(if i == 0 then heap else WithNext(heap, list[i - 1], NextOf(list, i)), Without(list, i))
    ensures First(Without(list, i)) == if i == 0 then NextOf(list, i) else First(list)
  {
    var heap', list' := if i == 0 then heap else WithNext(heap, list[i - 1], NextOf(list, i)), Without(list, i);
    forall k | 0 <= k < |list'|
      ensures At(heap', list', k)
    {
      assert At(heap, list, if k < i then k else k + 1);
    }
  }

  lemma Appended(heap: Heap, list: seq<int>, x: int, c: Cache)
    requires Chained(heap, list) && x != NIL && x !in list && c.next == NIL
    ensures Chained(WithNext(heap[x := c], Last(list), x)[x := c], list + [x])
  {
    var heap', list' := WithNext(heap[x := c], Last(list), x)[x := c], list + [x];
    forall k | 0 <= k < |list'|
      ensures At(heap', list', k)
    {
      if k < |list| {
        assert At(heap, list, k);
        if k < |list| - 1 {
          assert list[k] != list[|list| - 1];
        }
      }
    }
  }

  lemma Joined(heap: Heap, a: seq<int>, b: seq<int>)
    requires Chained(heap, a) && Chained(heap, b) && Apart(a, b) && a != []
    ensures Chained(WithNext(heap, Last(a), First(b)), a + b)
  {
    var heap' := WithNext(heap, Last(a), First(b));
    assert forall x | x in a :: x !in b;
    forall i, j | 0 <= i < j < |a + b|
      ensures (a + b)[i] != (a + b)[j]
    {
      if i < |a| <= j {
        assert a[i] in a && b[j - |a|] in b;
      }
    }
    forall k | 0 <= k < |a + b|
      ensures At(heap', a + b, k)
    {
      if k < |a| {
        assert At(heap, a, k);
      } else {
        assert At(heap, b, k - |a|) && b[k - |a|] in b && Last(a) in a;
      }
    }
  }

  /** No buffer has room, or only those with too much of it. */
  ghost predicate NoFit(rooms: seq<int>, size: int) {
    forall j | 0 <= j < |rooms| :: rooms[j] < size || rooms[j] - size >= NO_FIT
  }

  /** The first of the buffers with the least room that is enough. */
  ghost predicate BestFit(rooms: seq<int>, size: int, k: int) {
    && 0 <= k < |rooms|
    && size <= rooms[k] < size + NO_FIT
    && (forall j | 0 <= j < |rooms| :: size <= rooms[j] ==> rooms[k] <= rooms[j])
    && (forall j | 0 <= j < k :: size <= rooms[j] ==> rooms[k] < rooms[j])
  }

  function Sizes(records: seq<seq<int>>): (sizes: seq<int>)
    ensures |sizes| == |records|
  {
    seq(|records|, i requires 0 <= i < |records| => |records[i]|)
  }

  lemma WithoutCounts(list: seq<int>, k: int)
    ensures 0 <= k < |list| ==> multiset(Without(list, k)) == multiset(list) - multiset{list[k]}
  {
    if 0 <= k < |list| {
      assert list == list[..k] + ([list[k]] + list[k + 1..]);
    }
  }

  /** A size that a buffer of the list was made for is met by such a buffer, and what is left is
      made for what is left. */
  lemma ExactFit(rooms: seq<int>, sizes: seq<int>, k: int)
    requires sizes != [] && multiset(rooms) == multiset(sizes)
    requires NoFit(rooms, sizes[0]) || BestFit(rooms, sizes[0], k)
    ensures BestFit(rooms, sizes[0], k) && rooms[k] == sizes[0]
    ensures multiset(Without(rooms, k)) == multiset(sizes[1..])
  {
    WithoutCounts(rooms, k);
    WithoutCounts(sizes, 0);
    assert sizes[0] in multiset(sizes);
    var j :| 0 <= j < |rooms| && rooms[j] == sizes[0];
    assert rooms[k] == rooms[j];
    assert Without(sizes, 0) == sizes[1..];
  }

  /** Every buffer is in one of the two lists, and has room for what is in it. */
  ghost predicate Shape(heap: Heap, active: seq<int>, idle: seq<int>) {
    && Chained(heap, active) && Chained(heap, idle)
    && Apart(active, idle)
    && (forall x | x in heap :: x in active || x in idle)
    && Fits(heap, active) && Fits(heap, idle)
  }

  lemma NilIsNone(heap: Heap, active: seq<int>, idle: seq<int>)
    requires Shape(heap, active, idle)
    ensures NIL !in heap && NIL !in active && NIL !in idle
  {
    if NIL in active { InList(heap, active, NIL); }
    if NIL in idle { InList(heap, idle, NIL); }
  }

  /** What is left of the buffers when a free one is taken out of its list. */
  function Unlinked(heap: Heap, idle: seq<int>, k: nat): Heap
    requires k < |idle|
  {
    if k == 0 then heap else WithNext(heap, idle[k - 1], NextOf(idle, k))
  }

  /** The buffers when one that is in neither list gets a record and goes to the end of the active list. */
  function Extended(heap: Heap, last: int, x: int, room: int, buf: seq<int>): Heap {
    var c := Cache(NIL, |buf|, room, buf);
    WithNext(heap[x := c], last, x)[x := c]
  }

  /** A buffer that is in neither list can be put at the end of the active one. */
  lemma PutLast(heap: Heap, active: seq<int>, rest: seq<int>, x: int, room: int, buf: seq<int>)
    requires Chained(heap, active) && Chained(heap, rest) && Apart(active, rest) && Fits(heap, active)
    requires Fits(heap, rest)
    requires x != NIL && x !in active && x !in rest && |buf| <= room
    ensures var heap' := Extended(heap, Last(active), x, room, buf);
      && Chained(heap', active + [x]) && Chained(heap', rest) && Apart(active + [x], rest)
      && Fits(heap', active + [x]) && Fits(heap', rest)
      && Payloads(heap', active + [x]) == Payloads(heap, active) + [buf]
      && Rooms(heap', rest) == Rooms(heap, rest)
      && heap'.Keys == heap.Keys + {x}
  {
    var c := Cache(NIL, |buf|, room, buf);
    var heap' := Extended(heap, Last(active), x, room, buf);
    Appended(heap, active, x, c);
    forall y | y in active || y in rest
      ensures y in heap && y in heap' && heap'[y] == heap[y].(next := heap'[y].next)
      ensures y in rest ==> heap'[y] == heap[y]
    {
      if y in active { InList(heap, active, y); } else { InList(heap, rest, y); }
      assert active != [] ==> Last(active) in active;
    }
    SameNexts(heap, heap', rest);
    assert forall i | 0 <= i < |active| :: active[i] in active;
    assert forall i | 0 <= i < |rest| :: rest[i] in rest;
    assert heap'[x] == c;
  }

  /** Taking one out of the free list leaves the two lists as they should be. */
  lemma TakenOut(heap: Heap, active: seq<int>, idle: seq<int>, k: nat)
    requires Shape(heap, active, idle) && k < |idle|
    ensures var heap' := Unlinked(heap, idle, k); var rest := Without(idle, k);
      && heap'.Keys == heap.Keys
      && idle[k] !in rest && idle[k] !in active && idle[k] in heap && idle[k] != NIL
      && Chained(heap', active) && Chained(heap', rest) && Apart(active, rest) && Fits(heap', active)
      && Fits(heap', rest)
      && Payloads(heap', active) == Payloads(heap, active)
      && Rooms(heap', rest) == Without(Rooms(heap, idle), k)
      && (forall x | x in heap :: x in active || x in rest || x == idle[k])
  {
    var heap', rest := Unlinked(heap, idle, k), Without(idle, k);
    ChainWithout(heap, idle, k);
    InList(heap, idle, idle[k]);
    forall y | y in active
      ensures y in heap && y in heap' && heap'[y] == heap[y]
    {
      InList(heap, active, y);
      assert k > 0 ==> idle[k - 1] in idle;
    }
    SameNexts(heap, heap', active);
    assert forall i | 0 <= i < |active| :: active[i] in active;
    forall y | y in idle
      ensures y == idle[k] || y in rest
    {
      var j :| 0 <= j < |idle| && idle[j] == y;
      assert j < k ==> rest[j] == y;
      assert j > k ==> rest[j - 1] == y;
    }
  }

  /** Recycling keeps the shape. */
  lemma Recycled(heap: Heap, active: seq<int>, idle: seq<int>, k: nat, buf: seq<int>)
    requires Shape(heap, active, idle) && k < |idle| && idle[k] in heap && |buf| <= heap[idle[k]].allocsize
    ensures var x := idle[k]; var heap' := Extended(Unlinked(heap, idle, k), Last(active), x, heap[x].allocsize, buf);
      && heap'.Keys == heap.Keys
      && Shape(heap', active + [x], Without(idle, k))
      && Payloads(heap', active + [x]) == Payloads(heap, active) + [buf]
      && Rooms(heap', Without(idle, k)) == Without(Rooms(heap, idle), k)
  {
    TakenOut(heap, active, idle, k);
    PutLast(Unlinked(heap, idle, k), active, Without(idle, k), idle[k], heap[idle[k]].allocsize, buf);
  }

  lemma AddedTwice(heap: Heap, last: int, x: int, buf: seq<int>)
    ensures Extended(heap[x := Cache(NIL, |buf|, |buf|, [])], last, x, |buf|, buf)
      == Extended(heap, last, x, |buf|, buf)
  {
    assert heap[x := Cache(NIL, |buf|, |buf|, [])][x := Cache(NIL, |buf|, |buf|, buf)]
      == heap[x := Cache(NIL, |buf|, |buf|, buf)];
  }

  /** So does a buffer from outside. */
  lemma Added(heap: Heap, active: seq<int>, idle: seq<int>, x: int, buf: seq<int>)
    requires Shape(heap, active, idle) && x !in heap && x != NIL
    ensures var heap' := Extended(heap, Last(active), x, |buf|, buf);
      && heap'.Keys == heap.Keys + {x}
      && Shape(heap', active + [x], idle)
      && Payloads(heap', active + [x]) == Payloads(heap, active) + [buf]
      && Rooms(heap', idle) == Rooms(heap, idle)
  {
    forall y | y in active || y in idle
      ensures y in heap
    {
      if y in active { InList(heap, active, y); } else { InList(heap, idle, y); }
    }
    PutLast(heap, active, idle, x, |buf|, buf);
  }

  /** Joining the lists for a new save keeps the shape, with nothing active. */
  lemma Spliced(heap: Heap, active: seq<int>, idle: seq<int>)
    requires Shape(heap, active, idle)
    ensures var heap' := if idle == [] then heap else WithNext(heap, Last(idle), First(active));
      && heap'.Keys == heap.Keys
      && Shape(heap', [], idle + active)
      && Rooms(heap', idle + active) == Rooms(heap, idle) + Rooms(heap, active)
  {
    assert forall i | 0 <= i < |active| :: active[i] in active;
    assert forall i | 0 <= i < |idle| :: idle[i] in idle;
    if idle == [] {
      assert idle + active == active;
    } else {
      Joined(heap, idle, active);
    }
  }

  class Store {
    var heap: Heap
    var conthead: int
    var contlast: int
    var contfree: int
    ghost var active: seq<int>
    ghost var idle: seq<int>

    /** What the file that is read at the start leaves behind: the last record is not remembered. */
    ghost predicate Loaded()
      reads this
    {
      Shape(heap, active, idle) && conthead == First(active) && contfree == First(idle)
    }

    ghost predicate Valid()
      reads this
    {
      Loaded() && contlast == Last(active)
    }

    /** The free buffer for a record, and the one before it. */
    method FindFit(size: nat) returns (pcc: int, last: int, ghost k: int)
      requires Valid()
      ensures pcc == NIL ==> NoFit(Rooms(heap, idle), size)
      ensures pcc != NIL ==>
        BestFit(Rooms(heap, idle), size, k) && pcc == idle[k] && last == if k == 0 then NIL else idle[k - 1]
    {
      hide Apart, Fits, Distinct;
      ghost var rooms := Rooms(heap, idle);
      assert idle != [] ==> At(heap, idle, 0);
      var best, bestlast, bestdiff := NIL, NIL, NO_FIT;
      ghost var i, b: nat := 0, 0;
      pcc, last := contfree, NIL;
      while pcc != NIL
        invariant i <= |idle| && pcc == (if i < |idle| then idle[i] else NIL)
        invariant last == if i == 0 then NIL else idle[i - 1]
        invariant if best == NIL then NoFit(rooms[..i], size) && bestdiff == NO_FIT else BestFit(rooms[..i], size, b)
        invariant (best != NIL
                   ==> b < i && best == idle[b] && bestdiff == rooms[b] - size
                       && bestlast == if b == 0 then NIL else idle[b - 1])
        invariant forall j | 0 <= j < i :: rooms[j] != size
        invariant i < |idle| ==> At(heap, idle, i)
        decreases |idle| - i
      {
        assert At(heap, idle, i);
        var diff := heap[pcc].allocsize - size;
        assert rooms[i] - size == diff;
        if diff == 0 {
          k := i;
          return;
        } else if diff > 0 && diff < bestdiff {
          best, bestlast, bestdiff := pcc, last, diff;
          b := i;
        }
        assert rooms[..i + 1] == rooms[..i] + [rooms[i]];
        assert i + 1 < |idle| ==> At(heap, idle, i + 1);
        last, pcc := pcc, heap[pcc].next;
        i := i + 1;
      }
      assert rooms[..i] == rooms;
      if best != NIL {
        pcc, last := best, bestlast;
      }
      k := b;
    }

    /** Put a buffer with a record in it at the end of the active list. */
    method Append(pcc: int, buf: seq<int>)
      requires pcc in heap && NIL !in heap && contlast != pcc
      modifies `heap, `conthead, `contlast
      ensures heap == Extended(old(heap), old(contlast), pcc, old(heap)[pcc].allocsize, buf)
      ensures conthead == (if old(contlast) == NIL then pcc else old(conthead)) && contlast == pcc
    {
      heap := heap[pcc := heap[pcc].(next := NIL)];
      if contlast != NIL {
        heap := WithNext(heap, contlast, pcc);
      } else {
        conthead := pcc;
      }
      contlast := pcc;
      heap := heap[pcc := heap[pcc].(size := |buf|, payload := buf)];
    }

    /** Put a record at the end of the active list: in the free buffer with the least room that is
        enough, and in new memory only if there is none. */
    method Write(buf: seq<int>, spare: int) returns (ghost k: int)
      requires Valid() && spare != NIL && spare !in heap
      modifies this
      ensures Valid()
      ensures Payloads(heap, active) == old(Payloads(heap, active)) + [buf]
      ensures NoFit(old(Rooms(heap, idle)), |buf|) || BestFit(old(Rooms(heap, idle)), |buf|, k)
      ensures (NoFit(old(Rooms(heap, idle)), |buf|)
               ==> heap.Keys == old(heap.Keys) + {spare} && idle == old(idle) && active == old(active) + [spare]
                   && Rooms(heap, idle) == old(Rooms(heap, idle)))
      ensures BestFit(old(Rooms(heap, idle)), |buf|, k) ==>
        && heap.Keys == old(heap.Keys) && idle == Without(old(idle), k) && active == old(active) + [old(idle)[k]]
        && Rooms(heap, idle) == Without(old(Rooms(heap, idle)), k)
    {
      hide Fits, Distinct, Payloads;
      NilIsNone(heap, active, idle);
      var pcc, last;
      pcc, last, k := FindFit(|buf|);
      if pcc != NIL {
        assert At(heap, idle, k);
        TakenOut(heap, active, idle, k);
        Recycled(heap, active, idle, k, buf);
        ChainWithout(heap, idle, k);
        ghost var after := Unlinked(heap, idle, k);
        if last != NIL {
          heap := WithNext(heap, last, heap[pcc].next);
        } else {
          contfree := heap[pcc].next;
        }
        assert heap == after && heap[pcc].allocsize == old(heap)[pcc].allocsize;
        idle := Without(idle, k);
      } else {
        Added(heap, active, idle, spare, buf);
        pcc := spare;
        heap := heap[pcc := Cache(NIL, |buf|, |buf|, [])];
        AddedTwice(old(heap), Last(active), pcc, buf);
      }
      assert active != [] ==> Last(active) in active && Last(active) in old(heap) && pcc !in active by {
        if active != [] { InList(old(heap), active, Last(active)); }
        if pcc in active { InList(old(heap), active, pcc); }
      }
      Append(pcc, buf);
      active := active + [pcc];
    }

    /** Begin a save: what was active becomes free. */
    method Begin()
      requires Loaded()
      modifies this
      ensures Valid() && active == [] && idle == old(idle) + old(active)
      ensures heap.Keys == old(heap.Keys)
      ensures Rooms(heap, idle) == old(Rooms(heap, idle) + Rooms(heap, active))
    {
      Spliced(heap, active, idle);
      assert idle != [] ==> At(heap, idle, 0);
      var freec := contfree;
      if freec != NIL {
        ghost var i: nat := 0;
        assert At(heap, idle, 0);
        while heap[freec].next != NIL
          invariant i < |idle| && freec == idle[i] && At(heap, idle, i)
          decreases |idle| - i
        {
          i := i + 1;
          assert i < |idle| ==> At(heap, idle, i);
          freec := heap[freec].next;
        }
        assert i + 1 < |idle| ==> At(heap, idle, i + 1);
        heap := WithNext(heap, freec, conthead);
      } else {
        contfree := conthead;
      }
      conthead, contlast := NIL, NIL;
      idle := idle + active;
      active := [];
    }

    /** A whole save: the records are active in their order, and if their sizes are those that the
        buffers were made for, in any order, none is allocated and none is left over. */
    method Save(records: seq<seq<int>>, spares: seq<int>)
      requires Loaded() && |spares| == |records| && Distinct(spares)
      requires forall i | 0 <= i < |spares| :: spares[i] != NIL && spares[i] !in heap
      modifies this
      ensures Valid() && Payloads(heap, active) == records
      ensures old(heap.Keys) <= heap.Keys
      ensures (multiset(Sizes(records)) == multiset(old(Rooms(heap, idle) + Rooms(heap, active)))
               ==> heap.Keys == old(heap.Keys) && idle == [])
    {
      hide Loaded, Valid, Rooms, Payloads, NoFit, BestFit, Without;
      Begin();
      assert |Payloads(heap, active)| == 0;
      ghost var exact := multiset(Sizes(records)) == multiset(Rooms(heap, idle));
      var n := 0;
      assert Sizes(records)[0..] == Sizes(records);
      while n < |records|
        invariant Valid() && 0 <= n <= |records| && Payloads(heap, active) == records[..n]
        invariant old(heap.Keys) <= heap.Keys
        invariant forall i | n <= i < |spares| :: spares[i] !in heap
        invariant exact ==> heap.Keys == old(heap.Keys) && multiset(Sizes(records)[n..]) == multiset(Rooms(heap, idle))
      {
        ghost var rooms, sizes := Rooms(heap, idle), Sizes(records)[n..];
        ghost var k := Write(records[n], spares[n]);
        assert records[..n + 1] == records[..n] + [records[n]];
        if exact {
          ExactFit(rooms, sizes, k);
          assert sizes[1..] == Sizes(records)[n + 1..];
        }
        n := n + 1;
      }
      assert records[..n] == records;
      if exact {
        assert Sizes(records)[n..] == [];
        assert |multiset(Rooms(heap, idle))| == 0;
      }
    }
  }
}
