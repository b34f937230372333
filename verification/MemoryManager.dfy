/** The memory of the data server: a list of free segments, searched for the best fit, cut and
    joined in place, within a limit on what is taken from the system. */
module MemoryManager {
  import opened Lists
  import opened MemoryModel

  function Elements(list: seq<int>): set<int> {
    set a | a in list
  }

  /** Free segment `a` ends where the segment of `n` bytes at `pt` begins, or the other way round. */
  predicate Touches(node: Headers, a: int, pt: int, n: int) {
    a == pt + n || (a in node && a + node[a].size == pt)
  }

  ghost predicate NoneTouches(node: Headers, list: seq<int>, upto: nat, pt: int, n: int) {
    forall j | 0 <= j < upto && j < |list| :: !Touches(node, list[j], pt, n)
  }

  /** The segment was joined to the first free one it touches, number `k` of the list. */
  ghost predicate Merged(node0: Headers, list0: seq<int>, pt: int, n: int, k: int, node: Headers, list: seq<int>) {
    && 0 <= k < |list0| && list0[k] in node0 && Touches(node0, list0[k], pt, n) && NoneTouches(node0, list0, k, pt, n)
    && (if list0[k] == pt + n then list == list0[k := pt] && pt in node && node[pt].size == n + node0[list0[k]].size
        else list == list0 && list0[k] in node && node[list0[k]].size == node0[list0[k]].size + n)
  }

  /** The segment, which touches no free one, was put into the list behind the last one below it. */
  ghost predicate PutBehind(node0: Headers, list0: seq<int>, pt: int, n: int, k: int, node: Headers, list: seq<int>) {
    && NoneTouches(node0, list0, |list0|, pt, n) && -1 <= k < |list0| && (k >= 0 ==> list0[k] < pt)
    && (forall j | k < j < |list0| :: list0[j] >= pt)
    && list == list0[..k + 1] + [pt] + list0[k + 1..] && pt in node && node[pt].size == n
  }

  /** The segment, which touches no free one, was put in front of the list. */
  ghost predicate PutFront(node0: Headers, list0: seq<int>, pt: int, n: int, node: Headers, list: seq<int>) {
    NoneTouches(node0, list0, |list0|, pt, n) && list == [pt] + list0 && pt in node && node[pt].size == n
  }

  /** Place `i` has the first of the smallest segments of at least `sz` bytes. */
  ghost predicate IsBest(node: Headers, list: seq<int>, sz: int, i: nat) {
    && i < |list| && list[i] in node && node[list[i]].size >= sz
    && forall k | 0 <= k < |list| && list[k] in node && node[list[k]].size >= sz ::
         node[list[i]].size <= node[list[k]].size && (k < i ==> node[list[i]].size < node[list[k]].size)
  }

  class Dss {
    const memAllowed: int
    var node: Headers
    var free: int
    var total: int
    // the free segments in list order, the segments handed out, and which segment each byte
    // obtained from the system belongs to
    ghost var list: seq<int>
    ghost var used: set<int>
    ghost var owner: map<int, int>

    ghost predicate Valid()
      reads this
    {
      && Linked(node, list) && free == First(list) && used !! Elements(list)
      && Divides(node, Elements(list) + used, owner) && 0 <= total <= memAllowed
    }

    constructor (limit: nat)
      ensures Valid() && used == {} && owner == map[] && total == 0 && memAllowed == limit
    {
      memAllowed, node, free, total := limit, map[], NIL, 0;
      list, used, owner := [], {}, map[];
    }

    /** A free segment with this address is at this place of the list. */
    lemma Listed(i: nat)
      requires Valid() && i < |list|
      ensures list[i] in node && list[i] > NIL && node[list[i]].size >= HEADER && list[i] !in used
      ensures node[list[i]].next == NextOf(list, i) && node[list[i]].prev == PrevOf(list, i)
    {
      assert LinkedAt(node, list, i);
      assert list[i] in Elements(list);
    }

    ghost predicate BestFit(sz: int, i: nat)
      reads this
    {
      IsBest(node, list, sz, i)
    }

    ghost predicate NoFit(sz: int)
      reads this
    {
      forall k | 0 <= k < |list| && list[k] in node :: node[list[k]].size < sz
    }

    lemma FitListed(at: nat, sz: int)
      requires Valid() && BestFit(sz, at)
      ensures !NoFit(sz) && list[at] in node && list[at] in list
      ensures Least(node, list, sz, node[list[at]].size)
    {
      forall a | a in list && a in node && node[a].size >= sz
        ensures node[list[at]].size <= node[a].size
      {
        var k :| 0 <= k < |list| && list[k] == a;
      }
    }

    lemma FitsListed(sz: int)
      ensures NoFit(sz) <==> forall a | a in list && a in node :: node[a].size < sz
    {
      if NoFit(sz) {
        forall a | a in list && a in node
          ensures node[a].size < sz
        {
          var k :| 0 <= k < |list| && list[k] == a;
        }
      } else {
        var k :| 0 <= k < |list| && list[k] in node && node[list[k]].size >= sz;
        var a := list[k];
        assert a in list && a in node && node[a].size >= sz;
      }
    }

    method Scan(sz: int) returns (smaller: int, smallest: int, ghost at: nat)
      requires Valid() && sz > 0
      ensures smaller == NIL ==> NoFit(sz)
      ensures smaller != NIL ==> BestFit(sz, at) && smaller == list[at] && smallest == node[smaller].size
    {
      smallest, smaller, at := 0, NIL, 0;
      var mscan := free;
      ghost var i := 0;
      if list != [] {
        Listed(0);
      }
      while mscan != NIL
        invariant i <= |list| && mscan == (if i < |list| then list[i] else NIL) && (mscan == NIL ==> i == |list|)
        invariant smaller == NIL ==> forall k | 0 <= k < i && list[k] in node :: node[list[k]].size < sz
        invariant smaller != NIL ==>
          at < i && smaller == list[at] && smaller in node && smallest == node[smaller].size >= sz
        invariant smaller != NIL ==> forall k | 0 <= k < i && list[k] in node && node[list[k]].size >= sz ::
          smallest <= node[list[k]].size && (k < at ==> smallest < node[list[k]].size)
        decreases |list| - i
      {
        Listed(i);
        if node[mscan].size >= sz && (smaller == NIL || node[mscan].size < smallest) {
          smallest, smaller, at := node[mscan].size, mscan, i;
        }
        mscan := node[mscan].next;
        i := i + 1;
        if i < |list| {
          Listed(i);
        }
      }
    }

    /** All is well but for one segment of `n` bytes at `pt`, which is in no list. */
    ghost predicate Loose(pt: int, n: int)
      reads this
    {
      && Linked(node, list) && free == First(list) && used !! Elements(list)
      && NIL < pt && pt !in used && pt !in list && HEADER <= n && 0 <= total <= memAllowed
      && Divides(node[pt := Node(NIL, NIL, n)], Elements(list) + used + {pt}, owner)
    }

    lemma LooseListed(pt: int, n: int, i: nat)
      requires Loose(pt, n) && i < |list|
      ensures list[i] in node && list[i] > NIL && node[list[i]].size >= HEADER && list[i] !in used && list[i] != pt
      ensures node[list[i]].next == NextOf(list, i) && node[list[i]].prev == PrevOf(list, i)
    {
      assert LinkedAt(node, list, i);
      assert list[i] in Elements(list) && list[i] in list;
    }

    /** Joins the segment to the end of the free segment `mscan`. */
    method JoinBehind(mscan: int, pt: int, n: int, ghost i: nat)
      requires Loose(pt, n) && i < |list| && mscan == list[i] && mscan in node && mscan + node[mscan].size == pt
      modifies this`node, this`owner
      ensures Valid() && owner.Keys == old(owner).Keys
      ensures node == SetSize(old(node), mscan, old(node)[mscan].size + n)
    {
      hide Linked, Divides, Elements, Given;
      LooseListed(pt, n, i);
      JoinedBehind(node, list, used, owner, pt, n, mscan);
      node := SetSize(node, mscan, node[mscan].size + n);
      owner := Given(owner, pt, pt + n, mscan);
      GivenKeys(old(owner), pt, pt + n, mscan);
    }

    /** Joins the segment to the front of the free segment `mscan`, whose place in the list it
        takes; the head of the list follows only if it is told to. */
    method JoinBefore(mscan: int, pt: int, n: int, moveHead: bool, ghost i: nat)
      requires Loose(pt, n) && i < |list| && mscan == list[i] == pt + n && (i == 0 ==> moveHead)
      modifies this`node, this`owner, this`list, this`free
      ensures Valid() && owner.Keys == old(owner).Keys && list == old(list)[i := pt]
      ensures mscan in old(node) && pt in node && node[pt].size == n + old(node)[mscan].size
      ensures forall a | a in used :: a in node && a in old(node) && node[a] == old(node)[a]
    {
      hide Linked, Divides, Elements, Given, Joined;
      LooseListed(pt, n, i);
      PlacedBefore(node, list, used, owner, pt, n, i);
      var m := node[mscan];
      node := node[pt := Node(m.next, m.prev, n + m.size)];
      node := SetNext(node, m.prev, pt);
      if m.prev == NIL && moveHead {
        free := pt;
      }
      node := SetPrev(node, m.next, pt);
      assert node == Joined(old(node)[pt := Node(m.next, m.prev, n + m.size)], list, i, pt, pt) by {
        JoinedIs(old(node)[pt := Node(m.next, m.prev, n + m.size)], list, i, pt);
      }
      HeadAfter(old(node), list, i, pt);
      list := list[i := pt];
      owner := Given(owner, mscan, mscan + m.size, pt);
      GivenKeys(old(owner), mscan, mscan + m.size, pt);
    }

    /** Makes the segment the first of the list. */
    method PushFront(pt: int, n: int)
      requires Loose(pt, n)
      modifies this`node, this`list, this`free
      ensures Valid() && list == [pt] + old(list) && pt in node && node[pt].size == n
      ensures forall a | a in used :: a in node && a in old(node) && node[a] == old(node)[a]
    {
      hide Linked, Divides, Elements;
      PutFirst(node, list, used, owner, pt, n);
      HeadIsNil(node, list);
      if free == NIL {
        node := node[pt := Node(NIL, NIL, n)];
      } else {
        node := node[pt := Node(free, NIL, n)];
        node := SetPrev(node, free, pt);
      }
      free := pt;
      list := [pt] + list;
    }

    /** Puts the segment into the list behind the free segment `previous`. */
    method InsertAfter(previous: int, pt: int, n: int, ghost i: nat)
      requires Loose(pt, n) && i < |list| && previous == list[i]
      modifies this`node, this`list
      ensures Valid() && list == old(list)[..i + 1] + [pt] + old(list)[i + 1..] && pt in node && node[pt].size == n
      ensures forall a | a in used :: a in node && a in old(node) && node[a] == old(node)[a]
    {
      hide Linked, Divides, Elements;
      LooseListed(pt, n, i);
      PutAfter(node, list, used, owner, pt, n, i);
      var next := node[previous].next;
      node := node[pt := Node(next, previous, n)];
      node := SetPrev(node, next, pt);
      node := SetNext(node, previous, pt);
      list := list[..i + 1] + [pt] + list[i + 1..];
    }

    /** Puts memory from the system into the list: behind a free segment, before one that is
        not the first, or in front of all. */
    method AddChunk(mpt: int, msize: int) returns (ghost k: int)
      requires Valid() && NIL < mpt && LEAST_CHUNK <= msize <= memAllowed - total && Unowned(owner, mpt, mpt + msize)
      requires free == NIL || mpt + msize != free
      modifies this
      ensures Valid() && used == old(used) && total == old(total) + msize
      ensures owner.Keys == (old(owner) + Chunk(mpt, mpt + msize)).Keys
      ensures Kept(old(node), node, used)
      // joined to the first free segment it touches, or in front of all
      ensures Merged(old(node), old(list), mpt, msize, k, node, list)
        || PutFront(old(node), old(list), mpt, msize, node, list)
    {
      hide Linked, Divides, Elements, Unowned, Chunk, NoneTouches, Merged;
      GrowLoose(node, list, used, owner, mpt, msize);
      HeadIsNil(node, list);
      NoneYet(node, list, mpt, msize);
      k := -1;
      total := total + msize;
      owner := owner + Chunk(mpt, mpt + msize);
      var mscan := free;
      ghost var i := 0;
      while mscan != NIL
        invariant Loose(mpt, msize) && i <= |list| && mscan == (if i < |list| then list[i] else NIL)
        invariant (mscan == NIL ==> i == |list|) && NoneTouches(node, list, i, mpt, msize)
        invariant node == old(node) && list == old(list) && used == old(used) && free == old(free)
        invariant total == old(total) + msize && owner == old(owner) + Chunk(mpt, mpt + msize)
        decreases |list| - i
      {
        LooseListed(mpt, msize, i);
        UsedIn(node, list, used, owner, mpt, msize);
        NotTouching(node, list, i, i + 1, mpt, msize);
        var m := node[mscan];
        if mscan + m.size == mpt {
          AddedBehind(node, list, used, owner, mpt, msize, i);
          JoinBehind(mscan, mpt, msize, i);
          MergedBehind(old(node), list, mpt, msize, i, node);
          return i;
        } else if mpt + msize == mscan {
          JoinBefore(mscan, mpt, msize, false, i);
          MergedBefore(old(node), old(list), mpt, msize, i, node, list);
          return i;
        }
        mscan := m.next;
        i := i + 1;
        if i < |list| {
          LooseListed(mpt, msize, i);
        }
      }
      PushFront(mpt, msize);
    }

    /** Takes free segment `i` out of the list whole. */
    method TakeWhole(ret: int, ghost i: nat)
      requires Valid() && i < |list| && ret == list[i] && ret in node
      modifies this`node, this`free, this`list, this`used
      ensures Valid() && used == old(used) + {ret} && ret in node && node[ret] == Node(NIL, NIL, old(node)[ret].size)
      ensures list == Without(old(list), i)
      ensures Kept(old(node), node, old(used))
    {
      hide Linked, Divides, Elements;
      Listed(i);
      TakenWhole(node, list, used, owner, i);
      HeadWithout(node, list, i);
      var m := node[ret];
      node := node[ret := Node(NIL, NIL, m.size)];
      node := SetNext(node, m.prev, m.next);
      if m.prev == NIL {
        free := m.next;
      }
      node := SetPrev(node, m.next, m.prev);
      list := Without(list, i);
      used := used + {ret};
    }

    /** Cuts `sz` bytes off the front of free segment `i`; the rest takes its place. */
    method TakePart(ret: int, sz: int, ghost i: nat)
      requires Valid() && i < |list| && ret == list[i] && ret in node && HEADER <= sz <= node[ret].size - MIN_FRAG
      modifies this`node, this`free, this`list, this`used, this`owner
      ensures Valid() && used == old(used) + {ret} && ret in node && node[ret] == Node(NIL, NIL, sz)
      ensures list == old(list)[i := ret + sz] && ret + sz in node && node[ret + sz].size == old(node)[ret].size - sz
      ensures Kept(old(node), node, old(used)) && owner.Keys == old(owner).Keys
    {
      hide Linked, Divides, Elements, Given;
      Listed(i);
      TakenPart(node, list, used, owner, i, sz);
      HeadAfter(node, list, i, ret + sz);
      var m, smallpt := node[ret], ret + sz;
      node := node[ret := Node(NIL, NIL, sz)];
      node := node[smallpt := Node(m.next, m.prev, m.size - sz)];
      node := SetNext(node, m.prev, smallpt);
      if m.prev == NIL {
        free := smallpt;
      }
      node := SetPrev(node, m.next, smallpt);
      list := list[i := smallpt];
      used := used + {ret};
      owner := Given(owner, smallpt, ret + m.size, smallpt);
      GivenKeys(old(owner), smallpt, ret + m.size, smallpt);
    }

    /** The memory the system will be asked for when nothing free is large enough. */
    function ChunkSize(): int
      reads this
    {
      if DEF_CHUNKSIZE > memAllowed - total then memAllowed - total else DEF_CHUNKSIZE
    }

    /** A segment of at least `size` bytes, from the best fit in the list or, when there is
        none, from memory at `mpt` that the system gives.  What is needed is the next multiple
        of four. */
    method MemReq(size: int, mpt: int) returns (ret: int, ghost need: int)
      requires Valid() && HEADER <= size && NIL < mpt
      requires Unowned(owner, mpt, mpt + ChunkSize()) && (free == NIL || mpt + ChunkSize() != free)
      modifies this
      ensures Valid() && total <= memAllowed && size <= need < size + 4 && need % 4 == 0
      // nothing is handed out only if no free segment has as many bytes, nor had
      ensures ret == NIL ==> used == old(used)
      ensures ret == NIL ==> forall a | a in list && a in node :: node[a].size < need
      ensures ret == NIL ==> old(forall a | a in list && a in node :: node[a].size < need)
      ensures ret != NIL ==> ret !in old(used) && used == old(used) + {ret} && ret in node
      ensures ret != NIL ==> need <= node[ret].size < need + MIN_FRAG && node[ret].next == node[ret].prev == NIL
      ensures Kept(old(node), node, old(used))
      // a fit that is there is used, the smallest one, and the system is left alone
      ensures old(exists a :: a in list && a in node && node[a].size >= need) ==>
        && ret in old(list) && ret in old(node) && total == old(total) && owner.Keys == old(owner).Keys
        && old(node)[ret].size >= need
        && forall a | a in old(list) && a in old(node) && old(node)[a].size >= need ::
             old(node)[ret].size <= old(node)[a].size
      // otherwise what the system gives is counted
      ensures old(forall a | a in list && a in node :: node[a].size < need) && old(ChunkSize()) < LEAST_CHUNK ==>
        ret == NIL && total == old(total)
      ensures old(forall a | a in list && a in node :: node[a].size < need) && old(ChunkSize()) >= LEAST_CHUNK ==>
        total == old(total) + old(ChunkSize()) && owner.Keys == (old(owner) + Chunk(mpt, mpt + old(ChunkSize()))).Keys
    {
      hide Linked, Divides, Elements, Unowned, Chunk;
      AllKept(node, list, used, owner);
      var sz := Rounded(size);
      need := sz;
      FitsListed(sz);
      ghost var at;
      var smallpt, smallest;
      smallpt, smallest, at := Scan(sz);
      if smallpt != NIL {
        FitListed(at, sz);
      }
      if smallpt == NIL {
        var msize := DEF_CHUNKSIZE;
        if msize > memAllowed - total {
          msize := memAllowed - total;
        }
        if msize < LEAST_CHUNK {
          return NIL, sz;
        }
        ghost var k := AddChunk(mpt, msize);
        smallpt, smallest, at := Scan(sz);
      }
      FitsListed(sz);
      if smallpt == NIL {
        return NIL, sz;
      }
      ret := smallpt;
      Listed(at);
      if smallest - sz >= MIN_FRAG {
        TakePart(ret, sz, at);
      } else {
        TakeWhole(ret, at);
      }
    }

    /** Joins the segment to the first free one found that it touches, or else puts it behind the
        last one in the list that lies below it. */
    method Rejoin(pt: int, n: int) returns (ghost k: int)
      requires Loose(pt, n)
      modifies this`node, this`list, this`free, this`owner
      ensures Valid() && owner.Keys == old(owner).Keys && SameSizes(old(node), node, used)
      ensures Merged(old(node), old(list), pt, n, k, node, list)
        || PutBehind(old(node), old(list), pt, n, k, node, list)
    {
      hide Linked, Divides, Elements, NoneTouches, Merged, Touches;
      ghost var node0 := node;
      HeadIsNil(node, list);
      NoneYet(node, list, pt, n);
      UsedSizes(node, list, used, owner, pt, n);
      var mend := pt + n;
      var mscan, previous := free, NIL;
      ghost var i, at := 0, 0;
      while mscan != NIL
        invariant Loose(pt, n) && i <= |list| && mscan == (if i < |list| then list[i] else NIL)
        invariant mscan == NIL ==> i == |list|
        invariant node == node0 && list == old(list) && free == old(free) && owner == old(owner)
        invariant previous != NIL ==> at < i && previous == list[at] && previous < pt
        invariant forall j | (if previous == NIL then -1 else at) < j < i :: list[j] >= pt
        invariant NoneTouches(node, list, i, pt, n)
        decreases |list| - i
      {
        LooseListed(pt, n, i);
        UsedIn(node, list, used, owner, pt, n);
        NotTouching(node, list, i, i + 1, pt, n);
        var m := node[mscan];
        if mscan == mend {
          JoinBefore(mscan, pt, n, true, i);
          MergedBefore(node0, old(list), pt, n, i, node, list);
          return i;
        } else if mscan + m.size == pt {
          JoinBehind(mscan, pt, n, i);
          MergedBehind(node0, list, pt, n, i, node);
          return i;
        } else if mscan < pt {
          previous := mscan;
          at := i;
        }
        mscan := m.next;
        i := i + 1;
        if i < |list| {
          LooseListed(pt, n, i);
        }
      }
      if previous != NIL {
        InsertAfter(previous, pt, n, at);
        k := at;
      } else {
        PushFront(pt, n);
        k := -1;
        assert list == old(list)[..0] + [pt] + old(list)[0..];
      }
    }

    /** Gives a segment back: it leaves the list its user kept it in and joins the free ones. */
    method MemFree(pt: int) returns (ghost k: int)
      requires Valid() && pt in used
      requires pt in node && (node[pt].prev == NIL || node[pt].prev in used)
      requires node[pt].next == NIL || node[pt].next in used
      modifies this
      ensures Valid() && used == old(used) - {pt} && total == old(total) && owner.Keys == old(owner).Keys
      ensures SameSizes(old(node), node, used)
      // what touches is joined; otherwise the list grows by the segment, behind the last one below it
      ensures var n := old(node)[pt].size;
        Merged(old(node), old(list), pt, n, k, node, list) || PutBehind(old(node), old(list), pt, n, k, node, list)
    {
      hide Linked, Divides, Elements, Merged, PutBehind, SameIn;
      Unlinked(node, list, used, owner, pt);
      var p := node[pt];
      node := SetNext(node, p.prev, p.next);
      node := SetPrev(node, p.next, p.prev);
      ghost var node1 := node;
      used := used - {pt};
      k := Rejoin(pt, p.size);
      SameBefore(old(node), node1, old(list), pt, p.size, k, node, list);
    }
  }

  /** No free segment of at least `sz` bytes has fewer than `n`. */
  ghost predicate Least(node: Headers, list: seq<int>, sz: int, n: int) {
    forall a | a in list && a in node && node[a].size >= sz :: n <= node[a].size
  }

  ghost predicate SameIn(node: Headers, node': Headers, list: seq<int>) {
    forall a | a in list :: a in node && a in node' && node'[a] == node[a]
  }

  /** A free segment does not lie behind new memory that lies behind it. */
  lemma AddedBehind(node: Headers, list: seq<int>, used: set<int>, owner: map<int, int>, pt: int, n: int, i: nat)
    requires LooseIn(node, list, used, owner, pt, n) && i < |list| && list[i] in node
    requires list[i] + node[list[i]].size == pt
    ensures list[i] != pt + n
  {
    assert list[i] in Elements(list);
  }

  lemma NoneYet(node: Headers, list: seq<int>, pt: int, n: int)
    ensures NoneTouches(node, list, 0, pt, n)
  {
  }

  /** One more free segment that does not touch the loose one. */
  lemma NotTouching(node: Headers, list: seq<int>, i: nat, j: nat, pt: int, n: int)
    requires i < |list| && list[i] in node && j == i + 1 && NoneTouches(node, list, i, pt, n)
    ensures list[i] != pt + n && list[i] + node[list[i]].size != pt ==> NoneTouches(node, list, j, pt, n)
  {
  }

  lemma MergedBefore(node0: Headers, list: seq<int>, pt: int, n: int, k: nat, node: Headers, list': seq<int>)
    requires k < |list| && NoneTouches(node0, list, k, pt, n) && list[k] == pt + n
    requires list' == list[k := pt] && list[k] in node0 && pt in node && node[pt].size == n + node0[list[k]].size
    ensures Merged(node0, list, pt, n, k, node, list')
  {
  }

  lemma MergedBehind(node0: Headers, list: seq<int>, pt: int, n: int, k: nat, node: Headers)
    requires k < |list| && NoneTouches(node0, list, k, pt, n) && list[k] != pt + n
    requires list[k] in node0 && list[k] + node0[list[k]].size == pt
    requires node == SetSize(node0, list[k], node0[list[k]].size + n)
    ensures Merged(node0, list, pt, n, k, node, list)
  {
  }

  /** Which free segments are touched does not depend on the segments in use. */
  lemma SameBefore(node0: Headers, node1: Headers, list: seq<int>, pt: int, n: int, k: int, node: Headers,
        list': seq<int>)
    requires SameIn(node0, node1, list)
    ensures Merged(node1, list, pt, n, k, node, list') ==> Merged(node0, list, pt, n, k, node, list')
    ensures PutBehind(node1, list, pt, n, k, node, list') ==> PutBehind(node0, list, pt, n, k, node, list')
  {
    forall j | 0 <= j < |list|
      ensures list[j] in node0 && list[j] in node1 && node0[list[j]] == node1[list[j]]
    {
      SameOf(node0, node1, list, list[j]);
    }
  }

  lemma SameOf(node: Headers, node': Headers, list: seq<int>, a: int)
    requires SameIn(node, node', list) && a in list
    ensures a in node && a in node' && node'[a] == node[a]
  {
  }

  lemma UsedSizes(node: Headers, list: seq<int>, used: set<int>, owner: map<int, int>, pt: int, n: int)
    requires LooseIn(node, list, used, owner, pt, n)
    ensures SameSizes(node, node, used)
  {
    UsedIn(node, list, used, owner, pt, n);
  }

  lemma AllKept(node: Headers, list: seq<int>, used: set<int>, owner: map<int, int>)
    requires Divides(node, Elements(list) + used, owner)
    ensures Kept(node, node, used)
  {
    DividesHeaded(node, Elements(list) + used, owner);
    assert forall a | a in used :: a in Elements(list) + used;
  }

  /** Requests are rounded up to a multiple of four. */
  function Rounded(size: int): (r: int)
    ensures size <= r < size + 4 && r % 4 == 0
  {
    (size + 3) / 4 * 4
  }

  lemma HeadWithout(node: Headers, list: seq<int>, i: nat)
    requires Linked(node, list) && i < |list|
    ensures PrevOf(list, i) == NIL <==> i == 0
    ensures First(Without(list, i)) == if i == 0 then NextOf(list, i) else First(list)
  {
    HeadAfter(node, list, i, 0);
  }

  lemma WithoutElements(list: seq<int>, i: nat)
    requires Distinct(list) && i < |list|
    ensures Elements(Without(list, i)) == Elements(list) - {list[i]}
  {
    var list' := Without(list, i);
    forall a
      ensures a in list' <==> a in list && a != list[i]
    {
      if a in list && a != list[i] {
        var k :| 0 <= k < |list| && list[k] == a;
        assert list'[if k < i then k else k - 1] == a;
      }
      if a in list' {
        var k :| 0 <= k < |list'| && list'[k] == a;
        assert list[if k < i then k else k + 1] == a;
      }
    }
  }

  lemma TakenWhole(node: Headers, list: seq<int>, used: set<int>, owner: map<int, int>, i: nat)
    requires ValidIn(node, list, used, owner) && i < |list| && list[i] in node
    ensures var m := node[list[i]];
      var node' := SetPrev(SetNext(node[list[i] := Node(NIL, NIL, m.size)], m.prev, m.next), m.next, m.prev);
      && ValidIn(node', Without(list, i), used + {list[i]}, owner) && Kept(node, node', used)
      && list[i] in node' && node'[list[i]] == Node(NIL, NIL, m.size)
  {
    hide Divides;
    var ret, m := list[i], node[list[i]];
    var base := node[ret := Node(NIL, NIL, m.size)];
    var node' := SetPrev(SetNext(base, m.prev, m.next), m.next, m.prev);
    DividesHeaded(node, Elements(list) + used, owner);
    assert LinkedAt(node, list, i);
    Neighbours(node, list, i);
    assert Kept(node, base, used) by {
      assert ret in Elements(list);
    }
    assert forall a | a in list :: a in Elements(list) && a !in used;
    LinksKeep(base, used + {ret}, m.prev, m.next, m.next, m.prev);
    LinksKeepSizes(base, m.prev, m.next, m.next, m.prev, Elements(list) + used);
    DividesStill(node, node', Elements(list) + used, owner);
    Removed(node, list, i);
    WithoutElements(list, i);
    assert Elements(Without(list, i)) + (used + {ret}) == Elements(list) + used;
    SameLinks(Joined(node, list, i, NextOf(list, i), PrevOf(list, i)), node', Without(list, i));
  }

  lemma Neighbours(node: Headers, list: seq<int>, i: nat)
    requires Linked(node, list) && i < |list|
    ensures PrevOf(list, i) != list[i] && NextOf(list, i) != list[i]
    ensures PrevOf(list, i) == NIL || (PrevOf(list, i) in list && PrevOf(list, i) in node)
    ensures NextOf(list, i) == NIL || (NextOf(list, i) in list && NextOf(list, i) in node)
  {
    assert LinkedAt(node, list, i);
    if i > 0 {
      assert LinkedAt(node, list, i - 1);
    }
    if i + 1 < |list| {
      assert LinkedAt(node, list, i + 1);
    }
  }

  lemma TakenPart(node: Headers, list: seq<int>, used: set<int>, owner: map<int, int>, i: nat, sz: int)
    requires ValidIn(node, list, used, owner) && i < |list| && list[i] in node
    requires HEADER <= sz <= node[list[i]].size - MIN_FRAG
    ensures var ret, m, x := list[i], node[list[i]], list[i] + sz;
      var base := node[ret := Node(NIL, NIL, sz)][x := Node(m.next, m.prev, m.size - sz)];
      var node' := SetPrev(SetNext(base, m.prev, x), m.next, x);
      && ValidIn(node', list[i := x], used + {ret}, Given(owner, x, ret + m.size, x)) && Kept(node, node', used)
      && ret in node' && node'[ret] == Node(NIL, NIL, sz)
  {
    hide Divides, Given;
    var ret, m, x := list[i], node[list[i]], list[i] + sz;
    var base := node[ret := Node(NIL, NIL, sz)][x := Node(m.next, m.prev, m.size - sz)];
    var node' := SetPrev(SetNext(base, m.prev, x), m.next, x);
    var segs := Elements(list) + used;
    DividesHeaded(node, segs, owner);
    assert LinkedAt(node, list, i);
    Neighbours(node, list, i);
    assert ret in Elements(list) && ret !in used;
    assert forall a | a in list :: a in Elements(list) && a !in used;
    SplitFresh(node, segs, owner, ret, sz);
    LinksKeepSizes(base, m.prev, x, m.next, x, segs + {x});
    Split(node, segs, owner, ret, sz, node');
    LinksKeep(base, used + {ret}, m.prev, x, m.next, x);
    Replaced(node, list, i, x, m.size - sz);
    SameLinks(Joined(node[x := Node(NextOf(list, i), PrevOf(list, i), m.size - sz)], list, i, x, x), node',
      list[i := x]);
    ReplacedElements(node, list, i, x);
    assert Elements(list[i := x]) + (used + {ret}) == segs + {x};
  }

  lemma SplitFresh(node: Headers, segs: set<int>, owner: map<int, int>, a: int, m: int)
    requires Divides(node, segs, owner) && a in segs && a in node && 0 < m < node[a].size
    ensures a + m !in segs
  {
    assert owner[a + m] == a;
  }

  lemma GrowLoose(node: Headers, list: seq<int>, used: set<int>, owner: map<int, int>, c: int, n: int)
    requires ValidIn(node, list, used, owner) && NIL < c && LEAST_CHUNK <= n && Unowned(owner, c, c + n)
    ensures LooseIn(node, list, used, owner + Chunk(c, c + n), c, n)
  {
    hide Linked, Chunk;
    var segs := Elements(list) + used;
    var node' := node[c := Node(NIL, NIL, n)];
    assert Headed(node, segs);
    assert Within(c, c, c + n);
    assert c !in owner;
    assert c !in segs;
    hide Divides;
    DividesHeaded(node, segs, owner);
    Grow(node, segs, owner, c, n, node');
    assert c !in list by {
      assert c !in Elements(list);
    }
  }

  lemma DividesHeaded(node: Headers, segs: set<int>, owner: map<int, int>)
    requires Divides(node, segs, owner)
    ensures Headed(node, segs)
  {
  }

  /** A segment taken out of the list its user kept it in. */
  lemma Unlinked(node: Headers, list: seq<int>, used: set<int>, owner: map<int, int>, pt: int)
    requires ValidIn(node, list, used, owner) && pt in used && pt in node
    requires (node[pt].prev == NIL || node[pt].prev in used) && (node[pt].next == NIL || node[pt].next in used)
    ensures var p := node[pt];
      var node' := SetPrev(SetNext(node, p.prev, p.next), p.next, p.prev);
      LooseIn(node', list, used - {pt}, owner, pt, p.size) && SameSizes(node, node', used) && SameIn(node, node', list)
  {
    hide LinkedAt, Distinct;
    var p := node[pt];
    var node' := SetPrev(SetNext(node, p.prev, p.next), p.next, p.prev);
    DividesHeaded(node, Elements(list) + used, owner);
    assert forall a | a in list :: a in Elements(list) && a !in used;
    SameLinks(node, node', list);
    LinksKeepSizes(node, p.prev, p.next, p.next, p.prev, Elements(list) + used);
    DividesStill(node, node'[pt := Node(NIL, NIL, p.size)], Elements(list) + used, owner);
    assert Elements(list) + (used - {pt}) + {pt} == Elements(list) + used;
  }

  ghost predicate Kept(node: Headers, node': Headers, segs: set<int>) {
    forall a | a in segs :: a in node && a in node' && node'[a] == node[a]
  }

  /** Everything about a loose segment, on values. */
  ghost predicate LooseIn(node: Headers, list: seq<int>, used: set<int>, owner: map<int, int>, pt: int, n: int) {
    && Linked(node, list) && used !! Elements(list) && NIL < pt && pt !in used && pt !in list && HEADER <= n
    && Divides(node[pt := Node(NIL, NIL, n)], Elements(list) + used + {pt}, owner)
  }

  ghost predicate ValidIn(node: Headers, list: seq<int>, used: set<int>, owner: map<int, int>) {
    Linked(node, list) && used !! Elements(list) && Divides(node, Elements(list) + used, owner)
  }

  lemma JoinedIs(node: Headers, list: seq<int>, i: nat, pt: int)
    requires i < |list|
    ensures Joined(node, list, i, pt, pt) == SetPrev(SetNext(node, PrevOf(list, i), pt), NextOf(list, i), pt)
  {
  }

  lemma HeadAfter(node: Headers, list: seq<int>, i: nat, pt: int)
    requires Linked(node, list) && i < |list|
    ensures PrevOf(list, i) == NIL <==> i == 0
    ensures First(list[i := pt]) == if i == 0 then pt else First(list)
  {
    if i > 0 {
      assert LinkedAt(node, list, i - 1);
    }
  }

  lemma HeadIsNil(node: Headers, list: seq<int>)
    requires Linked(node, list)
    ensures First(list) == NIL <==> list == []
  {
    if list != [] {
      assert LinkedAt(node, list, 0);
    }
  }

  lemma UsedIn(node: Headers, list: seq<int>, used: set<int>, owner: map<int, int>, pt: int, n: int)
    requires LooseIn(node, list, used, owner, pt, n)
    ensures forall a | a in used :: a in node && a != pt && a !in list && a != NIL
    ensures forall a | a in list :: a in node && a != pt && a !in used && a != NIL
  {
    forall a | a in list
      ensures a in node && a != NIL && a !in used
    {
      InList(node, list, a);
      assert a in Elements(list);
    }
    forall a | a in used
      ensures a in node && a !in list && a != NIL
    {
      assert a in Elements(list) + used + {pt};
      assert a !in Elements(list);
    }
  }

  /** Changing links of free segments keeps the headers of the segments in use. */
  lemma LinksKeep(node: Headers, used: set<int>, a: int, x: int, b: int, y: int)
    requires forall s | s in used :: s in node && s != a && s != b
    ensures Kept(node, SetPrev(SetNext(node, a, x), b, y), used) && Kept(node, SetNext(SetPrev(node, b, y), a, x), used)
  {
  }

  lemma PlacedBefore(node: Headers, list: seq<int>, used: set<int>, owner: map<int, int>, pt: int, n: int, i: nat)
    requires LooseIn(node, list, used, owner, pt, n) && i < |list| && list[i] == pt + n && list[i] in node
    ensures var m := node[list[i]];
      var node' := Joined(node[pt := Node(NextOf(list, i), PrevOf(list, i), n + m.size)], list, i, pt, pt);
      ValidIn(node', list[i := pt], used, Given(owner, list[i], list[i] + m.size, pt)) && Kept(node, node', used)
  {
    hide LinkedAt, Given, Distinct;
    var m, list' := node[list[i]], list[i := pt];
    var base := node[pt := Node(NextOf(list, i), PrevOf(list, i), n + m.size)];
    var node' := Joined(base, list, i, pt, pt);
    UsedIn(node, list, used, owner, pt, n);
    Replaced(node, list, i, pt, n + m.size);
    assert PrevOf(list, i) in list || PrevOf(list, i) == NIL;
    assert NextOf(list, i) in list || NextOf(list, i) == NIL;
    LinksKeep(base, used, PrevOf(list, i), pt, NextOf(list, i), pt);
    LinksKeepSizes(base, PrevOf(list, i), pt, NextOf(list, i), pt, Elements(list) + used + {pt});
    Merge(node[pt := Node(NIL, NIL, n)], Elements(list) + used + {pt}, owner, pt, list[i], node');
    ReplacedElements(node, list, i, pt);
    assert Elements(list) + used + {pt} - {list[i]} == Elements(list') + used;
  }

  lemma ReplacedElements(node: Headers, list: seq<int>, i: nat, pt: int)
    requires Linked(node, list) && i < |list| && pt !in list
    ensures Elements(list[i := pt]) == Elements(list) - {list[i]} + {pt}
  {
    var list' := list[i := pt];
    forall a
      ensures a in Elements(list') <==> a in Elements(list) - {list[i]} + {pt}
    {
      if a in list && a != list[i] {
        var k :| 0 <= k < |list| && list[k] == a;
        assert list'[k] == a;
      }
      if a in list' && a != pt {
        var k :| 0 <= k < |list'| && list'[k] == a;
        assert k != i && list[k] == a;
      }
      assert list'[i] == pt;
    }
  }

  lemma PutFirst(node: Headers, list: seq<int>, used: set<int>, owner: map<int, int>, pt: int, n: int)
    requires LooseIn(node, list, used, owner, pt, n)
    ensures var node' := SetPrev(node[pt := Node(First(list), NIL, n)], First(list), pt);
      ValidIn(node', [pt] + list, used, owner) && Kept(node, node', used)
  {
    hide LinkedAt, Distinct;
    var base := node[pt := Node(First(list), NIL, n)];
    var node' := SetPrev(base, First(list), pt);
    UsedIn(node, list, used, owner, pt, n);
    Pushed(node, list, pt, n);
    assert First(list) in list || First(list) == NIL;
    LinksKeep(base, used, NIL, NIL, First(list), pt);
    LinksKeepSizes(base, NIL, NIL, First(list), pt, Elements(list) + used + {pt});
    DividesStill(node[pt := Node(NIL, NIL, n)], node', Elements(list) + used + {pt}, owner);
    assert Elements(list) + used + {pt} == Elements([pt] + list) + used;
  }

  lemma PutAfter(node: Headers, list: seq<int>, used: set<int>, owner: map<int, int>, pt: int, n: int, i: nat)
    requires LooseIn(node, list, used, owner, pt, n) && i < |list|
    ensures var node' := SetNext(SetPrev(node[pt := Node(NextOf(list, i), list[i], n)], NextOf(list, i), pt), list[i],
      pt);
      ValidIn(node', list[..i + 1] + [pt] + list[i + 1..], used, owner) && Kept(node, node', used)
  {
    hide LinkedAt, Distinct;
    var base := node[pt := Node(NextOf(list, i), list[i], n)];
    var list' := list[..i + 1] + [pt] + list[i + 1..];
    var node' := SetNext(SetPrev(base, NextOf(list, i), pt), list[i], pt);
    UsedIn(node, list, used, owner, pt, n);
    Inserted(node, list, i, pt, n);
    assert NextOf(list, i) in list || NextOf(list, i) == NIL;
    assert list[i] in list;
    LinksKeep(base, used, list[i], pt, NextOf(list, i), pt);
    LinksKeepSizes(base, list[i], pt, NextOf(list, i), pt, Elements(list) + used + {pt});
    DividesStill(node[pt := Node(NIL, NIL, n)], node', Elements(list) + used + {pt}, owner);
    assert list == list[..i + 1] + list[i + 1..];
    assert Elements(list) + used + {pt} == Elements(list') + used;
  }

  lemma GivenKeys(owner: map<int, int>, lo: int, hi: int, s: int)
    ensures Given(owner, lo, hi, s).Keys == owner.Keys
  {
  }

  lemma InList(node: Headers, list: seq<int>, a: int)
    requires Linked(node, list) && a in list
    ensures a in node && a != NIL
  {
    var k :| 0 <= k < |list| && list[k] == a;
    assert LinkedAt(node, list, k);
  }

  /** The segments without the loose one. */
  lemma WithoutLoose(list: seq<int>, used: set<int>, pt: int)
    requires pt !in list && pt !in used
    ensures Elements(list) + used + {pt} - {pt} == Elements(list) + used
  {
  }

  lemma JoinedBehind(node: Headers, list: seq<int>, used: set<int>, owner: map<int, int>, pt: int, n: int, mscan: int)
    requires Linked(node, list) && pt !in list && pt !in used && mscan in list && mscan in node
    requires mscan + node[mscan].size == pt
    requires Divides(node[pt := Node(NIL, NIL, n)], Elements(list) + used + {pt}, owner)
    ensures var node' := SetSize(node, mscan, node[mscan].size + n);
      Linked(node', list) && Divides(node', Elements(list) + used, Given(owner, pt, pt + n, mscan))
  {
    hide Distinct, LinkedAt, Given;
    var node' := SetSize(node, mscan, node[mscan].size + n);
    forall a | a in list
      ensures a in node
    {
      InList(node, list, a);
    }
    SameLinks(node, node', list);
    hide Linked;
    Merge(node[pt := Node(NIL, NIL, n)], Elements(list) + used + {pt}, owner, mscan, pt, node');
    WithoutLoose(list, used, pt);
  }

  // ----- new memory directly before the first free segment

  /** The headers after new memory of `n` bytes at `mpt` was joined to the front of the first
      free segment; the head of the list still is that segment. */
  function JoinedToHead(node: Headers, list: seq<int>, mpt: int, n: int): Headers
    requires list != [] && list[0] in node
  {
    var m := node[list[0]];
    SetPrev(node, m.next, mpt)[mpt := Node(m.next, m.prev, n + m.size)]
  }

  lemma {:induction false} SameChain(node: Headers, list: seq<int>, node': Headers, list': seq<int>, k: nat)
    requires Linked(node, list) && Linked(node', list') && First(list) == First(list') && k < |list'|
    requires forall a | a in list :: a in node && a in node' && node'[a].next == node[a].next
    ensures k < |list| && list'[k] == list[k]
    decreases k
  {
    assert LinkedAt(node', list', k);
    if k == 0 {
      HeadIsNil(node, list);
    } else {
      SameChain(node, list, node', list', k - 1);
      assert LinkedAt(node', list', k - 1) && LinkedAt(node, list, k - 1);
      assert list[k - 1] in list;
    }
  }

  lemma ChainElements(node: Headers, list: seq<int>, node': Headers, list': seq<int>)
    requires Linked(node, list) && Linked(node', list') && First(list) == First(list')
    requires forall a | a in list :: a in node && a in node' && node'[a].next == node[a].next
    ensures Elements(list') <= Elements(list)
  {
    hide Linked;
    forall a | a in list'
      ensures a in list
    {
      var k :| 0 <= k < |list'| && list'[k] == a;
      SameChain(node, list, node', list', k);
    }
  }

  /** With no other segments than before, none of them larger, no other bytes are accounted for. */
  lemma NoNewBytes(node: Headers, segs: set<int>, owner: map<int, int>, node': Headers, segs': set<int>,
        owner': map<int, int>, b: int)
    requires Divides(node, segs, owner) && Divides(node', segs', owner') && segs' <= segs
    requires SameSizes(node, node', segs)
    ensures b in owner' ==> b in owner
  {
  }

  /** Then no list from that head and no division of the memory between it and the segments in
      use accounts for the new memory: that is exactly the case `AddChunk` shuts out. */
  lemma ChunkBeforeHead(node: Headers, list: seq<int>, used: set<int>, owner: map<int, int>, mpt: int, n: int,
                        list': seq<int>, owner': map<int, int>)
    requires ValidIn(node, list, used, owner) && list != [] && list[0] in node
    requires NIL < mpt && LEAST_CHUNK <= n && mpt + n == list[0] && Unowned(owner, mpt, mpt + n)
    requires First(list') == First(list) && Within(mpt, mpt, mpt + n)
    requires forall b :: b in owner' <==> b in owner || Within(b, mpt, mpt + n)
    ensures !ValidIn(JoinedToHead(node, list, mpt, n), list', used, owner')
  {
    var node' := JoinedToHead(node, list, mpt, n);
    if ValidIn(node', list', used, owner') {
      GrowLoose(node, list, used, owner, mpt, n);
      UsedIn(node, list, used, owner + Chunk(mpt, mpt + n), mpt, n);
      hide Linked, Chunk, Divides, Elements;
      ChainElements(node, list, node', list');
      var segs := Elements(list) + used;
      assert SameSizes(node, node', segs) by {
        AllSegments(list, used);
      }
      NoNewBytes(node, segs, owner, node', Elements(list') + used, owner', mpt);
    }
  }

  lemma AllSegments(list: seq<int>, used: set<int>)
    ensures forall a :: a in Elements(list) + used <==> a in list || a in used
  {
  }

  /** Following the links from the first segment visits these segments. */
  ghost predicate Visits(node: Headers, chain: seq<int>) {
    forall k | 0 <= k < |chain| :: chain[k] in node && node[chain[k]].next == NextOf(chain, k)
  }

  /** The headers after segment `ret` was taken out of the list whole. */
  function TakenOut(node: Headers, ret: int): Headers
    requires ret in node
  {
    var m := node[ret];
    SetPrev(SetNext(node[ret := Node(NIL, NIL, m.size)], m.prev, m.next), m.next, m.prev)
  }

  lemma JoinedLinks(node: Headers, list: seq<int>, mpt: int, n: int, k: nat)
    requires Linked(node, list) && |list| >= 2 && list[0] in node && mpt !in list && mpt != NIL && k < |list|
    ensures var node1 := JoinedToHead(node, list, mpt, n);
      list[k] in node && list[k] in node1 && node1[list[k]].next == NextOf(list, k)
      && node1[list[k]].size == node[list[k]].size
      && node1[list[k]].prev == if k == 1 then mpt else PrevOf(list, k)
  {
    assert LinkedAt(node, list, 0) && LinkedAt(node, list, 1) && LinkedAt(node, list, k);
    assert list[k] in list;
  }

  /** And with that chunk joined, the second free segment can be handed out twice: its header
      points back at the joined segment, so that taking it out leaves the head's link on it, and
      the next scan for the same size finds it again although it is in use. */
  lemma HandedOutTwice(node: Headers, list: seq<int>, used: set<int>, owner: map<int, int>, mpt: int, n: int, sz: int)
    requires ValidIn(node, list, used, owner) && |list| >= 2 && list[0] in node
    requires NIL < mpt && LEAST_CHUNK <= n && mpt + n == list[0] && Unowned(owner, mpt, mpt + n)
    requires IsBest(node, list, sz, 1) && node[list[0]].size < sz
    ensures var node1 := JoinedToHead(node, list, mpt, n);
      && mpt in node1 && node1[mpt].size == n + node[list[0]].size
      && Visits(node1, list) && IsBest(node1, list, sz, 1)
      && var node2 := TakenOut(node1, list[1]);
         && Visits(node2, list[..2]) && IsBest(node2, list[..2], sz, 1)
         && node2[list[1]] == Node(NIL, NIL, node[list[1]].size)
  {
    GrowLoose(node, list, used, owner, mpt, n);
    hide Divides, Unowned, Chunk, IsBest, Visits, JoinedToHead, TakenOut, Distinct;
    assert mpt !in list;
    var node1 := JoinedToHead(node, list, mpt, n);
    forall k | 0 <= k < |list|
      ensures list[k] in node && list[k] in node1
      ensures node1[list[k]].next == NextOf(list, k) && node1[list[k]].size == node[list[k]].size
    {
      JoinedLinks(node, list, mpt, n, k);
    }
    JoinedLinks(node, list, mpt, n, 1);
    JoinedSize(node, list, mpt, n);
    StillBest(node, node1, list, sz);
    TakenAgain(node1, list, mpt, sz);
  }

  lemma JoinedSize(node: Headers, list: seq<int>, mpt: int, n: int)
    requires list != [] && list[0] in node
    ensures mpt in JoinedToHead(node, list, mpt, n)
    ensures JoinedToHead(node, list, mpt, n)[mpt].size == n + node[list[0]].size
  {
  }

  lemma StillBest(node: Headers, node1: Headers, list: seq<int>, sz: int)
    requires IsBest(node, list, sz, 1)
    requires forall k | 0 <= k < |list| ::
      && list[k] in node && list[k] in node1
      && node1[list[k]].next == NextOf(list, k) && node1[list[k]].size == node[list[k]].size
    ensures Visits(node1, list) && IsBest(node1, list, sz, 1)
  {
  }

  /** A segment whose header does not point back at the head leaves the head's link behind. */
  lemma TakenAgain(node: Headers, list: seq<int>, mpt: int, sz: int)
    requires |list| >= 2 && Distinct(list) && Visits(node, list) && mpt !in list && node[list[1]].prev == mpt
    requires node[list[0]].size < sz <= node[list[1]].size
    ensures var node2 := TakenOut(node, list[1]);
      && Visits(node2, list[..2]) && IsBest(node2, list[..2], sz, 1)
      && node2[list[1]] == Node(NIL, NIL, node[list[1]].size)
  {
    assert list[0] != list[1] && list[0] in list && list[1] in list && list[0] in node && list[1] in node;
    assert |list| > 2 ==> list[2] != list[0] && list[2] != list[1];
  }
}
