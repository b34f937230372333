/** The headers of memory segments: a doubly linked list of the free ones, and what it means
    that the segments divide up the memory. */
module MemoryModel {
  import opened Lists

  /** The header at the start of a segment. */
  datatype Node = Node(next: int, prev: int, size: int)

  type Headers = map<int, Node>

  const HEADER: int := 24
  const MIN_FRAG: int := 32
  const DEF_CHUNKSIZE: int := 16384
  const LEAST_CHUNK: int := 1024

  function PrevOf(list: seq<int>, i: nat): int
    requires i < |list|
  {
    if i > 0 then list[i - 1] else NIL
  }

  ghost predicate LinkedAt(node: Headers, list: seq<int>, i: nat)
    requires i < |list|
  {
    list[i] != NIL && list[i] in node && node[list[i]].next == NextOf(list, i) && node[list[i]].prev == PrevOf(list, i)
  }

  /** The headers link the segments of the list, in both directions. */
  ghost predicate Linked(node: Headers, list: seq<int>) {
    Distinct(list) && forall i | 0 <= i < |list| :: LinkedAt(node, list, i)
  }

  function SetNext(node: Headers, a: int, b: int): Headers {
    if a != NIL && a in node then node[a := node[a].(next := b)] else node
  }

  function SetPrev(node: Headers, a: int, b: int): Headers {
    if a != NIL && a in node then node[a := node[a].(prev := b)] else node
  }

  function SetSize(node: Headers, a: int, n: int): Headers {
    if a in node then node[a := node[a].(size := n)] else node
  }

  /** Both neighbours of place `i` made to point at `x` and `y`. */
  function Joined(node: Headers, list: seq<int>, i: nat, x: int, y: int): Headers
    requires i < |list|
  {
    SetPrev(SetNext(node, PrevOf(list, i), x), NextOf(list, i), y)
  }

  lemma JoinedAt(node: Headers, list: seq<int>, i: nat, x: int, y: int, k: nat)
    requires Linked(node, list) && i < |list| && k < |list| && k != i
    ensures var j := Joined(node, list, i, x, y);
      && list[k] in j && j[list[k]].size == node[list[k]].size
      && j[list[k]].next == (if k + 1 == i then x else NextOf(list, k))
      && j[list[k]].prev == (if k == i + 1 then y else PrevOf(list, k))
  {
    assert LinkedAt(node, list, k) && LinkedAt(node, list, i);
    if i > 0 {
      assert LinkedAt(node, list, i - 1);
    }
    if i + 1 < |list| {
      assert LinkedAt(node, list, i + 1);
    }
  }

  lemma JoinedElsewhere(node: Headers, list: seq<int>, i: nat, x: int, y: int, z: int)
    requires i < |list| && z in node && z != PrevOf(list, i) && z != NextOf(list, i)
    ensures var j := Joined(node, list, i, x, y); z in j && j[z] == node[z]
  {
  }

  /** Taking a segment out of the list. */
  lemma Removed(node: Headers, list: seq<int>, i: nat)
    requires Linked(node, list) && i < |list|
    ensures Linked(Joined(node, list, i, NextOf(list, i), PrevOf(list, i)), Without(list, i))
  {
    var node', list' := Joined(node, list, i, NextOf(list, i), PrevOf(list, i)), Without(list, i);
    forall k | 0 <= k < |list'|
      ensures LinkedAt(node', list', k)
    {
      var old_ := if k < i then k else k + 1;
      assert LinkedAt(node, list, old_);
      JoinedAt(node, list, i, NextOf(list, i), PrevOf(list, i), old_);
    }
  }

  /** Putting another segment in the place of one. */
  lemma Replaced(node: Headers, list: seq<int>, i: nat, x: int, n: int)
    requires Linked(node, list) && i < |list| && x != NIL && x !in list
    ensures Linked(Joined(node[x := Node(NextOf(list, i), PrevOf(list, i), n)], list, i, x, x), list[i := x])
  {
    var base := node[x := Node(NextOf(list, i), PrevOf(list, i), n)];
    var node', list' := Joined(base, list, i, x, x), list[i := x];
    forall k | 0 <= k < |list|
      ensures LinkedAt(base, list, k)
    {
      assert LinkedAt(node, list, k);
    }
    assert forall k | 0 <= k < |list| :: list[k] in list && list[k] != x;
    forall k | 0 <= k < |list'|
      ensures LinkedAt(node', list', k)
    {
      if k != i {
        JoinedAt(base, list, i, x, x, k);
        assert LinkedAt(base, list, k);
        assert list'[k] == list[k] && NextOf(list', k) == (if k + 1 == i then x else NextOf(list, k));
        assert PrevOf(list', k) == if k == i + 1 then x else PrevOf(list, k);
      } else {
        JoinedElsewhere(base, list, i, x, x, x);
        assert list'[k] == x && NextOf(list', k) == NextOf(list, i) && PrevOf(list', k) == PrevOf(list, i);
      }
    }
  }

  /** Putting a segment behind one. */
  lemma Inserted(node: Headers, list: seq<int>, i: nat, x: int, n: int)
    requires Linked(node, list) && i < |list| && x != NIL && x !in list
    ensures var node' := SetNext(SetPrev(node[x := Node(NextOf(list, i), list[i], n)], NextOf(list, i), x), list[i], x);
      Linked(node', list[..i + 1] + [x] + list[i + 1..])
  {
    var base := node[x := Node(NextOf(list, i), list[i], n)];
    var node', list' := SetNext(SetPrev(base, NextOf(list, i), x), list[i], x), list[..i + 1] + [x] + list[i + 1..];
    assert LinkedAt(node, list, i);
    if i + 1 < |list| {
      assert LinkedAt(node, list, i + 1);
    }
    forall k | 0 <= k < |list'|
      ensures LinkedAt(node', list', k)
    {
      if k != i + 1 {
        var old_ := if k <= i then k else k - 1;
        assert LinkedAt(node, list, old_);
      }
    }
  }

  /** Putting a segment in front of all. */
  lemma Pushed(node: Headers, list: seq<int>, x: int, n: int)
    requires Linked(node, list) && x != NIL && x !in list
    ensures Linked(SetPrev(node[x := Node(First(list), NIL, n)], First(list), x), [x] + list)
  {
    var node', list' := SetPrev(node[x := Node(First(list), NIL, n)], First(list), x), [x] + list;
    if list != [] {
      assert LinkedAt(node, list, 0);
    }
    forall k | 0 <= k < |list'|
      ensures LinkedAt(node', list', k)
    {
      if k > 0 {
        assert LinkedAt(node, list, k - 1);
      }
    }
  }

  /** Headers that differ in sizes, or outside the list, link the same list. */
  lemma SameLinks(node: Headers, node': Headers, list: seq<int>)
    requires Linked(node, list)
    requires forall a | a in list ::
      a in node && a in node' && node'[a].next == node[a].next && node'[a].prev == node[a].prev
    ensures Linked(node', list)
  {
    forall k | 0 <= k < |list|
      ensures LinkedAt(node', list, k)
    {
      assert LinkedAt(node, list, k) && list[k] in list;
    }
  }

  // ----- the division of the memory

  /** The segments divide up the bytes: each byte is in the segment that owns it, and a segment
      owns all the bytes from its address up to its size. */
  ghost predicate Divides(node: Headers, segs: set<int>, owner: map<int, int>) {
    Headed(node, segs) && Placed(node, segs, owner) && Covered(node, segs, owner)
  }

  ghost predicate Headed(node: Headers, segs: set<int>) {
    forall s | s in segs :: s in node && NIL < s && HEADER <= node[s].size
  }

  ghost predicate Placed(node: Headers, segs: set<int>, owner: map<int, int>) {
    forall b | b in owner :: owner[b] in segs && owner[b] in node && owner[b] <= b < owner[b] + node[owner[b]].size
  }

  ghost predicate Covered(node: Headers, segs: set<int>, owner: map<int, int>) {
    forall s, b | s in segs && s in node && s <= b < s + node[s].size :: b in owner && owner[b] == s
  }

  ghost predicate SameSizes(node: Headers, node': Headers, segs: set<int>) {
    forall s | s in segs :: s in node && s in node' && node'[s].size == node[s].size
  }

  lemma DividesStill(node: Headers, node': Headers, segs: set<int>, owner: map<int, int>)
    requires Divides(node, segs, owner) && SameSizes(node, node', segs)
    ensures Divides(node', segs, owner)
  {
  }

  function Given(owner: map<int, int>, lo: int, hi: int, s: int): map<int, int> {
    map b | b in owner :: if lo <= b < hi then s else owner[b]
  }

  /** A segment cut in two. */
  lemma Split(node: Headers, segs: set<int>, owner: map<int, int>, a: int, m: int, node': Headers)
    requires Divides(node, segs, owner) && a in segs && HEADER <= m <= node[a].size - HEADER
    requires SameSizes(node, node', segs - {a}) && a in node' && a + m in node'
    requires node'[a].size == m && node'[a + m].size == node[a].size - m
    ensures a + m !in segs && Divides(node', segs + {a + m}, Given(owner, a + m, a + node[a].size, a + m))
  {
    assert owner[a + m] == a;
    assert a + m !in segs;
    var segs', owner' := segs + {a + m}, Given(owner, a + m, a + node[a].size, a + m);
    forall b | b in owner'
      ensures owner'[b] in segs' && owner'[b] in node' && owner'[b] <= b < owner'[b] + node'[owner'[b]].size
    {
      if owner[b] != a {
        assert owner[b] in segs - {a};
      }
    }
    assert Headed(node', segs');
    assert Covered(node', segs', owner');
  }

  /** Two segments next to each other made one. */
  lemma Merge(node: Headers, segs: set<int>, owner: map<int, int>, a: int, b: int, node': Headers)
    requires Divides(node, segs, owner) && a in segs && b in segs && b == a + node[a].size
    requires SameSizes(node, node', segs - {a, b}) && a in node' && node'[a].size == node[a].size + node[b].size
    ensures Divides(node', segs - {b}, Given(owner, b, b + node[b].size, a))
  {
  }

  predicate Within(b: int, lo: int, hi: int) {
    lo <= b < hi
  }

  /** None of the bytes from `lo` up to `hi` is owned. */
  ghost predicate Unowned(owner: map<int, int>, lo: int, hi: int) {
    forall b | Within(b, lo, hi) :: b !in owner
  }

  function Chunk(lo: int, hi: int): map<int, int> {
    map b: int | lo <= b < hi && Within(b, lo, hi) :: lo
  }

  /** New memory as a segment of its own. */
  lemma Grow(node: Headers, segs: set<int>, owner: map<int, int>, c: int, n: int, node': Headers)
    requires Divides(node, segs, owner) && NIL < c && HEADER <= n && Unowned(owner, c, c + n)
    requires SameSizes(node, node', segs) && c in node' && node'[c].size == n
    ensures c !in segs && Divides(node', segs + {c}, owner + Chunk(c, c + n))
  {
    assert Within(c, c, c + n);
    assert c !in segs;
    var owner' := owner + Chunk(c, c + n);
    assert forall b :: b in owner' <==> b in owner || Within(b, c, c + n);
    assert forall b | b in owner :: !Within(b, c, c + n) && owner'[b] == owner[b];
    assert forall b | Within(b, c, c + n) :: owner'[b] == c;
    GrownDivides(node, segs, owner, c, n, node', owner');
  }

  lemma GrownDivides(node: Headers, segs: set<int>, owner: map<int, int>, c: int, n: int, node': Headers,
        owner': map<int, int>)
    requires Divides(node, segs, owner) && NIL < c && HEADER <= n
    requires SameSizes(node, node', segs) && c in node' && node'[c].size == n
    requires forall b :: b in owner' <==> b in owner || Within(b, c, c + n)
    requires forall b | b in owner :: !Within(b, c, c + n) && owner'[b] == owner[b]
    requires forall b | Within(b, c, c + n) :: owner'[b] == c
    ensures Divides(node', segs + {c}, owner')
  {
    assert Headed(node', segs + {c});
    assert Placed(node', segs + {c}, owner') by {
      hide Covered;
    }
    assert Covered(node', segs + {c}, owner') by {
      hide Placed;
    }
    hide Headed, Placed, Covered;
  }

  /** Changing links leaves every size as it is. */
  lemma LinksKeepSizes(node: Headers, a: int, x: int, b: int, y: int, segs: set<int>)
    requires forall s | s in segs :: s in node
    ensures SameSizes(node, SetPrev(SetNext(node, a, x), b, y), segs)
    ensures SameSizes(node, SetNext(SetPrev(node, b, y), a, x), segs)
  {
  }
}
