/** Archive records that hold nothing but blockettes: a record's chain of blockettes is moved
    behind the archive's and linked to it. */
module OpaqueLinks {
  const NONDATA_OVERHEAD: int := 56

  /** A blockette: the bytes but for its link, and the offset of the next one; 0 for none. */
  datatype Blockette = Blockette(body: int, next: int)

  /** What the bytes of a record are when read as a blockette at an offset. */
  type Memory = int -> Blockette

  function SetLink(mem: Memory, a: int, next: int): Memory {
    b => if b == a then mem(b).(next := next) else mem(b)
  }

  /** Memory with `size` bytes of a record behind its overhead copied to `total`. */
  function CopiedIn(mem: Memory, rec: Memory, total: int, size: int): Memory {
    b => if total <= b < total + size then rec(b - total + NONDATA_OVERHEAD) else mem(b)
  }

  function NextOff(offs: seq<int>, k: nat, end: int): int
    requires k < |offs|
  {
    if k + 1 < |offs| then offs[k + 1] else end
  }

  ghost predicate LinkAt(mem: Memory, offs: seq<int>, k: nat, end: int)
    requires k < |offs|
  {
    mem(offs[k]).next == NextOff(offs, k, end)
  }

  /** Following the links from the first offset visits these offsets and goes on to `end`. */
  ghost predicate Chain(mem: Memory, offs: seq<int>, end: int) {
    offs != [] && forall k | 0 <= k < |offs| :: LinkAt(mem, offs, k, end)
  }

  /** The same memory below an offset. */
  ghost predicate SameBelow(a: Memory, b: Memory, total: int) {
    forall x | x < total :: a(x) == b(x)
  }

  /** Blockette `k` of a record where it was copied, when the links of those before blockette
      `i` have been set. */
  ghost predicate NewAt(mem: Memory, rec: Memory, roffs: seq<int>, shifted: seq<int>, k: nat, i: nat)
    requires k < |roffs| == |shifted|
  {
    && mem(shifted[k]).body == rec(roffs[k]).body
    && mem(shifted[k]).next == if k + 1 < i then NextOff(shifted, k, 0) else rec(roffs[k]).next
  }

  ghost predicate Rising(offs: seq<int>) {
    forall j, k | 0 <= j < k < |offs| :: offs[j] < offs[k]
  }

  /** All the offsets lie from `lo` up to `hi`, in order. */
  ghost predicate Between(offs: seq<int>, lo: int, hi: int) {
    Rising(offs) && forall k | 0 <= k < |offs| :: lo <= offs[k] < hi
  }

  /** Offsets of a record as they are behind `total` bytes of the archive. */
  function Shifted(offs: seq<int>, total: int): (s: seq<int>)
    ensures |s| == |offs|
    ensures forall k | 0 <= k < |offs| :: s[k] == offs[k] - NONDATA_OVERHEAD + total
  {
    seq(|offs|, k requires 0 <= k < |offs| => offs[k] - NONDATA_OVERHEAD + total)
  }

  function Bodies(mem: Memory, offs: seq<int>): (bodies: seq<int>)
    ensures |bodies| == |offs|
  {
    seq(|offs|, k requires 0 <= k < |offs| => mem(offs[k]).body)
  }

  class OpaqueArc {
    var mem: Memory
    var totalFrames: int
    // the header's link and the number of blockettes behind it
    var nextBlockette: int
    var blockettes: nat
    ghost var offs: seq<int>

    ghost predicate Valid()
      reads this
    {
      && Chain(mem, offs, 0) && Between(offs, NONDATA_OVERHEAD, totalFrames) && offs[0] == nextBlockette
      && blockettes == |offs|
    }

    /** A record copied as it is. */
    constructor (rec: Memory, index: int, bcnt: nat, ghost roffs: seq<int>)
      requires bcnt == |roffs| && Chain(rec, roffs, 0) && Between(roffs, NONDATA_OVERHEAD, index)
      requires roffs[0] == NONDATA_OVERHEAD
      ensures Valid() && offs == roffs && mem == rec && totalFrames == index
    {
      mem, totalFrames, nextBlockette, blockettes, offs := rec, index, NONDATA_OVERHEAD, bcnt, roffs;
    }

    /** Finds the blockette at the end of the chain. */
    method FindLast() returns (plast: int)
      requires Valid()
      ensures plast == offs[|offs| - 1]
    {
      var dest := nextBlockette;
      plast := 0;
      ghost var k := 0;
      while dest != 0
        invariant k <= |offs| && dest == (if k < |offs| then offs[k] else 0)
        invariant k > 0 ==> plast == offs[k - 1]
        decreases |offs| - k
      {
        assert LinkAt(mem, offs, k, 0);
        plast := dest;
        dest := mem(dest).next;
        k := k + 1;
      }
    }

    /** Sets the links of the copied blockettes, all but the last one, to where they are now. */
    method Relink(rec: Memory, bcnt: nat, ghost roffs: seq<int>)
      requires 0 < bcnt == |roffs| && Chain(rec, roffs, 0) && Rising(roffs) && roffs[0] == NONDATA_OVERHEAD
      requires forall k | 0 <= k < bcnt :: NewAt(mem, rec, roffs, Shifted(roffs, totalFrames), k, 1)
      modifies this`mem
      ensures forall k | 0 <= k < bcnt :: NewAt(mem, rec, roffs, Shifted(roffs, totalFrames), k, bcnt)
      ensures SameBelow(mem, old(mem), totalFrames)
    {
      hide NewAt, SameBelow, Rising;
      ghost var shifted := Shifted(roffs, totalFrames);
      var src, dest, i := NONDATA_OVERHEAD, totalFrames, 1;
      Same(mem, totalFrames);
      while i < bcnt
        invariant 1 <= i <= bcnt && src == roffs[i - 1] && dest == shifted[i - 1]
        invariant forall k | 0 <= k < bcnt :: NewAt(mem, rec, roffs, shifted, k, i)
        invariant SameBelow(mem, old(mem), totalFrames)
      {
        assert LinkAt(rec, roffs, i - 1, 0);
        var next := rec(src).next;
        var offset := next - src;
        LinkSet(mem, old(mem), rec, roffs, shifted, totalFrames, i, i + 1);
        mem := SetLink(mem, dest, dest + offset);
        src := next;
        dest := dest + offset;
        i := i + 1;
      }
    }

    /** Puts the record's blockettes behind the archive's: the last link of the archive leads to
        the first of them, and their own links are set to where they are now. */
    method Extend(rec: Memory, size: int, bcnt: nat, ghost roffs: seq<int>)
      requires Valid() && bcnt == |roffs| && Chain(rec, roffs, 0) && roffs[0] == NONDATA_OVERHEAD
      requires Between(roffs, NONDATA_OVERHEAD, NONDATA_OVERHEAD + size)
      modifies this
      ensures Valid() && offs == old(offs) + Shifted(roffs, old(totalFrames)) && totalFrames == old(totalFrames) + size
      ensures nextBlockette == old(nextBlockette) && blockettes == old(blockettes) + bcnt
      ensures Bodies(mem, offs) == Bodies(old(mem), old(offs)) + Bodies(rec, roffs)
    {
      hide LinkAt, Rising, NewAt, SameBelow, Bodies;
      ghost var shifted, mem0, total := Shifted(roffs, totalFrames), mem, totalFrames;
      var plast := FindLast();
      CopiedAndLinked(mem, rec, offs, roffs, totalFrames, size);
      mem := CopiedIn(mem, rec, totalFrames, size);
      mem := SetLink(mem, plast, totalFrames);
      ghost var before := mem;
      Relink(rec, bcnt, roffs);
      NewChain(mem, rec, roffs, total, size);
      Joined(before, mem, offs, shifted, total, size);
      totalFrames := totalFrames + size;
      blockettes := blockettes + bcnt;
      offs := offs + shifted;
      assert offs[0] == old(offs)[0];
    }
  }

  lemma Same(mem: Memory, total: int)
    ensures SameBelow(mem, mem, total)
  {
  }

  /** One more link set. */
  lemma LinkSet(mem: Memory, mem0: Memory, rec: Memory, roffs: seq<int>, shifted: seq<int>, total: int, i: nat, j: nat)
    requires 1 <= i < |roffs| && j == i + 1 && shifted == Shifted(roffs, total) && Rising(roffs)
    requires roffs[0] == NONDATA_OVERHEAD
    requires forall k | 0 <= k < |roffs| :: NewAt(mem, rec, roffs, shifted, k, i)
    requires SameBelow(mem, mem0, total)
    ensures var mem' := SetLink(mem, shifted[i - 1], shifted[i]);
      SameBelow(mem', mem0, total) && forall k | 0 <= k < |roffs| :: NewAt(mem', rec, roffs, shifted, k, j)
  {
    var mem' := SetLink(mem, shifted[i - 1], shifted[i]);
    forall k | 0 <= k < |roffs|
      ensures NewAt(mem', rec, roffs, shifted, k, j)
    {
      assert NewAt(mem, rec, roffs, shifted, k, i);
      assert k != i - 1 ==> roffs[k] != roffs[i - 1];
    }
    assert shifted[i - 1] >= total;
  }

  /** The archive's chain goes on to the copied blockettes, which are as they were. */
  lemma CopiedAndLinked(mem0: Memory, rec: Memory, offs: seq<int>, roffs: seq<int>, total: int, size: int)
    requires Chain(mem0, offs, 0) && Between(offs, NONDATA_OVERHEAD, total)
    requires Between(roffs, NONDATA_OVERHEAD, NONDATA_OVERHEAD + size)
    ensures var mem := SetLink(CopiedIn(mem0, rec, total, size), offs[|offs| - 1], total);
      && Chain(mem, offs, total) && Bodies(mem, offs) == Bodies(mem0, offs)
      && forall k | 0 <= k < |roffs| :: NewAt(mem, rec, roffs, Shifted(roffs, total), k, 1)
  {
    var mem := SetLink(CopiedIn(mem0, rec, total, size), offs[|offs| - 1], total);
    forall k | 0 <= k < |offs|
      ensures LinkAt(mem, offs, k, total) && mem(offs[k]).body == mem0(offs[k]).body
    {
      assert LinkAt(mem0, offs, k, 0);
      assert k + 1 < |offs| ==> offs[k] < offs[|offs| - 1];
    }
    assert offs[|offs| - 1] < total;
  }

  /** The copied blockettes are a chain of their own. */
  lemma NewChain(mem: Memory, rec: Memory, roffs: seq<int>, total: int, size: int)
    requires Chain(rec, roffs, 0) && Between(roffs, NONDATA_OVERHEAD, NONDATA_OVERHEAD + size)
    requires forall k | 0 <= k < |roffs| :: NewAt(mem, rec, roffs, Shifted(roffs, total), k, |roffs|)
    ensures var shifted := Shifted(roffs, total);
      && Chain(mem, shifted, 0) && Between(shifted, total, total + size) && Bodies(mem, shifted) == Bodies(rec, roffs)
  {
    var shifted := Shifted(roffs, total);
    forall k | 0 <= k < |roffs|
      ensures LinkAt(mem, shifted, k, 0) && mem(shifted[k]).body == rec(roffs[k]).body
    {
      assert NewAt(mem, rec, roffs, shifted, k, |roffs|) && LinkAt(rec, roffs, k, 0);
    }
  }

  /** Two chains, the first of which goes on to the start of the second. */
  lemma Joined(before: Memory, mem: Memory, offs: seq<int>, more: seq<int>, total: int, size: int)
    requires Chain(before, offs, total) && Between(offs, NONDATA_OVERHEAD, total)
    requires Chain(mem, more, 0) && Between(more, total, total + size) && more[0] == total
    requires SameBelow(mem, before, total)
    ensures Chain(mem, offs + more, 0) && Between(offs + more, NONDATA_OVERHEAD, total + size)
    ensures Bodies(mem, offs + more) == Bodies(before, offs) + Bodies(mem, more)
  {
    var all := offs + more;
    forall k | 0 <= k < |all|
      ensures LinkAt(mem, all, k, 0)
    {
      if k < |offs| {
        assert LinkAt(before, offs, k, total);
      } else {
        assert LinkAt(mem, more, k - |offs|, 0);
      }
    }
    assert offs[0] < total;
    RisingAppend(offs, more, total);
  }

  lemma RisingAppend(a: seq<int>, b: seq<int>, total: int)
    requires Rising(a) && Rising(b) && (forall k | 0 <= k < |a| :: a[k] < total)
    requires forall k | 0 <= k < |b| :: total <= b[k]
    ensures Rising(a + b)
  {
    forall j, k | 0 <= j < k < |a + b|
      ensures (a + b)[j] < (a + b)[k]
    {
      if j < |a| <= k {
        assert a[j] < total <= b[k - |a|];
      } else if |a| <= j {
        assert b[j - |a|] < b[k - |a|];
      }
    }
  }
}
