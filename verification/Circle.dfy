/** Rings of slots in an array: positions wrap around at its end. */
module Circle {
  /** A position in a ring of `size` slots. */
  function Wrap(i: nat, size: nat): (r: nat)
    requires 0 < size
    ensures r < size
  {
    i % size
  }

  /** The `n` slots from `out` on. */
  function Window<T>(ring: seq<T>, out: nat, n: nat): (w: seq<T>)
    requires 0 < |ring|
    ensures |w| == n
  {
    seq(n, k requires 0 <= k < n => ring[Wrap(out + k, |ring|)])
  }

  lemma Remainder(x: int, size: nat, q: int, r: nat)
    requires x == q * size + r && r < size
    ensures x % size == r
  {
    var d := x / size - q;
    assert d * size == r - x % size by {
      assert (x / size) * size + x % size == x;
      assert d * size == (x / size) * size - q * size;
    }
  }

  lemma WrapBelow(i: nat, size: nat)
    requires 0 < size
    ensures i < size ==> Wrap(i, size) == i
    ensures Wrap(i + size, size) == Wrap(i, size)
  {
    if i < size {
      Remainder(i, size, 0, i);
    }
    var q, r := i / size, i % size;
    assert i + size == (q + 1) * size + r;
    Remainder(i + size, size, q + 1, r);
  }

  lemma {:induction false} WrapTwice(i: nat, j: nat, size: nat)
    requires 0 < size
    ensures Wrap(Wrap(i, size) + j, size) == Wrap(i + j, size)
    decreases i
  {
    hide Wrap;
    if i < size {
      WrapBelow(i, size);
    } else {
      WrapBelow(i - size, size);
      WrapTwice(i - size, j, size);
      WrapBelow(i - size + j, size);
    }
  }

  lemma {:induction false} WrapApart(i: nat, j: nat, size: nat)
    requires i < j < i + size
    ensures Wrap(i, size) != Wrap(j, size)
    decreases i
  {
    hide Wrap;
    if i < size {
      WrapBelow(i, size);
      if j < size {
        WrapBelow(j, size);
      } else {
        WrapBelow(j - size, size);
      }
    } else {
      WrapBelow(i - size, size);
      WrapBelow(j - size, size);
      WrapApart(i - size, j - size, size);
    }
  }

  /** Without the first `k` slots. */
  lemma WindowDrop<T>(ring: seq<T>, out: nat, n: nat, k: nat)
    requires 0 < |ring| && k <= n
    ensures Wrap(Wrap(out + k, |ring|) + (n - k), |ring|) == Wrap(out + n, |ring|)
    ensures Window(ring, Wrap(out + k, |ring|), n - k) == Window(ring, out, n)[k..]
  {
    hide Wrap;
    WrapTwice(out + k, n - k, |ring|);
    var w := Window(ring, out, n)[k..];
    forall j | 0 <= j < n - k
      ensures Window(ring, Wrap(out + k, |ring|), n - k)[j] == w[j]
    {
      WrapTwice(out + k, j, |ring|);
    }
  }

  /** With one slot more, while one is free. */
  lemma WindowGrows<T>(ring: seq<T>, out: nat, n: nat, x: T)
    requires n < |ring|
    ensures Wrap(Wrap(out + n, |ring|) + 1, |ring|) == Wrap(out + (n + 1), |ring|)
    ensures Window(ring[Wrap(out + n, |ring|) := x], out, n + 1) == Window(ring, out, n) + [x]
  {
    hide Wrap;
    WrapTwice(out + n, 1, |ring|);
    var grown := ring[Wrap(out + n, |ring|) := x];
    forall j | 0 <= j < n
      ensures Window(grown, out, n + 1)[j] == Window(ring, out, n)[j]
    {
      WrapApart(out + j, out + n, |ring|);
    }
  }

  lemma WindowFirst<T>(ring: seq<T>, out: nat, n: nat)
    requires out < |ring| && 0 < n
    ensures Window(ring, out, n)[0] == ring[out]
  {
    WrapBelow(out, |ring|);
    assert out + 0 == out;
  }
}
