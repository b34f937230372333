/** Lists of addresses, as linked headers spell them out. */
module Lists {
  const NIL: int := 0

  /** What the segment at place `i` links to. */
  function NextOf(list: seq<int>, i: nat): int
    requires i < |list|
  {
    if i + 1 < |list| then list[i + 1] else NIL
  }

  function First(list: seq<int>): int {
    if list == [] then NIL else list[0]
  }

  ghost predicate Distinct(list: seq<int>) {
    forall i, j | 0 <= i < j < |list| :: list[i] != list[j]
  }

  function Without(list: seq<int>, i: nat): seq<int>
    requires i < |list|
  {
    list[..i] + list[i + 1..]
  }
}
