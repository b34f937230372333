/** The receiver's sequence numbers: which frames of the link are accepted, acknowledged and
    filed in the rings. */
module ReceiverModel {
  import opened Bytes
  import opened Options
  import opened RingModel
  import opened ServerModel
  import opened Delivery
  import opened DeliveryRuns
  import Runs = ExactDelivery

  const DEFAULT_WINDOW_SIZE: nat := 8
  const UNKNOWN_LOWEST: nat := 300

  /** What a frame is for: a link packet, data for one of the rings, or something that is not
      filed. */
  datatype Kind = LinkPacket(modulus: nat) | Filed(q: nat, data: UserData) | Other

  /** A frame whose checks were right. */
  datatype Frame = Frame(special: bool, num: Byte, kind: Kind)

  predicate FrameOk(f: Frame) {
    match f.kind
    case LinkPacket(m) => 1 <= m <= 256
    case Filed(q, _) => q < NUMQ
    case Other => true
  }

  /** The receiver's own state.  `errLimit` is the number of errors in a row after which it
      starts over, zero for never. */
  datatype Link = Link(ultra: bool, linkRecv: bool, valid: bool, last: Byte, modulus: nat, lowest: nat,
                       seen: seq<bool>, errors: int, errLimit: int)

  predicate LinkOk(k: Link) {
    1 <= k.modulus <= 256 && |k.seen| == DEFAULT_WINDOW_SIZE
  }

  function NextNum(k: Link): (n: Byte)
    requires LinkOk(k)
  {
    (k.last + 1) % k.modulus
  }

  /** Starting over: nothing is valid until the other side says where it is. */
  function Reconfigured(k: Link): Link
    requires LinkOk(k)
  {
    k.(linkRecv := false, valid := false, lowest := UNKNOWN_LOWEST, errors := 0,
       seen := if k.ultra then k.seen else seq(DEFAULT_WINDOW_SIZE, _ => false))
  }

  function CountError(k: Link): (k': Link)
    requires LinkOk(k)
    ensures LinkOk(k')
  {
    var counted := k.(errors := k.errors + 1);
    if counted.errors > k.errLimit && k.errLimit > 0 then Reconfigured(counted) else counted
  }

  /** From `start` to `end` all numbers were seen, not the one before, and none behind. */
  ghost predicate IsLastRun(seen: seq<bool>, start: nat, end: nat) {
    && start <= end < |seen| && (forall i | start <= i <= end :: seen[i])
    && (start > 0 ==> !seen[start - 1]) && (forall i | end < i < |seen| :: !seen[i])
  }

  /** Where the last run of numbers seen begins. */
  function LastRun(seen: seq<bool>): (start: Option<nat>)
    ensures start.None? <==> forall i | 0 <= i < |seen| :: !seen[i]
    ensures start.Some? ==> start.value < |seen| && seen[start.value]
    ensures start.Some? && start.value > 0 ==> !seen[start.value - 1]
  {
    if seen == [] then None
    else
      var n := |seen| - 1;
      if seen[n] && (n == 0 || !seen[n - 1]) then Some(n) else LastRun(seen[..n])
  }

  /** It begins the last run. */
  lemma {:induction false} LastRunExact(seen: seq<bool>) returns (end: nat)
    ensures LastRun(seen).Some? ==> IsLastRun(seen, LastRun(seen).value, end)
    decreases |seen|
  {
    end := 0;
    if seen != [] {
      var n := |seen| - 1;
      if seen[n] && (n == 0 || !seen[n - 1]) {
        end := n;
      } else {
        end := LastRunExact(seen[..n]);
        end := if seen[n] then n else end;
      }
    }
  }

  lemma OneLastRun(seen: seq<bool>, s: nat, e: nat, s': nat, e': nat)
    requires IsLastRun(seen, s, e) && IsLastRun(seen, s', e')
    ensures s == s' && e == e'
  {
    InRun(seen, s, e, e);
    InRun(seen, s', e', e');
    InRun(seen, s, e, if s < s' then s' - 1 else s);
    InRun(seen, s', e', if s' < s then s - 1 else s');
  }

  lemma InRun(seen: seq<bool>, s: nat, e: nat, i: nat)
    requires IsLastRun(seen, s, e)
    ensures s <= i <= e ==> seen[i]
    ensures e < |seen|
  {
  }

  datatype Verdict = Ignored | OutOfSequence | Admitted

  datatype Decision = Decision(link: Link, verdict: Verdict)

  /** What the sequence number of a frame means. */
  function Decide(k: Link, f: Frame): (d: Decision)
    requires LinkOk(k) && FrameOk(f)
    ensures LinkOk(d.link)
  {
    if k.ultra && f.special then
      if f.kind.LinkPacket? then
        Decision(k.(linkRecv := true, valid := false, last := f.num, modulus := f.kind.modulus), Ignored)
      else Decision(k, Ignored)
    else if k.valid then
      if f.num != NextNum(k) then Decision(k, OutOfSequence) else Decision(k.(errors := 0), Admitted)
    else if k.ultra then
      if k.linkRecv && f.num == k.last then Decision(k.(valid := true), Admitted) else Decision(CountError(k), Ignored)
    else if f.num == k.lowest then Decision(k.(valid := true), Admitted)
    else Decision(Unplaced(k, f.num), Ignored)
  }

  /** An older digitizer does not say where it is: once a number comes for the second time,
      the last run of the numbers seen tells where the next one starts. */
  function Unplaced(k: Link, num: Byte): (k': Link)
    requires LinkOk(k)
    ensures LinkOk(k')
  {
    if num >= DEFAULT_WINDOW_SIZE then k
    else if !k.seen[num] then k.(seen := k.seen[num := true])
    else match LastRun(k.seen)
      case Some(start) => k.(lowest := start)
      case None => k
  }

  /** The rings that were found full of blocked packets, after a look at ring `q`, or at all
      of them. */
  function Masked(sys: Sys, noack: set<nat>, q: Option<nat>): set<nat>
    requires Sound(sys) && (q.Some? ==> q.value < NUMQ)
  {
    if q.Some? then if sys.rings[q.value].Avail() then noack - {q.value} else noack + {q.value}
    else (set j | 0 <= j < NUMQ && !sys.rings[j].Avail()) + (set j | j in noack && NUMQ <= j)
  }

  /** The receiver with its rings and the acknowledgements it has sent. */
  datatype State = State(link: Link, sys: Sys, noack: set<nat>, acks: seq<Byte>)

  ghost predicate StateOk(s: State) {
    LinkOk(s.link) && Sound(s.sys)
  }

  function QueueOf(f: Frame): Option<nat> {
    if f.kind.Filed? then Some(f.kind.q) else None
  }

  /** Whether a frame is accepted: it is admitted and no ring it depends on is blocked. */
  ghost predicate Accepts(s: State, f: Frame)
    requires StateOk(s) && FrameOk(f)
  {
    Decide(s.link, f).verdict == Admitted && Masked(s.sys, s.noack, QueueOf(f)) == {}
  }

  ghost function Receive(s: State, f: Frame): (s': State)
    requires StateOk(s) && FrameOk(f)
  {
    var d := Decide(s.link, f);
    match d.verdict
    case Ignored => s.(link := d.link)
    case OutOfSequence =>
      var noack := Masked(s.sys, s.noack, None);
      if noack != {} then s.(link := d.link, noack := noack)
      else s.(link := CountError(d.link), noack := noack, acks := s.acks + [s.link.last])
    case Admitted =>
      var noack := Masked(s.sys, s.noack, QueueOf(f));
      if noack != {} then s.(link := d.link, noack := noack)
      else State(d.link.(last := f.num),
                 if f.kind.Filed? then StorePacket(s.sys, f.kind.q, f.kind.data) else s.sys,
                 noack, s.acks + [f.num])
  }
}
