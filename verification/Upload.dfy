/** Sending a file to the digitizer in segments, with the digitizer's maps of those it has. */
module Upload {
  import opened Bytes

  const SEG_SIZE: nat := 90
  const MAP_BITS: nat := 1024
  const SENDS_PER_MAP: nat := 10

  datatype Phase = UP_IDLE | WAIT_CREATE_OK | SENDING_UPLOAD | WAIT_MAP

  datatype Message =
    | Create(size: nat)
    | Segment(num: nat, offset: nat, bytes: seq<Byte>, returnMap: bool)
    | MapRequest
    | Done

  function Segments(size: nat): (n: nat)
    ensures SEG_SIZE * n >= size && (n > 0 ==> SEG_SIZE * (n - 1) < size)
  {
    (size + SEG_SIZE - 1) / SEG_SIZE
  }

  function EndOf(size: nat, i: nat): (e: nat)
    ensures e <= size && (SEG_SIZE * i <= size ==> SEG_SIZE * i <= e)
  {
    if SEG_SIZE * (i + 1) >= size then size else SEG_SIZE * (i + 1)
  }

  /** The segments tile the file: each of its bytes is in one of them, and in no other. */
  lemma Tiles(size: nat, p: nat, i: nat)
    requires p < size
    ensures p / SEG_SIZE < Segments(size)
    ensures SEG_SIZE * i <= p < EndOf(size, i) <==> i == p / SEG_SIZE
  {
  }

  /** A segment with the bytes of its place of the file. */
  predicate SegmentOk(file: seq<Byte>, m: Message) {
    m.Segment? ==>
      && m.num < Segments(|file|) && m.offset == SEG_SIZE * m.num < |file|
      && m.bytes == file[m.offset..EndOf(|file|, m.num)]
  }

  predicate AllOk(file: seq<Byte>, log: seq<Message>) {
    forall k | 0 <= k < |log| :: SegmentOk(file, log[k])
  }

  function SentIn(log: seq<Message>): set<nat> {
    set k | 0 <= k < |log| && log[k].Segment? :: log[k].num
  }

  function Write(buf: seq<Byte>, m: Message): (b: seq<Byte>)
    ensures |b| == |buf|
  {
    if m.Segment? && m.offset + |m.bytes| <= |buf| then buf[..m.offset] + m.bytes + buf[m.offset + |m.bytes|..] else buf
  }

  /** What the digitizer has after writing each segment at its offset. */
  function Written(buf: seq<Byte>, log: seq<Message>): (b: seq<Byte>)
    ensures |b| == |buf|
    decreases |log|
  {
    if log == [] then buf else Write(Written(buf, log[..|log| - 1]), log[|log| - 1])
  }

  lemma WriteAt(buf: seq<Byte>, m: Message, p: nat)
    requires m.Segment? && m.offset + |m.bytes| <= |buf| && p < |buf|
    ensures Write(buf, m)[p] == if m.offset <= p < m.offset + |m.bytes| then m.bytes[p - m.offset] else buf[p]
  {
  }

  lemma {:induction false} WrittenAt(file: seq<Byte>, buf: seq<Byte>, log: seq<Message>, p: nat)
    requires AllOk(file, log) && |buf| == |file| && p < |file|
    ensures Written(buf, log)[p] == if p / SEG_SIZE in SentIn(log) then file[p] else buf[p]
    decreases |log|
  {
    hide Segments, EndOf;
    if log != [] {
      var n := |log| - 1;
      var m := log[n];
      WrittenAt(file, buf, log[..n], p);
      assert SegmentOk(file, m);
      assert SentIn(log) == SentIn(log[..n]) + (if m.Segment? then {m.num} else {}) by {
        forall i
          ensures i in SentIn(log) <==> i in SentIn(log[..n]) + (if m.Segment? then {m.num} else {})
        {
          if i in SentIn(log) {
            var k :| 0 <= k < |log| && log[k].Segment? && log[k].num == i;
            assert k < n ==> log[..n][k] == log[k];
          }
          if i in SentIn(log[..n]) {
            var k :| 0 <= k < n && log[..n][k].Segment? && log[..n][k].num == i;
            assert log[k] == log[..n][k];
          }
          assert log[n] == m;
        }
      }
      if m.Segment? {
        Tiles(|file|, p, m.num);
        WriteAt(Written(buf, log[..n]), m, p);
        assert m.offset + |m.bytes| == EndOf(|file|, m.num);
        assert m.offset <= p < EndOf(|file|, m.num) ==> m.bytes[p - m.offset] == file[p];
      }
    }
  }

  /** When all segments have been sent, in any order and however often, the digitizer has the
      file, whatever was there before. */
  lemma AllWritten(file: seq<Byte>, buf: seq<Byte>, log: seq<Message>)
    requires AllOk(file, log) && |buf| == |file|
    requires forall i | 0 <= i < Segments(|file|) :: i in SentIn(log)
    ensures Written(buf, log) == file
  {
    forall p | 0 <= p < |file|
      ensures Written(buf, log)[p] == file[p]
    {
      WrittenAt(file, buf, log, p);
      Tiles(|file|, p, 0);
    }
  }

  class Sender {
    const file: seq<Byte>
    var phase: Phase
    var curSeg: nat
    var segMap: seq<bool>
    var sinceMap: nat
    var upOk: bool
    var log: seq<Message>

    ghost predicate Valid()
      reads this
    {
      && |file| < 0x1_0000 && |segMap| == MAP_BITS && curSeg <= Segments(|file|) <= MAP_BITS && AllOk(file, log)
      && sinceMap < SENDS_PER_MAP
      && (upOk <==> phase != UP_IDLE)
    }

    /** The digitizer's last map names only segments that were sent. */
    ghost predicate Honest()
      reads this
    {
      |segMap| == MAP_BITS && forall i | 0 <= i < Segments(|file|) && i < MAP_BITS && segMap[i] :: i in SentIn(log)
    }

    /** The upload starts with nothing known to be there. */
    constructor (contents: seq<Byte>)
      requires |contents| < 0x1_0000
      ensures Valid() && Honest() && file == contents && phase == WAIT_CREATE_OK && log == [Create(|contents|)]
    {
      file, phase, curSeg, sinceMap, upOk := contents, WAIT_CREATE_OK, 0, 0, true;
      segMap, log := seq(MAP_BITS, _ => false), [Create(|contents|)];
    }

    /** Segment `i` is the first one missing from place `from` on. */
    ghost predicate FirstMissing(from: nat, i: nat)
      reads this
    {
      && from <= i < Segments(|file|) && i < |segMap| && !segMap[i]
      && forall k | from <= k < i && k < |segMap| :: segMap[k]
    }

    ghost predicate NoneMissing(from: nat)
      reads this
    {
      forall k | from <= k < Segments(|file|) && k < |segMap| :: segMap[k]
    }

    lemma LogMore(m: Message)
      requires AllOk(file, log) && SegmentOk(file, m)
      ensures AllOk(file, log + [m]) && SentIn(log + [m]) >= SentIn(log)
    {
      forall i | i in SentIn(log)
        ensures i in SentIn(log + [m])
      {
        var k :| 0 <= k < |log| && log[k].Segment? && log[k].num == i;
        assert (log + [m])[k] == log[k];
      }
    }

    /** Sends segment `i`; the last one of the file, and every tenth, ask for a map. */
    method SendSegment(i: nat)
      requires Valid() && i < Segments(|file|) && phase == SENDING_UPLOAD
      modifies this`curSeg, this`phase, this`sinceMap, this`log
      ensures Valid() && |log| == |old(log)| + 1 && log[..|old(log)|] == old(log) && SentIn(log) >= SentIn(old(log))
      ensures var m := log[|old(log)|]; m.Segment? && m.num == i && (m.returnMap <==> phase == WAIT_MAP)
      ensures var last := SEG_SIZE * (i + 1) >= |file|; var tenth := old(sinceMap) + 1 == SENDS_PER_MAP;
        && curSeg == (if last then 0 else i + 1) && phase == (if last || tenth then WAIT_MAP else SENDING_UPLOAD)
        && sinceMap == if last || tenth then 0 else old(sinceMap) + 1
    {
      var off := SEG_SIZE * i;
      var cnt, returnMap := SEG_SIZE, false;
      curSeg := i + 1;
      if off + SEG_SIZE >= |file| {
        cnt := |file| - off;
        curSeg := 0;
        returnMap := true;
        sinceMap := 0;
        phase := WAIT_MAP;
      } else {
        sinceMap := sinceMap + 1;
        if sinceMap >= SENDS_PER_MAP {
          returnMap := true;
          sinceMap := 0;
          phase := WAIT_MAP;
        }
      }
      var m := Segment(i, off, file[off..off + cnt], returnMap);
      LogMore(m);
      log := log + [m];
    }

    /** The first segment missing from place `from` on, or the end of the file. */
    method FindMissing(from: nat) returns (i: nat)
      requires |segMap| == MAP_BITS && from <= Segments(|file|) <= MAP_BITS
      ensures if i < Segments(|file|) then FirstMissing(from, i) else i == Segments(|file|) && NoneMissing(from)
    {
      i := from;
      while i < Segments(|file|) && segMap[i]
        invariant from <= i <= Segments(|file|) && forall k | from <= k < i :: segMap[k]
      {
        i := i + 1;
      }
    }

    /** One step of the upload: the first segment missing from where the last step ended, or
        when there is none a request for a map, or when none is missing at all the end. */
    method NextSegment() returns (ghost num: nat)
      requires Valid()
      modifies this
      ensures Valid() && old(log) <= log && (old(Honest()) ==> Honest()) && segMap == old(segMap)
      ensures old(phase) != SENDING_UPLOAD ==> log == old(log) && phase == old(phase)
      // whatever is sent is missing from the last map
      ensures old(phase) == SENDING_UPLOAD && !old(NoneMissing(curSeg)) ==>
        |log| == |old(log)| + 1 && log[|old(log)|].Segment? && log[|old(log)|].num == num
          && old(FirstMissing(curSeg, num))
      // and the next one is looked for behind it, after the last one from the start
      ensures old(phase) == SENDING_UPLOAD && !old(NoneMissing(curSeg)) ==>
        curSeg == (if SEG_SIZE * (num + 1) >= |file| then 0 else num + 1)
          && (log[|old(log)|].returnMap <==> phase == WAIT_MAP)
      ensures old(phase) == SENDING_UPLOAD && old(NoneMissing(curSeg)) && !old(NoneMissing(0)) ==>
        log == old(log) + [MapRequest] && phase == WAIT_MAP && curSeg == 0
      ensures old(phase) == SENDING_UPLOAD && old(NoneMissing(0)) ==> log == old(log) + [Done] && !upOk
      ensures Done in log && Done !in old(log) ==> old(NoneMissing(0)) && phase == UP_IDLE
    {
      num := 0;
      if phase == SENDING_UPLOAD {
        var i := FindMissing(curSeg);
        if i < Segments(|file|) {
          num := i;
          SendSegment(i);
          return;
        }
        i := FindMissing(0);
        if i < Segments(|file|) {
          curSeg := 0;
          phase := WAIT_MAP;
          LogMore(MapRequest);
          log := log + [MapRequest];
          return;
        }
        upOk, phase := false, UP_IDLE;
        LogMore(Done);
        log := log + [Done];
      }
    }

    /** A map arrives, or a refusal of the file. */
    method ProcessUpMap(ok: bool, map_: seq<bool>)
      requires Valid() && |map_| == MAP_BITS
      modifies this`phase, this`segMap, this`upOk
      ensures Valid() && log == old(log)
      ensures old(Honest()) && (forall i | 0 <= i < MAP_BITS && map_[i] :: i in SentIn(log)) ==> Honest()
      ensures old(phase) == WAIT_CREATE_OK || old(phase) == WAIT_MAP ==>
        if ok || old(phase) == WAIT_MAP then phase == SENDING_UPLOAD && segMap == map_ else phase == UP_IDLE && !upOk
      ensures old(phase) != WAIT_CREATE_OK && old(phase) != WAIT_MAP ==> phase == old(phase) && segMap == old(segMap)
    {
      match phase
      case WAIT_CREATE_OK =>
        if ok {
          phase, segMap := SENDING_UPLOAD, map_;
        } else {
          phase, upOk := UP_IDLE, false;
        }
      case WAIT_MAP =>
        phase, segMap := SENDING_UPLOAD, map_;
      case UP_IDLE =>
      case SENDING_UPLOAD =>
    }

    /** At the end the digitizer has the file, as long as its maps were honest. */
    lemma Delivered(buf: seq<Byte>)
      requires Valid() && Honest() && NoneMissing(0) && |buf| == |file|
      ensures Written(buf, log) == file
    {
      AllWritten(file, buf, log);
    }
  }
}
