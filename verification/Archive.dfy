/** The archive record of a channel, put together in place. */
module Archive {
  import opened SteimModel
  import opened SteimFrames
  import opened Steim
  import opened ArchiveModel

  const CLEARED := DataFrame(seq(WORDS_PER_FRAME, _ => 0))

  /** Blockette `k` of `n` when the links of those before blockette `i` have been set. */
  predicate Relinked(cell: Cell, body: int, k: int, i: int, n: int) {
    && cell.Blockette? && cell.body == body
    && (k < i - 1 ==> cell.next == FRAME_SIZE * (k + 2)) && (k == n - 1 ==> cell.next == 0)
  }

  ghost predicate AllRelinked(cells: seq<Cell>, blks: seq<int>, i: nat) {
    |cells| == |blks| && forall k | 0 <= k < |cells| :: Relinked(cells[k], blks[k], k, i, |cells|)
  }

  lemma LinkedSize(cells: seq<Cell>, blks: seq<int>)
    requires LinkedCells(cells, blks)
    ensures |cells| == |blks|
  {
  }

  lemma StartLinks(a: seq<Cell>, ablks: seq<int>, b: seq<Cell>, bblks: seq<int>)
    requires LinkedCells(a, ablks) && LinkedCells(b, bblks) && b != []
    ensures AllRelinked(a + b, ablks + bblks, 1)
  {
  }

  lemma NextLink(cells: seq<Cell>, blks: seq<int>, i: nat, j: nat)
    requires AllRelinked(cells, blks, i) && 1 <= i < |cells| && j == i + 1
    ensures cells[i - 1].Blockette?
    ensures AllRelinked(cells[i - 1 := cells[i - 1].(next := FRAME_SIZE * j)], blks, j)
  {
    assert Relinked(cells[i - 1], blks[i - 1], i - 1, i, |cells|);
  }

  lemma AllLinked(cells: seq<Cell>, blks: seq<int>)
    requires AllRelinked(cells, blks, |cells|)
    ensures LinkedCells(cells, blks)
  {
    forall k | 0 <= k < |cells|
      ensures cells[k] == Blockette(blks[k], if k + 1 < |blks| then FRAME_SIZE * (k + 2) else 0)
    {
      assert Relinked(cells[k], blks[k], k, |cells|, |cells|);
    }
  }

  /** No blockettes from frame `n` on. */
  ghost predicate Spare(cells: seq<Cell>, n: nat) {
    forall k | n <= k < |cells| :: cells[k].DataFrame?
  }

  lemma StillSpare(before: seq<Cell>, n: nat, after: seq<Cell>, m: nat)
    requires Spare(before, n) && n <= m <= |before| == |after| && after[m..] == before[m..]
    ensures Spare(after, m)
  {
    forall k | m <= k < |after|
      ensures after[k].DataFrame?
    {
      assert after[k] == after[m..][k - m] == before[k];
    }
  }

  /** The frames from place `a` up to `n` were moved back by `d` places. */
  ghost predicate Moved(before: seq<Cell>, moved: seq<Cell>, a: nat, n: nat, d: nat) {
    && a <= n && n + d <= |before| == |moved| && (forall k | 0 <= k < a :: moved[k] == before[k])
    && (forall k | a + d <= k < n + d :: moved[k] == before[k - d])
    && (forall k | n + d <= k < |moved| :: moved[k] == before[k])
  }

  /** Cells were copied to place `a`. */
  ghost predicate PutAt(before: seq<Cell>, after: seq<Cell>, a: nat, cells: seq<Cell>) {
    && a + |cells| <= |before| == |after|
    && forall k | 0 <= k < |after| :: after[k] == if a <= k < a + |cells| then cells[k - a] else before[k]
  }

  /** The frames after cells were put in at place `a` of the `n` there. */
  lemma MovedIn(before: seq<Cell>, moved: seq<Cell>, after: seq<Cell>, a: nat, n: nat, cells: seq<Cell>)
    requires 1 <= a && Moved(before, moved, a, n, |cells|) && PutAt(moved, after, a, cells)
    ensures a <= n && n + |cells| <= |before| == |after| && after[n + |cells|..] == before[n + |cells|..]
    ensures after[1..a + |cells|] == before[1..a] + cells && after[a + |cells|..n + |cells|] == before[a..n]
  {
  }

  /** The frames after cells were put behind the `n` there. */
  lemma BehindAll(before: seq<Cell>, after: seq<Cell>, a: nat, n: nat, cells: seq<Cell>)
    requires 1 <= a <= n && PutAt(before, after, n, cells)
    ensures n + |cells| <= |before| == |after|
    ensures after[n + |cells|..] == before[n + |cells|..]
    ensures after[1..a] == before[1..a] && after[a..n + |cells|] == before[a..n] + cells
  {
  }

  lemma MoreData(a: seq<Cell>, ad: seq<Frame>, b: seq<Cell>, bd: seq<Frame>)
    requires DataCells(a, ad) && DataCells(b, bd)
    ensures DataCells(a + b, ad + bd) && |b| == |bd|
  {
  }

  /** The frames after the word for the last sample was set in frame `at`. */
  lemma LastSet(before: seq<Cell>, at: nat, n: nat, data: seq<Frame>, last: Word)
    requires 1 <= at <= n <= |before| && at < |before| && Spare(before, n) && DataCells(before[at..n], data)
    ensures before[at].DataFrame?
    ensures var after := before[at := DataFrame(before[at].f[2 := last])];
      after[1..at] == before[1..at] && DataCells(after[at..n], Ending(data, last)) && Spare(after, n)
  {
    if at < n {
      assert before[at..n][0] == before[at];
    }
  }

  lemma NoneEnding(data: seq<Frame>, last: Word)
    ensures data == [] ==> Ending(data, last) == []
  {
  }

  lemma SameBehind(before: seq<Cell>, after: seq<Cell>, a: nat, n: nat)
    requires a <= n <= |before| == |after| && forall k | a <= k < |before| :: after[k] == before[k]
    ensures after[a..n] == before[a..n] && (Spare(before, n) ==> Spare(after, n))
  {
  }

  /** A finished record in memory. */
  ghost predicate RecordOk(r: Record, cells: seq<Cell>) {
    && |cells| == |r.blks| + |r.data|
    && LinkedCells(cells[..|r.blks|], r.blks) && DataCells(cells[|r.blks|..], r.data)
  }

  /** A record put behind the header is all there is. */
  lemma OnlyRecord(before: seq<Cell>, after: seq<Cell>, n: nat, cells: seq<Cell>, r: Record)
    requires PutAt(before, after, 1, cells) && RecordOk(r, cells) && Spare(before, n) && n <= 1
    ensures var a, m := 1 + |r.blks|, 1 + |r.blks| + |r.data|;
      && m <= |after| && LinkedCells(after[1..a], r.blks) && DataCells(after[a..m], r.data) && Spare(after, m)
    ensures Archived([r]) == Contents(r.blks, r.data, Behind(|r.blks|))
  {
    hide LinkedCells, DataCells;
    BehindAll(before, after, 1, 1, cells);
    var m := 1 + |cells|;
    assert after[1..m] == cells;
    assert after[1..1 + |r.blks|] == after[1..m][..|r.blks|];
    assert after[1 + |r.blks|..m] == after[1..m][|r.blks|..];
    assert [r][..0] == [];
  }

  datatype Action = ARC | FIRST | INC | FINAL

  /** A record is new or written over one that the other side has, and final or to be written
      over again. */
  function ActionFor(existing: bool, leave: bool): Action {
    if existing then if leave then INC else FINAL else if leave then FIRST else ARC
  }

  /** The records the other side has: a new one comes behind the others, and one that is written over
      takes the place of the last. */
  function Received(written: seq<(Action, seq<Cell>)>): (had: seq<seq<Cell>>) {
    if written == [] then []
    else
      var n := |written| - 1;
      var had := Received(written[..n]);
      if written[n].0 == ARC || written[n].0 == FIRST || had == [] then had + [written[n].1]
      else had[..|had| - 1] + [written[n].1]
  }

  /** All records of some archives. */
  function Together(parts: seq<seq<Record>>): seq<Record> {
    if parts == [] then [] else Together(parts[..|parts| - 1]) + parts[|parts| - 1]
  }

  /** The other side has archives of just these series. */
  ghost predicate HasAll(had: seq<seq<Cell>>, passed: seq<seq<Record>>) {
    |had| == |passed| && forall k | 0 <= k < |had| :: CellsHold(had[k], Archived(passed[k]))
  }

  lemma ReceivedMore(written: seq<(Action, seq<Cell>)>, action: Action, cells: seq<Cell>, passed: seq<seq<Record>>,
                     series: seq<Record>)
    requires HasAll(Received(written), passed) && CellsHold(cells, Archived(series))
    ensures action == ARC || action == FIRST ==> HasAll(Received(written + [(action, cells)]), passed + [series])
    ensures (action == INC || action == FINAL) && passed != [] ==>
      HasAll(Received(written + [(action, cells)]), passed[..|passed| - 1] + [series])
  {
    hide CellsHold, Archived;
    assert (written + [(action, cells)])[..|written|] == written;
  }

  lemma TogetherMore(parts: seq<seq<Record>>, part: seq<Record>)
    ensures Together(parts + [part]) == Together(parts) + part
  {
    assert (parts + [part])[..|parts|] == parts;
  }

  class Arc {
    const arcFrames: nat
    const incremental: bool
    const pcfr: array<Cell>
    // frames in use, the header's frame among them
    var totalFrames: nat
    // the header's number of blockettes but two, its first link, its offset and number of data frames
    var blockettes: nat
    var nextBlockette: int
    var firstData: int
    var frameCount: nat
    var appended: bool
    var existingRecord: bool
    var leaveInBuffer: bool
    // the word that would be the last sample of a frame behind the buffer
    var behind: Word
    // what has been passed on
    var written: seq<(Action, seq<Cell>)>
    // the records in the buffer, and those of each archive at the other side
    ghost var series: seq<Record>
    ghost var passed: seq<seq<Record>>

    /** The frames of the buffer are the contents, linked. */
    ghost predicate Holds(c: Contents)
      reads `totalFrames, `blockettes, `nextBlockette, `firstData, `frameCount, pcfr
    {
      && totalFrames == 1 + blockettes + frameCount <= arcFrames == pcfr.Length
      && blockettes == |c.blks| && frameCount == |c.data| && firstData == c.firstData
      && nextBlockette == (if blockettes > 0 then FRAME_SIZE else 0)
      && LinkedCells(pcfr[1..1 + blockettes], c.blks) && DataCells(pcfr[1 + blockettes..totalFrames], c.data)
    }

    /** Nothing but data frames was ever written to the frames not in use. */
    ghost predicate Unused()
      reads `totalFrames, pcfr
    {
      arcFrames == pcfr.Length && Spare(pcfr[..], totalFrames)
    }

    /** The other side has what was passed on; when it has the record in the buffer, that is the last
        one there, up to what was appended since. */
    ghost predicate Sent()
      reads this
    {
      && HasAll(Received(written), passed)
      && (existingRecord ==> totalFrames > 0 && passed != [] && passed[|passed| - 1] <= series)
      && (existingRecord && !appended ==> passed[|passed| - 1] == series)
    }

    /** All records that were archived: those at the other side and those only in the buffer. */
    ghost function AllRecords(): seq<Record>
      reads this
      requires existingRecord ==> passed != []
    {
      Together(Closed()) + series
    }

    /** The archives at the other side but for the one that is in the buffer, too. */
    ghost function Closed(): seq<seq<Record>>
      reads this
      requires existingRecord ==> passed != []
    {
      if existingRecord then passed[..|passed| - 1] else passed
    }

    ghost predicate Valid()
      reads this, pcfr
    {
      && Sent()
      && arcFrames == pcfr.Length && 1 <= arcFrames && Unused()
      && (totalFrames > 0 ==> series != [] && Holds(Archived(series)) && !leaveInBuffer)
      && (totalFrames == 0 ==> series == []) && (leaveInBuffer ==> incremental)
    }

    constructor (frames: nat, inc: bool)
      requires 1 <= frames
      ensures Valid() && fresh(pcfr) && series == [] && totalFrames == 0 && written == [] && arcFrames == frames
      ensures AllRecords() == []
    {
      arcFrames, incremental, pcfr := frames, inc, new Cell[frames](_ => CLEARED);
      totalFrames, blockettes, nextBlockette, firstData, frameCount, behind := 0, 0, 0, 0, 0, 0;
      appended, existingRecord, leaveInBuffer, written, series, passed := false, false, false, [], [], [];
    }

    /** The header as it is stored in front of the frames. */
    function Head(): Cell
      reads `blockettes, `nextBlockette, `firstData, `frameCount
    {
      Header(blockettes, nextBlockette, firstData, frameCount)
    }

    method Clear()
      requires arcFrames == pcfr.Length
      modifies this`appended, this`existingRecord, this`totalFrames, this`blockettes, this`nextBlockette
      modifies this`firstData, this`frameCount, this`series, pcfr
      ensures totalFrames == 0 && series == [] && !appended && !existingRecord && Unused()
    {
      appended, existingRecord, totalFrames := false, false, 0;
      forall k | 0 <= k < pcfr.Length {
        pcfr[k] := CLEARED;
      }
      blockettes, nextBlockette, firstData, frameCount, series := 0, 0, 0, 0, [];
    }

    /** Puts the header in front of the frames. */
    method StoreHeader()
      requires 1 <= totalFrames <= arcFrames == pcfr.Length && Unused()
      modifies pcfr
      ensures pcfr[..totalFrames] == old([Head()] + pcfr[1..totalFrames]) && Unused()
      ensures forall c | old(Holds(c)) :: Holds(c)
    {
      ghost var before := pcfr[..];
      pcfr[0] := Head();
      assert pcfr[1..totalFrames] == before[1..totalFrames];
      forall c | old(Holds(c))
        ensures Holds(c)
      {
        assert pcfr[1..1 + blockettes] == before[1..1 + blockettes];
        assert pcfr[1 + blockettes..totalFrames] == before[1 + blockettes..totalFrames];
      }
    }

    /** Gives the record to the other side. */
    method PassOn(action: Action)
      requires totalFrames <= pcfr.Length && Sent() && CellsHold(pcfr[..totalFrames], Archived(series))
      requires action in (if existingRecord then {INC, FINAL} else {ARC, FIRST})
      modifies this`written, this`passed
      ensures written == old(written) + [(action, pcfr[..totalFrames])] && HasAll(Received(written), passed)
      ensures passed == old(Closed()) + [series]
    {
      hide Archived, CellsHold, HasAll, Received;
      ReceivedMore(written, action, pcfr[..totalFrames], passed, series);
      passed := Closed() + [series];
      written := written + [(action, pcfr[..totalFrames])];
    }

    /** Passes the record on, unless the other side has it already, and then clears the buffer
        or keeps the record there as one that can be written over.  A record with an impossible
        time is given up. */
    method Flush(possibleTime: bool)
      requires arcFrames == pcfr.Length && 1 <= arcFrames && totalFrames <= arcFrames && Unused()
      requires totalFrames > 0 ==> series != [] && Holds(Archived(series))
      requires (totalFrames == 0 ==> series == []) && (leaveInBuffer ==> incremental) && Sent()
      modifies this, pcfr
      ensures old(written) <= written
      ensures arcFrames == pcfr.Length && (possibleTime && old(totalFrames) > 0 ==> !leaveInBuffer)
      ensures possibleTime && old(totalFrames) > 0 && (old(appended) || !old(existingRecord)) ==>
        && |written| == |old(written)| + 1 && written[|old(written)|].1 == old([Head()] + pcfr[1..totalFrames])
        && written[|old(written)|].0 == ActionFor(old(existingRecord), old(leaveInBuffer))
        && (written[|old(written)|].0 in {ARC, FIRST} <==> !old(existingRecord))
        && (written[|old(written)|].0 in {ARC, FINAL} <==> totalFrames == 0)
      ensures !(possibleTime && old(totalFrames) > 0 && (old(appended) || !old(existingRecord))) ==>
        written == old(written)
      ensures possibleTime && old(leaveInBuffer) && old(totalFrames) > 0 && (old(appended) || !old(existingRecord)) ==>
        Valid() && series == old(series) && totalFrames == old(totalFrames) && existingRecord && !appended
      ensures !possibleTime || !old(leaveInBuffer) || old(totalFrames == 0) || old(!appended && existingRecord) ==>
        Valid() && series == [] && totalFrames == 0
      ensures possibleTime ==> AllRecords() == old(AllRecords())
    {
      hide Archived, CellsHold, HasAll, Received, Together, LinkedCells, DataCells, Spare;
      if totalFrames > 0 {
        BufferHolds(Archived(series));
        TogetherMore(Closed(), series);
      }
      if !possibleTime || totalFrames == 0 {
        Clear();
        return;
      }
      StoreHeader();
      var action;
      if existingRecord {
        if appended {
          action := if leaveInBuffer then INC else FINAL;
        } else {
          leaveInBuffer := false;
          assert passed == Closed() + [series];
          Clear();
          return;
        }
      } else {
        action := if leaveInBuffer then FIRST else ARC;
      }
      ghost var closed := Closed();
      PassOn(action);
      assert passed[..|passed| - 1] == closed;
      if leaveInBuffer {
        existingRecord := true;
      } else {
        Clear();
      }
      leaveInBuffer := false;
      appended := false;
    }

    /** Moves the frames from place `a` on back by `d` places; the header's offset of the data goes up
        only when there are any. */
    method ShiftBack(a: nat, d: nat)
      requires a <= totalFrames && totalFrames + d <= pcfr.Length
      modifies this`firstData, pcfr
      ensures firstData == old(firstData) + if totalFrames > a then FRAME_SIZE * d else 0
      ensures Moved(old(pcfr[..]), pcfr[..], a, totalFrames, d)
    {
      if totalFrames > a {
        forall k | a + d <= k < totalFrames + d {
          pcfr[k] := pcfr[k - d];
        }
        firstData := firstData + d * FRAME_SIZE;
      }
    }

    /** Copies frames to place `a`. */
    method PutCells(a: nat, cells: seq<Cell>)
      requires a + |cells| <= pcfr.Length
      modifies pcfr
      ensures PutAt(old(pcfr[..]), pcfr[..], a, cells)
    {
      forall k | a <= k < a + |cells| {
        pcfr[k] := cells[k - a];
      }
    }

    /** Makes room behind the blockettes and copies new ones there. */
    method MoveIn(cells: seq<Cell>)
      requires totalFrames + |cells| <= arcFrames == pcfr.Length && 1 + blockettes <= totalFrames && Unused()
      modifies this`totalFrames, this`blockettes, this`firstData, pcfr
      ensures firstData
        == old(firstData) + if old(totalFrames) > 1 + old(blockettes) then FRAME_SIZE * |cells| else 0
      ensures totalFrames == old(totalFrames) + |cells| && blockettes == old(blockettes) + |cells| && Unused()
      ensures pcfr[1..1 + blockettes] == old(pcfr[1..1 + blockettes]) + cells
      ensures pcfr[1 + blockettes..totalFrames] == old(pcfr[1 + blockettes..totalFrames])
    {
      hide Spare, Moved, PutAt;
      var dbcnt, bcnt := blockettes, |cells|;
      ghost var before, n := pcfr[..], totalFrames;
      ShiftBack(1 + dbcnt, bcnt);
      ghost var moved := pcfr[..];
      PutCells(1 + dbcnt, cells);
      ghost var after := pcfr[..];
      MovedIn(before, moved, after, 1 + dbcnt, n, cells);
      blockettes := dbcnt + bcnt;
      totalFrames := totalFrames + bcnt;
      StillSpare(before, n, after, totalFrames);
    }

    /** Sets the links of all blockettes but the last. */
    method LinkAll(ghost blks: seq<int>)
      requires 1 <= blockettes && 1 + blockettes <= pcfr.Length && AllRelinked(pcfr[1..1 + blockettes], blks, 1)
      modifies pcfr
      ensures LinkedCells(pcfr[1..1 + blockettes], blks)
      ensures forall k | 1 + blockettes <= k < pcfr.Length :: pcfr[k] == old(pcfr[k])
    {
      hide Relinked, LinkedCells;
      ghost var view := pcfr[1..1 + blockettes];
      var i := 1;
      while i < blockettes
        invariant 1 <= i <= blockettes == |view| && pcfr[1..1 + blockettes] == view && AllRelinked(view, blks, i)
        invariant forall k | 1 + blockettes <= k < pcfr.Length :: pcfr[k] == old(pcfr[k])
      {
        assert view[i - 1] == pcfr[i];
        NextLink(view, blks, i, i + 1);
        pcfr[i] := pcfr[i].(next := FRAME_SIZE * (i + 1));
        view := view[i - 1 := pcfr[i]];
        i := i + 1;
      }
      AllLinked(view, blks);
    }

    /** Inserts blockettes before the data frames and links them all. */
    method InsertBlockettes(cells: seq<Cell>, ghost r: Record, ghost c: Contents)
      requires LinkedCells(cells, r.blks) && cells != [] && Holds(c) && totalFrames + |cells| <= arcFrames && Unused()
      modifies this`totalFrames, this`blockettes, this`nextBlockette, this`firstData, pcfr
      ensures Holds(Contents(c.blks + r.blks, c.data, DataMoved(c, r)))
      ensures totalFrames == old(totalFrames) + |cells| && Unused()
    {
      hide Relinked, LinkedCells, DataCells, Spare, AllRelinked;
      LinkedSize(pcfr[1..1 + blockettes], c.blks);
      LinkedSize(cells, r.blks);
      StartLinks(pcfr[1..1 + blockettes], c.blks, cells, r.blks);
      MoveIn(cells);
      nextBlockette := FRAME_SIZE;
      ghost var before := pcfr[..];
      LinkAll(c.blks + r.blks);
      SameBehind(before, pcfr[..], 1 + blockettes, totalFrames);
    }

    /** Appends data frames. */
    method AppendFrames(frames: seq<Cell>, ghost r: Record, ghost c: Contents)
      requires Holds(c) && DataCells(frames, r.data) && totalFrames + |frames| <= arcFrames && Unused()
      modifies this`totalFrames, this`frameCount, pcfr
      ensures Holds(Contents(c.blks, c.data + r.data, c.firstData))
      ensures totalFrames == old(totalFrames) + |frames| && Unused()
    {
      hide Spare, DataCells, LinkedCells, PutAt;
      ghost var before, n := pcfr[..], totalFrames;
      PutCells(totalFrames, frames);
      ghost var after := pcfr[..];
      BehindAll(before, after, 1 + blockettes, n, frames);
      totalFrames := totalFrames + |frames|;
      frameCount := frameCount + |frames|;
      StillSpare(before, n, after, totalFrames);
      MoreData(before[1 + blockettes..n], c.data, frames, r.data);
    }

    /** Copies the word for the last sample to where the first data frame has it; without one that
        is in the frame not used yet, or behind the buffer when blockettes fill it. */
    method CopyLast(last: Word, ghost c: Contents)
      requires Holds(c) && Unused()
      modifies this`behind, pcfr
      ensures Holds(Contents(c.blks, Ending(c.data, last), c.firstData)) && Unused()
      ensures var at := 1 + blockettes; at < arcFrames ==>
        && old(pcfr[at]).DataFrame? && pcfr[at] == DataFrame(old(pcfr[at]).f[2 := last]) && behind == old(behind)
        && forall k | 0 <= k < arcFrames && k != at :: pcfr[k] == old(pcfr[k])
      ensures 1 + blockettes == arcFrames ==> behind == last && pcfr[..] == old(pcfr[..])
    {
      hide Spare, LinkedCells, DataCells, Ending;
      var at := 1 + blockettes;
      ghost var before := pcfr[..];
      if at < arcFrames {
        LastSet(before, at, totalFrames, c.data, last);
        pcfr[at] := DataFrame(pcfr[at].f[2 := last]);
        assert pcfr[..] == before[at := DataFrame(before[at].f[2 := last])];
      } else {
        NoneEnding(c.data, last);
        behind := last;
      }
    }

    ghost predicate InBuffer(all: seq<Record>)
      reads this
    {
      totalFrames > 0 && series == all
    }

    ghost predicate PassedOn(all: seq<Record>)
      reads this
    {
      totalFrames == 0 && series == [] && written != [] && CellsHold(written[|written| - 1].1, Archived(all))
    }

    /** The blockettes and then the data frames of one more record. */
    method ExtendFrames(cells: seq<Cell>, bcnt: nat, fcnt: nat, ghost r: Record, ghost c: Contents)
      requires RecordOk(r, cells) && bcnt == |r.blks| && fcnt == |r.data|
      requires Holds(c) && totalFrames + bcnt + fcnt <= arcFrames && Unused()
      modifies this`totalFrames, this`blockettes, this`nextBlockette, this`firstData, this`frameCount, pcfr
      ensures Holds(Contents(c.blks + r.blks, c.data + r.data, DataMoved(c, r))) && Unused()
    {
      hide LinkedCells, DataCells;
      ghost var d := Contents(c.blks + r.blks, c.data, DataMoved(c, r));
      if bcnt > 0 {
        InsertBlockettes(cells[..bcnt], r, c);
      } else {
        assert d == c;
      }
      if fcnt > 0 {
        AppendFrames(cells[bcnt..], r, d);
      } else {
        assert Contents(d.blks, d.data + r.data, d.firstData) == d;
      }
    }

    /** Puts one more record behind what is there. */
    method Extend(cells: seq<Cell>, bcnt: nat, fcnt: nat, beyond: Word, ghost r: Record)
      requires RecordOk(r, cells) && bcnt == |r.blks| && fcnt == |r.data| && beyond == r.beyond
      requires totalFrames > 1 && series != [] && Holds(Archived(series)) && totalFrames + bcnt + fcnt <= arcFrames
      requires Unused()
      modifies this`behind, this`totalFrames, this`blockettes, this`nextBlockette, this`firstData, this`frameCount
      modifies this`appended, this`series, pcfr
      ensures series == old(series) + [r] && Holds(Archived(series)) && appended && Unused()
    {
      hide LinkedCells, DataCells, Ending, Archived, Spare, Holds;
      ghost var c := Archived(series);
      ExtendFrames(cells, bcnt, fcnt, r, c);
      appended := true;
      LastOfRecord(r, cells, fcnt);
      CopyLast(if fcnt > 0 then cells[bcnt].f[2] else beyond,
        Contents(c.blks + r.blks, c.data + r.data, DataMoved(c, r)));
      ArchivedMore(series, r);
      series := series + [r];
    }

    /** Starts over with a record and its header, as they are. */
    method StartNew(cells: seq<Cell>, bcnt: nat, fcnt: nat, first: int, ghost r: Record)
      requires RecordOk(r, cells) && bcnt == |r.blks| && fcnt == |r.data| && 1 + bcnt + fcnt <= arcFrames == pcfr.Length
      requires Unused() && totalFrames <= 1 && first == Behind(bcnt)
      modifies this`totalFrames, this`blockettes, this`nextBlockette, this`firstData, this`frameCount, this`appended
      modifies this`existingRecord, this`series, pcfr
      ensures series == [r] && Holds(Archived(series)) && appended && !existingRecord && Unused()
    {
      hide LinkedCells, DataCells, Spare, PutAt, Archived;
      ghost var before, n := pcfr[..], totalFrames;
      PutCells(1, cells);
      OnlyRecord(before, pcfr[..], n, cells, r);
      blockettes, nextBlockette, firstData, frameCount := bcnt, if bcnt > 0 then FRAME_SIZE else 0, first, fcnt;
      totalFrames := 1 + bcnt + fcnt;
      appended, existingRecord := true, false;
      series := [r];
    }

    /** Joins a record to those in the buffer, and passes them on when this is full and in incremental
        mode after every change. */
    method AppendRecord(cells: seq<Cell>, bcnt: nat, fcnt: nat, beyond: Word, possibleTime: bool, ghost r: Record)
      requires Valid() && RecordOk(r, cells) && bcnt == |r.blks| && fcnt == |r.data| && beyond == r.beyond
      requires totalFrames > 1 && bcnt + fcnt + totalFrames <= arcFrames
      modifies this, pcfr
      ensures Valid() && old(written) <= written && (series != [] ==> totalFrames < arcFrames)
      ensures possibleTime ==> InBuffer(old(series) + [r]) || PassedOn(old(series) + [r])
      ensures possibleTime ==> AllRecords() == old(AllRecords()) + [r]
    {
      hide Archived, LinkedCells, DataCells, HasAll, Received, CellsHold, Together, Spare, RecordOk;
      Extend(cells, bcnt, fcnt, beyond, r);
      assert AllRecords() == old(AllRecords()) + [r];
      BufferHolds(Archived(series));
      if totalFrames >= arcFrames {
        Flush(possibleTime);
      } else if incremental {
        leaveInBuffer := true;
        Flush(possibleTime);
      }
    }

    /** Starts over with a record, which in incremental mode is passed on at once. */
    method NewRecord(cells: seq<Cell>, bcnt: nat, fcnt: nat, first: int, possibleTime: bool, ghost r: Record)
      requires Valid() && RecordOk(r, cells) && bcnt == |r.blks| && fcnt == |r.data| && first == Behind(bcnt)
      requires totalFrames <= 1 && 1 + bcnt + fcnt <= arcFrames
      modifies this, pcfr
      ensures Valid() && old(written) <= written && (possibleTime ==> InBuffer([r]) || PassedOn([r]))
      ensures possibleTime && old(totalFrames) == 0 ==> AllRecords() == old(AllRecords()) + [r]
    {
      hide Archived, LinkedCells, DataCells, HasAll, Received, CellsHold, Together, Spare, RecordOk;
      StartNew(cells, bcnt, fcnt, first, r);
      assert old(totalFrames) == 0 ==> AllRecords() == old(AllRecords()) + [r];
      if incremental {
        leaveInBuffer := true;
        Flush(possibleTime);
      }
    }

    /** Archives a finished record: behind those in the buffer when they fit and there is no
        gap in time, otherwise in a record of its own, after the old one has been passed on.
        A full record is passed on, and in incremental mode every change. */
    method ArchiveRecord(cells: seq<Cell>, bcnt: nat, fcnt: nat, first: int, beyond: Word, gap: bool,
                         possibleTime: bool, ghost r: Record)
        returns (ghost joined: bool)
      requires Valid() && RecordOk(r, cells) && bcnt == |r.blks| && fcnt == |r.data| && beyond == r.beyond
      requires 1 + bcnt + fcnt <= arcFrames && first == Behind(bcnt)
      modifies this, pcfr
      ensures Valid() && old(written) <= written
      ensures joined <==> old(totalFrames) > 1 && bcnt + fcnt + old(totalFrames) <= arcFrames && !gap
      // the records put together are in the buffer, or the record passed on last has them
      ensures possibleTime ==>
        InBuffer((if joined then old(series) else []) + [r]) || PassedOn((if joined then old(series) else []) + [r])
      ensures joined && series != [] ==> totalFrames < arcFrames
      // every record is at the other side or in the buffer, in order and once; only one without
      // blockettes and data frames goes when the next one comes
      ensures possibleTime && old(totalFrames) != 1 ==> AllRecords() == old(AllRecords()) + [r]
      // what was in the buffer before has been passed on, unless the other side had it already
      ensures possibleTime && !joined && old(totalFrames) > 1 && (old(appended) || !old(existingRecord)) ==>
        |written| > |old(written)| && CellsHold(written[|old(written)|].1, old(Archived(series)))
    {
      hide Archived, LinkedCells, DataCells, HasAll, Received, CellsHold, Together, Spare, RecordOk;
      assert [] + [r] == [r];
      joined := totalFrames > 1 && bcnt + fcnt + totalFrames <= arcFrames && !gap;
      if totalFrames > 1 {
        if bcnt + fcnt + totalFrames > arcFrames || gap {
          BufferHolds(Archived(series));
          Flush(possibleTime);
        }
      }
      if totalFrames > 1 {
        AppendRecord(cells, bcnt, fcnt, beyond, possibleTime, r);
      } else {
        NewRecord(cells, bcnt, fcnt, first, possibleTime, r);
      }
    }

    lemma BufferHolds(c: Contents)
      requires Holds(c)
      ensures CellsHold([Head()] + pcfr[1..totalFrames], c)
    {
      var rest := pcfr[1..totalFrames];
      var cells := [Head()] + rest;
      assert cells[1..] == rest;
      assert cells[1..1 + blockettes] == rest[..blockettes] == pcfr[1..1 + blockettes];
      assert cells[1 + blockettes..] == rest[blockettes..] == pcfr[1 + blockettes..totalFrames];
    }
  }

  lemma LastOfRecord(r: Record, cells: seq<Cell>, fcnt: nat)
    requires RecordOk(r, cells) && fcnt == |r.data|
    ensures fcnt > 0 ==> cells[|r.blks|] == DataFrame(r.data[0]) && LastSample(r) == cells[|r.blks|].f[2]
    ensures fcnt == 0 ==> LastSample(r) == r.beyond
  {
    if fcnt > 0 {
      assert cells[|r.blks|] == cells[|r.blks|..][0];
    }
  }

  lemma ArchivedMore(series: seq<Record>, r: Record)
    requires series != []
    ensures var c := Archived(series);
      Archived(series + [r])
        == Contents(c.blks + r.blks, Ending(c.data + r.data, LastSample(r)), DataMoved(c, r))
  {
    assert (series + [r])[..|series|] == series;
  }
}
