/** Archive records: several finished records put together, the blockettes of all of them first
    and then the data frames of all of them. */
module ArchiveModel {
  import opened SteimModel
  import opened SteimCodec
  import opened SteimFrames
  import opened Steim
  import opened SteimRecords
  import opened Options

  /** The last sample as the record has it. */
  function LastSample(r: Record): Word {
    if r.data == [] then r.beyond else r.data[0][2]
  }

  /** Blockettes, data frames and the byte at which the header says that the data begin. */
  datatype Contents = Contents(blks: seq<int>, data: seq<Frame>, firstData: int)

  /** Data frames with the word for the last sample changed. */
  function Ending(data: seq<Frame>, last: Word): (d: seq<Frame>)
    ensures |d| == |data|
  {
    if data == [] then [] else [data[0][2 := last]] + data[1..]
  }

  /** The byte at which the frame behind `n` blockettes begins. */
  function Behind(n: nat): int {
    FRAME_SIZE * (1 + n)
  }

  /** The offset of the data after blockettes of one more record have been put in front of them: it
      goes up only when there were data frames to be moved. */
  function DataMoved(c: Contents, r: Record): int {
    c.firstData + if r.blks != [] && c.data != [] then FRAME_SIZE * |r.blks| else 0
  }

  /** What an archive holds after a series of records. */
  function Archived(series: seq<Record>): Contents {
    if series == [] then Contents([], [], Behind(0))
    else
      var n := |series| - 1;
      var r, c := series[n], Archived(series[..n]);
      if n == 0 then Contents(r.blks, r.data, Behind(|r.blks|))
      else Contents(c.blks + r.blks, Ending(c.data + r.data, LastSample(r)), DataMoved(c, r))
  }

  /** Blockettes come only with the first record or when there are data frames already. */
  predicate OnlyBehindData(series: seq<Record>) {
    forall k | 0 < k < |series| && series[k].blks != [] :: AllData(series[..k]) != []
  }

  lemma {:induction false} OnlyBehindMore(series: seq<Record>)
    requires series != []
    ensures var n := |series| - 1;
      OnlyBehindData(series)
      <==> OnlyBehindData(series[..n]) && (n == 0 || series[n].blks == [] || AllData(series[..n]) != [])
  {
    hide AllData;
    var n := |series| - 1;
    assert forall k | 0 < k < n :: series[..n][..k] == series[..k];
  }

  /** The header leads to the data exactly when no blockettes came in front of no data; otherwise it
      leads to one of the blockettes. */
  lemma {:induction false} FirstDataExact(series: seq<Record>)
    ensures var c := Archived(series);
      && exists i | 0 <= i <= |c.blks| :: c.firstData == Behind(i) && (i == |c.blks| <==> OnlyBehindData(series))
    decreases |series|
  {
    if series != [] {
      var n := |series| - 1;
      FirstDataExact(series[..n]);
      HoldsAll(series[..n]);
      OnlyBehindMore(series);
      if n == 0 {
        assert Archived(series).firstData == Behind(|series[0].blks|);
      } else {
        var c, r := Archived(series[..n]), series[n];
        var i :| 0 <= i <= |c.blks| && c.firstData == Behind(i) && (i == |c.blks| <==> OnlyBehindData(series[..n]));
        var j := if r.blks != [] && c.data != [] then i + |r.blks| else i;
        assert Archived(series).firstData == Behind(j);
      }
    } else {
      assert Archived(series).firstData == Behind(0);
    }
  }

  /** The smallest such series: the data are behind two blockettes, the header leads to the second. */
  lemma FirstDataBehind(f: Frame, x: Word)
    ensures var c := Archived([Record([1], [], x), Record([2], [f], x)]);
      c.blks == [1, 2] && c.firstData == 128 && Behind(|c.blks|) == 192
  {
    var series := [Record([1], [], x), Record([2], [f], x)];
    assert series[..1] == [series[0]] && series[..1][..0] == [];
  }

  // ----- the frames of an archive

  /** A frame of memory: the header, a blockette with its link, or a data frame. */
  datatype Cell = Header(blockettes: nat, first: int, firstData: int, frames: nat)
    | Blockette(body: int, next: int) | DataFrame(f: Frame)

  /** Blockettes linked in order, the last one to nothing. */
  ghost predicate LinkedCells(cells: seq<Cell>, blks: seq<int>) {
    && |cells| == |blks|
    && forall k | 0 <= k < |cells| :: cells[k] == Blockette(blks[k], if k + 1 < |blks| then FRAME_SIZE * (k + 2) else 0)
  }

  ghost predicate DataCells(cells: seq<Cell>, data: seq<Frame>) {
    |cells| == |data| && forall k | 0 <= k < |cells| :: cells[k] == DataFrame(data[k])
  }

  /** Frames passed on: one for the header, the linked blockettes and the data frames. */
  ghost predicate CellsHold(cells: seq<Cell>, c: Contents) {
    && |cells| == 1 + |c.blks| + |c.data|
    && cells[0] == Header(|c.blks|, if |c.blks| > 0 then FRAME_SIZE else 0, c.firstData, |c.data|)
    && LinkedCells(cells[1..1 + |c.blks|], c.blks) && DataCells(cells[1 + |c.blks|..], c.data)
  }

  /** The data frames in some cells, if they are nothing else. */
  function Frames(cells: seq<Cell>): Option<seq<Frame>> {
    if cells == [] then Some([])
    else
      var n := |cells| - 1;
      if !cells[n].DataFrame? || Frames(cells[..n]).None? then None else Some(Frames(cells[..n]).value + [cells[n].f])
  }

  /** What a reader takes for the data: from where the header says they begin, as many frames as it
      counts. */
  function Found(cells: seq<Cell>): Option<seq<Frame>> {
    if cells == [] || !cells[0].Header? then None
    else
      var i := cells[0].firstData / FRAME_SIZE;
      if 0 <= i <= i + cells[0].frames <= |cells| then Frames(cells[i..i + cells[0].frames]) else None
  }

  lemma {:induction false} FramesOfData(cells: seq<Cell>, data: seq<Frame>)
    requires DataCells(cells, data)
    ensures Frames(cells) == Some(data)
    decreases |cells|
  {
    if cells != [] {
      var n := |cells| - 1;
      FramesOfData(cells[..n], data[..n]);
      assert data == data[..n] + [data[n]];
    }
  }

  lemma {:induction false} FramesWithBlockette(cells: seq<Cell>, k: nat)
    requires k < |cells| && cells[k].Blockette?
    ensures Frames(cells) == None
    decreases |cells|
  {
    if k < |cells| - 1 {
      FramesWithBlockette(cells[..|cells| - 1], k);
    }
  }

  /** A reader finds the data where the header leads to them or has none to count, and otherwise a
      blockette in their place. */
  lemma FoundExact(cells: seq<Cell>, c: Contents, i: nat)
    requires CellsHold(cells, c) && i <= |c.blks| && c.firstData == Behind(i)
    ensures Found(cells) == if i == |c.blks| || c.data == [] then Some(c.data) else None
  {
    var found := cells[1 + i..1 + i + |c.data|];
    if i == |c.blks| {
      assert found == cells[1 + |c.blks|..];
      FramesOfData(found, c.data);
    } else if c.data != [] {
      assert found[0] == cells[1..1 + |c.blks|][i];
      FramesWithBlockette(found, 0);
    }
  }

  function AllData(series: seq<Record>): seq<Frame> {
    if series == [] then [] else AllData(series[..|series| - 1]) + series[|series| - 1].data
  }

  /** Frames that are the same but for the word for the last sample in the first one. */
  predicate SameButLast(a: seq<Frame>, b: seq<Frame>) {
    && |a| == |b| && (a != [] ==> a[1..] == b[1..])
    && forall w | 0 <= w < WORDS_PER_FRAME && w != 2 && a != [] :: a[0][w] == b[0][w]
  }

  /** The archive holds the blockettes of all the records and then their data frames, each in
      order; only the word for the last sample is not that of the first record. */
  lemma {:induction false} HoldsAll(series: seq<Record>)
    ensures Archived(series).blks == AllBlockettes(series)
    ensures Archived(series).data == [] <==> AllData(series) == []
    ensures SameButLast(Archived(series).data, AllData(series))
    decreases |series|
  {
    if series != [] {
      var n := |series| - 1;
      HoldsAll(series[..n]);
      if n == 0 {
        assert series[..0] == [] && [] + series[0].blks == series[0].blks && [] + series[0].data == series[0].data;
      } else {
        var c, d, r := Archived(series[..n]).data, AllData(series[..n]), series[n].data;
        EndingSame(c + r, LastSample(series[n]));
        if c != [] {
          assert (c + r)[1..] == c[1..] + r && (d + r)[1..] == d[1..] + r;
        } else {
          assert c + r == r && d + r == r;
        }
      }
    }
  }

  lemma EndingSame(data: seq<Frame>, last: Word)
    ensures SameButLast(Ending(data, last), data)
  {
    if data != [] {
      assert Ending(data, last)[1..] == data[1..];
    }
  }

  // ----- what a reader of the archive gets

  lemma BeforeAtMost(n: nat, flag: Word)
    requires 1 <= n <= 13 && AtMost(n, flag)
    ensures AtMost(n - 1, Before(flag))
  {
    match n
    case 1 => case 2 => case 3 => case 4 => case 5 => case 6 => case 7 => case 8 => case 9 => case 10 =>
    case 11 => case 12 => case _ =>
  }

  lemma {:induction false} NoMoreCodes(flag: Word, n: nat)
    requires n <= 13 && AtMost(n, flag)
    ensures CodesOf(flag, n + 2) == [0, 0] + CodesOf(flag, n)
    decreases n
  {
    hide AtMost, Before, Lowest;
    if n == 0 {
      NoFlag(flag);
    } else {
      BeforeAtMost(n, flag);
      NoMoreCodes(Before(flag), n - 1);
    }
  }

  lemma NoFlag(flag: Word)
    requires AtMost(0, flag)
    ensures CodesOf(flag, 2) == [0, 0] && CodesOf(flag, 0) == []
  {
    hide Before, Lowest;
    ZeroFlag();
    assert CodesOf(0, 1) == [0];
  }

  lemma ZeroFlag()
    ensures Before(0) == 0 && Lowest(0) == 0
  {
  }

  /** Read as a later frame, the first frame of a record has the same words with samples. */
  lemma StartRead(f: Frame)
    requires StartsRecord(f)
    ensures Data(FramePairs(f, 1)) == Data(FramePairs(f, 3))
  {
    hide AtMost, CodesOf, FramePairs;
    assert Data(FramePairs(f, 1)) == Data(FramePairs(f, 3)) by {
      NoMoreCodes(f[0], 13);
      StartPairs(f, CodesOf(f[0], 13));
    }
  }

  lemma StartPairs(f: Frame, codes: seq<Word>)
    requires CodesOf(f[0], 15) == [0, 0] + codes && codes == CodesOf(f[0], 13)
    ensures Data(FramePairs(f, 1)) == Data(FramePairs(f, 3))
  {
    hide CodesOf, Data;
    var front := [Pair(0, f[1]), Pair(0, f[2])];
    assert FramePairs(f, 1) == front + FramePairs(f, 3);
    DataAppend(front, FramePairs(f, 3));
    DataNone(front);
    assert [] + Data(FramePairs(f, 3)) == Data(FramePairs(f, 3));
  }

  /** The words with samples of two series of frames, one behind the other. */
  lemma {:induction false} PairsAppend(a: seq<Frame>, b: seq<Frame>)
    requires a != [] && b != [] && StartsRecord(b[0])
    ensures Data(RecordPairs(a + b)) == Data(RecordPairs(a)) + Data(RecordPairs(b))
    decreases |b|
  {
    hide FramePairs, Data, AtMost;
    var n := |b| - 1;
    assert (a + b)[..|a + b| - 1] == a + b[..n] && (a + b)[|a + b| - 1] == b[n];
    DataAppend(RecordPairs(a + b[..n]), FramePairs(b[n], 1));
    if n == 0 {
      assert b[..0] == [] && a + b[..0] == a;
      StartRead(b[0]);
      DataAppend([], FramePairs(b[0], 3));
      assert RecordPairs(b) == [] + FramePairs(b[0], 3);
      NoData();
      assert [] + Data(FramePairs(b[0], 3)) == Data(FramePairs(b[0], 3));
    } else {
      PairsAppend(a, b[..n]);
      DataAppend(RecordPairs(b[..n]), FramePairs(b[n], 1));
    }
  }

  lemma NoData()
    ensures Data([]) == []
  {
  }

  lemma ReadsUnpacked(rec: seq<Frame>, xs: seq<Word>)
    requires Reads(rec, xs)
    ensures var ds := Unpacked(Data(RecordPairs(rec)));
      ds != [] && xs == [rec[0][1]] + Sums(rec[0][1], ds[1..])
  {
  }

  /** The differences of two series of frames. */
  lemma DifferencesAppend(a: seq<Frame>, b: seq<Frame>, last: Word)
    requires a != [] && b != [] && StartsRecord(b[0])
    ensures Unpacked(Data(RecordPairs(Ending(a + b, last))))
      == Unpacked(Data(RecordPairs(a))) + Unpacked(Data(RecordPairs(b)))
  {
    hide Data, RecordPairs, Unpacked, StartsRecord;
    LastSampleApart(a + b, last);
    PairsAppend(a, b);
    UnpackedAppend(Data(RecordPairs(a)), Data(RecordPairs(b)));
  }

  /** Two records that follow one another are read from the archive as one. */
  lemma ArchiveReads(a: seq<Frame>, xs: seq<Word>, b: seq<Frame>, ys: seq<Word>)
    requires Reads(a, xs) && Reads(b, ys) && Continues(b, ys, xs[|xs| - 1])
    ensures Reads(Ending(a + b, b[0][2]), xs + ys)
  {
    hide Data, RecordPairs, Unpacked, StartsRecord, Sums, DecodeRecord;
    DifferencesAppend(a, b, b[0][2]);
    ReadsUnpacked(a, xs);
    ReadsUnpacked(b, ys);
    var ds, es := Unpacked(Data(RecordPairs(a))), Unpacked(Data(RecordPairs(b)));
    assert (ds + es)[1..] == ds[1..] + es;
    SumsJoin(a[0][1], ds[1..], xs, es, ys);
    var c := Ending(a + b, b[0][2]);
    assert c[0][0] == a[0][0] && c[0][1] == a[0][1] && c[0][2] == b[0][2];
    SameStart(a[0], c[0]);
    IsRead(c, ds + es, xs + ys);
  }

  lemma IsRead(rec: seq<Frame>, ds: seq<Word>, xs: seq<Word>)
    requires rec != [] && ds != [] && Unpacked(Data(RecordPairs(rec))) == ds && StartsRecord(rec[0])
    requires xs == [rec[0][1]] + Sums(rec[0][1], ds[1..]) && rec[0][2] == xs[|xs| - 1]
    ensures Reads(rec, xs)
  {
    hide Data, RecordPairs, Unpacked, Sums;
  }

  lemma SumsJoin(x: Word, ds: seq<Word>, xs: seq<Word>, es: seq<Word>, ys: seq<Word>)
    requires xs == [x] + Sums(x, ds) && es != [] && ys != [] && es[0] == Minus(ys[0], xs[|xs| - 1])
    requires ys == [ys[0]] + Sums(ys[0], es[1..])
    ensures [x] + Sums(x, ds + es) == xs + ys
  {
    hide Plus, Minus;
    SumsAppend(x, ds, es);
    assert LastOf(x, Sums(x, ds)) == xs[|xs| - 1];
    PlusMinus(xs[|xs| - 1], ys[0]);
    assert Sums(xs[|xs| - 1], es) == [ys[0]] + Sums(ys[0], es[1..]);
  }

  lemma SameStart(f: Frame, g: Frame)
    requires StartsRecord(f) && g[0] == f[0]
    ensures StartsRecord(g)
  {
  }

  /** What an archive of records gives back: their samples, or no data frame when they have none. */
  ghost predicate ReadsAs(data: seq<Frame>, xs: seq<Word>) {
    if xs == [] then data == [] else Reads(data, xs)
  }

  /** A record without data frames leaves the archive's last sample as it was. */
  lemma JoinNone(data: seq<Frame>, xs: seq<Word>, last: Word)
    requires ReadsAs(data, xs) && (xs != [] ==> xs[|xs| - 1] == last)
    ensures Ending(data + [], last) == data
  {
    assert data + [] == data;
    if data != [] {
      assert data[0][2 := last] == data[0];
    }
  }

  /** One more record behind what has been put together. */
  lemma JoinRecord(data: seq<Frame>, xs: seq<Word>, r: Record, ys: seq<Word>, base: Word)
    requires ReadsAs(data, xs) && (xs != [] ==> xs[|xs| - 1] == base) && Filed(r, ys, base)
    ensures ReadsAs(Ending(data + r.data, LastSample(r)), xs + ys)
  {
    hide StartsRecord, DecodeRecord, Continues;
    if r.data == [] {
      JoinNone(data, xs, base);
      assert xs + ys == xs;
    } else if data == [] {
      assert xs == [] && xs + ys == ys;
      StartsSeries(r);
    } else {
      ArchiveReads(data, xs, r.data, ys);
    }
  }

  /** Any series of records that go on from one another, with data frames or without, is read from
      the archive as all their samples in order. */
  lemma {:induction false} SeriesReads(series: seq<Record>, xss: seq<seq<Word>>, bases: seq<Word>, base: Word)
    requires |series| == |xss| && Unbroken(xss, bases, base)
    requires forall k | 0 <= k < |series| :: Filed(series[k], xss[k], bases[k])
    ensures ReadsAs(Archived(series).data, Flat(xss))
    ensures series != [] ==> base == LastOf(bases[0], Flat(xss))
    decreases |series|
  {
    hide Filed, ReadsAs, Unbroken;
    if series == [] {
      NothingReads();
    } else {
      var n := |series| - 1;
      UnbrokenBefore(xss, bases, base);
      SeriesReads(series[..n], xss[..n], bases[..n], bases[n]);
      assert Flat(xss) == Flat(xss[..n]) + xss[n];
      LastOfJoined(bases[0], Flat(xss[..n]), xss[n]);
      if n == 0 {
        NothingReads();
        assert series[..0] == [] && series == [series[0]] && xss[..0] == [] && [] + xss[0] == xss[0];
        JoinRecord([], [], series[0], xss[0], bases[0]);
        StartsSeries(series[0]);
      } else {
        JoinRecord(Archived(series[..n]).data, Flat(xss[..n]), series[n], xss[n], bases[n]);
      }
    }
  }

  lemma LastOfJoined(base: Word, xs: seq<Word>, ys: seq<Word>)
    ensures LastOf(base, xs + ys) == LastOf(LastOf(base, xs), ys)
  {
  }

  lemma NothingReads()
    ensures ReadsAs([], [])
  {
  }

  lemma StartsSeries(r: Record)
    ensures Ending([] + r.data, LastSample(r)) == r.data == Archived([r]).data
  {
    assert [r][..0] == [] && [] + r.data == r.data;
    if r.data != [] {
      assert r.data[0][2 := r.data[0][2]] == r.data[0];
    }
  }

  lemma UnbrokenBefore(xss: seq<seq<Word>>, bases: seq<Word>, base: Word)
    requires Unbroken(xss, bases, base) && xss != []
    ensures |bases| == |xss|
    ensures var n := |xss| - 1; Unbroken(xss[..n], bases[..n], bases[n]) && base == LastOf(bases[n], xss[n])
  {
  }

  lemma {:induction false} NoDataNoSamples(series: seq<Record>, xss: seq<seq<Word>>, bases: seq<Word>)
    requires |series| == |xss| == |bases| && forall k | 0 <= k < |series| :: Filed(series[k], xss[k], bases[k])
    ensures AllData(series) == [] <==> Flat(xss) == []
    decreases |series|
  {
    hide Continues, DecodeRecord, StartsRecord;
    if series != [] {
      var n := |series| - 1;
      NoDataNoSamples(series[..n], xss[..n], bases[..n]);
      assert Filed(series[n], xss[n], bases[n]);
    }
  }

  /** A reader of the frames passed on gets all the samples exactly when blockettes came only with
      the first record or behind data, or there are no samples; otherwise it meets a blockette. */
  lemma SeriesFound(cells: seq<Cell>, series: seq<Record>, xss: seq<seq<Word>>, bases: seq<Word>, base: Word)
    requires CellsHold(cells, Archived(series)) && |series| == |xss| && Unbroken(xss, bases, base)
    requires forall k | 0 <= k < |series| :: Filed(series[k], xss[k], bases[k])
    ensures if OnlyBehindData(series) || Flat(xss) == []
      then Found(cells).Some? && ReadsAs(Found(cells).value, Flat(xss)) else Found(cells).None?
  {
    hide Filed, ReadsAs, Unbroken, Flat, Archived, CellsHold, Found, OnlyBehindData, AllData;
    SeriesReads(series, xss, bases, base);
    SameCount(xss, bases, base);
    NoDataNoSamples(series, xss, bases);
    HoldsAll(series);
    FirstDataExact(series);
    var c := Archived(series);
    var i :| 0 <= i <= |c.blks| && c.firstData == Behind(i) && (i == |c.blks| <==> OnlyBehindData(series));
    FoundExact(cells, c, i);
  }

  lemma SameCount(xss: seq<seq<Word>>, bases: seq<Word>, base: Word)
    requires Unbroken(xss, bases, base)
    ensures |xss| == |bases|
  {
  }

  /** From sample to archive: all samples and blockettes that a channel was fed and has put into
      records are in one archive of them, in order, and a reader finds the samples there unless
      blockettes were put in front of no data. */
  lemma ChannelToArchive(q: Channel, cells: seq<Cell>)
    requires q.Valid() && Unbroken(q.written, q.bases, q.base) && CellsHold(cells, Archived(q.records))
    ensures ReadsAs(Archived(q.records).data, Flat(q.written))
    ensures Archived(q.records).blks == AllBlockettes(q.records)
    ensures if OnlyBehindData(q.records) || Flat(q.written) == []
      then Found(cells).Some? && ReadsAs(Found(cells).value, Flat(q.written)) else Found(cells).None?
  {
    hide Filed, Unbroken, Flat, ReadsAs, Archived, AllBlockettes, CellsHold, Found, OnlyBehindData;
    HoldsAll(q.records);
    SeriesReads(q.records, q.written, q.bases, q.base);
    SeriesFound(cells, q.records, q.written, q.bases, q.base);
  }
}
