/** The threshold detector, which stops at each onset and goes on with the next call. */
module Threshold {
  const MAXLINT: int := 0x7fff_ffff

  /** The limits, the width of the window around them, how long the signal has to stay away
      from them, and the hits that make an onset. */
  datatype Limits = Limits(filhi: int, fillo: int, iwin: int, waitBlk: int, nHits: int)

  datatype Control = Control(overhi: int, overlo: int, waitdly: int, hevon: bool, levon: bool, peakhi: int, peaklo: int)

  /** An onset: whether on the high side, the sample it was found at, and the peak. */
  datatype Onset = Onset(high: bool, sample: nat, peak: int)

  const START: Control := Control(0, 0, 0, false, false, -MAXLINT, MAXLINT)

  /** What one sample does on the high side. */
  function High(p: Limits, c: Control, x: int): Control {
    if x > p.filhi then
      if c.hevon then c.(waitdly := 0)
      else if c.overhi + 1 >= p.nHits then c.(overhi := c.overhi + 1, hevon := true)
      else c.(overhi := c.overhi + 1, waitdly := 0)
    else if c.hevon && x < p.filhi - p.iwin then
      if c.waitdly + 1 > p.waitBlk then c.(waitdly := c.waitdly + 1, peakhi := -MAXLINT, overhi := 0, hevon := false)
      else c.(waitdly := c.waitdly + 1)
    else c
  }

  function Low(p: Limits, c: Control, x: int): Control {
    if x < p.fillo then
      if c.levon then c.(waitdly := 0)
      else if c.overlo + 1 >= p.nHits then c.(overlo := c.overlo + 1, levon := true)
      else c.(overlo := c.overlo + 1, waitdly := 0)
    else if c.levon && x > p.fillo + p.iwin then
      if c.waitdly + 1 > p.waitBlk then c.(waitdly := c.waitdly + 1, peaklo := MAXLINT, overlo := 0, levon := false)
      else c.(waitdly := c.waitdly + 1)
    else c
  }

  function Peaks(c: Control, x: int): Control {
    var high := if x > c.peakhi then c.(peakhi := x) else c;
    if x < high.peaklo then high.(peaklo := x) else high
  }

  /** What one sample does: an onset on the high side leaves the low side out. */
  function Step(p: Limits, c: Control, x: int): Control {
    var peaks := Peaks(c, x);
    var high := High(p, peaks, x);
    if !c.hevon && high.hevon then high else Low(p, high, x)
  }

  /** The onset a sample makes: one side that was off is on. */
  function OnsetAt(c: Control, c': Control, k: nat): seq<Onset> {
    if !c.hevon && c'.hevon then [Onset(true, k, c'.peakhi)]
    else if !c.levon && c'.levon then [Onset(false, k, c'.peaklo)]
    else []
  }

  /** The state after the samples, taken one after the other. */
  function Fold(p: Limits, c: Control, xs: seq<int>): Control {
    if xs == [] then c else Step(p, Fold(p, c, xs[..|xs| - 1]), xs[|xs| - 1])
  }

  /** The onsets in the samples. */
  function Onsets(p: Limits, c: Control, xs: seq<int>): seq<Onset> {
    if xs == [] then []
    else
      var n := |xs| - 1;
      Onsets(p, c, xs[..n]) + OnsetAt(Fold(p, c, xs[..n]), Fold(p, c, xs), n)
  }

  lemma Next(p: Limits, c: Control, xs: seq<int>, k: nat)
    requires k < |xs|
    ensures Fold(p, c, xs[..k + 1]) == Step(p, Fold(p, c, xs[..k]), xs[k])
    ensures Onsets(p, c, xs[..k + 1])
      == Onsets(p, c, xs[..k]) + OnsetAt(Fold(p, c, xs[..k]), Fold(p, c, xs[..k + 1]), k)
  {
    assert xs[..k + 1][..k] == xs[..k];
  }

  /** Neither side switches the other one. */
  lemma Sides(p: Limits, c: Control, x: int)
    ensures High(p, c, x).levon == c.levon && High(p, c, x).peaklo == c.peaklo && High(p, c, x).overlo == c.overlo
    ensures Low(p, c, x).hevon == c.hevon && Low(p, c, x).peakhi == c.peakhi && Low(p, c, x).overhi == c.overhi
  {
  }

  /** A detector over one buffer of samples. */
  class Detector {
    const limits: Limits
    var control: Control
    var indatar: seq<int>
    var samNo: nat
    var samCh: nat
    var remaining: bool
    var newOnset: bool
    // the last onset found
    var onset: Onset

    constructor (p: Limits)
      ensures control == START && !remaining && limits == p
    {
      limits, control, indatar, samNo, samCh, remaining, newOnset := p, START, [], 0, 0, false, false;
      onset := Onset(true, 0, 0);
    }

    /** The samples used so far have done what they do one after the other. */
    ghost predicate At(start: Control, k: nat)
      reads this
    {
      samNo == k <= samCh == |indatar| && control == Fold(limits, start, indatar[..k])
    }

    /** The high side of one sample. */
    method HighSide(x: int) returns (edge: bool)
      modifies this`control, this`newOnset, this`onset
      ensures control == High(limits, old(control), x) && (edge <==> !old(control).hevon && control.hevon)
      ensures edge ==> newOnset && onset == Onset(true, samNo, control.peakhi)
      ensures !edge ==> newOnset == old(newOnset) && onset == old(onset)
    {
      if x > limits.filhi {
        if !control.hevon {
          control := control.(overhi := control.overhi + 1);
          if control.overhi >= limits.nHits {
            control := control.(hevon := true);
            newOnset, onset := true, Onset(true, samNo, control.peakhi);
            return true;
          }
        }
        control := control.(waitdly := 0);
      } else if control.hevon && x < limits.filhi - limits.iwin {
        control := control.(waitdly := control.waitdly + 1);
        if control.waitdly > limits.waitBlk {
          control := control.(peakhi := -MAXLINT, overhi := 0, hevon := false);
        }
      }
      edge := false;
    }

    /** The low side of one sample. */
    method LowSide(x: int) returns (edge: bool)
      modifies this`control, this`newOnset, this`onset
      ensures control == Low(limits, old(control), x) && (edge <==> !old(control).levon && control.levon)
      ensures edge ==> newOnset && onset == Onset(false, samNo, control.peaklo)
      ensures !edge ==> newOnset == old(newOnset) && onset == old(onset)
    {
      if x < limits.fillo {
        if !control.levon {
          control := control.(overlo := control.overlo + 1);
          if control.overlo >= limits.nHits {
            control := control.(levon := true);
            newOnset, onset := true, Onset(false, samNo, control.peaklo);
            return true;
          }
        }
        control := control.(waitdly := 0);
      } else if control.levon && x > limits.fillo + limits.iwin {
        control := control.(waitdly := control.waitdly + 1);
        if control.waitdly > limits.waitBlk {
          control := control.(peaklo := MAXLINT, overlo := 0, levon := false);
        }
      }
      edge := false;
    }

    /** One sample. */
    method Sample(x: int) returns (edge: bool)
      modifies this`control, this`newOnset, this`onset
      ensures control == Step(limits, old(control), x)
      ensures edge <==> OnsetAt(old(control), control, samNo) != []
      ensures edge ==> newOnset && OnsetAt(old(control), control, samNo) == [onset]
      ensures !edge ==> newOnset == old(newOnset)
    {
      hide High, Low;
      Sides(limits, Peaks(control, x), x);
      Sides(limits, High(limits, Peaks(control, x), x), x);
      if x > control.peakhi {
        control := control.(peakhi := x);
      }
      if x < control.peaklo {
        control := control.(peaklo := x);
      }
      edge := HighSide(x);
      if !edge {
        edge := LowSide(x);
      }
    }

    /** One call: from where the last one stopped, or from the start of a new buffer, up to the
        next onset or the end. */
    method Detect(data: seq<int>, ghost start: Control) returns (on: bool)
      requires if remaining then At(start, samNo) && samNo < samCh && data == indatar else start == control
      modifies this
      ensures indatar == data && At(start, samNo) && (remaining <==> samNo < |data|)
      ensures var from := if old(remaining) then old(samNo) else 0;
        && from <= samNo
        && Onsets(limits, start, data[..samNo]) == Onsets(limits, start, data[..from])
          + (if newOnset then [onset] else [])
      ensures old(remaining) || data != [] ==> samNo > if old(remaining) then old(samNo) else 0
      ensures remaining ==> newOnset
      ensures on == (control.hevon || control.levon)
    {
      hide Step, OnsetAt, Fold, Onsets;
      NoSamples(limits, start);
      newOnset := false;
      if !remaining {
        indatar, samCh, samNo := data, |data|, 0;
      }
      ghost var from := samNo;
      while samNo < samCh
        invariant indatar == data && At(start, samNo) && from <= samNo && !newOnset
        invariant Onsets(limits, start, data[..samNo]) == Onsets(limits, start, data[..from])
        decreases samCh - samNo
      {
        Next(limits, start, data, samNo);
        var edge := Sample(indatar[samNo]);
        samNo := samNo + 1;
        if edge {
          break;
        }
      }
      remaining := samNo < samCh;
      on := control.hevon || control.levon;
    }

    /** Calls until nothing remains: every sample of the buffer is used once, and each onset in
        it is reported by one call. */
    method DetectAll(data: seq<int>) returns (onsets: seq<Onset>)
      requires !remaining
      modifies this
      ensures control == Fold(limits, old(control), data) && !remaining
      ensures onsets == Onsets(limits, old(control), data)
    {
      hide Fold, Onsets;
      ghost var start := control;
      NoSamples(limits, start);
      var on := Detect(data, start);
      onsets := if newOnset then [onset] else [];
      while remaining
        invariant indatar == data && At(start, samNo) && (remaining <==> samNo < |data|)
        invariant onsets == Onsets(limits, start, data[..samNo])
        decreases |data| - samNo
      {
        on := Detect(data, start);
        onsets := onsets + if newOnset then [onset] else [];
      }
      assert data[..samNo] == data;
    }
  }

  lemma NoSamples(p: Limits, c: Control)
    ensures Fold(p, c, []) == c && Onsets(p, c, []) == []
  {
  }

  // ----- what the counts mean

  /** Each side is on exactly when its count has reached the number of hits. */
  predicate Consistent(p: Limits, c: Control) {
    && 0 <= c.overhi <= p.nHits && 0 <= c.overlo <= p.nHits
    && (c.hevon <==> c.overhi == p.nHits) && (c.levon <==> c.overlo == p.nHits)
  }

  lemma SidesConsistent(p: Limits, c: Control, x: int)
    requires p.nHits >= 1 && Consistent(p, c)
    ensures Consistent(p, High(p, c, x)) && Consistent(p, Low(p, c, x)) && Consistent(p, Peaks(c, x))
  {
  }

  /** Whatever the samples, as long as it takes at least one hit. */
  lemma {:induction false} AlwaysConsistent(p: Limits, c: Control, xs: seq<int>)
    requires p.nHits >= 1 && Consistent(p, c)
    ensures Consistent(p, Fold(p, c, xs))
    decreases |xs|
  {
    hide Consistent, High, Low, Peaks;
    if xs != [] {
      var before, x := Fold(p, c, xs[..|xs| - 1]), xs[|xs| - 1];
      AlwaysConsistent(p, c, xs[..|xs| - 1]);
      SidesConsistent(p, before, x);
      SidesConsistent(p, Peaks(before, x), x);
      SidesConsistent(p, High(p, Peaks(before, x), x), x);
    }
  }

  /** The samples above the high limit since the side was last switched off. */
  function Hits(p: Limits, c: Control, xs: seq<int>): nat {
    if xs == [] then 0
    else
      var n := |xs| - 1;
      var before := Fold(p, c, xs[..n]);
      if before.hevon && !Fold(p, c, xs).hevon then 0
      else Hits(p, c, xs[..n]) + (if xs[n] > p.filhi then 1 else 0)
  }

  /** From the start, the high side is on exactly when there have been enough samples above the
      limit, not necessarily one behind the other, since it was last switched off. */
  lemma {:induction false} OnByHits(p: Limits, xs: seq<int>)
    requires p.nHits >= 1
    ensures Fold(p, START, xs).hevon <==> Hits(p, START, xs) >= p.nHits
    ensures !Fold(p, START, xs).hevon ==> Fold(p, START, xs).overhi == Hits(p, START, xs)
    decreases |xs|
  {
    if xs != [] {
      OnByHits(p, xs[..|xs| - 1]);
      AlwaysConsistent(p, START, xs[..|xs| - 1]);
    }
  }

  /** The low side is the high side turned over. */
  function Over(c: Control): Control {
    Control(c.overlo, c.overhi, c.waitdly, c.levon, c.hevon, -c.peaklo, -c.peakhi)
  }

  lemma LowMirrors(p: Limits, c: Control, x: int)
    ensures Low(p, c, x) == Over(High(Limits(-p.fillo, -p.filhi, p.iwin, p.waitBlk, p.nHits), Over(c), -x))
  {
  }

  lemma PeaksMirror(c: Control, x: int)
    ensures Over(Peaks(c, x)) == Peaks(Over(c), -x)
    ensures Peaks(c, x).peakhi == if x > c.peakhi then x else c.peakhi
  {
  }

  /** The onsets in the samples: just where a side that was off is on, with the peak of that side,
      in the order of the samples and never two at one. */
  lemma {:induction false} OnsetExact(p: Limits, c: Control, xs: seq<int>, o: Onset)
    ensures o in Onsets(p, c, xs) <==>
      && o.sample < |xs|
      && var before, after := Fold(p, c, xs[..o.sample]), Fold(p, c, xs[..o.sample + 1]);
         if o.high then !before.hevon && after.hevon && o.peak == after.peakhi
         else !before.levon && after.levon && o.peak == after.peaklo
    ensures forall i, j | 0 <= i < j < |Onsets(p, c, xs)| :: Onsets(p, c, xs)[i].sample < Onsets(p, c, xs)[j].sample
    ensures forall i | 0 <= i < |Onsets(p, c, xs)| :: Onsets(p, c, xs)[i].sample < |xs|
    decreases |xs|
  {
    hide Fold;
    if xs != [] {
      var n := |xs| - 1;
      OnsetExact(p, c, xs[..n], o);
      FoldStep(p, c, xs);
      OneSide(p, Fold(p, c, xs[..n]), xs[n]);
      assert xs[..n + 1] == xs;
      if o.sample < n {
        assert xs[..n][..o.sample] == xs[..o.sample] && xs[..n][..o.sample + 1] == xs[..o.sample + 1];
      }
    }
  }

  lemma FoldStep(p: Limits, c: Control, xs: seq<int>)
    requires xs != []
    ensures Fold(p, c, xs) == Step(p, Fold(p, c, xs[..|xs| - 1]), xs[|xs| - 1])
  {
  }

  lemma OneSide(p: Limits, c: Control, x: int)
    ensures var c' := Step(p, c, x); !(!c.hevon && c'.hevon && !c.levon && c'.levon)
  {
  }

  /** The samples below the low limit since that side was last switched off, but for those that
      switch the high side on. */
  function LowHits(p: Limits, c: Control, xs: seq<int>): nat {
    if xs == [] then 0
    else
      var n := |xs| - 1;
      var before, after := Fold(p, c, xs[..n]), Fold(p, c, xs);
      if before.levon && !after.levon then 0
      else LowHits(p, c, xs[..n]) + (if xs[n] < p.fillo && (before.hevon || !after.hevon) then 1 else 0)
  }

  /** From the start, the low side is on exactly when there have been enough of these. */
  lemma {:induction false} LowOnByHits(p: Limits, xs: seq<int>)
    requires p.nHits >= 1
    ensures Fold(p, START, xs).levon <==> LowHits(p, START, xs) >= p.nHits
    ensures !Fold(p, START, xs).levon ==> Fold(p, START, xs).overlo == LowHits(p, START, xs)
    decreases |xs|
  {
    if xs != [] {
      LowOnByHits(p, xs[..|xs| - 1]);
      AlwaysConsistent(p, START, xs[..|xs| - 1]);
    }
  }

  /** A side that is on is switched off by a sample beyond the window, on the other side of the limit,
      when there have been more of these than the delay since the last hit; the two sides count
      them together. */
  lemma SwitchedOff(p: Limits, c: Control, x: int)
    requires c.hevon
    ensures !High(p, c, x).hevon <==> x <= p.filhi && x < p.filhi - p.iwin && c.waitdly >= p.waitBlk
    ensures x > p.filhi ==> High(p, c, x).waitdly == 0 && High(p, c, x).overhi == c.overhi
    ensures !High(p, c, x).hevon ==> High(p, c, x).overhi == 0 && High(p, c, x).peakhi < -0x7fff_fffe
    ensures High(p, c, x).waitdly
      == if x > p.filhi then 0 else if x < p.filhi - p.iwin then c.waitdly + 1 else c.waitdly
  {
  }

  /** The samples since the high side was last switched off. */
  function SinceOff(p: Limits, c: Control, xs: seq<int>): (n: nat)
    ensures n <= |xs|
  {
    if xs == [] then 0
    else
      var n := |xs| - 1;
      if Fold(p, c, xs[..n]).hevon && !Fold(p, c, xs).hevon then 0 else SinceOff(p, c, xs[..n]) + 1
  }

  /** The largest of the samples from place `from` on. */
  ghost predicate IsPeak(peak: int, xs: seq<int>, from: nat) {
    && (forall k | from <= k < |xs| :: xs[k] <= peak)
    && (peak == -MAXLINT || exists k | from <= k < |xs| :: xs[k] == peak)
  }

  lemma PeakMore(peak: int, xs: seq<int>, from: nat, x: int)
    requires IsPeak(peak, xs, from) && from <= |xs|
    ensures IsPeak(if x > peak then x else peak, xs + [x], from)
  {
    var ys := xs + [x];
    assert ys[|xs|] == x;
    assert forall k | from <= k < |xs| :: ys[k] == xs[k];
  }

  /** The peak is the largest sample since the high side was last switched off, the one that did it
      left out. */
  lemma {:induction false} PeakExact(p: Limits, xs: seq<int>)
    ensures IsPeak(Fold(p, START, xs).peakhi, xs, |xs| - SinceOff(p, START, xs))
    decreases |xs|
  {
    hide Step, IsPeak, Fold, SinceOff;
    NoPeak(xs);
    if xs == [] {
      NoSamples(p, START);
      NoneSince(p);
    } else {
      var m := |xs| - 1;
      var c := Fold(p, START, xs[..m]);
      PeakExact(p, xs[..m]);
      LastSince(p, xs);
      PeakStep(p, c, xs[m]);
      PeakMore(c.peakhi, xs[..m], m - SinceOff(p, START, xs[..m]), xs[m]);
      assert xs[..m] + [xs[m]] == xs;
    }
  }

  lemma NoneSince(p: Limits)
    ensures SinceOff(p, START, []) == 0
  {
  }

  lemma LastSince(p: Limits, xs: seq<int>)
    requires xs != []
    ensures var m := |xs| - 1;
      var before, after := Fold(p, START, xs[..m]), Fold(p, START, xs);
      && after == Step(p, before, xs[m])
      && SinceOff(p, START, xs) == if before.hevon && !after.hevon then 0 else SinceOff(p, START, xs[..m]) + 1
  {
    hide Step;
  }

  lemma NoPeak(xs: seq<int>)
    ensures IsPeak(-MAXLINT, xs, |xs|)
  {
  }

  lemma PeakStep(p: Limits, c: Control, x: int)
    ensures var c' := Step(p, c, x);
      c'.peakhi == if c.hevon && !c'.hevon then -MAXLINT else if x > c.peakhi then x else c.peakhi
  {
  }
}
