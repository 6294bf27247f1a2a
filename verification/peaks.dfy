/**
 * `find_peak_points` and the marking loop of `allSpectrum_plot`: the highest intensity of each
 * wavelength with the first file reaching it, sorted by intensity (descending, stable), and
 * the greedy choice of at most five peaks that are more than a skip radius apart.
 */
module Peaks {
  import opened Common
  import opened OrderedMap
  import opened FileNames
  import opened Observations

  /** One record of `find_peak_points`: wavelength, maximum, the file reaching it, its time point. */
  datatype Peak = Peak(wavelength: real, maxIntensity: real, file: string, timePoint: string)

  /** `[value for _, value in values]`, collected in order: the k-th is the k-th observation's intensity. */
  function Intensities(obs: seq<Observation>): (xs: seq<real>)
    ensures |xs| == |obs|
    ensures forall k :: 0 <= k < |obs| ==> xs[k] == obs[k].intensity
  {
    if obs == [] then [] else Intensities(obs[..|obs| - 1]) + [obs[|obs| - 1].intensity]
  }

  /** `max` of a non-empty list of reals. */
  function MaxReal(xs: seq<real>): (m: real)
    requires |xs| > 0
    ensures m in xs
    ensures forall j :: 0 <= j < |xs| ==> xs[j] <= m
  {
    if |xs| == 1 then xs[0]
    else
      var m := MaxReal(xs[..|xs| - 1]);
      assert forall j :: 0 <= j < |xs| - 1 ==> xs[..|xs| - 1][j] == xs[j];
      if xs[|xs| - 1] > m then xs[|xs| - 1] else m
  }

  /** `min` of a non-empty list of reals. */
  function MinReal(xs: seq<real>): (m: real)
    requires |xs| > 0
    ensures m in xs
    ensures forall j :: 0 <= j < |xs| ==> m <= xs[j]
  {
    if |xs| == 1 then xs[0]
    else
      var m := MinReal(xs[..|xs| - 1]);
      assert forall j :: 0 <= j < |xs| - 1 ==> xs[..|xs| - 1][j] == xs[j];
      if xs[|xs| - 1] < m then xs[|xs| - 1] else m
  }

  /** The peak of one wavelength's observations: maximum, then the first file holding it. */
  function PeakOf(w: real, obs: seq<Observation>): (p: Peak)
    requires |obs| > 0
    ensures p.wavelength == w && p.timePoint == TimePoint(p.file)
    ensures forall j :: 0 <= j < |obs| ==> obs[j].intensity <= p.maxIntensity
    ensures exists i ::
      && 0 <= i < |obs| && obs[i].intensity == p.maxIntensity && obs[i].file == p.file
      && (forall j :: 0 <= j < i ==> obs[j].intensity < p.maxIntensity)
  {
    var xs := Intensities(obs);
    var m := MaxReal(xs);
    var i := FirstIndex(xs, m);
    var file := obs[i].file;
    Peak(w, m, file, TimePoint(file))
  }

  /** The peak of one map entry, or `None` for an empty bucket (`max` of nothing raises). */
  function EntryPeak(e: (real, seq<Observation>)): Option<Peak> {
    if |e.1| > 0 then Some(PeakOf(e.0, e.1)) else None
  }

  /**
   * The unsorted peak list, built entry by entry in map order, or `None` when some bucket is
   * empty.
   */
  function PeakList(b: Batch): (r: Option<seq<Peak>>)
    ensures r.Some? <==> forall i :: 0 <= i < |b| ==> |b[i].1| > 0
    ensures r.Some? ==> |r.value| == |b| && forall i :: 0 <= i < |b| ==> r.value[i] == PeakOf(b[i].0, b[i].1)
  {
    var r := MapAll(EntryPeak, b);
    assert forall i :: 0 <= i < |b| ==> (EntryPeak(b[i]).Some? <==> |b[i].1| > 0);
    r
  }

  // ---------------------------------------------------------------------------
  // `sorted(..., key=max, reverse=True)`: a stable sort by descending maximum.

  predicate SortedDesc(s: seq<Peak>) {
    forall i, j :: 0 <= i < j < |s| ==> s[i].maxIntensity >= s[j].maxIntensity
  }

  /** Inserts `p` after every element whose maximum is at least its own. */
  function Insert(s: seq<Peak>, p: Peak): seq<Peak> {
    if s == [] then [p]
    else if s[0].maxIntensity < p.maxIntensity then [p] + s
    else [s[0]] + Insert(s[1..], p)
  }

  function SortDesc(s: seq<Peak>): seq<Peak> {
    if s == [] then [] else Insert(SortDesc(s[..|s| - 1]), s[|s| - 1])
  }

  /** The elements of `s` whose maximum is `v`, in order. */
  function Ties(s: seq<Peak>, v: real): seq<Peak> {
    FlatMap((p: Peak) => Tie(p, v), s)
  }

  /** The peak itself when its height is `v`, otherwise nothing. */
  function Tie(p: Peak, v: real): seq<Peak> {
    if p.maxIntensity == v then [p] else []
  }

  /** `find_peak_points`: one peak per wavelength, highest first. */
  function FindPeakPoints(b: Batch): (r: Option<seq<Peak>>)
    ensures r.Some? <==> forall i :: 0 <= i < |b| ==> |b[i].1| > 0
  {
    match PeakList(b)
    case None => None
    case Some(ps) => Some(SortDesc(ps))
  }

  lemma InsertSpec(s: seq<Peak>, p: Peak)
    requires SortedDesc(s)
    ensures multiset(Insert(s, p)) == multiset(s) + multiset{p}
    ensures SortedDesc(Insert(s, p))
  {
    InsertPerm(s, p);
    InsertSorted(s, p);
  }

  /** Insertion adds exactly the inserted peak. */
  lemma {:induction false} InsertPerm(s: seq<Peak>, p: Peak)
    ensures multiset(Insert(s, p)) == multiset(s) + multiset{p}
  {
    if s != [] && s[0].maxIntensity >= p.maxIntensity {
      InsertPerm(s[1..], p);
      assert s == [s[0]] + s[1..];
    }
  }

  lemma {:induction false} InsertSorted(s: seq<Peak>, p: Peak)
    requires SortedDesc(s)
    ensures SortedDesc(Insert(s, p))
  {
    if s == [] {
    } else if s[0].maxIntensity < p.maxIntensity {
      SortedCons(p, s);
    } else {
      var tail := s[1..];
      var rest := Insert(tail, p);
      InsertSorted(tail, p);
      forall k | 0 <= k < |rest|
        ensures s[0].maxIntensity >= rest[k].maxIntensity
      {
        assert rest[k] in multiset(tail) + multiset{p} by {
          InsertPerm(tail, p);
        }
        if rest[k] != p {
          assert rest[k] in tail;
        }
      }
      SortedCons(s[0], rest);
    }
  }

  /** A head at least as high as every element of a descending list keeps it descending. */
  lemma SortedCons(x: Peak, s: seq<Peak>)
    requires SortedDesc(s)
    requires forall k :: 0 <= k < |s| ==> x.maxIntensity >= s[k].maxIntensity
    ensures SortedDesc([x] + s)
  {
  }

  /** Sorting yields a descending permutation of the input. */
  lemma {:induction false} SortDescSpec(s: seq<Peak>)
    ensures multiset(SortDesc(s)) == multiset(s)
    ensures SortedDesc(SortDesc(s))
  {
    if s != [] {
      var init := s[..|s| - 1];
      SortDescSpec(init);
      InsertSpec(SortDesc(init), s[|s| - 1]);
      assert s == init + [s[|s| - 1]];
    }
  }

  /** The ties of a list are those of its head followed by those of its tail. */
  lemma TiesCons(p: Peak, s: seq<Peak>, v: real)
    ensures Ties([p] + s, v) == Tie(p, v) + Ties(s, v)
  {
    var f := (p: Peak) => Tie(p, v);
    FlatMapAppend(f, [p], s);
    FlatMapSingle(f, p);
  }

  lemma {:induction false} InsertTies(s: seq<Peak>, p: Peak, v: real)
    requires SortedDesc(s)
    ensures Ties(Insert(s, p), v) == Ties(s, v) + Tie(p, v)
  {
    if s == [] {
      FlatMapSingle((p: Peak) => Tie(p, v), p);
    } else if s[0].maxIntensity < p.maxIntensity {
      TiesCons(p, s, v);
      if p.maxIntensity == v {
        TiesNone(s, v);
      }
    } else {
      var rest := Insert(s[1..], p);
      calc {
        Ties(Insert(s, p), v);
        Ties([s[0]] + rest, v);
        { TiesCons(s[0], rest, v); }
        Tie(s[0], v) + Ties(rest, v);
        { InsertTies(s[1..], p, v); }
        Tie(s[0], v) + (Ties(s[1..], v) + Tie(p, v));
        (Tie(s[0], v) + Ties(s[1..], v)) + Tie(p, v);
        { TiesCons(s[0], s[1..], v); assert [s[0]] + s[1..] == s; }
        Ties(s, v) + Tie(p, v);
      }
    }
  }

  /** In a descending list whose head is below `v`, nothing equals `v`. */
  lemma {:induction false} TiesNone(s: seq<Peak>, v: real)
    requires SortedDesc(s) && s != [] && s[0].maxIntensity < v
    ensures Ties(s, v) == []
  {
    TiesCons(s[0], s[1..], v);
    assert [s[0]] + s[1..] == s;
    if |s| > 1 {
      TiesNone(s[1..], v);
    }
  }

  /** The sort is stable: peaks with equal maxima keep their relative order. */
  lemma {:induction false} SortDescStable(s: seq<Peak>, v: real)
    ensures Ties(SortDesc(s), v) == Ties(s, v)
  {
    if s != [] {
      var init := s[..|s| - 1];
      var last := s[|s| - 1];
      assert SortedDesc(SortDesc(init)) by {
        SortDescSpec(init);
      }
      calc {
        Ties(SortDesc(s), v);
        Ties(Insert(SortDesc(init), last), v);
        { InsertTies(SortDesc(init), last, v); }
        Ties(SortDesc(init), v) + Tie(last, v);
        { SortDescStable(init, v); }
        Ties(init, v) + Tie(last, v);
        { TiesSnoc(init, last, v); assert s == init + [last]; }
        Ties(s, v);
      }
    }
  }

  lemma TiesSnoc(s: seq<Peak>, p: Peak, v: real)
    ensures Ties(s + [p], v) == Ties(s, v) + Tie(p, v)
  {
    var f := (p: Peak) => Tie(p, v);
    FlatMapAppend(f, s, [p]);
    FlatMapSingle(f, p);
  }

  /** Sorting an already sorted list changes nothing (`sorted_peaks` equals `peaks1`). */
  lemma {:induction false} SortDescSorted(s: seq<Peak>)
    requires SortedDesc(s)
    ensures SortDesc(s) == s
  {
    if s != [] {
      var init := s[..|s| - 1];
      SortDescSorted(init);
      InsertLast(init, s[|s| - 1]);
      assert s == init + [s[|s| - 1]];
    }
  }

  lemma {:induction false} InsertLast(s: seq<Peak>, p: Peak)
    requires forall k :: 0 <= k < |s| ==> s[k].maxIntensity >= p.maxIntensity
    ensures Insert(s, p) == s + [p]
  {
    if s != [] {
      InsertLast(s[1..], p);
      assert [s[0]] + (s[1..] + [p]) == s + [p];
    }
  }

  /**
   * `find_peak_points` fails exactly when some bucket is empty. Otherwise it lists the peak of
   * every wavelength once (a permutation of the per-wavelength peaks), highest first, and
   * peaks with equal maxima stay in wavelength order.
   */
  lemma FindPeakPointsSpec(b: Batch, v: real)
    ensures FindPeakPoints(b).Some? <==> forall i :: 0 <= i < |b| ==> |b[i].1| > 0
    ensures FindPeakPoints(b).Some? ==>
      && SortedDesc(FindPeakPoints(b).value)
      && multiset(FindPeakPoints(b).value) == multiset(PeakList(b).value)
      && |FindPeakPoints(b).value| == |b|
      && Ties(FindPeakPoints(b).value, v) == Ties(PeakList(b).value, v)
  {
    if PeakList(b).Some? {
      var ps := PeakList(b).value;
      SortDescSpec(ps);
      SortDescStable(ps, v);
      assert |SortDesc(ps)| == |multiset(SortDesc(ps))| == |multiset(ps)| == |ps|;
    }
  }

  // ---------------------------------------------------------------------------
  // The marking loop.

  /** `allSpectrum_plot` stops marking after this many peaks. */
  const MaxMarks: nat := 5

  /** Peak `k` lies within `skip` of a peak already marked. */
  predicate Near(peaks: seq<Peak>, marks: seq<nat>, k: nat, skip: real)
    requires k < |peaks|
  {
    exists a :: 0 <= a < |marks| && marks[a] < |peaks| && Abs(peaks[k].wavelength - peaks[marks[a]].wavelength) <= skip
  }

  /** The loop from position `k` on, with `marks` the positions marked so far. */
  function MarkFrom(peaks: seq<Peak>, skip: real, k: nat, marks: seq<nat>): seq<nat>
    decreases |peaks| - k
  {
    if k >= |peaks| || |marks| >= MaxMarks then marks
    else if Near(peaks, marks, k, skip) then MarkFrom(peaks, skip, k + 1, marks)
    else MarkFrom(peaks, skip, k + 1, marks + [k])
  }

  /**
   * The positions, in the sorted peak list, of the peaks the plot marks: at most five, in
   * sorted order, pairwise more than `skip` apart; every peak the loop examined and did not
   * mark lies within `skip` of an earlier marked peak. The loop examines every peak until five
   * are marked, and none after the fifth.
   */
  function MarkedIndices(peaks: seq<Peak>, skip: real): (r: seq<nat>)
    ensures |r| <= MaxMarks
    ensures forall a :: 0 <= a < |r| ==> r[a] < |peaks|
    ensures forall a, c :: 0 <= a < c < |r| ==> r[a] < r[c]
    ensures forall a, c :: 0 <= a < c < |r| ==> Abs(peaks[r[c]].wavelength - peaks[r[a]].wavelength) > skip
    ensures forall j :: 0 <= j < |peaks| && j !in r && (|r| < MaxMarks || j < r[|r| - 1]) ==>
      CoveredBefore(peaks, r, j, skip)
  {
    MarkFromSpec(peaks, skip, 0, []);
    MarkFrom(peaks, skip, 0, [])
  }

  /** The marked peaks lie pairwise more than `skip` apart. */
  predicate Apart(peaks: seq<Peak>, idx: seq<nat>, skip: real)
    requires forall a :: 0 <= a < |idx| ==> idx[a] < |peaks|
  {
    forall a, c :: 0 <= a < c < |idx| ==> Abs(peaks[idx[c]].wavelength - peaks[idx[a]].wavelength) > skip
  }

  /** `marked_peaks.append(peak)` for each marked position in turn: the a-th is the peak at the a-th mark. */
  function Select(peaks: seq<Peak>, idx: seq<nat>): (r: seq<Peak>)
    requires forall a :: 0 <= a < |idx| ==> idx[a] < |peaks|
    ensures |r| == |idx| && forall a :: 0 <= a < |idx| ==> r[a] == peaks[idx[a]]
  {
    if idx == [] then [] else Select(peaks, idx[..|idx| - 1]) + [peaks[idx[|idx| - 1]]]
  }

  /** Peak `j` lies within `skip` of a marked peak that comes before it. */
  predicate CoveredBefore(peaks: seq<Peak>, marks: seq<nat>, j: nat, skip: real)
    requires j < |peaks|
  {
    exists a :: 0 <= a < |marks| && marks[a] < j && Abs(peaks[j].wavelength - peaks[marks[a]].wavelength) <= skip
  }

  /** What the loop keeps true of the marks after examining positions `0..k-1`. */
  predicate MarksSoFar(peaks: seq<Peak>, skip: real, k: nat, marks: seq<nat>) {
    && k <= |peaks|
    && |marks| <= MaxMarks
    && (forall a :: 0 <= a < |marks| ==> marks[a] < k)
    && (forall a, c :: 0 <= a < c < |marks| ==> marks[a] < marks[c])
    && (forall a, c :: 0 <= a < c < |marks| ==>
          Abs(peaks[marks[c]].wavelength - peaks[marks[a]].wavelength) > skip)
    && (forall j :: 0 <= j < k && j !in marks ==> CoveredBefore(peaks, marks, j, skip))
  }

  lemma {:induction false} MarkFromSpec(peaks: seq<Peak>, skip: real, k: nat, marks: seq<nat>)
    requires MarksSoFar(peaks, skip, k, marks)
    decreases |peaks| - k
    ensures var r := MarkFrom(peaks, skip, k, marks); MarksSoFar(peaks, skip, Examined(peaks, r), r)
  {
    if k >= |peaks| || |marks| >= MaxMarks {
      MarkStop(peaks, skip, k, marks);
    } else if Near(peaks, marks, k, skip) {
      SkipStep(peaks, skip, k, marks);
      MarkFromSpec(peaks, skip, k + 1, marks);
      assert MarkFrom(peaks, skip, k, marks) == MarkFrom(peaks, skip, k + 1, marks);
    } else {
      MarkStep(peaks, skip, k, marks);
      MarkFromSpec(peaks, skip, k + 1, marks + [k]);
      assert MarkFrom(peaks, skip, k, marks) == MarkFrom(peaks, skip, k + 1, marks + [k]);
    }
  }

  /** How far the loop got: to the end, or to the fifth mark. */
  function Examined(peaks: seq<Peak>, marks: seq<nat>): nat {
    if |marks| < MaxMarks then |peaks| else marks[|marks| - 1] + 1
  }

  /** When the loop stops, every peak it examined is accounted for. */
  lemma MarkStop(peaks: seq<Peak>, skip: real, k: nat, marks: seq<nat>)
    requires MarksSoFar(peaks, skip, k, marks)
    requires k >= |peaks| || |marks| >= MaxMarks
    ensures MarkFrom(peaks, skip, k, marks) == marks
    ensures MarksSoFar(peaks, skip, Examined(peaks, marks), marks)
  {
    if |marks| >= MaxMarks {
      MarksSoFarPrefix(peaks, skip, k, marks, marks[|marks| - 1] + 1);
    }
  }

  /** A peak near an earlier mark is skipped. */
  lemma SkipStep(peaks: seq<Peak>, skip: real, k: nat, marks: seq<nat>)
    requires MarksSoFar(peaks, skip, k, marks) && k < |peaks|
    requires Near(peaks, marks, k, skip)
    ensures MarksSoFar(peaks, skip, k + 1, marks)
  {
    var a :| 0 <= a < |marks| && marks[a] < |peaks| && Abs(peaks[k].wavelength - peaks[marks[a]].wavelength) <= skip;
    assert CoveredBefore(peaks, marks, k, skip);
  }

  /** A peak far from every mark is marked. */
  lemma MarkStep(peaks: seq<Peak>, skip: real, k: nat, marks: seq<nat>)
    requires MarksSoFar(peaks, skip, k, marks) && k < |peaks| && |marks| < MaxMarks
    requires !Near(peaks, marks, k, skip)
    ensures MarksSoFar(peaks, skip, k + 1, marks + [k])
  {
    var next := marks + [k];
    forall j | 0 <= j < k + 1 && j !in next
      ensures CoveredBefore(peaks, next, j, skip)
    {
      assert j < k && j !in marks;
      CoveredGrow(peaks, marks, k, j, skip);
    }
    ApartGrow(peaks, marks, k, skip);
  }

  /** A peak far from every mark is far from each of them. */
  lemma ApartGrow(peaks: seq<Peak>, marks: seq<nat>, k: nat, skip: real)
    requires k < |peaks| && forall a :: 0 <= a < |marks| ==> marks[a] < |peaks|
    requires forall a, c :: 0 <= a < c < |marks| ==> Abs(peaks[marks[c]].wavelength - peaks[marks[a]].wavelength) > skip
    requires !Near(peaks, marks, k, skip)
    ensures var next := marks + [k];
      forall a, c :: 0 <= a < c < |next| ==> Abs(peaks[next[c]].wavelength - peaks[next[a]].wavelength) > skip
  {
    var next := marks + [k];
    forall a, c | 0 <= a < c < |next|
      ensures Abs(peaks[next[c]].wavelength - peaks[next[a]].wavelength) > skip
    {
      if c == |marks| {
        assert !(Abs(peaks[k].wavelength - peaks[marks[a]].wavelength) <= skip);
      }
    }
  }

  /** A peak covered by the marks stays covered when a mark is added. */
  lemma CoveredGrow(peaks: seq<Peak>, marks: seq<nat>, k: nat, j: nat, skip: real)
    requires j < |peaks| && CoveredBefore(peaks, marks, j, skip)
    ensures CoveredBefore(peaks, marks + [k], j, skip)
  {
    var a :| 0 <= a < |marks| && marks[a] < j && Abs(peaks[j].wavelength - peaks[marks[a]].wavelength) <= skip;
    assert (marks + [k])[a] == marks[a];
  }

  /** What holds after examining `0..k-1` holds after examining fewer, if all marks are earlier. */
  lemma MarksSoFarPrefix(peaks: seq<Peak>, skip: real, k: nat, marks: seq<nat>, k': nat)
    requires MarksSoFar(peaks, skip, k, marks) && k' <= k
    requires forall a :: 0 <= a < |marks| ==> marks[a] < k'
    ensures MarksSoFar(peaks, skip, k', marks)
  {
  }

  /** The plot `allSpectrum_plot` saves: its file name and the peaks it marks. */
  datatype Plot = Plot(fileName: string, marks: seq<Peak>)

  /** The optional pre-filter: keep wavelengths with some intensity above `floor`. */
  function KeepAbove(b: Batch, floor: real): (r: Batch)
    ensures |r| <= |b|
    ensures forall e :: e in r <==> e in b && Loud(e.1, floor)
  {
    if b == [] then []
    else
      var init := KeepAbove(b[..|b| - 1], floor);
      var (w, obs) := b[|b| - 1];
      if Loud(obs, floor) then init + [(w, obs)] else init
  }

  /** Filtering keeps map order: the kept entries of a concatenation are those of each part, in turn. */
  lemma {:induction false} KeepAboveAppend(a: Batch, b: Batch, floor: real)
    ensures KeepAbove(a + b, floor) == KeepAbove(a, floor) + KeepAbove(b, floor)
    decreases |b|
  {
    if b == [] {
      assert a + b == a;
    } else {
      var init, last := b[..|b| - 1], b[|b| - 1];
      var tail := if Loud(last.1, floor) then [last] else [];
      KeepAboveAppend(a, init, floor);
      assert (a + b)[..|a + b| - 1] == a + init && (a + b)[|a + b| - 1] == last;
      assert KeepAbove(a + b, floor) == KeepAbove(a + init, floor) + tail;
      assert KeepAbove(b, floor) == KeepAbove(init, floor) + tail;
    }
  }

  /** A single entry is kept exactly when some intensity of it exceeds the floor. */
  lemma KeepAboveSingle(e: (real, seq<Observation>), floor: real)
    ensures KeepAbove([e], floor) == if Loud(e.1, floor) then [e] else []
  {
    assert [e][..0] == [];
  }

  /** `any(m[1] > intensity_threshold for m in v)`. */
  predicate Loud(obs: seq<Observation>, floor: real) {
    exists j :: 0 <= j < |obs| && obs[j].intensity > floor
  }

  /**
   * `allSpectrum_plot` up to drawing: `None` when the peak list is empty or cannot be built
   * (the handler swallows the exception); otherwise the marked peaks of the sorted list.
   */
  function AllSpectrumPlot(b: Batch, skip: real, name: string, floor: Option<real>): Option<Plot> {
    var data := match floor case None => b case Some(t) => KeepAbove(b, t);
    match FindPeakPoints(data)
    case None => None
    case Some(peaks) =>
      if peaks == [] then None
      else
        var sorted := SortDesc(peaks);
        var idx := MarkedIndices(sorted, skip);
        Some(Plot(name + "_allspectrum_highestPeaks.png", Select(sorted, idx)))
  }

  /**
   * Without a pre-filter the plot fails exactly when the data is empty or has an empty
   * bucket; otherwise the marked peaks are those `MarkedIndices` picks from
   * `find_peak_points`' list: at most five, taken in its order, pairwise more than `skip`
   * apart (see `AllSpectrumPlotFiltered` for the filtered call).
   */
  lemma AllSpectrumPlotSpec(b: Batch, skip: real, name: string)
    ensures AllSpectrumPlot(b, skip, name, None).None? <==> b == [] || exists i :: 0 <= i < |b| && |b[i].1| == 0
    ensures AllSpectrumPlot(b, skip, name, None).Some? ==>
      var peaks := FindPeakPoints(b).value;
      var idx := MarkedIndices(peaks, skip);
      && AllSpectrumPlot(b, skip, name, None).value.marks == Select(peaks, idx)
      && |idx| <= MaxMarks
      && (forall a :: 0 <= a < |idx| ==> idx[a] < |peaks|)
      && (forall a, c :: 0 <= a < c < |idx| ==> idx[a] < idx[c])
      && Apart(peaks, idx, skip)
  {
    FindPeakPointsSpec(b, 0.0);
    match FindPeakPoints(b)
    case None =>
    case Some(peaks) =>
      SortDescSorted(peaks);
      assert SortDesc(peaks) == peaks;
  }

  /**
   * With a pre-filter the plot is the unfiltered plot of the kept wavelengths, and it fails
   * exactly when no wavelength has an intensity above the floor: then nothing is kept and
   * `peaks1[0]` raises, however full the buckets are.
   */
  lemma AllSpectrumPlotFiltered(b: Batch, skip: real, name: string, t: real)
    ensures AllSpectrumPlot(b, skip, name, Some(t)) == AllSpectrumPlot(KeepAbove(b, t), skip, name, None)
    ensures AllSpectrumPlot(b, skip, name, Some(t)).None? <==> forall i :: 0 <= i < |b| ==> !Loud(b[i].1, t)
  {
    var kept := KeepAbove(b, t);
    AllSpectrumPlotSpec(kept, skip, name);
    forall i | 0 <= i < |kept|
      ensures |kept[i].1| > 0
    {
      assert kept[i] in kept;
    }
    if kept != [] {
      assert kept[0] in kept;
    } else {
      forall i | 0 <= i < |b|
        ensures !Loud(b[i].1, t)
      {
        assert b[i] in b;
      }
    }
  }

  /** Peaks at 500.0, 500.5 and 600.0 (highest first) with radius 2: 500.0 and 600.0 are marked. */
  lemma MarkingExample()
    ensures MarkedIndices([Peak(500.0, 900.0, "a", "1"), Peak(500.5, 800.0, "b", "2"), Peak(600.0, 700.0, "c", "3")], 2.0) == [0, 2]
  {
    var peaks := [Peak(500.0, 900.0, "a", "1"), Peak(500.5, 800.0, "b", "2"), Peak(600.0, 700.0, "c", "3")];
    var none: seq<nat> := [];
    var one: seq<nat> := [0];
    var two: seq<nat> := [0, 2];
    assert !Near(peaks, none, 0, 2.0);
    assert none + [0] == one && one + [2] == two;
    assert MarkFrom(peaks, 2.0, 0, none) == MarkFrom(peaks, 2.0, 1, one);
    assert Near(peaks, one, 1, 2.0) by {
      assert one[0] < |peaks| && Abs(peaks[1].wavelength - peaks[one[0]].wavelength) <= 2.0;
    }
    assert MarkFrom(peaks, 2.0, 1, one) == MarkFrom(peaks, 2.0, 2, one);
    assert !Near(peaks, one, 2, 2.0) by {
      forall a | 0 <= a < |one|
        ensures !(Abs(peaks[2].wavelength - peaks[one[a]].wavelength) <= 2.0)
      {
        assert one[a] == 0;
      }
    }
    assert MarkFrom(peaks, 2.0, 2, one) == MarkFrom(peaks, 2.0, 3, two);
  }
}
