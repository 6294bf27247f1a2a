/**
 * `find_significant_differences` and `find_specific_wavebands_differences`: the wavelengths
 * whose intensities swing by more than a threshold, with the observation farthest from the
 * minimum.
 */
module Differences {
  import opened Common
  import opened OrderedMap
  import opened FileNames
  import opened Observations
  import opened Peaks

  /** The minimum, the maximum and the observation farthest from the minimum. */
  datatype Swing = Swing(lo: real, hi: real, farthest: Observation)

  /** A swing of a requested waveband, with the time point of its farthest observation. */
  datatype SpecificSwing = SpecificSwing(swing: Swing, timePoint: string)

  /** `max(measurements, key=lambda x: abs(x[1] - lo))`: the first observation with the largest key. */
  function Farthest(obs: seq<Observation>, lo: real): (o: Observation)
    requires |obs| > 0
    ensures o in obs
  {
    if |obs| == 1 then obs[0]
    else
      var best := Farthest(obs[..|obs| - 1], lo);
      if Distance(obs[|obs| - 1], lo) > Distance(best, lo) then obs[|obs| - 1] else best
  }

  /** The key `abs(x[1] - lo)` of the `max` call. */
  function Distance(o: Observation, lo: real): real {
    Abs(o.intensity - lo)
  }

  /**
   * No observation is farther from `lo` than the chosen one, and every observation before
   * its first occurrence is strictly nearer.
   */
  lemma {:induction false} FarthestSpec(obs: seq<Observation>, lo: real) returns (i: nat)
    requires |obs| > 0
    ensures forall j :: 0 <= j < |obs| ==> Distance(obs[j], lo) <= Distance(Farthest(obs, lo), lo)
    ensures i < |obs| && obs[i] == Farthest(obs, lo)
    ensures forall j :: 0 <= j < i ==> Distance(obs[j], lo) < Distance(Farthest(obs, lo), lo)
  {
    if |obs| == 1 {
      i := 0;
    } else {
      var init := obs[..|obs| - 1];
      var last := obs[|obs| - 1];
      var best := Farthest(init, lo);
      i := FarthestSpec(init, lo);
      assert forall j :: 0 <= j < |obs| - 1 ==> init[j] == obs[j];
      if Distance(last, lo) > Distance(best, lo) {
        i := |obs| - 1;
      }
    }
  }

  function SwingOf(obs: seq<Observation>): Swing
    requires |obs| > 0
  {
    var xs := Intensities(obs);
    var lo := MinReal(xs);
    Swing(lo, MaxReal(xs), Farthest(obs, lo))
  }

  /** The strict threshold test `abs(max - min) > threshold`. */
  predicate Significant(s: Swing, threshold: real) {
    Abs(s.hi - s.lo) > threshold
  }

  /**
   * The loop body of `find_significant_differences`: a wavelength is reported with its swing
   * when its maximum exceeds its minimum by strictly more than the threshold. An empty
   * bucket never reaches it (the call raises first).
   */
  function Flagged(obs: seq<Observation>, threshold: real): Option<Swing> {
    if |obs| > 0 && Significant(SwingOf(obs), threshold) then Some(SwingOf(obs)) else None
  }

  predicate AllFilled(b: Batch) {
    forall i :: 0 <= i < |b| ==> |b[i].1| > 0
  }

  /** `find_significant_differences`: `None` when some bucket is empty (`min` of nothing raises). */
  function FindSignificantDifferences(b: Batch, threshold: real): Option<AList<real, Swing>> {
    if AllFilled(b) then Some(PutAll(FilterMap(b, (w: real, obs: seq<Observation>) => Flagged(obs, threshold))))
    else None
  }

  /** The buckets `find_specific_wavebands_differences` looks at. */
  predicate RequestedFilled(b: Batch, wavebands: seq<real>) {
    forall i :: 0 <= i < |b| && b[i].0 in wavebands ==> |b[i].1| > 0
  }

  /** The loop body of the specific variant: requested wavelengths only, with a time point. */
  function SpecificFlagged(w: real, obs: seq<Observation>, wavebands: seq<real>, threshold: real): Option<SpecificSwing> {
    if w in wavebands then
      match Flagged(obs, threshold)
      case None => None
      case Some(s) => Some(SpecificSwing(s, TimePoint(s.farthest.file)))
    else None
  }

  /**
   * `find_specific_wavebands_differences`: only requested wavelengths are examined, so only
   * their buckets can make it raise.
   */
  function FindSpecificDifferences(b: Batch, wavebands: seq<real>, threshold: real): Option<AList<real, SpecificSwing>> {
    if RequestedFilled(b, wavebands)
    then Some(PutAll(FilterMap(b, (w: real, obs: seq<Observation>) => SpecificFlagged(w, obs, wavebands, threshold))))
    else None
  }

  // ---------------------------------------------------------------------------
  // Properties

  /** The farthest observation from the minimum is the first one holding the maximum. */
  lemma FarthestIsFirstMax(obs: seq<Observation>)
    requires |obs| > 0
    ensures var xs := Intensities(obs);
      SwingOf(obs).farthest == obs[FirstIndex(xs, MaxReal(xs))]
  {
    var xs := Intensities(obs);
    FarthestAbove(obs, MinReal(xs), MaxReal(xs), FirstIndex(xs, MaxReal(xs)));
  }

  /**
   * When no intensity is below `lo`, the observation farthest from `lo` is the first one at
   * the maximum `hi`.
   */
  lemma FarthestAbove(obs: seq<Observation>, lo: real, hi: real, k: nat)
    requires |obs| > 0 && k < |obs|
    requires forall j :: 0 <= j < |obs| ==> lo <= obs[j].intensity <= hi
    requires obs[k].intensity == hi && forall j :: 0 <= j < k ==> obs[j].intensity != hi
    ensures Farthest(obs, lo) == obs[k]
  {
    var o := Farthest(obs, lo);
    var i := FarthestSpec(obs, lo);
    assert Distance(obs[k], lo) <= Distance(o, lo);
    assert o.intensity == hi;
  }

  /**
   * The call fails exactly when some bucket is empty. Otherwise a wavelength is reported
   * exactly when it is in the map and its maximum exceeds its minimum by strictly more than
   * the threshold, and the report is its swing.
   */
  lemma FindSignificantDifferencesSpec(b: Batch, threshold: real, w: real)
    requires DistinctKeys(b)
    ensures FindSignificantDifferences(b, threshold).Some? <==> AllFilled(b)
    ensures FindSignificantDifferences(b, threshold).Some? ==>
      Get(FindSignificantDifferences(b, threshold).value, w) ==
        match Get(b, w) case None => None case Some(obs) => Flagged(obs, threshold)
  {
    if AllFilled(b) {
      var f := (w: real, obs: seq<Observation>) => Flagged(obs, threshold);
      PutAllGet(FilterMap(b, f), w);
      FilterMapAt(b, f, w);
    }
  }

  /** A flagged bucket swings by more than the threshold, with `lo` and `hi` its extremes. */
  lemma FlaggedSpec(obs: seq<Observation>, threshold: real)
    requires |obs| > 0
    ensures var xs := Intensities(obs);
      && (Flagged(obs, threshold).Some? <==> MaxReal(xs) - MinReal(xs) > threshold)
      && (Flagged(obs, threshold).Some? ==>
            && Flagged(obs, threshold).value.lo in xs && Flagged(obs, threshold).value.hi in xs
            && forall j :: 0 <= j < |xs| ==> Flagged(obs, threshold).value.lo <= xs[j] <= Flagged(obs, threshold).value.hi)
  {
    var xs := Intensities(obs);
    var lo, hi := MinReal(xs), MaxReal(xs);
    assert lo <= xs[0] <= hi;
    assert SwingOf(obs) == Swing(lo, hi, Farthest(obs, lo));
    assert Abs(hi - lo) == hi - lo;
  }

  /**
   * The specific variant fails exactly when a requested bucket is empty. Otherwise it reports
   * a wavelength exactly when it is requested, in the map and flagged, with the time point of
   * the file of its farthest observation.
   */
  lemma FindSpecificDifferencesSpec(b: Batch, wavebands: seq<real>, threshold: real, w: real)
    requires DistinctKeys(b)
    ensures FindSpecificDifferences(b, wavebands, threshold).Some? <==> RequestedFilled(b, wavebands)
    ensures FindSpecificDifferences(b, wavebands, threshold).Some? ==>
      Get(FindSpecificDifferences(b, wavebands, threshold).value, w) ==
        match Get(b, w)
        case None => None
        case Some(obs) =>
          if w in wavebands && Flagged(obs, threshold).Some?
          then Some(SpecificSwing(Flagged(obs, threshold).value, TimePoint(Flagged(obs, threshold).value.farthest.file)))
          else None
  {
    if RequestedFilled(b, wavebands) {
      var f := (w: real, obs: seq<Observation>) => SpecificFlagged(w, obs, wavebands, threshold);
      PutAllGet(FilterMap(b, f), w);
      FilterMapAt(b, f, w);
    }
  }

  /** An unrequested wavelength with an empty bucket does not make the specific variant fail. */
  lemma SpecificIgnoresOthers(b: Batch, wavebands: seq<real>, threshold: real)
    requires RequestedFilled(b, wavebands)
    requires exists i :: 0 <= i < |b| && b[i].1 == []
    ensures FindSpecificDifferences(b, wavebands, threshold).Some?
    ensures FindSignificantDifferences(b, threshold).None?
  {
  }

  /** Intensities 100 (file f1) and 400 (file f2): flagged at threshold 200, not at 500. */
  lemma DifferenceExample()
    ensures var b: Batch := [(500.0, [Observation("f1", 100.0), Observation("f2", 400.0)])];
      && FindSignificantDifferences(b, 200.0).Some? && FindSignificantDifferences(b, 500.0).Some?
      && Get(FindSignificantDifferences(b, 200.0).value, 500.0) == Some(Swing(100.0, 400.0, Observation("f2", 400.0)))
      && Get(FindSignificantDifferences(b, 500.0).value, 500.0) == None
  {
    var obs := [Observation("f1", 100.0), Observation("f2", 400.0)];
    var b: Batch := [(500.0, obs)];
    ExampleSwing();
    assert Get(b, 500.0) == Some(obs);
    FindSignificantDifferencesSpec(b, 200.0, 500.0);
    FindSignificantDifferencesSpec(b, 500.0, 500.0);
  }

  lemma ExampleSwing()
    ensures SwingOf([Observation("f1", 100.0), Observation("f2", 400.0)]) == Swing(100.0, 400.0, Observation("f2", 400.0))
  {
    var obs := [Observation("f1", 100.0), Observation("f2", 400.0)];
    var xs := Intensities(obs);
    assert xs == [100.0, 400.0];
    assert xs[..1] == [100.0];
    assert MinReal(xs) == 100.0 && MaxReal(xs) == 400.0;
    assert obs[..1] == [Observation("f1", 100.0)];
  }
}
