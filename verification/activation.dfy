/**
 * `detect_activate_time`: one pass over the consecutive differences of a wavelength's time
 * series. The first rise above the threshold is the activation; the first fall below minus
 * the threshold after it is the deactivation, and the scan stops there.
 */
module Activation {
  import opened Common
  import opened OrderedMap
  import opened TimeSeries

  /** Activation and deactivation as absolute file indices (`start_index` plus position). */
  datatype Window = Window(activate: Option<int>, deactivate: Option<int>)

  datatype Edge = Rise | Fall

  /** The step from sample `i` to sample `i + 1` crosses the threshold in direction `e`. */
  predicate Crosses(s: seq<real>, threshold: real, i: int, e: Edge) {
    && 0 <= i && i + 1 < |s|
    && match e
       case Rise => s[i + 1] - s[i] > threshold
       case Fall => s[i + 1] - s[i] < -threshold
  }

  /** The first step at or after `from` that crosses in direction `e`. */
  function FirstCrossing(s: seq<real>, threshold: real, from: nat, e: Edge): (r: Option<nat>)
    decreases |s| - from
    ensures r.Some? ==> from <= r.value && Crosses(s, threshold, r.value, e)
    ensures r.Some? ==> forall j :: from <= j < r.value ==> !Crosses(s, threshold, j, e)
    ensures r.None? ==> forall j :: from <= j ==> !Crosses(s, threshold, j, e)
  {
    if from + 1 >= |s| then None
    else if Crosses(s, threshold, from, e) then Some(from)
    else FirstCrossing(s, threshold, from + 1, e)
  }

  /**
   * The window the scan reports: activation after the first rise; deactivation after the
   * first fall that comes strictly after the step that activated.
   */
  function Edges(s: seq<real>, threshold: real, start: int): Window {
    match FirstCrossing(s, threshold, 0, Rise)
    case None => Window(None, None)
    case Some(i) =>
      Window(Some(start + i + 1),
        match FirstCrossing(s, threshold, i + 1, Fall)
        case None => None
        case Some(j) => Some(start + j + 1))
  }

  /** `detect_activate_time` on the loaded map: `(None, None)` when the wavelength is absent. */
  function DetectActivateTime(data: Series, wave: real, threshold: real, start: int): Window {
    match Get(data, wave)
    case None => Window(None, None)
    case Some(s) => Edges(s, threshold, start)
  }

  /** The scan as the analyzer writes it: a flag, two results and an early exit. */
  method ScanEdges(s: seq<real>, threshold: real, start: int) returns (w: Window)
    ensures w == Edges(s, threshold, start)
  {
    var activated := false;
    var activateTime: Option<int> := None;
    var endTime: Option<int> := None;
    ghost var rise: nat := 0;
    var i := 0;
    while i + 1 < |s|
      invariant 0 <= i
      invariant i > 0 ==> i + 1 <= |s|
      invariant endTime.None?
      invariant !activated ==> activateTime.None? && forall j :: 0 <= j < i ==> !Crosses(s, threshold, j, Rise)
      invariant activated ==> rise < i && FirstCrossing(s, threshold, 0, Rise) == Some(rise)
      invariant activated ==> activateTime == Some(start + rise + 1)
      invariant activated ==> forall j :: rise < j < i ==> !Crosses(s, threshold, j, Fall)
    {
      var diff := s[i + 1] - s[i];
      if !activated && diff > threshold {
        FirstCrossingAt(s, threshold, 0, Rise, i);
        activateTime := Some(i + 1 + start);
        activated := true;
        rise := i;
      } else if activated && diff < -threshold {
        endTime := Some(i + 1 + start);
        FirstCrossingAt(s, threshold, rise + 1, Fall, i);
        break;
      }
      i := i + 1;
    }
    w := Window(activateTime, endTime);
  }

  /** A crossing at `i` with none before it, from `from` on, is the first crossing. */
  lemma FirstCrossingAt(s: seq<real>, threshold: real, from: nat, e: Edge, i: nat)
    requires from <= i && Crosses(s, threshold, i, e)
    requires forall j :: from <= j < i ==> !Crosses(s, threshold, j, e)
    ensures FirstCrossing(s, threshold, from, e) == Some(i)
  {
  }

  // ---------------------------------------------------------------------------
  // Properties

  /**
   * A deactivation is only reported after an activation, strictly later, and both lie in
   * `[start + 1, start + |s| - 1]`.
   */
  lemma EdgesBounds(s: seq<real>, threshold: real, start: int)
    ensures var w := Edges(s, threshold, start);
      && (w.deactivate.Some? ==> w.activate.Some? && w.activate.value < w.deactivate.value)
      && (w.activate.Some? ==> start + 1 <= w.activate.value <= start + |s| - 1)
      && (w.deactivate.Some? ==> start + 1 <= w.deactivate.value <= start + |s| - 1)
  {
  }

  /** No step rises above the threshold exactly when nothing is reported. */
  lemma NoActivation(s: seq<real>, threshold: real, start: int)
    ensures Edges(s, threshold, start).activate.None? <==>
      forall i :: 0 <= i < |s| - 1 ==> s[i + 1] - s[i] <= threshold
  {
    if FirstCrossing(s, threshold, 0, Rise).Some? {
      var i := FirstCrossing(s, threshold, 0, Rise).value;
      assert s[i + 1] - s[i] > threshold;
    } else {
      forall i | 0 <= i < |s| - 1
        ensures s[i + 1] - s[i] <= threshold
      {
        assert !Crosses(s, threshold, i, Rise);
      }
    }
  }

  /** A wavelength missing from the map gives `(None, None)`. */
  lemma MissingWave(data: Series, wave: real, threshold: real, start: int)
    requires wave !in Keys(data)
    ensures DetectActivateTime(data, wave, threshold, start) == Window(None, None)
  {
  }

  /** The series `0, 0, 0, 50, 50, 50, -50, 0, 0` with threshold 10 activates at 3 and ends at 6. */
  lemma EdgesExample()
    ensures Edges([0.0, 0.0, 0.0, 50.0, 50.0, 50.0, -50.0, 0.0, 0.0], 10.0, 0) == Window(Some(3), Some(6))
  {
    var s := [0.0, 0.0, 0.0, 50.0, 50.0, 50.0, -50.0, 0.0, 0.0];
    assert Crosses(s, 10.0, 2, Rise);
    assert !Crosses(s, 10.0, 0, Rise) && !Crosses(s, 10.0, 1, Rise);
    assert FirstCrossing(s, 10.0, 0, Rise) == Some(2);
    assert Crosses(s, 10.0, 5, Fall);
    assert !Crosses(s, 10.0, 3, Fall) && !Crosses(s, 10.0, 4, Fall);
    assert FirstCrossing(s, 10.0, 3, Fall) == Some(5);
  }
}
