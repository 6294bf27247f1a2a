/**
 * The controller's use of the analyzer: `analyze_data` (detect the active window, reload the
 * narrowed file range, cut the detected wavelength into sections), the step order of
 * `execute_OES_analysis`, and the aggregation loop of `extract_specific_waveband_data`.
 */
module Controller {
  import opened Common
  import opened Text
  import opened OrderedMap
  import opened FileNames
  import opened ScanParser
  import opened TimeSeries
  import opened Activation
  import opened Sections
  import opened Observations
  import opened Peaks
  import opened Differences

  // ---------------------------------------------------------------------------
  // analyze_data

  /** The exceptions `analyze_data` re-raises. */
  datatype AnalysisError =
    | WaveNotFound           // the `ValueError` for a wavelength absent from the loaded map
    | ActivationNotDetected  // the `ValueError` when either index is `None`
    | WaveMissingInWindow    // the `KeyError` on the reloaded map
    | NoSections             // the `ZeroDivisionError` of a section count of zero

  /** The samples dropped at each end of the detected window. */
  const Margin: int := 10

  /** The file names reloaded for a detected window `[activate, deactivate]`. */
  function WindowFiles(base: string, activate: int, deactivate: int): seq<string> {
    GenerateFileNames(base, activate + Margin, deactivate - Margin, TextExtension)
  }

  /**
   * What a call of `analyze_data` leaves behind: its outcome (the rows it returns and stores,
   * or the exception it re-raises) and the analyzer's map afterwards.
   */
  datatype AnalysisRun = AnalysisRun(rows: Result<seq<ResultRow>, AnalysisError>, data: Series)

  /**
   * `analyze_data`: `loaded` is the map of the last `load_and_process_data`. Reloading clears
   * the analyzer's map, so only the narrowed window reaches the sections, and the narrowed map
   * stays the analyzer's map even when the lookup or the sectioning then raises.
   */
  function AnalyzeData(num: NumberParser, folder: Folder, loaded: Series, detectWave: real, threshold: real,
                       sectionCount: int, base: string, start: int): AnalysisRun
  {
    if detectWave !in Keys(loaded) then AnalysisRun(Failure(WaveNotFound), loaded)
    else
      var w := DetectActivateTime(loaded, detectWave, threshold, start);
      if w.activate.None? || w.deactivate.None? then AnalysisRun(Failure(ActivationNotDetected), loaded)
      else
        AnalyzeWindow(num, folder, detectWave, sectionCount, base, w.activate.value, w.deactivate.value)
  }

  /** The steps of `analyze_data` after a window `[activate, deactivate]` is detected. */
  function AnalyzeWindow(num: NumberParser, folder: Folder, detectWave: real, sectionCount: int, base: string,
                         activate: int, deactivate: int): AnalysisRun
  {
    var narrowed := ReadFileToData(num, folder, WindowFiles(base, activate, deactivate));
    match Get(narrowed, detectWave)
    case None => AnalysisRun(Failure(WaveMissingInWindow), narrowed)
    case Some(s) =>
      match AnalyzeSections(s, sectionCount)
      case Failure(_) => AnalysisRun(Failure(NoSections), narrowed)
      case Success(sections) => AnalysisRun(Success(PrepareResults(sections)), narrowed)
  }

  /**
   * The analyzer's map after the call: untouched when the wavelength is missing or no window
   * is detected; otherwise replaced by the map of the window's files, whatever happens next,
   * and on success the sections are cut from that map's series of the detected wavelength.
   */
  lemma AnalyzeDataState(num: NumberParser, folder: Folder, loaded: Series, detectWave: real, threshold: real,
                         sectionCount: int, base: string, start: int)
    ensures var run := AnalyzeData(num, folder, loaded, detectWave, threshold, sectionCount, base, start);
      var w := DetectActivateTime(loaded, detectWave, threshold, start);
      var early := detectWave !in Keys(loaded) || w.activate.None? || w.deactivate.None?;
      && ((run.rows == Failure(WaveNotFound) || run.rows == Failure(ActivationNotDetected)) <==> early)
      && (early ==> run.data == loaded)
    ensures var run := AnalyzeData(num, folder, loaded, detectWave, threshold, sectionCount, base, start);
      var w := DetectActivateTime(loaded, detectWave, threshold, start);
      detectWave in Keys(loaded) && w.activate.Some? && w.deactivate.Some? ==>
        run.data == ReadFileToData(num, folder, WindowFiles(base, w.activate.value, w.deactivate.value))
    ensures var run := AnalyzeData(num, folder, loaded, detectWave, threshold, sectionCount, base, start);
      run.rows.Success? ==>
        && Get(run.data, detectWave).Some?
        && AnalyzeSections(Get(run.data, detectWave).value, sectionCount).Success?
        && run.rows.value == PrepareResults(AnalyzeSections(Get(run.data, detectWave).value, sectionCount).value)
  {
    var run := AnalyzeData(num, folder, loaded, detectWave, threshold, sectionCount, base, start);
    if detectWave in Keys(loaded) {
      var w := DetectActivateTime(loaded, detectWave, threshold, start);
      if w.activate.Some? && w.deactivate.Some? {
        assert run == AnalyzeWindow(num, folder, detectWave, sectionCount, base, w.activate.value, w.deactivate.value);
      }
    }
  }

  /**
   * A wavelength missing from the loaded map is reported as such; a present one whose series
   * never rises by more than the threshold is reported as undetected.
   */
  lemma AnalyzeDataRejects(num: NumberParser, folder: Folder, loaded: Series, detectWave: real, threshold: real,
                           sectionCount: int, base: string, start: int)
    ensures AnalyzeData(num, folder, loaded, detectWave, threshold, sectionCount, base, start).rows == Failure(WaveNotFound)
      <==> detectWave !in Keys(loaded)
    ensures detectWave in Keys(loaded) ==>
      var s := Get(loaded, detectWave).value;
      (forall i :: 0 <= i < |s| - 1 ==> s[i + 1] - s[i] <= threshold) ==>
        AnalyzeData(num, folder, loaded, detectWave, threshold, sectionCount, base, start).rows == Failure(ActivationNotDetected)
  {
    if detectWave in Keys(loaded) {
      NoActivation(Get(loaded, detectWave).value, threshold, start);
    }
  }

  /** A window shorter than 20 steps leaves nothing to reload, so the lookup fails. */
  lemma NarrowWindowFails(num: NumberParser, folder: Folder, loaded: Series, detectWave: real, threshold: real,
                          sectionCount: int, base: string, start: int, a: int, e: int)
    requires detectWave in Keys(loaded)
    requires DetectActivateTime(loaded, detectWave, threshold, start) == Window(Some(a), Some(e))
    requires e - a < 2 * Margin
    ensures AnalyzeData(num, folder, loaded, detectWave, threshold, sectionCount, base, start).rows == Failure(WaveMissingInWindow)
  {
    var names := WindowFiles(base, a, e);
    assert names == [];
    ReadFileToDataSpec(num, folder, names, detectWave);
    assert LoadedPairs(num, folder, names) == [];
  }

  /**
   * On success the window spans at least 20 steps, and the rows are the sections of the
   * detected wavelength's intensities read from the files `activate + 10 .. deactivate - 10`
   * alone, in file order.
   */
  lemma AnalyzeDataSuccess(num: NumberParser, folder: Folder, loaded: Series, detectWave: real, threshold: real,
                           sectionCount: int, base: string, start: int)
    requires AnalyzeData(num, folder, loaded, detectWave, threshold, sectionCount, base, start).rows.Success?
    ensures detectWave in Keys(loaded) && sectionCount != 0
    ensures var w := DetectActivateTime(loaded, detectWave, threshold, start);
      && w.activate.Some? && w.deactivate.Some?
      && w.deactivate.value - w.activate.value >= 2 * Margin
      && var s := ValuesAt(LoadedPairs(num, folder, WindowFiles(base, w.activate.value, w.deactivate.value)), detectWave);
         && |s| > 0
         && AnalyzeSections(s, sectionCount).Success?
         && AnalyzeData(num, folder, loaded, detectWave, threshold, sectionCount, base, start).rows.value
            == PrepareResults(AnalyzeSections(s, sectionCount).value)
  {
    var w := DetectActivateTime(loaded, detectWave, threshold, start);
    var a, e := w.activate.value, w.deactivate.value;
    var names := WindowFiles(base, a, e);
    ReadFileToDataSpec(num, folder, names, detectWave);
    if e - a < 2 * Margin {
      NarrowWindowFails(num, folder, loaded, detectWave, threshold, sectionCount, base, start, a, e);
    }
    BucketsNonEmpty(num, folder, names);
  }

  /**
   * Two loaded maps that give the same window give the same outcome, and, once a window is
   * detected, leave the same map behind.
   */
  lemma AnalyzeDataWindowOnly(num: NumberParser, folder: Folder, loaded1: Series, loaded2: Series, detectWave: real,
                              threshold: real, sectionCount: int, base: string, start: int)
    requires detectWave in Keys(loaded1) && detectWave in Keys(loaded2)
    requires DetectActivateTime(loaded1, detectWave, threshold, start) == DetectActivateTime(loaded2, detectWave, threshold, start)
    ensures AnalyzeData(num, folder, loaded1, detectWave, threshold, sectionCount, base, start).rows
         == AnalyzeData(num, folder, loaded2, detectWave, threshold, sectionCount, base, start).rows
    ensures var w := DetectActivateTime(loaded1, detectWave, threshold, start);
      w.activate.Some? && w.deactivate.Some? ==>
        AnalyzeData(num, folder, loaded1, detectWave, threshold, sectionCount, base, start).data
        == AnalyzeData(num, folder, loaded2, detectWave, threshold, sectionCount, base, start).data
  {
  }

  // ---------------------------------------------------------------------------
  // execute_OES_analysis

  /** What the two spreadsheets hold for one threshold, before sorting and formatting. */
  datatype ThresholdReport = ThresholdReport(threshold: real, specific: AList<real, SpecificSwing>, significant: AList<real, Swing>)

  datatype OesOutput = OesOutput(reports: seq<ThresholdReport>, peaks: seq<Peak>, plot: Option<Plot>)

  /** The `RuntimeError` that wraps whatever the steps raise. */
  datatype OesError = AnalysisFailed

  /** Both difference finders at one threshold; `None` when either raises. */
  function Report(b: Batch, wavebands: seq<real>, t: real): (r: Option<ThresholdReport>)
    ensures r.Some? <==> Reportable(b, wavebands, t)
    ensures r.Some? ==> ReportFor(b, wavebands, t, r.value)
  {
    match (FindSpecificDifferences(b, wavebands, t), FindSignificantDifferences(b, t))
    case (Some(sp), Some(sg)) => Some(ThresholdReport(t, sp, sg))
    case _ => None
  }

  /**
   * `OES_analyze_and_export` after `gather_values`: both difference finders, per threshold in
   * order; it raises as soon as one of them does.
   */
  function Reports(b: Batch, wavebands: seq<real>, thresholds: seq<real>): (r: Option<seq<ThresholdReport>>)
    ensures r.Some? <==> forall i :: 0 <= i < |thresholds| ==> Reportable(b, wavebands, thresholds[i])
    ensures r.Some? ==> |r.value| == |thresholds|
    ensures r.Some? ==> forall i :: 0 <= i < |thresholds| ==> ReportFor(b, wavebands, thresholds[i], r.value[i])
  {
    MapAll((t: real) => Report(b, wavebands, t), thresholds)
  }

  /** Both difference finders succeed at threshold `t`. */
  predicate Reportable(b: Batch, wavebands: seq<real>, t: real) {
    FindSpecificDifferences(b, wavebands, t).Some? && FindSignificantDifferences(b, t).Some?
  }

  /** `rep` is what both finders give at threshold `t`. */
  predicate ReportFor(b: Batch, wavebands: seq<real>, t: real, rep: ThresholdReport) {
    && rep.threshold == t
    && Some(rep.specific) == FindSpecificDifferences(b, wavebands, t)
    && Some(rep.significant) == FindSignificantDifferences(b, t)
  }

  /** `base_name.split('_')[1]`, which raises when the name has no `_`. */
  function PlotName(base: string): Option<string> {
    var parts := Split(base, '_');
    if |parts| > 1 then Some(parts[1]) else None
  }

  /**
   * `execute_OES_analysis`: gather the selected files, write both difference reports, then
   * zero low intensities when asked, then list the peaks and draw the plot.
   */
  function ExecuteOesAnalysis(num: NumberParser, folder: Folder, paths: seq<string>, base: string,
                              wavebands: seq<real>, thresholds: seq<real>, skip: real,
                              filterEnabled: bool, floor: real): Result<OesOutput, OesError>
  {
    Analyze(GatherValues(num, folder, paths), base, wavebands, thresholds, skip, filterEnabled, floor)
  }

  /** The steps after `gather_values`, on the gathered map. */
  function Analyze(gathered: Batch, base: string, wavebands: seq<real>, thresholds: seq<real>, skip: real,
                   filterEnabled: bool, floor: real): Result<OesOutput, OesError>
  {
    match Reports(gathered, wavebands, thresholds)
    case None => Failure(AnalysisFailed)
    case Some(reports) =>
      var data := Zeroed(gathered, filterEnabled, floor);
      match FindPeakPoints(data)
      case None => Failure(AnalysisFailed)
      case Some(peaks) =>
        match PlotName(base)
        case None => Failure(AnalysisFailed)
        case Some(name) => Success(OesOutput(reports, peaks, AllSpectrumPlot(data, skip, name, None)))
  }

  /** The data the peaks and the plot are drawn from: zeroed below `floor` when asked. */
  function Zeroed(gathered: Batch, filterEnabled: bool, floor: real): Batch {
    if filterEnabled then FilterLowIntensity(gathered, floor) else gathered
  }

  /** With every bucket filled, each threshold yields both reports. */
  lemma ReportsSucceed(b: Batch, wavebands: seq<real>, thresholds: seq<real>)
    requires AllFilled(b)
    ensures Reports(b, wavebands, thresholds).Some?
  {
    assert RequestedFilled(b, wavebands);
  }

  lemma PlotNameSplit(base: string)
    ensures PlotName(base).Some? <==> '_' in base
  {
    CountPositive(base, '_');
  }

  /** For `<a>_<b>` and `<a>_<b>_<rest>` with `a`, `b` free of `_`, the name is `b`. */
  lemma PlotNameOf(a: string, b: string, rest: string)
    requires '_' !in a && '_' !in b
    ensures PlotName(a + "_" + b) == Some(b)
    ensures PlotName(a + "_" + b + "_" + rest) == Some(b)
  {
    SplitTwoFields(a, '_', b);
    assert a + "_" + b == a + ['_'] + b;
    SplitAtFirst(a, '_', b + "_" + rest);
    SplitAtFirst(b, '_', rest);
    assert a + "_" + b + "_" + rest == a + ['_'] + (b + ['_'] + rest);
  }

  /**
   * The analysis fails exactly when the base name has no `_`: gathered buckets are never
   * empty, so neither the reports nor the peak list can raise. On success the reports cover
   * the thresholds in order, the peaks are those of the (optionally zeroed) gathered data,
   * and the plot is drawn from that same data.
   */
  lemma ExecuteOesSpec(num: NumberParser, folder: Folder, paths: seq<string>, base: string,
                       wavebands: seq<real>, thresholds: seq<real>, skip: real, filterEnabled: bool, floor: real)
    ensures ExecuteOesAnalysis(num, folder, paths, base, wavebands, thresholds, skip, filterEnabled, floor).Success?
      <==> '_' in base
    ensures ExecuteOesAnalysis(num, folder, paths, base, wavebands, thresholds, skip, filterEnabled, floor).Success? ==>
      var out := ExecuteOesAnalysis(num, folder, paths, base, wavebands, thresholds, skip, filterEnabled, floor).value;
      var gathered := GatherValues(num, folder, paths);
      var data := Zeroed(gathered, filterEnabled, floor);
      && |out.reports| == |thresholds|
      && (forall i :: 0 <= i < |thresholds| ==> ReportFor(gathered, wavebands, thresholds[i], out.reports[i]))
      && Some(out.peaks) == FindPeakPoints(data)
      && out.plot == AllSpectrumPlot(data, skip, PlotName(base).value, None)
  {
    var gathered := GatherValues(num, folder, paths);
    GatheredFilled(num, folder, paths);
    AnalyzeSpec(gathered, base, wavebands, thresholds, skip, filterEnabled, floor);
  }

  /** On a map without empty buckets, the steps fail exactly when the base name has no `_`. */
  lemma AnalyzeSpec(gathered: Batch, base: string, wavebands: seq<real>, thresholds: seq<real>, skip: real,
                    filterEnabled: bool, floor: real)
    requires AllFilled(gathered)
    ensures Analyze(gathered, base, wavebands, thresholds, skip, filterEnabled, floor).Success? <==> '_' in base
    ensures Analyze(gathered, base, wavebands, thresholds, skip, filterEnabled, floor).Success? ==>
      var out := Analyze(gathered, base, wavebands, thresholds, skip, filterEnabled, floor).value;
      var data := Zeroed(gathered, filterEnabled, floor);
      && |out.reports| == |thresholds|
      && (forall i :: 0 <= i < |thresholds| ==> ReportFor(gathered, wavebands, thresholds[i], out.reports[i]))
      && Some(out.peaks) == FindPeakPoints(data)
      && out.plot == AllSpectrumPlot(data, skip, PlotName(base).value, None)
  {
    var data := Zeroed(gathered, filterEnabled, floor);
    var reports := Reports(gathered, wavebands, thresholds);
    var peaks := FindPeakPoints(data);
    assert reports.Some? by {
      ReportsSucceed(gathered, wavebands, thresholds);
    }
    assert peaks.Some? by {
      ZeroedFilled(gathered, filterEnabled, floor);
    }
    PlotNameSplit(base);
    if '_' in base {
      var out := OesOutput(reports.value, peaks.value, AllSpectrumPlot(data, skip, PlotName(base).value, None));
      assert Analyze(gathered, base, wavebands, thresholds, skip, filterEnabled, floor) == Success(out);
    }
  }

  /** Zeroing never empties a bucket. */
  lemma ZeroedFilled(gathered: Batch, filterEnabled: bool, floor: real)
    requires AllFilled(gathered)
    ensures AllFilled(Zeroed(gathered, filterEnabled, floor))
  {
  }

  /** Gathered buckets are never empty. */
  lemma GatheredFilled(num: NumberParser, folder: Folder, paths: seq<string>)
    ensures AllFilled(GatherValues(num, folder, paths))
  {
    GatherValuesSpec(num, folder, paths, 0.0);
  }

  /**
   * Zeroing comes after both reports: switching it on changes neither whether the analysis
   * succeeds nor the reports, only the peak list and the plot.
   */
  lemma FilterAfterReports(num: NumberParser, folder: Folder, paths: seq<string>, base: string,
                           wavebands: seq<real>, thresholds: seq<real>, skip: real, floor: real)
    ensures var on := ExecuteOesAnalysis(num, folder, paths, base, wavebands, thresholds, skip, true, floor);
      var off := ExecuteOesAnalysis(num, folder, paths, base, wavebands, thresholds, skip, false, floor);
      && (on.Success? <==> off.Success?)
      && (on.Success? ==> on.value.reports == off.value.reports)
  {
    ExecuteOesSpec(num, folder, paths, base, wavebands, thresholds, skip, true, floor);
    ExecuteOesSpec(num, folder, paths, base, wavebands, thresholds, skip, false, floor);
  }

  // ---------------------------------------------------------------------------
  // extract_specific_waveband_data

  /** Per wavelength, the intensity stored under each requested waveband. */
  type Table = AList<real, AList<real, real>>

  /** The requested wavebands not yet set receive `x`; the others keep their value. */
  function SetDefaults(inner: AList<real, real>, wavebands: seq<real>, x: real): AList<real, real> {
    if wavebands == [] then inner
    else
      var m := SetDefaults(inner, wavebands[..|wavebands| - 1], x);
      var wb := wavebands[|wavebands| - 1];
      if wb in Keys(m) then m else Put(m, wb, x)
  }

  /** One record: create the wavelength's row if needed, then fill its unset wavebands. */
  function Record(m: Table, p: (real, real), wavebands: seq<real>): Table {
    Put(m, p.0, SetDefaults(Get(m, p.0).GetOr([]), wavebands, p.1))
  }

  /** The records of all files, in order, folded into the table. */
  function Aggregate(ps: seq<(real, real)>, wavebands: seq<real>): Table {
    if ps == [] then [] else Record(Aggregate(ps[..|ps| - 1], wavebands), ps[|ps| - 1], wavebands)
  }

  /** The listing's names that end in `.txt` and start with the base name, in listing order. */
  function SpectrumFiles(listing: seq<string>, base: string): (files: seq<string>)
    ensures forall f :: f in files <==> f in listing && EndsWith(f, TextExtension) && StartsWith(f, base)
  {
    if listing == [] then []
    else
      var f := listing[|listing| - 1];
      SpectrumFiles(listing[..|listing| - 1], base)
        + if EndsWith(f, TextExtension) && StartsWith(f, base) then [f] else []
  }

  /** Filtering keeps listing order: the matches of a concatenation are those of each part, in turn. */
  lemma {:induction false} SpectrumFilesAppend(a: seq<string>, b: seq<string>, base: string)
    ensures SpectrumFiles(a + b, base) == SpectrumFiles(a, base) + SpectrumFiles(b, base)
    decreases |b|
  {
    if b == [] {
      assert a + b == a;
    } else {
      var init, last := b[..|b| - 1], b[|b| - 1];
      var tail := if EndsWith(last, TextExtension) && StartsWith(last, base) then [last] else [];
      SpectrumFilesAppend(a, init, base);
      assert (a + b)[..|a + b| - 1] == a + init && (a + b)[|a + b| - 1] == last;
      assert SpectrumFiles(a + b, base) == SpectrumFiles(a + init, base) + tail;
      assert SpectrumFiles(b, base) == SpectrumFiles(init, base) + tail;
    }
  }

  /** A single name is kept exactly when it ends in `.txt` and starts with the base name. */
  lemma SpectrumFilesSingle(f: string, base: string)
    ensures SpectrumFiles([f], base) == if EndsWith(f, TextExtension) && StartsWith(f, base) then [f] else []
  {
    assert [f][..0] == [];
  }

  /**
   * `extract_specific_waveband_data` up to writing the spreadsheet: `None` when no file
   * matches (the early return). A file whose reading fails adds nothing.
   */
  function ExtractSpecificWavebandData(num: NumberParser, folder: Folder, listing: seq<string>, base: string,
                                       wavebands: seq<real>): (r: Option<Table>)
    ensures r.None? <==> SpectrumFiles(listing, base) == []
  {
    var files := SpectrumFiles(listing, base);
    if files == [] then None else Some(Aggregate(LoadedPairs(num, folder, files), wavebands))
  }

  lemma {:induction false} SetDefaultsGet(inner: AList<real, real>, wavebands: seq<real>, x: real, wb: real)
    requires DistinctKeys(inner)
    ensures DistinctKeys(SetDefaults(inner, wavebands, x))
    ensures Get(SetDefaults(inner, wavebands, x), wb) ==
      if Get(inner, wb).Some? then Get(inner, wb) else if wb in wavebands then Some(x) else None
  {
    if wavebands != [] {
      var init := wavebands[..|wavebands| - 1];
      var last := wavebands[|wavebands| - 1];
      SetDefaultsGet(inner, init, x, wb);
      var m := SetDefaults(inner, init, x);
      assert wavebands == init + [last];
      if last !in Keys(m) && last != wb {
        PutOther(m, last, x, wb);
      }
    }
  }

  /** The table has one row per wavelength seen, in order of first appearance. */
  lemma {:induction false} AggregateKeys(ps: seq<(real, real)>, wavebands: seq<real>)
    ensures DistinctKeys(Aggregate(ps, wavebands))
    ensures Keys(Aggregate(ps, wavebands)) == Dedup(Keys(ps))
  {
    if ps != [] {
      var init := ps[..|ps| - 1];
      AggregateKeys(init, wavebands);
      KeysSnoc(ps);
      assert Keys(ps)[..|ps| - 1] == Keys(init);
    }
  }

  /**
   * First write wins: a row exists exactly for the wavelengths seen, and it holds exactly the
   * requested wavebands, each with the first intensity read for that wavelength; later
   * records never overwrite it.
   */
  lemma {:induction false} AggregateSpec(ps: seq<(real, real)>, wavebands: seq<real>, w: real, wb: real)
    ensures FirstWins(ps, wavebands, w, wb)
  {
    if ps != [] {
      var init := ps[..|ps| - 1];
      var (k, x) := ps[|ps| - 1];
      AggregateSpec(init, wavebands, w, wb);
      assert ps == init + [(k, x)];
      if k != w {
        AggregateOther(init, (k, x), wavebands, w, wb);
      } else {
        AggregateSame(init, x, wavebands, w, wb);
      }
    }
  }

  /**
   * The row of `w` exists exactly when `w` was seen, and it holds exactly the requested
   * wavebands, each with the first intensity read for `w`.
   */
  predicate FirstWins(ps: seq<(real, real)>, wavebands: seq<real>, w: real, wb: real) {
    var t := Aggregate(ps, wavebands);
    && (Get(t, w).Some? <==> w in Keys(ps))
    && (w in Keys(ps) ==>
          && DistinctKeys(Get(t, w).value)
          && Get(Get(t, w).value, wb) == if wb in wavebands then FirstAt(ps, w) else None)
  }

  /** A record of another wavelength does not touch the row of `w`. */
  lemma AggregateOther(init: seq<(real, real)>, p: (real, real), wavebands: seq<real>, w: real, wb: real)
    requires p.0 != w && FirstWins(init, wavebands, w, wb)
    ensures FirstWins(init + [p], wavebands, w, wb)
  {
    var ps := init + [p];
    assert ps[..|ps| - 1] == init && ps[|ps| - 1] == p;
    KeysSnoc(ps);
    FirstAtSnoc(init, p, w);
    RecordOther(Aggregate(init, wavebands), p, wavebands, w);
  }

  /** A record of `w` itself fills only the wavebands its row does not hold yet. */
  lemma AggregateSame(init: seq<(real, real)>, x: real, wavebands: seq<real>, w: real, wb: real)
    requires FirstWins(init, wavebands, w, wb)
    ensures FirstWins(init + [(w, x)], wavebands, w, wb)
  {
    var ps := init + [(w, x)];
    assert ps[..|ps| - 1] == init && ps[|ps| - 1] == (w, x);
    KeysSnoc(ps);
    FirstAtSnoc(init, (w, x), w);
    AggregateKeys(init, wavebands);
    RecordGet(Aggregate(init, wavebands), w, x, wavebands, wb);
  }

  /** Recording a pair leaves the rows of other wavelengths as they were. */
  lemma RecordOther(m: Table, p: (real, real), wavebands: seq<real>, w: real)
    requires p.0 != w
    ensures Get(Record(m, p, wavebands), w) == Get(m, w)
  {
    PutOther(m, p.0, SetDefaults(Get(m, p.0).GetOr([]), wavebands, p.1), w);
  }

  /** Recording `(w, x)` fills the unset requested wavebands of `w`'s row, creating it if needed. */
  lemma RecordGet(m: Table, w: real, x: real, wavebands: seq<real>, wb: real)
    requires DistinctKeys(m)
    requires Get(m, w).Some? ==> DistinctKeys(Get(m, w).value)
    ensures Get(Record(m, (w, x), wavebands), w).Some?
    ensures DistinctKeys(Get(Record(m, (w, x), wavebands), w).value)
    ensures Get(Get(Record(m, (w, x), wavebands), w).value, wb) ==
      if Get(m, w).Some? && Get(Get(m, w).value, wb).Some? then Get(Get(m, w).value, wb)
      else if wb in wavebands then Some(x) else None
  {
    var inner := Get(m, w).GetOr([]);
    SetDefaultsGet(inner, wavebands, x, wb);
  }

  /**
   * The extracted table: `None` exactly when no name matches; otherwise one row per
   * wavelength read from the matching files, holding each requested waveband with the first
   * intensity any matching file gave for that wavelength.
   */
  lemma ExtractFirstWins(num: NumberParser, folder: Folder, listing: seq<string>, base: string,
                         wavebands: seq<real>, w: real, wb: real)
    ensures ExtractSpecificWavebandData(num, folder, listing, base, wavebands).None?
      <==> forall f :: f in listing ==> !(EndsWith(f, TextExtension) && StartsWith(f, base))
    ensures ExtractSpecificWavebandData(num, folder, listing, base, wavebands).Some? ==>
      var t := ExtractSpecificWavebandData(num, folder, listing, base, wavebands).value;
      var ps := LoadedPairs(num, folder, SpectrumFiles(listing, base));
      && DistinctKeys(t)
      && (Get(t, w).Some? <==> w in Keys(ps))
      && (Get(t, w).Some? ==> Get(Get(t, w).value, wb) == if wb in wavebands then FirstAt(ps, w) else None)
  {
    var files := SpectrumFiles(listing, base);
    if files != [] {
      assert files[0] in files;
      AggregateKeys(LoadedPairs(num, folder, files), wavebands);
      AggregateSpec(LoadedPairs(num, folder, files), wavebands, w, wb);
      assert FirstWins(LoadedPairs(num, folder, files), wavebands, w, wb);
    } else {
      assert forall f :: f in listing ==> f !in files;
    }
  }
}
