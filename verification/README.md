# OES analyzer core in Dafny

This project models the data path of an optical emission spectroscopy (OES) analyzer. A
measurement run writes one scan file per time step, named `<base>_S<index>.txt`, where the
index is zero-padded to at least four digits. Each line of a file has the form
`<wavelength>;<intensity>`. The analyzer does the following:

- it scans a directory listing for the base name and the index range;
- it generates the file names of a range and loads them into one time series per exact
  wavelength;
- it finds where a chosen wavelength switches on and off (`detect_activate_time`);
- it reloads the active window, minus 10 files at each end, and cuts it into sections with a
  mean each;
- it gathers per-file observations for the difference reports (the minimum, the maximum and
  the observation farthest from the minimum, for wavelengths that swing by more than a
  threshold);
- it lists the highest peak of every wavelength, sorted by height, and greedily marks up to
  five peaks that lie more than a skip radius apart;
- it extracts a table of the first intensity seen for requested wavebands.

Python dictionaries are ordered association lists (`OrderedMap`). Assigning to an existing
key keeps its position, and a new key goes last, as Python's insertion order does. Every
exception the code raises or catches is an explicit `Option`/`Result` case. File contents
are a parameter: a `Folder` maps names to the lines read plus a flag saying whether reading
reached the end. A file missing from the folder cannot be opened. Parsing a number with
`float()` is a parameter `NumberParser`, and the model holds for every such parser. Numbers
are exact reals (see "## Left out").

Modules, in dependency order:

- `Common`: `Option`, `Result`, `Abs`, `FlatMap` and `MapAll`.
- `Text`: the Python `str` operations used (`strip`, `split`, `in`, `split(..)[0]`,
  `split(..)[-1]`, `replace`).
- `Numerals`: `str(i)`, `zfill` and `int()`.
- `OrderedMap`: dictionaries, with reference definitions (`Dedup`, `ValuesAt`, `LastAt`,
  `FirstAt`) that the fold-based operations are proved against.
- `FileNames`: `generate_file_names`, the time-point label and `scan_file_indices`.
- `ScanParser`: `read_data` and `read_values_by_line`.
- `TimeSeries`: `read_file_to_data` and `load_and_process_data`.
- `Activation`: `detect_activate_time`.
- `Sections`: `analyze_sections` and `prepare_results_dataframe`.
- `Observations`: `gather_values` and `filter_low_intensity`.
- `Peaks`: `find_peak_points` and `allSpectrum_plot`.
- `Differences`: `find_significant_differences` and `find_specific_wavebands_differences`.
- `Controller`: `analyze_data`, `execute_OES_analysis` (with `OES_analyze_and_export`) and
  `extract_specific_waveband_data`.

The model shows four behaviours of the code that are easy to miss:

- `read_data` drops a line with three or more `;`-separated fields, while
  `read_values_by_line` reads the first two fields of the same line
  (`ScanParser.ThreeFieldLine`).
- `analyze_data` always fails with a missing-key error when the detected window spans fewer
  than 20 steps. Trimming 10 files from each end then leaves no file to reload
  (`Controller.NarrowWindowFails`).
- The scan recovers the base name of generated files only when the base name does not
  contain `_S`, because `split('_S')[0]` cuts at the first marker (`FileNames.ScanRoundTrip`,
  `FileNames.MarkerInBase`).
- Once a window is detected, `analyze_data` replaces the analyzer's map with the map of the
  window's files, and leaves it replaced even when the lookup or the sectioning then fails.
  `Controller.AnalyzeData` returns that map with the rows (`Controller.AnalyzeDataState`).

`analyze_sections` is modelled as the code behaves, not as its documentation describes it:

- a section count of zero raises (division by zero);
- a negative count runs no section and returns only the whole-series entry;
- any positive count is accepted.

## Model

| member | source | states |
|---|---|---|
| Common.MapAll | model/analyzer.py:325-326 | a loop that raises on the first failing element: it succeeds exactly when every element succeeds, and then yields one result per element, in order |
| Common.FlatMapAppend | model/analyzer.py:95-107 | processing two runs of files one after the other is the same as processing their concatenation |
| Text.Split | model/analyzer.py:69 | `split` on one character gives one more field than there are separators, and no field contains the separator |
| Text.SplitTwoFields | model/analyzer.py:69 | two separator-free tokens glued by one separator split back into exactly those two tokens |
| Text.SplitAtFirst | model/analyzer.py:69 | the first field is the text before the first separator, and the rest splits independently |
| Text.FindFrom | controller/controller.py:105 | the search returns the first occurrence at or after the start, or reports that there is none |
| Text.BeforeFirst | controller/controller.py:110 | `split(t)[0]` is a prefix of the name (what it cuts off: `Text.BeforeFirstSpec`) |
| Text.BeforeFirstSpec | controller/controller.py:110 | `split(t)[0]` stops at the first occurrence of `t`: when `t` occurs it starts right after the result and nowhere inside it; when it does not the whole text is returned |
| Text.AfterLast | controller/controller.py:115 | `split(t)[-1]` is a suffix of the name (what it cuts off: `Text.AfterLastSpec`) |
| Text.AfterLastSpec | controller/controller.py:115 | `split(t)[-1]` holds no occurrence of `t`; it is the whole text exactly when `t` does not occur, and otherwise an occurrence of `t` ends where it starts |
| Text.AfterLastCharFree | model/analyzer.py:164 | cut at a one-character separator, the last field holds no separator |
| Text.AfterLastCharWhole | model/analyzer.py:164 | cut at a one-character separator, the last field is the whole text exactly when the text has no separator |
| Text.AfterLastCharSeparator | model/analyzer.py:164 | cut at a one-character separator, a last field shorter than the text is preceded by the separator |
| Text.AfterOccurrence | controller/controller.py:115 | a suffix found after an occurrence of `t` is a suffix of the whole text, preceded by an occurrence of `t` |
| Text.RemoveAll | controller/controller.py:115 | `replace(t, '')` never lengthens the text (when it changes it: `Text.RemoveAllSpec`) |
| Text.RemoveAllSpec | controller/controller.py:115 | `replace(t, '')` leaves the text unchanged exactly when `t` does not occur, and otherwise shortens it by at least `len(t)` |
| Text.TrimLeft | model/analyzer.py:69 | `strip` removes exactly a leading run of whitespace, leaving a suffix that starts with a non-space |
| Text.TrimRight | model/analyzer.py:69 | `strip` removes exactly a trailing run of whitespace, leaving a prefix that ends with a non-space |
| Text.TrimRightWhitespaceTail | model/analyzer.py:69 | a line ending made of whitespace does not change the stripped line |
| Numerals.NatToStr | model/analyzer.py:49 | `str(n)` is a non-empty string of decimal digits |
| Numerals.NatToStrValue | model/analyzer.py:49 | reading the digits of `str(n)` gives back `n` |
| Numerals.ZFill | model/analyzer.py:49 | `zfill(w)` yields `max(len, w)` characters |
| Numerals.LeadingZerosValue | model/analyzer.py:49 | zero padding does not change the value of a digit string |
| Numerals.ZFillRoundTrip | model/analyzer.py:49 | `int(str(i).zfill(w))` gives back `i` for every integer, negative ones included, and every width |
| Numerals.NegativeRoundTrip | model/analyzer.py:49 | the negative half of the round trip: the sign stays in front of the padding |
| Numerals.NonNegativeRoundTrip | model/analyzer.py:49 | the non-negative half of the round trip |
| Numerals.ZFillChars | model/analyzer.py:49 | a padded index contains no `.`, `S` or `_`, so the file name can be cut back apart |
| Numerals.IntToStr | model/analyzer.py:49 | `str(i)` is non-empty and starts with `-` exactly for a negative `i` |
| Numerals.ParseInt | controller/controller.py:115 | `int()` on an index field: it reads back every padded `str(i)`, as stated by `Numerals.ZFillRoundTrip` |
| OrderedMap.IndexOf | model/analyzer.py:101 | the key test finds the first entry for the key, or reports that the key is absent |
| OrderedMap.Put | model/analyzer.py:127 | `d[k] = v` keeps an existing key in place and appends a new key, keeps keys distinct, and stores `v` |
| OrderedMap.PutOther | model/analyzer.py:127 | assigning to one key leaves every other key's value unchanged |
| OrderedMap.AppendToGet | model/analyzer.py:101-103 | create-if-missing-then-append extends the key's bucket by one value and leaves the other buckets unchanged |
| OrderedMap.Dedup | model/analyzer.py:101-102 | the reference key order: each key once, distinct, and every key of the input present |
| OrderedMap.FirstIndex | model/analyzer.py:157 | `list.index` finds the first position holding the value |
| OrderedMap.FirstIndexPrefix | model/analyzer.py:101-102 | appending a value does not move the first position of a value already present |
| OrderedMap.InFirstOrderSnoc | model/analyzer.py:101-102 | appending a key keeps an order of first appearance, and a key new to the list may follow all the others |
| OrderedMap.DedupOrder | model/analyzer.py:101-102 | the reference key order lists keys in order of first appearance: a key listed earlier first appears earlier |
| OrderedMap.CollectSpec | model/analyzer.py:100-103 | the bucketing loop yields distinct keys in order of first appearance, and each bucket holds every value paired with its key, in order |
| OrderedMap.PutAllKeys | model/analyzer.py:121-127 | repeated assignment yields distinct keys in order of first appearance |
| OrderedMap.PutAllGet | model/analyzer.py:121-127 | repeated assignment keeps the last value written for each key |
| OrderedMap.GroupFilesBucket | model/analyzer.py:95-107 | the per-file bucketing loop equals bucketing all the files' pairs concatenated |
| OrderedMap.GroupFilesAppend | model/analyzer.py:95-107 | loading a list of files in two runs concatenates every bucket |
| OrderedMap.FilterMapAt | model/analyzer.py:190-196 | a loop that stores `f(k, v)` when it is defined records for each key exactly `f` of that key's value |
| OrderedMap.FirstAtSnoc | controller/controller.py:235-236 | appending a pair never changes the first value already seen for a key |
| FileNames.GenerateFileNames | model/analyzer.py:36-49 | `end - start + 1` names (none when `start > end`), the k-th being the name of index `start + k` |
| FileNames.FileName | model/analyzer.py:49 | a generated name starts with the base name, ends with the extension, and holds the marker and an index of at least four characters between them; `zfill(4)` pads but never truncates (parsed back by `FileNames.FileNameRoundTrip`) |
| FileNames.GenerateCons | model/analyzer.py:49 | the range starting one index lower has the new first index's name in front of the rest |
| FileNames.FileNameRoundTrip | controller/controller.py:105-115 | for a base name that does not contain `_S`: a generated name is a scan candidate, its base name is recovered exactly, and its index parses back |
| FileNames.MarkerInBase | controller/controller.py:110 | a base name that contains `_S` is cut at its own marker: a name generated for `run_Sample` is scanned as base `run` |
| FileNames.FileNameInjective | model/analyzer.py:49 | distinct indices give distinct names |
| FileNames.TimePointOfFileName | model/analyzer.py:164 | the time-point label of a generated name is its zero-padded index |
| FileNames.TimePointOf | model/analyzer.py:164 | the label between the last `S` and the next `.` of `<base>_S<z>.txt` is `z` |
| FileNames.TimePoint | model/analyzer.py:164 | the time-point label: what it recovers from a generated name is stated by `FileNames.TimePointOfFileName` |
| FileNames.Candidates | controller/controller.py:105 | only names that end in `.txt` and contain `_S` are kept |
| FileNames.CandidatesMembers | controller/controller.py:105 | the candidates are exactly the listing's names that end in `.txt` and contain `_S` |
| FileNames.CandidatesAppend | controller/controller.py:103-105 | the filter keeps listing order: the candidates of a concatenation are those of each part, in turn |
| FileNames.CandidatesSingle | controller/controller.py:103-105 | a single name is kept exactly when it ends in `.txt` and contains `_S` |
| FileNames.CandidatesNone | controller/controller.py:103-105 | a listing with no name of that shape has no candidate |
| FileNames.CandidatesFirst | controller/controller.py:103-110 | the first candidate is the first name of the listing that is a candidate |
| FileNames.ParsedIndices | controller/controller.py:111-118 | every index collected comes from a name that parses, and every name that parses contributes its index |
| FileNames.MinOf | controller/controller.py:123 | `min` is attained and is a lower bound |
| FileNames.MaxOf | controller/controller.py:123 | `max` is attained and is an upper bound |
| FileNames.ScanFileIndicesSpec | controller/controller.py:103-123 | no result exactly when there is no candidate or no candidate yields an index; otherwise the base name of the first candidate and the least and greatest parsed index, both attained |
| FileNames.ScanFileIndices | controller/controller.py:93-127 | a range is reported only when a candidate exists, and its low end is at most its high end (all of it: `FileNames.ScanFileIndicesSpec`) |
| FileNames.IndexRangeOf | controller/controller.py:111-123 | no index is collected exactly when no candidate parses; otherwise `min` and `max` are attained by candidates and bound every parsed index |
| FileNames.ScanBaseOfFirst | controller/controller.py:103-110 | the reported base name is cut from the first name of the listing that is a candidate |
| FileNames.ScanRoundTrip | controller/controller.py:103-123 | for a base name that does not contain `_S`, scanning a listing of exactly the names generated for `start..end` (any order, repeats allowed) recovers the base name, `start` and `end` |
| FileNames.GeneratedIndicesInRange | controller/controller.py:111-118 | every index parsed from generated names lies in the generated range |
| ScanParser.ParseLineSpec | model/analyzer.py:66-73 | a line yields a record exactly when it has one `;` and both stripped fields parse; the record holds the two parsed values |
| ScanParser.ParseLine | model/analyzer.py:66-73 | a record comes only from a line holding a `;` whose stripped text has exactly one `;` (the record itself: `ScanParser.ParseLineSpec`) |
| ScanParser.ReadData | model/analyzer.py:51-80 | the records are returned exactly when reading the file completes, and never outnumber its lines |
| ScanParser.StripFields | model/analyzer.py:67-69 | stripping never removes a `;`: the stripped line has one field more than the line has `;`s |
| ScanParser.ParseLineRoundTrip | model/analyzer.py:67-70 | writing `<w>;<i>` plus a line ending and parsing it gives back the record |
| ScanParser.ParseLinesAppend | model/analyzer.py:66-73 | records keep line order: parsing two runs of lines concatenates their records |
| ScanParser.ParseLinesSingle | model/analyzer.py:66-73 | each line contributes at most its own record |
| ScanParser.ParseLinesLength | model/analyzer.py:66-73 | a file yields no more records than it has lines |
| ScanParser.ReadValuesByLineSpec | model/analyzer.py:116-134 | one entry per wavelength, in order of first appearance, holding the value of the last accepted line, and only wavelengths of at least 195 |
| ScanParser.ReadValuesByLine | model/analyzer.py:116-134 | the wavelength map of one file, as stated by `ScanParser.ReadValuesByLineSpec` |
| ScanParser.ThreeFieldLine | model/analyzer.py:69 | a three-field line is dropped by `read_data` but read (first two fields) by `read_values_by_line` |
| TimeSeries.RecordPairs | model/analyzer.py:100-103 | each record contributes its wavelength and intensity, in order |
| TimeSeries.ReadFileToDataSpec | model/analyzer.py:93-107 | the loaded map has distinct wavelengths in order of first appearance, and each bucket is exactly the intensities read for that wavelength, in file and line order |
| TimeSeries.ReadFileToData | model/analyzer.py:82-110 | the loaded map, as stated by `TimeSeries.ReadFileToDataSpec` and `TimeSeries.BucketAppend` |
| TimeSeries.BucketsNonEmpty | model/analyzer.py:101-103 | no wavelength is ever stored with an empty bucket |
| TimeSeries.BucketAppend | model/analyzer.py:95-107 | loading two lists of files one after the other concatenates every bucket |
| TimeSeries.FailedFileIgnored | model/analyzer.py:105-107 | a file whose reading raises leaves the map as if it had not been listed |
| TimeSeries.SingleFileBucket | model/analyzer.py:98-103 | a readable file contributes all of its records at a wavelength, in line order |
| TimeSeries.LoadAndProcessDataFiles | controller/controller.py:39-42 | loading `start..end` is loading `start..end-1` followed by the file of index `end` |
| TimeSeries.LoadAndProcessData | controller/controller.py:24-47 | loading a range is loading its generated names, as stated by `TimeSeries.LoadAndProcessDataFiles` |
| Activation.FirstCrossing | model/analyzer.py:419-429 | the first step at or after a position whose difference crosses the threshold, or none at all |
| Activation.FirstCrossingAt | model/analyzer.py:419-429 | a crossing with none before it is the first crossing |
| Activation.ScanEdges | model/analyzer.py:410-431 | the loop with its flag and early exit reports the first rise and then the first fall after that rise |
| Activation.Edges | model/analyzer.py:415-431 | the loop over one series, as stated by `Activation.ScanEdges`, `Activation.EdgesBounds` and `Activation.NoActivation` |
| Activation.DetectActivateTime | model/analyzer.py:398-431 | `(None, None)` for a missing wavelength (`Activation.MissingWave`), otherwise the edges of its series |
| Activation.EdgesBounds | model/analyzer.py:419-431 | a deactivation is reported only after an activation, strictly later, and both lie within the scanned file indices |
| Activation.NoActivation | model/analyzer.py:419-431 | no activation is reported exactly when no step rises by more than the threshold |
| Activation.MissingWave | model/analyzer.py:410-412 | a wavelength absent from the map gives `(None, None)` |
| Activation.EdgesExample | model/analyzer.py:419-431 | a concrete series activates at the file after its rise and deactivates at the file after its fall |
| Sections.Mean | model/analyzer.py:293 | the mean is defined (not NaN) exactly for a non-empty slice |
| Sections.SectionInside | model/analyzer.py:288-289 | each section starts no later than it ends, and ends within the series |
| Sections.PartSection | model/analyzer.py:287-293 | section `i` starts at `i * (len // N)`; all but the last span `len // N` samples, the last ends at `len`; the mean is that of the slice |
| Sections.AnalyzeSections | model/analyzer.py:283-311 | zero sections raises; a negative count leaves only the whole series; otherwise N contiguous sections starting at 0 and ending at `len`, then the whole series |
| Sections.Parts | model/analyzer.py:287-300 | the first `m` loop iterations store `m` sections, the i-th being section `i` of N as `Sections.PartSection` states |
| Sections.JoinedContiguous | model/analyzer.py:288-290 | contiguous slices joined are the slice from the first start to the last end |
| Sections.SectionsCover | model/analyzer.py:283-290 | the N sections are disjoint and in order, and their slices joined are the whole series |
| Sections.TenInThree | model/analyzer.py:283-290 | ten samples in three sections split as 3, 3 and 4 |
| Sections.MeanConstant | model/analyzer.py:293 | a constant series has that constant as its mean |
| Sections.LabelNamesDistinct | model/analyzer.py:296-307 | different sections get different names, so the result dictionary keeps every entry |
| Sections.PrepareResults | model/analyzer.py:387-396 | one row per entry, in stored order, with its name and mean |
| Sections.PrepareResultsOrder | model/analyzer.py:283-311 | the results list `區段1` to `區段N`, then `總區段` with the overall mean, all names distinct |
| Observations.Basename | model/analyzer.py:147 | the text after the last `/`: a suffix of the path free of `/`, the whole path exactly when it has no `/`, and preceded by `/` otherwise |
| Observations.Tagged | model/analyzer.py:144-147 | every value of a file is tagged with that file's name, in the file's order |
| Observations.TaggedValuesAt | model/analyzer.py:144-147 | a file contributes at most one observation per wavelength |
| Observations.GatherValuesBucket | model/analyzer.py:139-147 | adding a file appends to each wavelength's bucket at most one observation, carrying the file's base name and the value it read |
| Observations.GatherValuesSpec | model/analyzer.py:139-147 | the gathered map has distinct wavelengths and no empty bucket |
| Observations.GatherValues | model/analyzer.py:136-149 | the gathered map, as stated by `Observations.GatherValuesSpec` and `Observations.GatherValuesBucket` |
| Observations.GatheredWavelength | model/analyzer.py:126 | only wavelengths of at least 195 are gathered |
| Observations.FilterLowIntensity | model/analyzer.py:364-375 | keys, bucket lengths and file names are kept; exactly the intensities below the floor become 0.0 |
| Observations.Floored | model/analyzer.py:372-375 | per observation, an intensity below the floor becomes 0.0 and any other is kept |
| Observations.FlooredIdempotent | model/analyzer.py:372-375 | flooring a bucket twice with the same floor is the same as flooring it once |
| Observations.FilterIdempotent | model/analyzer.py:364-375 | zeroing twice with the same floor is the same as zeroing once |
| Observations.FilterFloor | model/analyzer.py:366-375 | after zeroing every intensity is 0.0 or at least the floor; an empty map is left alone |
| Observations.FilterGet | model/analyzer.py:370-375 | zeroing keeps each wavelength under the same key, with its bucket floored |
| Peaks.Intensities | model/analyzer.py:155 | the intensities of the observations, in order |
| Peaks.MaxReal | model/analyzer.py:156 | `max` is attained and is an upper bound |
| Peaks.MinReal | model/analyzer.py:177 | `min` is attained and is a lower bound |
| Peaks.PeakOf | model/analyzer.py:155-164 | the peak is the highest intensity, taken from the first file that reaches it, with that file's time point |
| Peaks.PeakList | model/analyzer.py:153-165 | one peak per wavelength, in map order, each the peak of that wavelength's bucket; it fails exactly when some bucket is empty (`max` of an empty list raises) |
| Peaks.InsertSpec | model/analyzer.py:168 | inserting into a list sorted by descending maximum adds exactly that element and keeps the list sorted |
| Peaks.SortDescSpec | model/analyzer.py:168 | the sort returns a permutation of its input, sorted by descending maximum |
| Peaks.SortDesc | model/analyzer.py:168 | the sort by descending maximum, as stated by `Peaks.SortDescSpec` and `Peaks.SortDescStable` |
| Peaks.SortDescStable | model/analyzer.py:168 | the sort is stable: peaks with equal maxima keep their relative order |
| Peaks.SortDescSorted | model/analyzer.py:211 | sorting an already sorted list leaves it unchanged, so the second sort in the plot is a no-op |
| Peaks.FindPeakPointsSpec | model/analyzer.py:151-168 | fails exactly when a bucket is empty; otherwise a stable, descending permutation of the per-wavelength peaks |
| Peaks.FindPeakPoints | model/analyzer.py:151-168 | a peak list exists exactly when no bucket is empty (its contents: `Peaks.FindPeakPointsSpec`) |
| Peaks.MarkedIndices | model/analyzer.py:228-245 | at most five marks, in list order, pairwise more than the skip radius apart; every examined peak left unmarked lies within the radius of an earlier mark |
| Peaks.MarkFromSpec | model/analyzer.py:228-245 | the marking loop keeps the marking invariant until it stops |
| Peaks.MarkStop | model/analyzer.py:229-231 | the loop stops at the end of the list or after the fifth mark, with every examined peak accounted for |
| Peaks.SkipStep | model/analyzer.py:234 | a peak near an existing mark is skipped and stays covered |
| Peaks.MarkStep | model/analyzer.py:234-245 | a peak far from every mark is marked, and the invariant still holds |
| Peaks.CoveredGrow | model/analyzer.py:234 | a covered peak stays covered when a mark is added |
| Peaks.ApartGrow | model/analyzer.py:234-245 | the new mark is farther than the radius from every earlier mark |
| Peaks.Select | model/analyzer.py:245 | the marked peaks are the peaks at the marked positions |
| Peaks.KeepAbove | model/analyzer.py:203-204 | the optional pre-filter keeps exactly the wavelengths with some intensity above the floor |
| Peaks.KeepAboveAppend | model/analyzer.py:203-204 | the pre-filter keeps map order: the kept entries of a concatenation are those of each part, in turn |
| Peaks.KeepAboveSingle | model/analyzer.py:203-204 | a single entry is kept exactly when some intensity of it exceeds the floor |
| Peaks.AllSpectrumPlotSpec | model/analyzer.py:199-270 | without the optional pre-filter (`intensity_threshold=None`, as controller/controller.py:79-84 calls it), the plot fails (returns `None`) exactly when the data is empty or has an empty bucket; otherwise its marks are `Select(peaks, MarkedIndices(peaks, skip))` of `find_peak_points`' list: at most five, in list order, pairwise more than `skip` apart, and every examined peak left unmarked lies within `skip` of an earlier mark |
| Peaks.AllSpectrumPlotFiltered | model/analyzer.py:203-210 | with the pre-filter, the plot is the unfiltered plot of the kept wavelengths, and it fails exactly when no wavelength has an intensity above the floor (nothing is kept, so `peaks1[0]` raises), however full the buckets are |
| Peaks.AllSpectrumPlot | model/analyzer.py:199-270 | the marked peaks of the plot, as stated by `Peaks.AllSpectrumPlotSpec` without a pre-filter and by `Peaks.AllSpectrumPlotFiltered` with one |
| Peaks.MarkingExample | model/analyzer.py:228-245 | with peaks at 500.0, 500.5 and 600.0 and radius 2, the first and third are marked |
| Differences.Farthest | model/analyzer.py:195 | the observation chosen by `max(.., key=abs(x - lo))` is one of the observations |
| Differences.FarthestSpec | model/analyzer.py:195 | no observation is farther from the minimum than the chosen one, and every observation before it is strictly nearer (the first maximum wins) |
| Differences.FarthestAbove | model/analyzer.py:180 | when nothing lies below `lo`, the farthest observation is the first one at the maximum |
| Differences.FarthestIsFirstMax | model/analyzer.py:192-195 | the observation farthest from the minimum is the first one holding the maximum |
| Differences.FlaggedSpec | model/analyzer.py:191-196 | a bucket is flagged exactly when its maximum exceeds its minimum by strictly more than the threshold, and the reported `lo` and `hi` are its extremes |
| Differences.FindSignificantDifferencesSpec | model/analyzer.py:187-197 | fails exactly when a bucket is empty; otherwise reports a wavelength exactly when it is flagged, with its swing |
| Differences.FindSignificantDifferences | model/analyzer.py:187-197 | the swing report, as stated by `Differences.FindSignificantDifferencesSpec` |
| Differences.FindSpecificDifferencesSpec | model/analyzer.py:170-185 | fails exactly when a requested bucket is empty; otherwise reports exactly the requested, flagged wavelengths, with the time point of the farthest observation's file |
| Differences.FindSpecificDifferences | model/analyzer.py:170-185 | the requested-waveband report, as stated by `Differences.FindSpecificDifferencesSpec` |
| Differences.SpecificIgnoresOthers | model/analyzer.py:173-178 | an empty bucket of an unrequested wavelength breaks the significant report but not the specific one |
| Differences.DifferenceExample | model/analyzer.py:187-197 | intensities 100 and 400 are flagged at threshold 200 with the second file as farthest, and not flagged at 500 |
| Controller.AnalyzeDataRejects | controller/controller.py:144-150 | a wavelength missing from the loaded map is reported as not found; one that never rises by more than the threshold is reported as undetected |
| Controller.AnalyzeData | controller/controller.py:128-166 | the result and the analyzer's map after the call, as stated by `Controller.AnalyzeDataState` and the lemmas below |
| Controller.AnalyzeDataState | controller/controller.py:144-162 | the map is untouched exactly when the wavelength is missing or no window is detected; otherwise it is replaced by the map of the window's files even when a later step fails, and on success the rows are the sections of that map's series |
| Controller.NarrowWindowFails | controller/controller.py:153-156 | a detected window of fewer than 20 steps reloads no file, so the lookup fails |
| Controller.AnalyzeDataSuccess | controller/controller.py:144-162 | on success the window spans at least 20 steps, and the rows are the sections of the intensities reloaded from files `activate + 10 .. deactivate - 10` alone |
| Controller.AnalyzeDataWindowOnly | controller/controller.py:147-157 | the result depends on the loaded map only through the detected window, and so does the map left behind once a window is detected |
| Controller.Report | model/analyzer.py:326-346 | one threshold's report exists exactly when both finders succeed, and it holds their results |
| Controller.Reports | model/analyzer.py:325-360 | succeeds exactly when every threshold is reportable; then one report per threshold, in order |
| Controller.ReportsSucceed | model/analyzer.py:325-346 | with no empty bucket, every threshold is reportable |
| Controller.PlotNameSplit | controller/controller.py:83 | the plot name exists exactly when the base name contains `_` |
| Controller.PlotNameOf | controller/controller.py:83 | for `a_b` and `a_b_rest` the plot name is `b` |
| Controller.PlotName | controller/controller.py:83 | `base_name.split('_')[1]`, as stated by `Controller.PlotNameSplit` and `Controller.PlotNameOf` |
| Controller.ExecuteOesSpec | controller/controller.py:58-90 | the analysis fails exactly when the base name has no `_`; otherwise the reports cover the thresholds in order, and the peaks and the plot come from the optionally zeroed gathered data |
| Controller.ExecuteOesAnalysis | controller/controller.py:49-90 | the whole analysis, as stated by `Controller.ExecuteOesSpec` |
| Controller.Analyze | controller/controller.py:63-86 | the steps after gathering, as stated by `Controller.AnalyzeSpec` |
| Controller.AnalyzeSpec | controller/controller.py:63-86 | on a map without empty buckets the steps fail exactly when the base name has no `_`, with the outputs above |
| Controller.GatheredFilled | model/analyzer.py:139-147 | the gathered map never has an empty bucket |
| Controller.ZeroedFilled | model/analyzer.py:370-375 | zeroing never empties a bucket |
| Controller.FilterAfterReports | controller/controller.py:63-76 | switching the low-intensity filter on changes neither success nor the reports, only the peaks and the plot |
| Controller.SpectrumFiles | controller/controller.py:219 | the files processed are exactly the listing's names that end in `.txt` and start with the base name |
| Controller.SpectrumFilesAppend | controller/controller.py:219 | the filter keeps listing order: the matches of a concatenation are those of each part, in turn |
| Controller.SpectrumFilesSingle | controller/controller.py:219 | a single name is kept exactly when it ends in `.txt` and starts with the base name |
| Controller.SetDefaultsGet | controller/controller.py:234-236 | a requested waveband not set yet receives the value; set ones keep their value |
| Controller.RecordGet | controller/controller.py:232-236 | recording a pair creates its wavelength's row if needed and fills only the wavebands not yet set |
| Controller.RecordOther | controller/controller.py:232-236 | recording a pair leaves other wavelengths' rows unchanged |
| Controller.AggregateKeys | controller/controller.py:231-233 | one row per wavelength seen, in order of first appearance |
| Controller.AggregateSpec | controller/controller.py:227-236 | first write wins: a row exists exactly for the wavelengths seen and holds exactly the requested wavebands, each with the first intensity read for the wavelength |
| Controller.ExtractFirstWins | controller/controller.py:217-236 | no table exactly when no name matches; otherwise distinct rows, one per wavelength read, each requested waveband holding the first intensity any matching file gave |
| Controller.ExtractSpecificWavebandData | controller/controller.py:201-248 | no table exactly when no name of the listing matches (contents: `Controller.ExtractFirstWins`) |

## Left out

- The GUI, `main.py`, logging and progress messages: presentation only.
- Writing spreadsheets (`save_results_to_excel`, the Excel writers in `OES_analyze_and_export`
  and `extract_specific_waveband_data`) and sorting and formatting their sheets: file output.
  The model stops at the dictionaries those writers receive.
- Controller.ExtractSpecificWavebandData: returns a table even where the source writes no
  spreadsheet. Naming the columns raises a length mismatch, which the outer `except` swallows,
  when a waveband is requested twice or when no wavelength was read while wavebands are
  requested. The column naming belongs to the spreadsheet writer, which is left out.
- Floats are exact reals: rounding (in `max - min` and in `np.mean`), NaN and infinities are
  not modelled. For example, a NaN wavelength never equals itself in Python, so each `nan;5`
  line would open a new key. The model assumes every parsed number equals itself.
- `prepare_output_directory`, `os.makedirs` and `os.listdir`: the directory listing is a
  parameter, and an error while listing is not modelled.
- Drawing with matplotlib in `allSpectrum_plot` (axes, annotations, saving the image): only the
  marked peaks and the output file name are modelled.
- `set_files`: the selected paths are a parameter of the gathering step.
- `os.path.join`: the folder is keyed directly by file name or path.
- Observations.Basename: splits on `/` only, as `os.path.basename` does on POSIX.
- Sections.AnalyzeSections: only the mean of each section is modelled. The standard deviation
  and the stability percentage (`np.std`, `round`) are floating-point detail, so they are left
  out.
- ScanParser.ParseLine: the token grammar of `float()` is abstract (any `NumberParser`), so
  statements about which texts are numbers are left to that parameter.
- Numerals.ParseInt: `int()` is limited to an optional sign followed by ASCII digits. It
  ignores surrounding whitespace, underscores and non-ASCII digits, which a scan file name
  would not contain.
- Controller.Reports: `OES_analyze_and_export` runs the specific finder for every threshold,
  then the significant finder for every threshold. The model pairs them per threshold. Any
  failure aborts the whole call either way, so the outcome is the same.
- Controller.ExecuteOesSpec: the exception messages are not modelled. Every failure is the
  single `AnalysisFailed` case, as every failure becomes one `RuntimeError`.
- Time-point labels in `extract_specific_waveband_data`: records are keyed by wavelength,
  because a record's `time_point` field holds the wavelength read from the first column.
