/**
 * `gather_values` and `filter_low_intensity`: per wavelength, the (file name, intensity)
 * observations of the selected files, and the zeroing of intensities below a floor.
 */
module Observations {
  import opened Common
  import opened Text
  import opened OrderedMap
  import opened ScanParser

  /** One measurement of a wavelength: the base name of its file and the intensity read. */
  datatype Observation = Observation(file: string, intensity: real)

  /** The analyzer's `all_values`: wavelength to observations, in file order. */
  type Batch = AList<real, seq<Observation>>

  /** `os.path.basename` for `/`-separated paths: the text after the last `/`, or the whole path. */
  function Basename(path: string): (r: string)
    ensures EndsWith(path, r) && '/' !in r
    ensures r == path <==> '/' !in path
    ensures r != path ==> path[|path| - |r| - 1] == '/'
  {
    AfterLastCharFree(path, '/');
    AfterLastCharWhole(path, '/');
    AfterLastCharSeparator(path, '/');
    AfterLast(path, "/")
  }

  /** The entries of one file's table, each value tagged with the file's name. */
  function Tagged(name: string, m: AList<real, real>): (ps: seq<(real, Observation)>)
    ensures |ps| == |m|
    ensures forall k :: 0 <= k < |m| ==> ps[k] == (m[k].0, Observation(name, m[k].1))
  {
    if m == [] then [] else Tagged(name, m[..|m| - 1]) + [(m[|m| - 1].0, Observation(name, m[|m| - 1].1))]
  }

  /** What one selected file adds: an empty table adds nothing (the `continue`). */
  function FileObservations(num: NumberParser, folder: Folder, path: string): seq<(real, Observation)> {
    Tagged(Basename(path), ReadValuesByLine(num, Open(folder, path)))
  }

  /**
   * `gather_values` over the selected paths, in order. The folder is indexed by the paths as
   * given.
   */
  function GatherValues(num: NumberParser, folder: Folder, paths: seq<string>): Batch {
    GroupFiles((path: string) => FileObservations(num, folder, path), paths)
  }

  /** `filter_low_intensity`: intensities strictly below `floor` become 0.0, in place. */
  function FilterLowIntensity(b: Batch, floor: real): (r: Batch)
    ensures Keys(r) == Keys(b)
    ensures forall i :: 0 <= i < |b| ==> |r[i].1| == |b[i].1|
    ensures forall i, j :: 0 <= i < |b| && 0 <= j < |b[i].1| ==>
      && r[i].1[j].file == b[i].1[j].file
      && r[i].1[j].intensity == if b[i].1[j].intensity < floor then 0.0 else b[i].1[j].intensity
  {
    if b == [] then b
    else seq(|b|, i requires 0 <= i < |b| => (b[i].0, Floored(b[i].1, floor)))
  }

  /**
   * One wavelength's observations with the floor applied one at a time: the same files in the
   * same order, each intensity below `floor` replaced by 0.0 and every other kept.
   */
  function Floored(obs: seq<Observation>, floor: real): (r: seq<Observation>)
    ensures |r| == |obs|
    ensures forall j :: 0 <= j < |obs| ==>
      r[j] == if obs[j].intensity < floor then Observation(obs[j].file, 0.0) else obs[j]
  {
    if obs == [] then []
    else
      var o := obs[|obs| - 1];
      Floored(obs[..|obs| - 1], floor) + [if o.intensity < floor then Observation(o.file, 0.0) else o]
  }

  /** Applying the floor twice changes nothing more than applying it once. */
  lemma FlooredIdempotent(obs: seq<Observation>, floor: real)
    ensures Floored(Floored(obs, floor), floor) == Floored(obs, floor)
  {
    var once := Floored(obs, floor);
    var twice := Floored(once, floor);
    assert forall j :: 0 <= j < |obs| ==> twice[j] == once[j];
  }

  // ---------------------------------------------------------------------------
  // Properties

  /** A table with distinct keys contributes at most one observation per wavelength. */
  lemma {:induction false} TaggedValuesAt(name: string, m: AList<real, real>, w: real)
    requires DistinctKeys(m)
    ensures ValuesAt(Tagged(name, m), w) == match Get(m, w) case None => [] case Some(x) => [Observation(name, x)]
  {
    if m != [] {
      var init := m[..|m| - 1];
      var (k, x) := m[|m| - 1];
      assert Keys(init) == Keys(m)[..|m| - 1];
      TaggedValuesAt(name, init, w);
      assert Tagged(name, m) == Tagged(name, init) + [(k, Observation(name, x))];
      if k == w {
        GetAt(m, |m| - 1);
        assert w !in Keys(init);
      } else {
        assert m == init + [(k, x)];
        GetSnocOther(init, k, x, w);
      }
    }
  }

  /**
   * The bucket of a wavelength holds one observation per selected file that read it, in file
   * order, carrying the file's base name and the last value that file gave for it.
   */
  lemma GatherValuesBucket(num: NumberParser, folder: Folder, a: seq<string>, path: string, w: real)
    ensures Bucket(GatherValues(num, folder, a + [path]), w) ==
      Bucket(GatherValues(num, folder, a), w) +
        match Get(ReadValuesByLine(num, Open(folder, path)), w)
        case None => []
        case Some(x) => [Observation(Basename(path), x)]
  {
    var f := (path: string) => FileObservations(num, folder, path);
    var m := ReadValuesByLine(num, Open(folder, path));
    GroupFilesAppend(f, a, [path], w);
    assert Bucket(GroupFiles(f, [path]), w) == ValuesAt(Tagged(Basename(path), m), w) by {
      GroupFilesBucket(f, [path], w);
      FlatMapSingle(f, path);
    }
    assert DistinctKeys(m) by {
      ReadValuesByLineSpec(num, Open(folder, path), w);
    }
    TaggedValuesAt(Basename(path), m, w);
  }

  /** The gathered map has each wavelength once and every bucket is non-empty. */
  lemma GatherValuesSpec(num: NumberParser, folder: Folder, paths: seq<string>, w: real)
    ensures DistinctKeys(GatherValues(num, folder, paths))
    ensures forall i :: 0 <= i < |GatherValues(num, folder, paths)| ==> |GatherValues(num, folder, paths)[i].1| > 0
  {
    var f := (path: string) => FileObservations(num, folder, path);
    GroupFilesNonEmpty(f, paths);
    GroupFilesBucket(f, paths, w);
  }

  /** Only wavelengths of at least 195 are gathered. */
  lemma GatheredWavelength(num: NumberParser, folder: Folder, paths: seq<string>, w: real)
    requires w in Keys(GatherValues(num, folder, paths))
    ensures w >= MinWavelength
  {
    var f := (path: string) => FileObservations(num, folder, path);
    assert w in Keys(FlatMap(f, paths)) by {
      GroupFilesBucket(f, paths, w);
    }
    FlatMapKeys(f, paths, w);
    var i :| 0 <= i < |paths| && w in Keys(f(paths[i]));
    FileWavelength(num, folder, paths[i], w);
  }

  lemma FileWavelength(num: NumberParser, folder: Folder, path: string, w: real)
    requires w in Keys(FileObservations(num, folder, path))
    ensures w >= MinWavelength
  {
    var m := ReadValuesByLine(num, Open(folder, path));
    assert Keys(Tagged(Basename(path), m)) == Keys(m);
    ReadValuesByLineSpec(num, Open(folder, path), w);
  }

  /** Zeroing is idempotent: a second pass with the same floor changes nothing. */
  lemma FilterIdempotent(b: Batch, floor: real)
    ensures FilterLowIntensity(FilterLowIntensity(b, floor), floor) == FilterLowIntensity(b, floor)
  {
    var once := FilterLowIntensity(b, floor);
    var twice := FilterLowIntensity(once, floor);
    assert |twice| == |once|;
    forall i | 0 <= i < |once|
      ensures twice[i] == once[i]
    {
      assert Keys(twice)[i] == Keys(once)[i];
      assert twice[i].1 == once[i].1;
    }
  }

  /** After zeroing, every intensity is 0.0 or at least the floor; an empty map is left as is. */
  lemma FilterFloor(b: Batch, floor: real)
    ensures FilterLowIntensity([], floor) == []
    ensures var r := FilterLowIntensity(b, floor);
      forall i, j :: 0 <= i < |r| && 0 <= j < |r[i].1| ==> r[i].1[j].intensity == 0.0 || r[i].1[j].intensity >= floor
  {
  }

  /** Zeroing keeps every wavelength's bucket under the same key, each value floored. */
  lemma FilterGet(b: Batch, floor: real, w: real)
    requires DistinctKeys(b)
    ensures Get(FilterLowIntensity(b, floor), w).Some? <==> Get(b, w).Some?
    ensures Get(b, w).Some? ==> Get(FilterLowIntensity(b, floor), w) == Some(Floored(Get(b, w).value, floor))
  {
    var r := FilterLowIntensity(b, floor);
    if w in Keys(b) {
      var i := IndexOf(b, w).value;
      GetAt(b, i);
      GetAt(r, i);
      if b != [] {
        assert r[i] == (b[i].0, Floored(b[i].1, floor));
      }
    }
  }
}
