/**
 * `read_file_to_data` and `load_and_process_data`: the intensities of every successfully read
 * scan file, bucketed by exact wavelength in file order. Bucket `w` is the time series of
 * wavelength `w`, one sample per file.
 */
module TimeSeries {
  import opened Common
  import opened OrderedMap
  import opened ScanParser
  import opened FileNames

  /** The analyzer's `_all_data`: wavelength to intensities, in file order. */
  type Series = AList<real, seq<real>>

  /** The (wavelength, intensity) pairs of a list of records, in order. */
  function RecordPairs(rs: seq<ScanRecord>): (ps: seq<(real, real)>)
    ensures |ps| == |rs|
    ensures forall k :: 0 <= k < |rs| ==> ps[k] == (rs[k].wavelength, rs[k].intensity)
  {
    if rs == [] then [] else RecordPairs(rs[..|rs| - 1]) + [(rs[|rs| - 1].wavelength, rs[|rs| - 1].intensity)]
  }

  /**
   * What one file adds to the map. `read_data` raises before anything is appended when the
   * file cannot be read, and the loop moves on to the next file.
   */
  function FilePairs(num: NumberParser, folder: Folder, name: string): seq<(real, real)> {
    match ReadData(num, Open(folder, name))
    case None => []
    case Some(rs) => RecordPairs(rs)
  }

  /** The pairs of all files, read one after another. */
  function LoadedPairs(num: NumberParser, folder: Folder, names: seq<string>): seq<(real, real)> {
    FlatMap((name: string) => FilePairs(num, folder, name), names)
  }

  /** `read_file_to_data`: clear the map, then append each file's records in turn. */
  function ReadFileToData(num: NumberParser, folder: Folder, names: seq<string>): Series {
    GroupFiles((name: string) => FilePairs(num, folder, name), names)
  }

  /** `load_and_process_data`: generate `<base>_S<i>.txt` for `start..end` and load them. */
  function LoadAndProcessData(num: NumberParser, folder: Folder, base: string, start: int, end: int): Series {
    ReadFileToData(num, folder, GenerateFileNames(base, start, end, TextExtension))
  }

  // ---------------------------------------------------------------------------
  // Properties

  /**
   * The loaded map holds each wavelength once, in order of first appearance, and its bucket is
   * exactly the intensities read for it, in file and line order.
   */
  lemma ReadFileToDataSpec(num: NumberParser, folder: Folder, names: seq<string>, w: real)
    ensures var ps := LoadedPairs(num, folder, names);
      && DistinctKeys(ReadFileToData(num, folder, names))
      && Keys(ReadFileToData(num, folder, names)) == Dedup(Keys(ps))
      && (w in Keys(ReadFileToData(num, folder, names)) <==> w in Keys(ps))
      && Bucket(ReadFileToData(num, folder, names), w) == ValuesAt(ps, w)
  {
    GroupFilesBucket((name: string) => FilePairs(num, folder, name), names, w);
  }

  /** Every bucket holds at least one intensity. */
  lemma BucketsNonEmpty(num: NumberParser, folder: Folder, names: seq<string>)
    ensures forall i :: 0 <= i < |ReadFileToData(num, folder, names)| ==> |ReadFileToData(num, folder, names)[i].1| > 0
  {
    GroupFilesNonEmpty((name: string) => FilePairs(num, folder, name), names);
  }

  /** Loading two lists of files one after the other concatenates every bucket. */
  lemma BucketAppend(num: NumberParser, folder: Folder, a: seq<string>, b: seq<string>, w: real)
    ensures Bucket(ReadFileToData(num, folder, a + b), w)
      == Bucket(ReadFileToData(num, folder, a), w) + Bucket(ReadFileToData(num, folder, b), w)
  {
    GroupFilesAppend((name: string) => FilePairs(num, folder, name), a, b, w);
  }

  /** A file that cannot be read leaves the loaded map exactly as if it had not been listed. */
  lemma FailedFileIgnored(num: NumberParser, folder: Folder, a: seq<string>, name: string, b: seq<string>)
    requires !Open(folder, name).complete
    ensures ReadFileToData(num, folder, a + [name] + b) == ReadFileToData(num, folder, a + b)
  {
    var f := (name: string) => FilePairs(num, folder, name);
    FlatMapAppend(f, a + [name], b);
    FlatMapAppend(f, a, [name]);
    FlatMapSingle(f, name);
    FlatMapAppend(f, a, b);
    assert FlatMap(f, a + [name]) == FlatMap(f, a);
    GroupFilesCollect(f, a + [name] + b);
    GroupFilesCollect(f, a + b);
  }

  /**
   * A file that can be read contributes all of its records, in line order: the bucket of one
   * readable file is the intensities of its records at that wavelength.
   */
  lemma SingleFileBucket(num: NumberParser, folder: Folder, name: string, w: real)
    requires Open(folder, name).complete
    ensures Bucket(ReadFileToData(num, folder, [name]), w)
      == ValuesAt(RecordPairs(ParseLines(num, Open(folder, name).lines)), w)
  {
    var f := (name: string) => FilePairs(num, folder, name);
    FlatMapSingle(f, name);
    ReadFileToDataSpec(num, folder, [name], w);
  }

  /** `load_and_process_data` reads exactly the generated names, in index order. */
  lemma LoadAndProcessDataFiles(num: NumberParser, folder: Folder, base: string, start: int, end: int, w: real)
    requires start <= end
    ensures Bucket(LoadAndProcessData(num, folder, base, start, end), w)
      == Bucket(LoadAndProcessData(num, folder, base, start, end - 1), w)
        + Bucket(ReadFileToData(num, folder, [FileName(base, end, TextExtension)]), w)
  {
    var last := FileName(base, end, TextExtension);
    BucketAppend(num, folder, GenerateFileNames(base, start, end - 1, TextExtension), [last], w);
  }
}
