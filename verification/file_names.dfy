/**
 * The scan-file naming scheme `<base>_S<index zero-padded to 4>.txt`: generating the names of
 * an index range, recovering base name and index range from a directory listing, and the
 * time-point label cut out of a file name.
 */
module FileNames {
  import opened Common
  import opened Text
  import opened Numerals

  const IndexWidth: nat := 4
  const Marker: string := "_S"
  const TextExtension: string := ".txt"

  /** `f"{base}_S{str(i).zfill(4)}{ext}"`. */
  function FileName(base: string, i: int, ext: string): (name: string)
    ensures StartsWith(name, base) && EndsWith(name, ext)
    ensures |name| >= |base| + |Marker| + IndexWidth + |ext|
  {
    var name := base + Marker + ZFill(IntToStr(i), IndexWidth) + ext;
    assert name[..|base|] == base && name[|name| - |ext|..] == ext;
    name
  }

  /**
   * The names for indices `start..end` inclusive, appended one index at a time as the list
   * comprehension does: `end - start + 1` of them, the k-th naming index `start + k`.
   */
  function GenerateFileNames(base: string, start: int, end: int, ext: string): (names: seq<string>)
    ensures |names| == if start <= end then end - start + 1 else 0
    ensures forall k :: 0 <= k < |names| ==> names[k] == FileName(base, start + k, ext)
    decreases end - start
  {
    if start > end then [] else GenerateFileNames(base, start, end - 1, ext) + [FileName(base, end, ext)]
  }

  /** The range starting one index lower adds the name of the new first index in front. */
  lemma {:induction false} GenerateCons(base: string, start: int, end: int, ext: string)
    requires start <= end
    ensures GenerateFileNames(base, start, end, ext) == [FileName(base, start, ext)] + GenerateFileNames(base, start + 1, end, ext)
    decreases end - start
  {
    if start < end {
      GenerateCons(base, start, end - 1, ext);
    }
  }

  /** `name.split('S')[-1].split('.')[0]`: the time-point label of a peak record. */
  function TimePoint(name: string): string {
    BeforeFirst(AfterLast(name, "S"), ".")
  }

  // ---------------------------------------------------------------------------
  // scan_file_indices

  datatype IndexRange = IndexRange(base: string, lo: int, hi: int)

  /** A directory entry the scan considers: it ends in `.txt` and contains `_S`. */
  predicate IsCandidate(name: string) {
    EndsWith(name, TextExtension) && Contains(name, Marker)
  }

  function Candidates(names: seq<string>): (r: seq<string>)
    ensures forall k :: 0 <= k < |r| ==> IsCandidate(r[k])
    ensures |r| <= |names|
  {
    if names == [] then []
    else (if IsCandidate(names[0]) then [names[0]] else []) + Candidates(names[1..])
  }

  /** `int(name.split('_S')[-1].replace('.txt', ''))` for a name starting with `base`. */
  function IndexOfName(name: string, base: string): Option<int> {
    if StartsWith(name, base) then ParseInt(RemoveAll(AfterLast(name, Marker), TextExtension)) else None
  }

  /** The indices that parse, in listing order. */
  function ParsedIndices(names: seq<string>, base: string): (r: seq<int>)
    ensures forall j :: 0 <= j < |r| ==> Parses(names, base, r[j])
    ensures forall k :: 0 <= k < |names| && IndexOfName(names[k], base).Some? ==> IndexOfName(names[k], base).value in r
  {
    if names == [] then []
    else
      var rest := ParsedIndices(names[1..], base);
      assert forall j :: 0 <= j < |rest| ==> Parses(names, base, rest[j]) by {
        forall j | 0 <= j < |rest| {
          ParsesTail(names, base, rest[j]);
        }
      }
      assert forall k :: 1 <= k < |names| ==> names[k] == names[1..][k - 1];
      match IndexOfName(names[0], base)
      case None => rest
      case Some(i) => [i] + rest
  }

  /** Some name of the listing yields index `x`. */
  predicate Parses(names: seq<string>, base: string, x: int) {
    exists k :: 0 <= k < |names| && IndexOfName(names[k], base) == Some(x)
  }

  lemma ParsesTail(names: seq<string>, base: string, x: int)
    requires names != [] && Parses(names[1..], base, x)
    ensures Parses(names, base, x)
  {
    var k :| 0 <= k < |names[1..]| && IndexOfName(names[1..][k], base) == Some(x);
    assert names[k + 1] == names[1..][k];
  }

  function MinOf(xs: seq<int>): (m: int)
    requires |xs| > 0
    ensures m in xs && forall j :: 0 <= j < |xs| ==> m <= xs[j]
  {
    if |xs| == 1 then xs[0]
    else var m := MinOf(xs[1..]); assert forall j :: 1 <= j < |xs| ==> xs[j] == xs[1..][j - 1]; if xs[0] <= m then xs[0] else m
  }

  function MaxOf(xs: seq<int>): (m: int)
    requires |xs| > 0
    ensures m in xs && forall j :: 0 <= j < |xs| ==> xs[j] <= m
  {
    if |xs| == 1 then xs[0]
    else var m := MaxOf(xs[1..]); assert forall j :: 1 <= j < |xs| ==> xs[j] == xs[1..][j - 1]; if xs[0] >= m then xs[0] else m
  }

  /**
   * `scan_file_indices` over a directory listing: the base name is cut from the first
   * candidate, and the range spans the indices of the candidates that start with it.
   */
  function ScanFileIndices(listing: seq<string>): (r: Option<IndexRange>)
    ensures r.Some? ==> Candidates(listing) != [] && r.value.lo <= r.value.hi
  {
    var cands := Candidates(listing);
    if cands == [] then None
    else
      var base := BeforeFirst(cands[0], Marker);
      var indices := ParsedIndices(cands, base);
      if indices == [] then None
      else
        assert MinOf(indices) <= indices[0] <= MaxOf(indices);
        Some(IndexRange(base, MinOf(indices), MaxOf(indices)))
  }

  // ---------------------------------------------------------------------------
  // Properties

  lemma {:induction false} CandidatesMembers(names: seq<string>)
    ensures forall k :: 0 <= k < |names| && IsCandidate(names[k]) ==> names[k] in Candidates(names)
    ensures forall x :: x in Candidates(names) ==> x in names
  {
    if names != [] {
      CandidatesMembers(names[1..]);
      assert forall k :: 1 <= k < |names| ==> names[k] == names[1..][k - 1];
    }
  }

  lemma {:induction false} CandidatesAll(names: seq<string>)
    requires forall k :: 0 <= k < |names| ==> IsCandidate(names[k])
    ensures Candidates(names) == names
  {
    if names != [] {
      CandidatesAll(names[1..]);
    }
  }

  /** Filtering keeps listing order: the candidates of a concatenation are those of each part, in turn. */
  lemma {:induction false} CandidatesAppend(a: seq<string>, b: seq<string>)
    ensures Candidates(a + b) == Candidates(a) + Candidates(b)
  {
    if a == [] {
      assert a + b == b;
    } else {
      var head := if IsCandidate(a[0]) then [a[0]] else [];
      CandidatesAppend(a[1..], b);
      assert (a + b)[0] == a[0] && (a + b)[1..] == a[1..] + b;
      assert Candidates(a + b) == head + Candidates(a[1..] + b);
      assert Candidates(a) == head + Candidates(a[1..]);
    }
  }

  /** A single name is kept exactly when it is a candidate. */
  lemma CandidatesSingle(name: string)
    ensures Candidates([name]) == if IsCandidate(name) then [name] else []
  {
    assert [name][1..] == [];
  }

  lemma {:induction false} CandidatesNone(names: seq<string>)
    requires forall k :: 0 <= k < |names| ==> !IsCandidate(names[k])
    ensures Candidates(names) == []
  {
    if names != [] {
      CandidatesNone(names[1..]);
    }
  }

  /** The first candidate is the first name of the listing that is a candidate. */
  lemma CandidatesFirst(names: seq<string>, i: nat)
    requires i < |names| && IsCandidate(names[i])
    requires forall k :: 0 <= k < i ==> !IsCandidate(names[k])
    ensures Candidates(names) != [] && Candidates(names)[0] == names[i]
  {
    assert names == names[..i] + names[i..];
    CandidatesAppend(names[..i], names[i..]);
    CandidatesNone(names[..i]);
  }

  /** The scan's base name is cut from the first name of the listing that is a candidate. */
  lemma ScanBaseOfFirst(listing: seq<string>, i: nat)
    requires i < |listing| && IsCandidate(listing[i])
    requires forall k :: 0 <= k < i ==> !IsCandidate(listing[k])
    ensures ScanFileIndices(listing).Some? ==> ScanFileIndices(listing).value.base == BeforeFirst(listing[i], Marker)
  {
    CandidatesFirst(listing, i);
  }

  /**
   * What the scan reports: nothing when no candidate exists or none of them yields an index;
   * otherwise the base name of the first candidate and the least and greatest index among the
   * candidates that start with it, both attained.
   */
  lemma ScanFileIndicesSpec(listing: seq<string>)
    ensures var cands := Candidates(listing);
      ScanFileIndices(listing).None? <==>
        cands == [] || forall k :: 0 <= k < |cands| ==> IndexOfName(cands[k], BeforeFirst(cands[0], Marker)).None?
    ensures var cands := Candidates(listing);
      match ScanFileIndices(listing)
      case None => true
      case Some(r) =>
        && r.base == BeforeFirst(cands[0], Marker)
        && r.lo <= r.hi
        && (exists k :: 0 <= k < |cands| && IndexOfName(cands[k], r.base) == Some(r.lo))
        && (exists k :: 0 <= k < |cands| && IndexOfName(cands[k], r.base) == Some(r.hi))
        && (forall k :: 0 <= k < |cands| && IndexOfName(cands[k], r.base).Some? ==>
              r.lo <= IndexOfName(cands[k], r.base).value <= r.hi)
  {
    var cands := Candidates(listing);
    if cands != [] {
      IndexRangeOf(cands, BeforeFirst(cands[0], Marker));
    }
  }

  /** The least and greatest index parsed from `cands` for `base`, both attained. */
  lemma IndexRangeOf(cands: seq<string>, base: string)
    ensures var indices := ParsedIndices(cands, base);
      indices == [] <==> forall k :: 0 <= k < |cands| ==> IndexOfName(cands[k], base).None?
    ensures var indices := ParsedIndices(cands, base);
      indices != [] ==>
        && MinOf(indices) <= MaxOf(indices)
        && (exists k :: 0 <= k < |cands| && IndexOfName(cands[k], base) == Some(MinOf(indices)))
        && (exists k :: 0 <= k < |cands| && IndexOfName(cands[k], base) == Some(MaxOf(indices)))
        && (forall k :: 0 <= k < |cands| && IndexOfName(cands[k], base).Some? ==>
              MinOf(indices) <= IndexOfName(cands[k], base).value <= MaxOf(indices))
  {
    var indices := ParsedIndices(cands, base);
    if indices != [] {
      var lo := MinOf(indices);
      var hi := MaxOf(indices);
      assert lo <= indices[0] <= hi;
      assert Parses(cands, base, lo) && Parses(cands, base, hi);
      forall k | 0 <= k < |cands| && IndexOfName(cands[k], base).Some?
        ensures lo <= IndexOfName(cands[k], base).value <= hi
      {
        var x := IndexOfName(cands[k], base).value;
        assert x in indices;
      }
    }
  }

  /** The occurrence of `_S` right after a base that contains none is the first one. */
  lemma MarkerAfterBase(base: string, rest: string)
    requires !Contains(base, Marker)
    ensures FindFrom(base + Marker + rest, Marker, 0) == Some(|base|)
  {
    var name := base + Marker + rest;
    assert name[|base|..|base| + 2] == Marker;
    forall k | 0 <= k < |base|
      ensures !OccursAt(name, Marker, k)
    {
      if k + 2 <= |base| {
        assert name[k..k + 2] == base[k..k + 2];
        assert !OccursAt(base, Marker, k);
      } else {
        assert name[k..k + 2][1] == name[k + 1] == '_';
      }
    }
    FindFirstAt(name, Marker, |base|);
  }

  /** The last-occurrence cut on a one-character separator yields the text after the final separator. */
  lemma {:induction false} AfterLastChar(p: string, c: char, q: string)
    requires c !in q
    ensures AfterLast(p + [c] + q, [c]) == q
    decreases |p|
  {
    var s := p + [c] + q;
    assert s[|p|..|p| + 1] == [c];
    assert OccursAt(s, [c], |p|);
    var j := FindFrom(s, [c], 0).value;
    assert s[j] == s[j..j + 1][0] == c;
    assert j <= |p|;
    if j == |p| {
      assert s[j + 1..] == q;
      AbsentLead(q, [c]);
    } else {
      assert s == p[..j + 1] + (p[j + 1..] + [c] + q);
      assert s[j + 1..] == p[j + 1..] + [c] + q;
      AfterLastChar(p[j + 1..], c, q);
    }
  }

  /** The first occurrence of a character that `s` lacks before position `|s|` is right after `s`. */
  lemma FirstCharAfter(s: string, c: char, q: string)
    requires c !in s
    ensures FindFrom(s + [c] + q, [c], 0) == Some(|s|)
  {
    var name := s + [c] + q;
    assert name[|s|..|s| + 1] == [c];
    forall k | 0 <= k < |s|
      ensures !OccursAt(name, [c], k)
    {
      assert name[k..k + 1][0] == s[k];
    }
    FindFirstAt(name, [c], |s|);
  }

  lemma RemoveExtension(z: string)
    requires '.' !in z
    ensures RemoveAll(z + TextExtension, TextExtension) == z
  {
    var s := z + TextExtension;
    assert s == z + ['.'] + "txt";
    FirstCharAfter(z, '.', "txt");
    assert s[|z|..|z| + 4] == TextExtension;
    forall k | 0 <= k < |z|
      ensures !OccursAt(s, TextExtension, k)
    {
      if k + 4 <= |s| {
        assert s[k..k + 4][0] == z[k];
      }
    }
    FindFirstAt(s, TextExtension, |z|);
    assert s[|z| + 4..] == [];
  }

  lemma PaddedIndexChars(i: int)
    ensures var z := ZFill(IntToStr(i), IndexWidth);
      '.' !in z && 'S' !in z && '_' !in z
  {
    ZFillChars(i, IndexWidth);
  }

  /**
   * The condition of the round trip is needed: a base name holding `_S` is cut at its own
   * marker, so `run_Sample` comes back as `run`.
   */
  lemma MarkerInBase()
    ensures BeforeFirst(FileName("run_Sample", 1, TextExtension), Marker) == "run"
  {
    var name := FileName("run_Sample", 1, TextExtension);
    assert name[..4] == "run_" && name[3..5] == Marker;
    forall k | 0 <= k < 3
      ensures !OccursAt(name, Marker, k)
    {
      assert name[k..k + 2][1] == name[k + 1] == name[..4][k + 1] != 'S';
    }
    FindFirstAt(name, Marker, 3);
  }

  /**
   * A generated name is a scan candidate, its base is recovered exactly, and its index
   * parses back to the one it was generated from.
   */
  lemma FileNameRoundTrip(base: string, i: int)
    requires !Contains(base, Marker)
    ensures IsCandidate(FileName(base, i, TextExtension))
    ensures BeforeFirst(FileName(base, i, TextExtension), Marker) == base
    ensures IndexOfName(FileName(base, i, TextExtension), base) == Some(i)
  {
    var z := ZFill(IntToStr(i), IndexWidth);
    var tail := z + TextExtension;
    var name := FileName(base, i, TextExtension);
    assert name == base + Marker + tail;
    PaddedIndexChars(i);
    assert FindFrom(name, Marker, 0) == Some(|base|) by {
      MarkerAfterBase(base, tail);
    }
    assert AfterLast(name, Marker) == tail by {
      assert '_' !in tail;
      AbsentLead(tail, Marker);
      assert name[|base| + 2..] == tail;
    }
    assert ParseInt(RemoveAll(tail, TextExtension)) == Some(i) by {
      RemoveExtension(z);
      ZFillRoundTrip(i, IndexWidth);
    }
    assert StartsWith(name, base);
  }

  /** Distinct indices give distinct names. */
  lemma FileNameInjective(base: string, i: int, j: int)
    requires !Contains(base, Marker)
    requires FileName(base, i, TextExtension) == FileName(base, j, TextExtension)
    ensures i == j
  {
    FileNameRoundTrip(base, i);
    FileNameRoundTrip(base, j);
  }

  /** The time-point label of a generated name is its zero-padded index. */
  lemma TimePointOfFileName(base: string, i: int)
    ensures TimePoint(FileName(base, i, TextExtension)) == ZFill(IntToStr(i), IndexWidth)
  {
    PaddedIndexChars(i);
    TimePointOf(base, ZFill(IntToStr(i), IndexWidth));
  }

  /** The label between the last `S` and the following `.` of `<base>_S<z>.txt` is `z`. */
  lemma TimePointOf(base: string, z: string)
    requires '.' !in z && 'S' !in z
    ensures TimePoint(base + Marker + z + TextExtension) == z
  {
    var name := base + Marker + z + TextExtension;
    assert AfterLast(name, "S") == z + TextExtension by {
      assert name == (base + "_") + ['S'] + (z + TextExtension);
      assert 'S' !in z + TextExtension;
      AfterLastChar(base + "_", 'S', z + TextExtension);
    }
    assert BeforeFirst(z + TextExtension, ".") == z by {
      assert z + TextExtension == z + ['.'] + "txt";
      FirstCharAfter(z, '.', "txt");
    }
  }

  /** Every generated name carries an index of the range. */
  lemma IndexOfGenerated(name: string, base: string, start: int, end: int) returns (i: int)
    requires name in GenerateFileNames(base, start, end, TextExtension)
    ensures start <= i <= end && name == FileName(base, i, TextExtension)
  {
    var gen := GenerateFileNames(base, start, end, TextExtension);
    var g :| 0 <= g < |gen| && gen[g] == name;
    i := start + g;
    assert gen[g] == FileName(base, i, TextExtension);
  }

  lemma GeneratedIndicesInRange(listing: seq<string>, base: string, start: int, end: int)
    requires !Contains(base, Marker)
    requires forall k :: 0 <= k < |listing| ==> listing[k] in GenerateFileNames(base, start, end, TextExtension)
    ensures forall j :: 0 <= j < |ParsedIndices(listing, base)| ==> start <= ParsedIndices(listing, base)[j] <= end
  {
    var indices := ParsedIndices(listing, base);
    forall j | 0 <= j < |indices|
      ensures start <= indices[j] <= end
    {
      var k :| 0 <= k < |listing| && IndexOfName(listing[k], base) == Some(indices[j]);
      var i := IndexOfGenerated(listing[k], base, start, end);
      FileNameRoundTrip(base, i);
    }
  }

  lemma GeneratedIndexPresent(listing: seq<string>, base: string, i: int)
    requires !Contains(base, Marker)
    requires FileName(base, i, TextExtension) in listing
    ensures i in ParsedIndices(listing, base)
  {
    FileNameRoundTrip(base, i);
    var k :| 0 <= k < |listing| && listing[k] == FileName(base, i, TextExtension);
    assert IndexOfName(listing[k], base) == Some(i);
  }

  /**
   * Scanning a listing that holds exactly the names generated for `start..end` (in any order,
   * repeats allowed) recovers the base name and both ends of the range.
   */
  lemma ScanRoundTrip(listing: seq<string>, base: string, start: int, end: int)
    requires !Contains(base, Marker) && start <= end
    requires forall k :: 0 <= k < |listing| ==> listing[k] in GenerateFileNames(base, start, end, TextExtension)
    requires forall i :: start <= i <= end ==> FileName(base, i, TextExtension) in listing
    ensures ScanFileIndices(listing) == Some(IndexRange(base, start, end))
  {
    assert FileName(base, start, TextExtension) in listing;
    assert Candidates(listing) == listing by {
      forall k | 0 <= k < |listing|
        ensures IsCandidate(listing[k])
      {
        var i := IndexOfGenerated(listing[k], base, start, end);
        FileNameRoundTrip(base, i);
      }
      CandidatesAll(listing);
    }
    assert BeforeFirst(listing[0], Marker) == base by {
      var i0 := IndexOfGenerated(listing[0], base, start, end);
      FileNameRoundTrip(base, i0);
    }
    var indices := ParsedIndices(listing, base);
    GeneratedIndicesInRange(listing, base, start, end);
    GeneratedIndexPresent(listing, base, start);
    GeneratedIndexPresent(listing, base, end);
    ExtremesOf(indices, start, end);
  }

  /** Values within `[lo, hi]` that include both ends have exactly those ends as extremes. */
  lemma ExtremesOf(xs: seq<int>, lo: int, hi: int)
    requires lo in xs && hi in xs
    requires forall j :: 0 <= j < |xs| ==> lo <= xs[j] <= hi
    ensures MinOf(xs) == lo && MaxOf(xs) == hi
  {
  }
}
