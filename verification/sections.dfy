/**
 * `analyze_sections` and `prepare_results_dataframe`: a time series cut into N contiguous
 * sections of `len // N` samples, the last one taking the remainder, followed by one entry for
 * the whole series. Only the mean of each slice is modelled.
 */
module Sections {
  import opened Common
  import opened Numerals

  /** `區段{i}` for section `i` (counted from 1) and `總區段` for the whole series. */
  datatype Label = Part(n: nat) | Whole

  /** One entry of the result: the slice `[lo, hi)` it covers and its mean (`None` for NaN). */
  datatype Section = Section(tag: Label, lo: nat, hi: nat, mean: Option<real>)

  /** `len(wave_data) // 0` raises. */
  datatype SectionError = ZeroSections

  function Sum(xs: seq<real>): real {
    if xs == [] then 0.0 else Sum(xs[..|xs| - 1]) + xs[|xs| - 1]
  }

  /** `np.mean`; the mean of an empty slice is NaN (with a warning), modelled as `None`. */
  function Mean(xs: seq<real>): (r: Option<real>)
    ensures r.Some? <==> |xs| > 0
  {
    if |xs| == 0 then None else Some(Sum(xs) / (|xs| as real))
  }

  /** Where section `i` of `n` starts: `i * (len // n)`. */
  function SectionStart(len: nat, n: nat, i: nat): nat
    requires 0 < n
  {
    i * (len / n)
  }

  /** Where section `i` of `n` ends: after `len // n` samples, except the last, which ends at `len`. */
  function SectionEnd(len: nat, n: nat, i: nat): nat
    requires 0 < n
  {
    if i < n - 1 then SectionStart(len, n, i) + len / n else len
  }

  /** The start of a section is never past its end, and no end is past the series. */
  lemma SectionInside(len: nat, n: nat, i: nat)
    requires 0 < n && i < n
    ensures SectionStart(len, n, i) <= SectionEnd(len, n, i) <= len
  {
    var q := len / n;
    assert n * q <= len;
    MulLeft(i + 1, n, q);
  }

  lemma MulLeft(a: nat, b: nat, q: nat)
    requires a <= b
    ensures a * q <= b * q
  {
  }

  function PartSection(data: seq<real>, n: nat, i: nat): (s: Section)
    requires 0 < n && i < n
    ensures s.tag == Part(i + 1) && s.lo == i * (|data| / n)
    ensures s.lo <= s.hi <= |data| && s.mean == Mean(data[s.lo..s.hi])
    ensures i < n - 1 ==> s.hi == (i + 1) * (|data| / n) == s.lo + |data| / n
    ensures i == n - 1 ==> s.hi == |data|
  {
    SectionInside(|data|, n, i);
    var lo := SectionStart(|data|, n, i);
    var hi := SectionEnd(|data|, n, i);
    Section(Part(i + 1), lo, hi, Mean(data[lo..hi]))
  }

  function WholeSection(data: seq<real>): Section {
    Section(Whole, 0, |data|, Mean(data))
  }

  /**
   * `analyze_sections(wave_data, section)`. A count of zero raises; a negative count runs no
   * section and leaves only the whole-series entry. With N >= 1: N + 1 entries, sections 1..N
   * then the whole series; section `i` starts at `i * (len // N)`, the first at 0; each ends
   * where the next begins; all but the last hold `len // N` samples and the last ends at `len`;
   * each mean is the mean of its slice.
   */
  function AnalyzeSections(data: seq<real>, n: int): (r: Result<seq<Section>, SectionError>)
    ensures r.Failure? <==> n == 0
    ensures n < 0 ==> r.value == [Section(Whole, 0, |data|, Mean(data))]
    ensures n >= 1 ==> var r := r.value;
      && |r| == n + 1
      && r[n] == Section(Whole, 0, |data|, Mean(data))
      && r[0].lo == 0 && r[n - 1].hi == |data|
      && (forall i :: 0 <= i < n ==> r[i].tag == Part(i + 1) && r[i].lo == i * (|data| / n))
      && (forall i :: 0 <= i < n ==> r[i].lo <= r[i].hi <= |data| && r[i].mean == Mean(data[r[i].lo..r[i].hi]))
      && (forall i :: 0 <= i < n - 1 ==> r[i].hi == r[i + 1].lo && r[i].hi - r[i].lo == |data| / n)
  {
    if n == 0 then Failure(ZeroSections)
    else if n < 0 then Success([WholeSection(data)])
    else Success(Parts(data, n, n) + [WholeSection(data)])
  }

  /**
   * The first `m` iterations of the `for i in range(section)` loop, one section stored per
   * iteration: `m` entries, the i-th being section `i` of `n`.
   */
  function Parts(data: seq<real>, n: nat, m: nat): (r: seq<Section>)
    requires 0 < n && m <= n
    ensures |r| == m && forall i :: 0 <= i < m ==> r[i] == PartSection(data, n, i)
  {
    if m == 0 then [] else Parts(data, n, m - 1) + [PartSection(data, n, m - 1)]
  }

  /** One row of the results table: the section's name and its mean. */
  datatype ResultRow = ResultRow(name: string, mean: Option<real>)

  function LabelName(l: Label): string {
    match l
    case Part(n) => "區段" + NatToStr(n)
    case Whole => "總區段"
  }

  /** `prepare_results_dataframe`: one row per entry, in the order the entries were stored. */
  function PrepareResults(sections: seq<Section>): (rows: seq<ResultRow>)
    ensures |rows| == |sections|
    ensures forall k :: 0 <= k < |rows| ==> rows[k] == ResultRow(LabelName(sections[k].tag), sections[k].mean)
  {
    if sections == [] then []
    else
      var s := sections[|sections| - 1];
      PrepareResults(sections[..|sections| - 1]) + [ResultRow(LabelName(s.tag), s.mean)]
  }

  // ---------------------------------------------------------------------------
  // Properties

  /** Concatenating the slices of consecutive sections gives the data between their ends. */
  function Joined(data: seq<real>, sections: seq<Section>): seq<real>
    requires forall k :: 0 <= k < |sections| ==> sections[k].lo <= sections[k].hi <= |data|
  {
    if sections == [] then []
    else Joined(data, sections[..|sections| - 1]) + data[sections[|sections| - 1].lo..sections[|sections| - 1].hi]
  }

  lemma {:induction false} JoinedContiguous(data: seq<real>, sections: seq<Section>)
    requires |sections| > 0
    requires forall k :: 0 <= k < |sections| ==> sections[k].lo <= sections[k].hi <= |data|
    requires forall k :: 0 <= k < |sections| - 1 ==> sections[k].hi == sections[k + 1].lo
    ensures sections[0].lo <= sections[|sections| - 1].hi
      && Joined(data, sections) == data[sections[0].lo..sections[|sections| - 1].hi]
  {
    var m := |sections|;
    if m > 1 {
      var init := sections[..m - 1];
      JoinedContiguous(data, init);
      var lo, mid, hi := sections[0].lo, sections[m - 2].hi, sections[m - 1].hi;
      assert sections[m - 1].lo == mid;
      assert data[lo..mid] + data[mid..hi] == data[lo..hi];
    } else {
      assert sections[..0] == [];
    }
  }

  /**
   * The N sections are disjoint, in order and cover the series: their slices, joined, are the
   * series itself.
   */
  lemma SectionsCover(data: seq<real>, n: int)
    requires n >= 1
    ensures AnalyzeSections(data, n).Success?
    ensures var parts := AnalyzeSections(data, n).value[..n]; Joined(data, parts) == data
  {
    var parts := AnalyzeSections(data, n).value[..n];
    JoinedContiguous(data, parts);
    assert data[0..|data|] == data;
  }

  /** Ten samples in three sections: 3, 3 and 4 samples. */
  lemma TenInThree(data: seq<real>)
    requires |data| == 10
    ensures var r := AnalyzeSections(data, 3).value;
      && (r[0].lo, r[0].hi) == (0, 3) && (r[1].lo, r[1].hi) == (3, 6) && (r[2].lo, r[2].hi) == (6, 10)
  {
  }

  /** A series of one repeated value has that value as the mean of every non-empty slice. */
  lemma {:induction false} MeanConstant(xs: seq<real>, c: real)
    requires |xs| > 0 && forall k :: 0 <= k < |xs| ==> xs[k] == c
    ensures Mean(xs) == Some(c)
  {
    SumConstant(xs, c);
    var n := |xs| as real;
    assert Sum(xs) == n * c;
    assert (n * c) / n == c;
    assert Mean(xs) == Some(Sum(xs) / n);
  }

  lemma {:induction false} SumConstant(xs: seq<real>, c: real)
    requires forall k :: 0 <= k < |xs| ==> xs[k] == c
    ensures Sum(xs) == (|xs| as real) * c
  {
    if xs != [] {
      SumConstant(xs[..|xs| - 1], c);
    }
  }

  /** Section names never collide, so the result dictionary keeps all N + 1 entries. */
  lemma LabelNamesDistinct(a: Label, b: Label)
    requires a != b
    ensures LabelName(a) != LabelName(b)
  {
    match (a, b)
    case (Part(i), Part(j)) =>
      var p := "區段";
      if LabelName(a) == LabelName(b) {
        assert NatToStr(i) == LabelName(a)[|p|..] == LabelName(b)[|p|..] == NatToStr(j);
        NatToStrValue(i);
        NatToStrValue(j);
      }
    case (Part(i), Whole) =>
      assert |LabelName(a)| >= 3 && LabelName(a)[0] != LabelName(b)[0];
    case (Whole, Part(j)) =>
      assert |LabelName(b)| >= 3 && LabelName(a)[0] != LabelName(b)[0];
  }

  /** The results table lists `區段1` .. `區段N`, then `總區段`, with each entry's mean. */
  lemma PrepareResultsOrder(data: seq<real>, n: int)
    requires n >= 1
    ensures AnalyzeSections(data, n).Success?
    ensures var rows := PrepareResults(AnalyzeSections(data, n).value);
      && |rows| == n + 1
      && (forall i :: 0 <= i < n ==> rows[i].name == "區段" + NatToStr(i + 1))
      && rows[n] == ResultRow("總區段", Mean(data))
      && (forall i, j :: 0 <= i < j <= n ==> rows[i].name != rows[j].name)
  {
    RowNames(AnalyzeSections(data, n).value, n);
  }

  /** Rows of entries tagged section 1..n then the whole series carry n + 1 distinct names. */
  lemma {:induction false} RowNames(sections: seq<Section>, n: nat)
    requires |sections| == n + 1 && sections[n].tag == Whole
    requires forall i :: 0 <= i < n ==> sections[i].tag == Part(i + 1)
    ensures var rows := PrepareResults(sections);
      && (forall i :: 0 <= i < n ==> rows[i].name == "區段" + NatToStr(i + 1))
      && rows[n].name == "總區段"
      && (forall i, j :: 0 <= i < j <= n ==> rows[i].name != rows[j].name)
  {
    var rows := PrepareResults(sections);
    assert |rows| == n + 1;
    forall i, j | 0 <= i < j <= n
      ensures rows[i].name != rows[j].name
    {
      var a, b := sections[i].tag, sections[j].tag;
      assert a != b by {
        if j < n {
          assert a == Part(i + 1) && b == Part(j + 1);
        }
      }
      LabelNamesDistinct(a, b);
      assert rows[i].name == LabelName(a) && rows[j].name == LabelName(b);
    }
  }
}
