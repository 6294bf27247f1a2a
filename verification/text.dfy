/** The few Python `str` operations the analyzer and controller rely on, with their Python semantics. */
module Text {
  import opened Common

  /** Python's `str.isspace` for one character: the characters `str.strip()` removes. */
  predicate IsSpace(c: char) {
    var n := c as int;
    || (9 <= n <= 13) || (28 <= n <= 32)
    || n == 0x85 || n == 0xA0 || n == 0x1680
    || (0x2000 <= n <= 0x200A)
    || n == 0x2028 || n == 0x2029 || n == 0x202F || n == 0x205F || n == 0x3000
  }

  function TrimLeft(s: string): (r: string)
    ensures |r| <= |s| && r == s[|s| - |r|..]
    ensures r == [] || !IsSpace(r[0])
  {
    if s != [] && IsSpace(s[0]) then TrimLeft(s[1..]) else s
  }

  function TrimRight(s: string): (r: string)
    ensures |r| <= |s| && r == s[..|r|]
    ensures r == [] || !IsSpace(r[|r| - 1])
  {
    if s != [] && IsSpace(s[|s| - 1]) then TrimRight(s[..|s| - 1]) else s
  }

  /** `s.strip()`. */
  function Strip(s: string): string {
    TrimRight(TrimLeft(s))
  }

  /** The number of occurrences of `c` in `s`. */
  function Count(s: string, c: char): nat {
    if s == [] then 0 else (if s[0] == c then 1 else 0) + Count(s[1..], c)
  }

  /** `s.split(c)` for a one-character separator: the fields between occurrences of `c`. */
  function Split(s: string, c: char): (r: seq<string>)
    ensures |r| == Count(s, c) + 1
    ensures forall k :: 0 <= k < |r| ==> c !in r[k]
  {
    if s == [] then [[]]
    else
      var rest := Split(s[1..], c);
      if s[0] == c then [[]] + rest else [[s[0]] + rest[0]] + rest[1..]
  }

  lemma {:induction false} CountZero(s: string, c: char)
    requires c !in s
    ensures Count(s, c) == 0
  {
    if s != [] {
      CountZero(s[1..], c);
    }
  }

  lemma {:induction false} SplitNoSeparator(s: string, c: char)
    requires c !in s
    ensures Split(s, c) == [s]
  {
    if s != [] {
      SplitNoSeparator(s[1..], c);
      assert [s[0]] + s[1..] == s;
    }
  }

  /** Splitting at the first separator: the first field is the text before it. */
  lemma {:induction false} SplitAtFirst(a: string, c: char, b: string)
    requires c !in a
    ensures Split(a + [c] + b, c) == [a] + Split(b, c)
  {
    if a == [] {
      assert a + [c] + b == [c] + b;
      assert ([c] + b)[1..] == b;
    } else {
      SplitAtFirst(a[1..], c, b);
      assert (a + [c] + b)[1..] == a[1..] + [c] + b;
      assert [a[0]] + a[1..] == a;
    }
  }

  /** A token with no separator in it, glued to another by one separator, splits back into the two. */
  lemma SplitTwoFields(a: string, c: char, b: string)
    requires c !in a && c !in b
    ensures Split(a + [c] + b, c) == [a, b]
  {
    SplitAtFirst(a, c, b);
    SplitNoSeparator(b, c);
  }

  lemma {:induction false} TrimRightWhitespaceTail(s: string, ws: string)
    requires forall k :: 0 <= k < |ws| ==> IsSpace(ws[k])
    ensures TrimRight(s + ws) == TrimRight(s)
  {
    if ws != [] {
      var s' := s + ws[..|ws| - 1];
      assert s + ws == s' + [ws[|ws| - 1]];
      assert (s + ws)[..|s + ws| - 1] == s';
      TrimRightWhitespaceTail(s, ws[..|ws| - 1]);
    } else {
      assert s + ws == s;
    }
  }

  // ---------------------------------------------------------------------------
  // Substring search with Python's left-to-right, non-overlapping semantics.

  ghost predicate OccursAt(s: string, t: string, i: int) {
    0 <= i && i + |t| <= |s| && s[i..i + |t|] == t
  }

  /** The first position `>= i` where `t` occurs in `s`. */
  function FindFrom(s: string, t: string, i: nat): (r: Option<nat>)
    decreases |s| - i
    ensures r.Some? ==> i <= r.value && OccursAt(s, t, r.value)
    ensures r.Some? ==> forall j :: i <= j < r.value ==> !OccursAt(s, t, j)
    ensures r.None? ==> forall j :: i <= j ==> !OccursAt(s, t, j)
  {
    if i + |t| > |s| then None
    else if s[i..i + |t|] == t then Some(i)
    else FindFrom(s, t, i + 1)
  }

  /** `t in s`. */
  predicate Contains(s: string, t: string) {
    FindFrom(s, t, 0).Some?
  }

  predicate StartsWith(s: string, p: string) {
    |p| <= |s| && s[..|p|] == p
  }

  predicate EndsWith(s: string, p: string) {
    |p| <= |s| && s[|s| - |p|..] == p
  }

  /** `s.split(t)[0]`: the text before the first occurrence of `t` (see `BeforeFirstSpec`). */
  function BeforeFirst(s: string, t: string): (r: string)
    ensures StartsWith(s, r)
  {
    match FindFrom(s, t, 0)
    case None => s
    case Some(j) => s[..j]
  }

  /**
   * The cut stops at the first occurrence of `t`: when `t` occurs, it occurs right after the
   * result and nowhere inside it; when it does not, the whole text is returned.
   */
  lemma BeforeFirstSpec(s: string, t: string)
    ensures var r := BeforeFirst(s, t);
      Contains(s, t) ==> OccursAt(s, t, |r|) && forall j :: 0 <= j < |r| ==> !OccursAt(s, t, j)
    ensures !Contains(s, t) ==> BeforeFirst(s, t) == s
  {
  }

  /** `s.split(t)[-1]`: the text after the last occurrence of `t` (see `AfterLastSpec`). */
  function AfterLast(s: string, t: string): (r: string)
    requires |t| > 0
    ensures EndsWith(s, r)
    decreases |s|
  {
    match FindFrom(s, t, 0)
    case None => s
    case Some(j) =>
      var r := AfterLast(s[j + |t|..], t);
      assert s[|s| - |r|..] == s[j + |t|..][|s| - j - |t| - |r|..];
      r
  }

  /**
   * The cut follows the last occurrence found scanning left to right: the result holds no
   * occurrence of `t`, and unless it is the whole text (exactly when `t` does not occur) an
   * occurrence of `t` ends right where it starts.
   */
  lemma {:induction false} AfterLastSpec(s: string, t: string)
    requires |t| > 0
    ensures var r := AfterLast(s, t);
      forall j :: 0 <= j ==> !OccursAt(r, t, j)
    ensures var r := AfterLast(s, t);
      r != s ==> OccursAt(s, t, |s| - |r| - |t|)
    ensures !Contains(s, t) <==> AfterLast(s, t) == s
    decreases |s|
  {
    match FindFrom(s, t, 0)
    case None =>
    case Some(j) =>
      var rest := s[j + |t|..];
      AfterLastSpec(rest, t);
      var r := AfterLast(rest, t);
      assert AfterLast(s, t) == r;
      AfterOccurrence(s, t, j, r);
  }

  /** Cut at a one-character separator, the result holds no separator. */
  lemma AfterLastCharFree(s: string, c: char)
    ensures c !in AfterLast(s, [c])
  {
    AfterLastSpec(s, [c]);
    var r := AfterLast(s, [c]);
    forall k | 0 <= k < |r|
      ensures r[k] != c
    {
      assert r[k..k + 1] == [r[k]];
      assert !OccursAt(r, [c], k);
    }
  }

  /** Cut at a one-character separator, the text is returned whole exactly when it holds no separator. */
  lemma AfterLastCharWhole(s: string, c: char)
    ensures AfterLast(s, [c]) == s <==> c !in s
  {
    AfterLastSpec(s, [c]);
    AfterLastCharFree(s, c);
    if c !in s {
      AbsentLead(s, [c]);
    }
  }

  /** Cut at a one-character separator, a shorter result is preceded by the separator. */
  lemma AfterLastCharSeparator(s: string, c: char)
    ensures var r := AfterLast(s, [c]);
      r != s ==> s[|s| - |r| - 1] == c
  {
    AfterLastSpec(s, [c]);
    var r := AfterLast(s, [c]);
    if r != s {
      var i := |s| - |r| - 1;
      assert s[i..i + 1][0] == s[i];
    }
  }

  /** What holds of a suffix of the text after an occurrence holds of the whole text. */
  lemma AfterOccurrence(s: string, t: string, j: nat, r: string)
    requires |t| > 0 && OccursAt(s, t, j)
    requires EndsWith(s[j + |t|..], r)
    requires r != s[j + |t|..] ==> OccursAt(s[j + |t|..], t, |s| - j - |t| - |r| - |t|)
    ensures EndsWith(s, r) && r != s
    ensures OccursAt(s, t, |s| - |r| - |t|)
  {
    var rest := s[j + |t|..];
    assert s[|s| - |r|..] == rest[|rest| - |r|..];
    if r != rest {
      var a := |rest| - |r| - |t|;
      assert s[j + |t| + a..j + |t| + a + |t|] == rest[a..a + |t|];
    }
  }

  /** `s.replace(t, '')`: every left-to-right, non-overlapping occurrence of `t` removed (see `RemoveAllSpec`). */
  function RemoveAll(s: string, t: string): (r: string)
    requires |t| > 0
    ensures |r| <= |s|
    decreases |s|
  {
    match FindFrom(s, t, 0)
    case None => s
    case Some(j) => s[..j] + RemoveAll(s[j + |t|..], t)
  }

  /**
   * The text is unchanged exactly when `t` does not occur in it; otherwise each removal has
   * shortened it by `|t|`.
   */
  lemma {:induction false} RemoveAllSpec(s: string, t: string)
    requires |t| > 0
    ensures RemoveAll(s, t) == s <==> !Contains(s, t)
    ensures Contains(s, t) ==> |RemoveAll(s, t)| <= |s| - |t|
    decreases |s|
  {
  }

  /** If `t` occurs at `j` and nowhere before it, the search finds `j`. */
  lemma FindFirstAt(s: string, t: string, j: nat)
    requires OccursAt(s, t, j)
    requires forall k :: 0 <= k < j ==> !OccursAt(s, t, k)
    ensures FindFrom(s, t, 0) == Some(j)
  {
  }

  /** A pattern whose first character is absent from `s` does not occur in `s`. */
  lemma AbsentLead(s: string, t: string)
    requires |t| > 0 && t[0] !in s
    ensures FindFrom(s, t, 0).None?
  {
    forall j | 0 <= j
      ensures !OccursAt(s, t, j)
    {
      if j + |t| <= |s| {
        assert s[j..j + |t|][0] == s[j];
      }
    }
  }
}
