/**
 * Parsing the lines of one scan file: `read_data` (records of exactly two numeric fields) and
 * `read_values_by_line` (wavelength-to-intensity table for wavelengths of at least 195 nm).
 */
module ScanParser {
  import opened Common
  import opened Text
  import opened OrderedMap

  /**
   * Python's `float()` applied to one field. Its token grammar (signs, exponents, `inf`,
   * surrounding whitespace, underscores) is not modelled: any parser may be supplied.
   */
  type NumberParser = string -> Option<real>

  datatype ScanRecord = ScanRecord(wavelength: real, intensity: real)

  /**
   * What reading a file delivers: the lines read, and whether reading got to the end.
   * `complete == false` means opening or reading raised after `lines` (no lines if it could
   * not be opened at all).
   */
  datatype FileText = FileText(lines: seq<string>, complete: bool)

  /** The files of one folder, by name; a name that is absent cannot be opened. */
  type Folder = map<string, FileText>

  function Open(folder: Folder, name: string): FileText {
    if name in folder then folder[name] else FileText([], false)
  }

  const Delimiter: char := ';'

  /** The lowest wavelength `read_values_by_line` keeps. */
  const MinWavelength: real := 195.0

  /** One line of `read_data`: `line.strip().split(';')` unpacked into two floats. */
  function ParseLine(num: NumberParser, line: string): (r: Option<ScanRecord>)
    ensures r.Some? ==> Delimiter in line && Count(Strip(line), Delimiter) == 1
  {
    if Delimiter !in line then None
    else
      var fields := Split(Strip(line), Delimiter);
      if |fields| != 2 then None
      else match (num(fields[0]), num(fields[1]))
        case (Some(w), Some(i)) => Some(ScanRecord(w, i))
        case _ => None
  }

  /** The record a line contributes: one, or none when the line is dropped. */
  function Kept(num: NumberParser, line: string): seq<ScanRecord> {
    match ParseLine(num, line)
    case Some(r) => [r]
    case None => []
  }

  /** The records of the lines that parse, in line order. */
  function ParseLines(num: NumberParser, lines: seq<string>): seq<ScanRecord> {
    FlatMap((line: string) => Kept(num, line), lines)
  }

  /** `read_data`: the file's records, or `None` when the file cannot be read (the exception). */
  function ReadData(num: NumberParser, file: FileText): (r: Option<seq<ScanRecord>>)
    ensures r.Some? <==> file.complete
    ensures r.Some? ==> |r.value| <= |file.lines|
  {
    ParseLinesLength(num, file.lines);
    if file.complete then Some(ParseLines(num, file.lines)) else None
  }

  /** One line of `read_values_by_line`: at least two fields, the first one parses and is >= 195. */
  function AcceptValue(num: NumberParser, line: string): Option<(real, real)> {
    var parts := Split(Strip(line), Delimiter);
    if |parts| > 1 then
      match num(parts[0])
      case None => None
      case Some(w) =>
        if w >= MinWavelength then
          match num(parts[1])
          case None => None
          case Some(x) => Some((w, x))
        else None
    else None
  }

  /** The pairs of the accepted lines, in line order. */
  function ValuePairs(num: NumberParser, lines: seq<string>): seq<(real, real)> {
    FlatMap((line: string) => Accepted(num, line), lines)
  }

  /** The pair a line contributes to `read_values_by_line`: one, or none. */
  function Accepted(num: NumberParser, line: string): seq<(real, real)> {
    match AcceptValue(num, line)
    case Some(p) => [p]
    case None => []
  }

  /**
   * `read_values_by_line`: `values[w] = x` for each accepted line. A read error keeps what was
   * stored before it, since the handler returns the partial dictionary.
   */
  function ReadValuesByLine(num: NumberParser, file: FileText): AList<real, real> {
    PutAll(ValuePairs(num, file.lines))
  }

  // ---------------------------------------------------------------------------
  // Properties

  lemma {:induction false} CountPositive(s: string, c: char)
    ensures Count(s, c) > 0 <==> c in s
  {
    if s != [] {
      CountPositive(s[1..], c);
      assert s == [s[0]] + s[1..];
    }
  }

  lemma {:induction false} CountSnoc(s: string, x: char, c: char)
    ensures Count(s + [x], c) == Count(s, c) + if x == c then 1 else 0
  {
    if s == [] {
      assert [] + [x] == [x];
    } else {
      CountSnoc(s[1..], x, c);
      assert (s + [x])[1..] == s[1..] + [x];
    }
  }

  lemma {:induction false} TrimLeftCount(s: string, c: char)
    requires !IsSpace(c)
    ensures Count(TrimLeft(s), c) == Count(s, c)
  {
    if s != [] && IsSpace(s[0]) {
      TrimLeftCount(s[1..], c);
    }
  }

  lemma {:induction false} TrimRightCount(s: string, c: char)
    requires !IsSpace(c)
    ensures Count(TrimRight(s), c) == Count(s, c)
  {
    if s != [] && IsSpace(s[|s| - 1]) {
      TrimRightCount(s[..|s| - 1], c);
      assert s == s[..|s| - 1] + [s[|s| - 1]];
      CountSnoc(s[..|s| - 1], s[|s| - 1], c);
    }
  }

  /**
   * A line yields a record exactly when it holds one `;` and both stripped fields parse;
   * lines without a `;`, with three or more fields, or with a bad token are dropped.
   */
  lemma ParseLineSpec(num: NumberParser, line: string)
    ensures var fields := Split(Strip(line), Delimiter);
      ParseLine(num, line).Some? <==>
        Count(line, Delimiter) == 1 && |fields| == 2 && num(fields[0]).Some? && num(fields[1]).Some?
    ensures var fields := Split(Strip(line), Delimiter);
      ParseLine(num, line).Some? ==>
        ParseLine(num, line).value == ScanRecord(num(fields[0]).value, num(fields[1]).value)
  {
    var fields := Split(Strip(line), Delimiter);
    assert |fields| == Count(line, Delimiter) + 1 && (Count(line, Delimiter) > 0 <==> Delimiter in line) by {
      StripFields(line);
    }
    if Delimiter in line && |fields| == 2 {
      assert ParseLine(num, line) == match (num(fields[0]), num(fields[1]))
        case (Some(w), Some(i)) => Some(ScanRecord(w, i))
        case _ => None;
    } else {
      assert ParseLine(num, line) == None;
    }
  }

  /** Stripping never removes a `;`, so the stripped line has one field more than it has `;`s. */
  lemma StripFields(line: string)
    ensures |Split(Strip(line), Delimiter)| == Count(line, Delimiter) + 1
    ensures Count(line, Delimiter) > 0 <==> Delimiter in line
  {
    assert !IsSpace(Delimiter);
    TrimLeftCount(line, Delimiter);
    TrimRightCount(TrimLeft(line), Delimiter);
    CountPositive(line, Delimiter);
  }

  /**
   * Writing a record as `<w>;<i>` followed by a line ending and parsing it back gives the
   * record, for tokens that the number parser reads as the two values.
   */
  lemma ParseLineRoundTrip(num: NumberParser, w: string, i: string, eol: string, wavelength: real, intensity: real)
    requires Delimiter !in w && Delimiter !in i
    requires |w| > 0 && !IsSpace(w[0]) && |i| > 0 && !IsSpace(i[|i| - 1])
    requires forall k :: 0 <= k < |eol| ==> IsSpace(eol[k])
    requires num(w) == Some(wavelength) && num(i) == Some(intensity)
    ensures ParseLine(num, w + [Delimiter] + i + eol) == Some(ScanRecord(wavelength, intensity))
  {
    var body := w + [Delimiter] + i;
    var line := body + eol;
    assert line[|w|] == Delimiter;
    assert TrimLeft(line) == line;
    TrimRightWhitespaceTail(body, eol);
    assert TrimRight(body) == body;
    assert Strip(line) == body;
    SplitTwoFields(w, Delimiter, i);
  }

  /** Parsing distributes over concatenation: kept records stay in line order. */
  lemma ParseLinesAppend(num: NumberParser, a: seq<string>, b: seq<string>)
    ensures ParseLines(num, a + b) == ParseLines(num, a) + ParseLines(num, b)
  {
    FlatMapAppend((line: string) => Kept(num, line), a, b);
  }

  /** A file's records come from its lines one by one: a dropped line contributes nothing. */
  lemma ParseLinesSingle(num: NumberParser, line: string)
    ensures ParseLines(num, [line]) == Kept(num, line)
  {
    FlatMapSingle((line: string) => Kept(num, line), line);
  }

  /** No line yields more than one record. */
  lemma {:induction false} ParseLinesLength(num: NumberParser, lines: seq<string>)
    ensures |ParseLines(num, lines)| <= |lines|
  {
    if lines != [] {
      var init := lines[..|lines| - 1];
      ParseLinesLength(num, init);
      assert |Kept(num, lines[|lines| - 1])| <= 1;
    }
  }

  /**
   * `read_values_by_line` keeps one entry per wavelength in order of first appearance, with
   * the value of the last accepted line for it, and only wavelengths of at least 195.
   */
  lemma ReadValuesByLineSpec(num: NumberParser, file: FileText, w: real)
    ensures DistinctKeys(ReadValuesByLine(num, file))
    ensures Keys(ReadValuesByLine(num, file)) == Dedup(Keys(ValuePairs(num, file.lines)))
    ensures Get(ReadValuesByLine(num, file), w) == LastAt(ValuePairs(num, file.lines), w)
    ensures w in Keys(ReadValuesByLine(num, file)) ==> w >= MinWavelength
  {
    var ps := ValuePairs(num, file.lines);
    PutAllKeys(ps);
    PutAllGet(ps, w);
    ValuePairsWavelengths(num, file.lines);
  }

  lemma {:induction false} ValuePairsWavelengths(num: NumberParser, lines: seq<string>)
    ensures forall k :: 0 <= k < |ValuePairs(num, lines)| ==> ValuePairs(num, lines)[k].0 >= MinWavelength
  {
    if lines != [] {
      ValuePairsWavelengths(num, lines[..|lines| - 1]);
      var last := Accepted(num, lines[|lines| - 1]);
      assert ValuePairs(num, lines) == ValuePairs(num, lines[..|lines| - 1]) + last;
      assert forall k :: 0 <= k < |last| ==> last[k].0 >= MinWavelength;
    }
  }

  /**
   * The two readers disagree on lines with three or more fields: `read_data` drops them while
   * `read_values_by_line` reads the first two.
   */
  lemma ThreeFieldLine(num: NumberParser, a: string, b: string, c: string, wavelength: real, intensity: real)
    requires Delimiter !in a && Delimiter !in b && Delimiter !in c
    requires |a| > 0 && !IsSpace(a[0]) && |c| > 0 && !IsSpace(c[|c| - 1])
    requires num(a) == Some(wavelength) && num(b) == Some(intensity) && wavelength >= MinWavelength
    ensures ParseLine(num, a + [Delimiter] + b + [Delimiter] + c) == None
    ensures AcceptValue(num, a + [Delimiter] + b + [Delimiter] + c) == Some((wavelength, intensity))
  {
    var line := a + [Delimiter] + b + [Delimiter] + c;
    assert line[|a|] == Delimiter;
    assert TrimLeft(line) == line;
    assert TrimRight(line) == line;
    SplitAtFirst(a, Delimiter, b + [Delimiter] + c);
    assert line == a + [Delimiter] + (b + [Delimiter] + c);
    SplitTwoFields(b, Delimiter, c);
  }
}
