/**
  The line grammars of sub2txt.py, written as matchers over `string`.
  Each follows the Python `re` pattern it models, with `re.match`
  anchoring at the start, `$` matching at the end or just before a final
  newline, `.` matching anything but a newline, `\s` the whitespace of
  `str.isspace()` and `\d` an ASCII digit.
 */
module Patterns {
  import opened Wrappers
  import opened Strings

  /** Python's `$` (no MULTILINE flag) at position i. */
  predicate EndAt(s: string, i: nat) {
    i == |s| || (i + 1 == |s| && s[i] == '\n')
  }

  /** The group `(.+)$` matched from position i (greedy). */
  function RestOfLine(s: string, i: nat): (g: Option<string>)
    ensures g.Some? ==> g.value != [] && '\n' !in g.value
    ensures g.Some? ==> i + |g.value| <= |s| && s[i..i + |g.value|] == g.value && EndAt(s, i + |g.value|)
    ensures g.None? ==> forall j :: i < j <= |s| && EndAt(s, j) ==> '\n' in s[i..j]
  {
    if i < |s| && '\n' !in s[i..] then Some(s[i..])
    else if i + 1 < |s| && s[|s| - 1] == '\n' && '\n' !in s[i..|s| - 1] then Some(s[i..|s| - 1])
    else None
  }

  /** A head followed by `(.+)$` is the head and the group, possibly followed by "\n". */
  lemma HeadThenRest(s: string, head: string, t: string)
    requires |head| <= |s| && s[..|head|] == head && RestOfLine(s, |head|) == Some(t)
    ensures s == head + t || s == head + t + "\n"
  {
    var i := |head|;
    assert s == s[..i] + s[i..];
    if i + |t| == |s| {
      assert s[i..] == t;
    } else {
      assert s[i..] == t + "\n";
    }
  }

  /** Length of the run of digits starting at i: what a greedy `\d+` consumes. */
  function DigitRun(s: string, i: nat): (n: nat)
    requires i <= |s|
    ensures i + n <= |s| && AllDigits(s[i..i + n])
    ensures i + n < |s| ==> !IsDigit(s[i + n])
    decreases |s| - i
  {
    if i < |s| && IsDigit(s[i]) then
      var n := DigitRun(s, i + 1);
      assert s[i..i + 1 + n] == [s[i]] + s[i + 1..i + 1 + n];
      1 + n
    else 0
  }

  // ---------------------------------------------------------------------------
  // Fixed-shape lines: a template where '#' stands for `\d`, '~' for `\s`
  // and every other character for itself.

  predicate Fits(c: char, p: char) {
    if p == '#' then IsDigit(c) else if p == '~' then IsSpace(c) else c == p
  }

  predicate FitsAt(s: string, i: nat, t: string) {
    i + |t| <= |s| && forall k :: 0 <= k < |t| ==> Fits(s[i + k], t[k])
  }

  /** `re.match('^' + t + '$', s)` for a template without repetition. */
  predicate FullMatch(s: string, t: string) {
    FitsAt(s, 0, t) && EndAt(s, |t|)
  }

  /** `\d\d:\d\d:\d\d\.\d\d,\d\d:\d\d:\d\d\.\d\d` (sub2txt.py:69, 196) */
  const SubripPairTemplate := "##:##:##.##,##:##:##.##"
  /** `\d\d:\d\d:\d\d\,\d\d\d\s-->\s\d\d:\d\d:\d\d\,\d\d\d` (sub2txt.py:77) */
  const SrtTimingTemplate := "##:##:##,###~-->~##:##:##,###"

  /** A SubRip-variant timing line `HH:MM:SS.cc,HH:MM:SS.cc`. */
  predicate SubripPair(s: string) {
    FullMatch(s, SubripPairTemplate)
  }

  /** A SubRip timing line `HH:MM:SS,mmm --> HH:MM:SS,mmm`. */
  predicate SrtTiming(s: string) {
    FullMatch(s, SrtTimingTemplate)
  }

  /** `^\[\d\d:\d\d:\d\d(\.\d\d\d)?\]$`, the TXTSUB test of the sniffer (sub2txt.py:73-74). */
  predicate TxtsubStampShape(s: string) {
    FullMatch(s, "[##:##:##]") || FullMatch(s, "[##:##:##.###]")
  }

  /**
    `^\[(\d\d:\d\d:\d\d)\.?(\d\d\d)?\]$`, the TXTSUB test of the converter
    (sub2txt.py:264, 274). Unlike the sniffer's, it also admits a lone dot
    and three digits without a dot.
   */
  predicate TxtsubStamp(s: string) {
    || FullMatch(s, "[##:##:##]")
    || FullMatch(s, "[##:##:##.]")
    || FullMatch(s, "[##:##:#####]")
    || FullMatch(s, "[##:##:##.###]")
  }

  /** `^.+$`: at least one character before the end, none of them a newline. */
  predicate NonBlankLine(s: string) {
    RestOfLine(s, 0).Some?
  }

  /** `^\s*$`. */
  predicate Blank(s: string) {
    forall k :: 0 <= k < |s| ==> IsSpace(s[k])
  }

  // ---------------------------------------------------------------------------
  // MicroDVD `{a}{b}text` and MPL2 `[a][b]text`

  /** The fields of a line `{a}{b}text` or `[a][b]text`: two digit strings and the text. */
  datatype Framed = Framed(first: string, second: string, text: string)

  /** `open (\d+) close` at position i: the digit string. */
  function Delimited(s: string, i: nat, open: char, close: char): (g: Option<string>)
    requires !IsDigit(close)
    ensures g.Some? ==> g.value != [] && AllDigits(g.value)
    ensures g.Some? ==> i + |g.value| + 2 <= |s| && s[i..i + |g.value| + 2] == [open] + g.value + [close]
  {
    if i < |s| && s[i] == open then
      var n := DigitRun(s, i + 1);
      if n > 0 && i + 1 + n < |s| && s[i + 1 + n] == close then
        assert s[i..i + n + 2] == [open] + s[i + 1..i + 1 + n] + [close];
        Some(s[i + 1..i + 1 + n])
      else None
    else None
  }

  /** `^open(\d+)close open(\d+)close(.+)$`. */
  function ParseFramed(s: string, open: char, close: char): (r: Option<Framed>)
    requires !IsDigit(close)
    ensures r.Some? ==> r.value.first != [] && AllDigits(r.value.first)
    ensures r.Some? ==> r.value.second != [] && AllDigits(r.value.second)
    ensures r.Some? ==> r.value.text != [] && '\n' !in r.value.text
  {
    match Delimited(s, 0, open, close)
    case None => None
    case Some(a) =>
      match Delimited(s, |a| + 2, open, close)
      case None => None
      case Some(b) =>
        match RestOfLine(s, |a| + |b| + 4)
        case None => None
        case Some(t) => Some(Framed(a, b, t))
  }

  /**
    A MicroDVD line: the shape `^\{\d+\}\{\d+\}(.+)$` of sub2txt.py:57 and
    232 tests, with both frame numbers captured as well, as the three-name
    unpacking at sub2txt.py:233 expects (the pattern as written captures
    only the text; see AsWritten).
   */
  function ParseMicroDvd(s: string): Option<Framed> {
    ParseFramed(s, '{', '}')
  }

  /** `^\[(\d+)\]\[(\d+)\](.+)$`: an MPL2 line (sub2txt.py:61, 310). */
  function ParseMpl2(s: string): Option<Framed> {
    ParseFramed(s, '[', ']')
  }

  /** A framed line is exactly its fields put back between the brackets. */
  lemma ParseFramedSound(s: string, open: char, close: char)
    requires !IsDigit(close)
    requires ParseFramed(s, open, close).Some?
    ensures var f := ParseFramed(s, open, close).value;
      var line := [open] + f.first + [close] + [open] + f.second + [close] + f.text;
      s == line || s == line + "\n"
  {
    var f := ParseFramed(s, open, close).value;
    var i := |f.first| + |f.second| + 4;
    assert s[..i] == [open] + f.first + [close] + [open] + f.second + [close] by {
      assert s[..i] == s[0..|f.first| + 2] + s[|f.first| + 2..i];
    }
    HeadThenRest(s, [open] + f.first + [close] + [open] + f.second + [close], f.text);
  }

  /** Writing the fields of a framed line and parsing it back gives the fields. */
  lemma ParseFramedComplete(a: string, b: string, t: string, open: char, close: char)
    requires !IsDigit(open) && !IsDigit(close)
    requires a != [] && AllDigits(a) && b != [] && AllDigits(b)
    requires t != [] && '\n' !in t
    ensures ParseFramed([open] + a + [close] + [open] + b + [close] + t, open, close) == Some(Framed(a, b, t))
  {
    var head := [open] + a + [close];
    var s := head + ([open] + b + [close] + t);
    assert s == [open] + a + [close] + [open] + b + [close] + t;
    DelimitedAt(s, 0, a, open, close);
    var j := |a| + 2;
    assert s[j..] == [open] + b + [close] + t;
    DelimitedAt(s, j, b, open, close);
    assert s[j + |b| + 2..] == t;
  }

  /** An opening bracket, a digit string and a closing bracket at position i. */
  lemma DelimitedAt(s: string, i: nat, d: string, open: char, close: char)
    requires !IsDigit(open) && !IsDigit(close) && d != [] && AllDigits(d)
    requires i + |d| + 2 <= |s| && s[i..i + |d| + 2] == [open] + d + [close]
    ensures Delimited(s, i, open, close) == Some(d)
  {
    var w := s[i..i + |d| + 2];
    forall k | 0 <= k < |d| ensures s[i + 1 + k] == d[k] {
      assert w[k + 1] == s[i + 1 + k];
    }
    assert s[i + 1..i + 1 + |d|] == d;
    assert s[i + 1 + |d|] == w[|d| + 1] == close;
    RunOfDigits(s, i + 1, d);
  }

  /** A digit string followed by a non-digit is exactly the greedy run. */
  lemma RunOfDigits(s: string, i: nat, d: string)
    requires i + |d| < |s| && s[i..i + |d|] == d && AllDigits(d) && !IsDigit(s[i + |d|])
    ensures DigitRun(s, i) == |d|
  {
  }

  // ---------------------------------------------------------------------------
  // TMP `H:M:S:text`

  /** The groups of `^(\d?\d):(\d?\d):(\d?\d):(.+)$`. */
  datatype TmpFields = TmpFields(hours: string, minutes: string, seconds: string, text: string)

  /** `(\d?\d):` at position i: one or two digits and a colon. */
  function ColonField(s: string, i: nat): (g: Option<string>)
    requires i <= |s|
    ensures g.Some? ==> 1 <= |g.value| <= 2 && AllDigits(g.value)
    ensures g.Some? ==> i + |g.value| < |s| && s[i..i + |g.value|] == g.value && s[i + |g.value|] == ':'
  {
    if i + 1 < |s| && IsDigit(s[i]) && s[i + 1] == ':' then Some(s[i..i + 1])
    else if i + 2 < |s| && IsDigit(s[i]) && IsDigit(s[i + 1]) && s[i + 2] == ':' then Some(s[i..i + 2])
    else None
  }

  /**
    The TMP layout: `h:m:c:` followed by the text, each time group made of
    digits.
   */
  predicate TmpLayout(s: string, f: TmpFields) {
    && |f.hours| + |f.minutes| + |f.seconds| + 3 <= |s|
    && AllDigits(f.hours) && AllDigits(f.minutes) && AllDigits(f.seconds)
    && s[0..|f.hours|] == f.hours && s[|f.hours|] == ':'
    && s[|f.hours| + 1..|f.hours| + 1 + |f.minutes|] == f.minutes && s[|f.hours| + 1 + |f.minutes|] == ':'
    && s[|f.hours| + |f.minutes| + 2..|f.hours| + |f.minutes| + 2 + |f.seconds|] == f.seconds
    && s[|f.hours| + |f.minutes| + 2 + |f.seconds|] == ':'
  }

  /** The three `(\d?\d):` groups at the head of a TMP line. */
  function TmpTimes(s: string): Option<(string, string, string)> {
    match ColonField(s, 0)
    case None => None
    case Some(h) =>
      match ColonField(s, |h| + 1)
      case None => None
      case Some(m) =>
        match ColonField(s, |h| + |m| + 2)
        case None => None
        case Some(c) => Some((h, m, c))
  }

  /** `^(\d?\d):(\d?\d):(\d?\d):(.+)$`: a TMP line (sub2txt.py:65, 340). */
  function ParseTmp(s: string): (r: Option<TmpFields>)
    ensures r.Some? ==> TmpLayout(s, r.value)
    ensures r.Some? ==> 1 <= |r.value.hours| <= 2 && 1 <= |r.value.minutes| <= 2 && 1 <= |r.value.seconds| <= 2
    ensures r.Some? ==> r.value.text != [] && '\n' !in r.value.text
  {
    match TmpTimes(s)
    case None => None
    case Some(g) =>
      match RestOfLine(s, |g.0| + |g.1| + |g.2| + 3)
      case None => None
      case Some(t) => Some(TmpFields(g.0, g.1, g.2, t))
  }

  /** A TMP line is exactly its groups joined by colons, possibly followed by "\n". */
  lemma ParseTmpSound(s: string)
    requires ParseTmp(s).Some?
    ensures var f := ParseTmp(s).value;
      var line := f.hours + ":" + f.minutes + ":" + f.seconds + ":" + f.text;
      s == line || s == line + "\n"
  {
    var f := ParseTmp(s).value;
    var i := |f.hours| + |f.minutes| + |f.seconds| + 3;
    LayoutHead(s, f);
    assert RestOfLine(s, i) == Some(f.text);
    HeadThenRest(s, f.hours + ":" + f.minutes + ":" + f.seconds + ":", f.text);
  }

  /** The head of a line with the TMP layout is its three groups joined by colons. */
  lemma LayoutHead(s: string, f: TmpFields)
    requires TmpLayout(s, f)
    ensures var i := |f.hours| + |f.minutes| + |f.seconds| + 3;
      s[..i] == f.hours + ":" + f.minutes + ":" + f.seconds + ":"
  {
    var i := |f.hours| + |f.minutes| + |f.seconds| + 3;
    assert s[..i] == s[0..|f.hours|] + [s[|f.hours|]]
      + s[|f.hours| + 1..|f.hours| + 1 + |f.minutes|] + [s[|f.hours| + 1 + |f.minutes|]]
      + s[|f.hours| + |f.minutes| + 2..|f.hours| + |f.minutes| + 2 + |f.seconds|] + [s[i - 1]];
  }

  /**
    Writing one- or two-digit groups and a non-empty text as a TMP line, with
    or without a final newline, and parsing it back gives those groups.
   */
  lemma ParseTmpComplete(h: string, m: string, c: string, t: string)
    requires 1 <= |h| <= 2 && 1 <= |m| <= 2 && 1 <= |c| <= 2
    requires AllDigits(h) && AllDigits(m) && AllDigits(c)
    requires t != [] && '\n' !in t
    ensures ParseTmp(h + ":" + m + ":" + c + ":" + t) == Some(TmpFields(h, m, c, t))
    ensures ParseTmp(h + ":" + m + ":" + c + ":" + t + "\n") == Some(TmpFields(h, m, c, t))
  {
    TmpLineParses(h, m, c, t, t);
    assert h + ":" + m + ":" + c + ":" + t + "\n" == h + ":" + m + ":" + c + ":" + (t + "\n");
    TmpLineParses(h, m, c, t + "\n", t);
  }

  /** A TMP line whose rest, after the time groups, reads as the text t. */
  lemma TmpLineParses(h: string, m: string, c: string, rest: string, t: string)
    requires 1 <= |h| <= 2 && 1 <= |m| <= 2 && 1 <= |c| <= 2
    requires AllDigits(h) && AllDigits(m) && AllDigits(c)
    requires t != [] && '\n' !in t && (rest == t || rest == t + "\n")
    ensures ParseTmp(h + ":" + m + ":" + c + ":" + rest) == Some(TmpFields(h, m, c, t))
  {
    var s := h + ":" + m + ":" + c + ":" + rest;
    JoinedFields(h, m, c, rest);
    TimesAt(s, h, m, c);
    RestIsLine(s, |h| + |m| + |c| + 3, t);
    ParseTmpAfterTimes(s, h, m, c, t);
  }

  /** `(.+)$` from i takes t when the rest of the line is t, possibly followed by "\n". */
  lemma RestIsLine(s: string, i: nat, t: string)
    requires i <= |s| && t != [] && '\n' !in t && (s[i..] == t || s[i..] == t + "\n")
    ensures RestOfLine(s, i) == Some(t)
  {
    if s[i..] == t + "\n" {
      assert s[i..|s| - 1] == t;
      assert '\n' in s[i..] by {
        assert s[i..][|t|] == '\n';
      }
    }
  }

  /** The three time groups of a line, read one after the other. */
  lemma TimesAt(s: string, h: string, m: string, c: string)
    requires ColonField(s, 0) == Some(h)
    requires ColonField(s, |h| + 1) == Some(m)
    requires ColonField(s, |h| + |m| + 2) == Some(c)
    ensures TmpTimes(s) == Some((h, m, c))
  {
  }

  /** The time groups, then `(.+)$` giving t. */
  lemma ParseTmpAfterTimes(s: string, h: string, m: string, c: string, t: string)
    requires TmpTimes(s) == Some((h, m, c))
    requires RestOfLine(s, |h| + |m| + |c| + 3) == Some(t)
    ensures ParseTmp(s) == Some(TmpFields(h, m, c, t))
  {
  }

  /** Groups of one or two digits joined by colons, then anything, are read as those groups. */
  lemma JoinedFields(h: string, m: string, c: string, rest: string)
    requires 1 <= |h| <= 2 && 1 <= |m| <= 2 && 1 <= |c| <= 2
    requires AllDigits(h) && AllDigits(m) && AllDigits(c)
    ensures var s := h + ":" + m + ":" + c + ":" + rest;
      && ColonField(s, 0) == Some(h)
      && ColonField(s, |h| + 1) == Some(m)
      && ColonField(s, |h| + |m| + 2) == Some(c)
      && s[|h| + |m| + |c| + 3..] == rest
  {
    var s := h + ":" + m + ":" + c + ":" + rest;
    var j := |h| + 1;
    var k := j + |m| + 1;
    assert s[..|h|] == h && s[|h|] == ':';
    ColonFieldAt(s, 0, h);
    assert s[j..j + |m|] == m && s[j + |m|] == ':';
    ColonFieldAt(s, j, m);
    assert s[k..k + |c|] == c && s[k + |c|] == ':';
    ColonFieldAt(s, k, c);
  }

  /** One or two digits and a colon at position i are exactly what `(\d?\d):` takes. */
  lemma ColonFieldAt(s: string, i: nat, d: string)
    requires 1 <= |d| <= 2 && AllDigits(d)
    requires i + |d| < |s| && s[i..i + |d|] == d && s[i + |d|] == ':'
    ensures ColonField(s, i) == Some(d)
  {
    assert s[i] == d[0];
    if |d| == 2 {
      assert s[i + 1] == d[1];
    }
  }

  /**
    On a TMP line, `line.split(":")` begins with the three time groups, so the
    `map(int, ...)` of sub2txt.py:342 always receives digit strings.
   */
  lemma TmpSplitFields(s: string)
    requires ParseTmp(s).Some?
    ensures var f := ParseTmp(s).value; var parts := Split(s, ':');
      |parts| >= 4 && parts[0] == f.hours && parts[1] == f.minutes && parts[2] == f.seconds
  {
    var f := ParseTmp(s).value;
    DigitsHaveNoColon(f.hours);
    DigitsHaveNoColon(f.minutes);
    DigitsHaveNoColon(f.seconds);
    ThreeFields(s, f.hours, f.minutes, f.seconds);
  }

  lemma ThreeFields(s: string, h: string, m: string, c: string)
    requires ':' !in h && ':' !in m && ':' !in c
    requires |h| + |m| + |c| + 3 <= |s|
    requires s[0..|h|] == h && s[|h|] == ':'
    requires s[|h| + 1..|h| + 1 + |m|] == m && s[|h| + 1 + |m|] == ':'
    requires s[|h| + |m| + 2..|h| + |m| + 2 + |c|] == c && s[|h| + |m| + 2 + |c|] == ':'
    ensures var parts := Split(s, ':'); |parts| >= 4 && parts[0] == h && parts[1] == m && parts[2] == c
  {
    var rest := s[|h| + |m| + |c| + 3..];
    assert s == h + [':'] + (m + [':'] + (c + [':'] + rest));
    SplitThree(h, m, c, rest);
    var parts := Split(s, ':');
    assert parts == [h, m, c] + Split(rest, ':');
  }

  lemma SplitThree(h: string, m: string, c: string, rest: string)
    requires ':' !in h && ':' !in m && ':' !in c
    ensures Split(h + [':'] + (m + [':'] + (c + [':'] + rest)), ':') == [h, m, c] + Split(rest, ':')
  {
    SplitAppend(c, rest, ':');
    SplitAppend(m, c + [':'] + rest, ':');
    SplitAppend(h, m + [':'] + (c + [':'] + rest), ':');
  }
}
