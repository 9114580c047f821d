/**
  The converters of sub2txt.py that read more than one line per subtitle:
  conv_subrip and conv_txtsub. Both advance the shared line stream with
  `next(infile)`, which raises StopIteration at the end of the input; the
  model records that as `stopped`, with the records written so far kept.
 */
module MultiLine {
  import opened Strings
  import opened Patterns
  import opened Emitter
  import opened SingleLine

  /** The counters and the records written so far. */
  datatype Tally = Tally(out: seq<Record>, converted: nat, failed: nat)

  /** Where a converter ends: after the last line, or stopped by StopIteration from `next`. */
  datatype Run = Run(tally: Tally, stopped: bool)

  /** `converted += 1` and write_srt with the new number. */
  function Emit(t: Tally, start: string, end: string, text: string): Tally {
    Tally(t.out + [Record(t.converted + 1, start, end, text)], t.converted + 1, t.failed)
  }

  /** An unmatched line: ignored as a header before the first record, counted as failed after it. */
  function Reject(t: Tally): Tally {
    if t.converted == 0 then t else Tally(t.out, t.converted, t.failed + 1)
  }

  /**
    What both converters keep true: the records are numbered 1..converted
    with no gap, and nothing counts as failed before the first record.
   */
  predicate Counted(t: Tally) {
    && t.converted == |t.out|
    && (forall k :: 0 <= k < |t.out| ==> t.out[k].nr == k + 1)
    && (t.converted == 0 ==> t.failed == 0)
  }

  lemma EmitCounted(t: Tally, start: string, end: string, text: string)
    requires Counted(t)
    ensures Counted(Emit(t, start, end, text))
  {
    var t' := Emit(t, start, end, text);
    forall k | 0 <= k < |t'.out| ensures t'.out[k].nr == k + 1 {
      if k < |t.out| {
        assert t'.out[k] == t.out[k];
      }
    }
  }

  /** `text.replace("[br]", "\n")`. */
  function BrToNewlines(text: string): (r: string)
    ensures '\n' !in text ==> Split(r, '\n') == SplitOn(text, "[br]")
    ensures '|' !in text ==> '|' !in r
    ensures text != [] ==> r != []
  {
    var r := Replace(text, "[br]", "\n");
    assert '\n' !in text ==> Split(r, '\n') == SplitOn(text, "[br]") by {
      if '\n' !in text {
        ReplaceThenSplit(text, "[br]", '\n');
      }
    }
    assert '|' !in text ==> '|' !in r by {
      if '|' !in text {
        ReplaceKeepsAbsent(text, "[br]", "\n", '|');
      }
    }
    ReplaceNonEmpty(text, "[br]", "\n");
    r
  }

  /**
    `text.replace("|", "\n").replace("[br]", "\n")` on a one-line text: the
    lines of the result are the "[br]"-separated pieces of the text, each
    split further at '|'. Both markers become line breaks and nothing else
    does.
   */
  lemma {:induction false} BarsAndBreaks(s: string)
    requires '\n' !in s
    ensures Split(BrToNewlines(BarsToNewlines(s)), '\n') == SplitEach(SplitOn(s, "[br]"), '|')
    decreases |s|
  {
    var m := Replace(s, "|", "\n");
    assert BrToNewlines(BarsToNewlines(s)) == Replace(m, "[br]", "\n");
    if |s| < 4 {
      ReplaceCharPointwise(s, '|', '\n');
      ReplaceThenSplit(s, "|", '\n');
      SplitOnChar(s, '|');
      assert SplitEach([s], '|') == Split(s, '|') + SplitEach([], '|');
    } else if s[..4] == "[br]" {
      MarkerKept(s);
      ReplaceCharSuffix(s, '|', '\n', 4);
      BarsAndBreaks(s[4..]);
      var x := Replace(m[4..], "[br]", "\n");
      SplitCons('\n', x, '\n');
      var r := SplitOn(s[4..], "[br]");
      assert ([[]] + r)[0] == [] && ([[]] + r)[1..] == r;
    } else {
      MarkerKept(s);
      ReplaceCharSuffix(s, '|', '\n', 1);
      BarsAndBreaks(s[1..]);
      var x := Replace(m[1..], "[br]", "\n");
      var r := SplitOn(s[1..], "[br]");
      BreaksStep(s[0], x, r);
    }
  }

  /** Turning bars into newlines neither makes nor breaks a "[br]" marker. */
  lemma MarkerKept(s: string)
    requires |s| >= 4
    ensures |Replace(s, "|", "\n")| == |s|
    ensures Replace(s, "|", "\n")[..4] == "[br]" <==> s[..4] == "[br]"
  {
    var m := Replace(s, "|", "\n");
    ReplaceCharPointwise(s, '|', '\n');
    assert forall k :: 0 <= k < 4 ==> (m[k] == "[br]"[k] <==> s[k] == "[br]"[k]);
    assert m[..4] == "[br]" <==> forall k :: 0 <= k < 4 ==> m[k] == "[br]"[k];
    assert s[..4] == "[br]" <==> forall k :: 0 <= k < 4 ==> s[k] == "[br]"[k];
  }

  /** One character in front: a bar starts a new line, any other character joins the first one. */
  lemma BreaksStep(c: char, x: string, r: seq<string>)
    requires c != '\n' && |r| >= 1 && Split(x, '\n') == SplitEach(r, '|')
    ensures Split([if c == '|' then '\n' else c] + x, '\n') == SplitEach([[c] + r[0]] + r[1..], '|')
  {
    var q := [[c] + r[0]] + r[1..];
    assert q[0] == [c] + r[0] && q[1..] == r[1..];
    var a, b := Split(r[0], '|'), SplitEach(r[1..], '|');
    assert SplitEach(r, '|') == a + b;
    SplitCons(c, r[0], '|');
    if c == '|' {
      SplitCons('\n', x, '\n');
      ConsAppend([], a, b);
    } else {
      SplitCons(c, x, '\n');
      HeadTailAppend(a, b);
      ConsAppend([c] + a[0], a[1..], b);
    }
  }

  // ---------------------------------------------------------------------------
  // conv_subrip (sub2txt.py:190-224)

  /** The shape of one half of a SubRip-variant timing line. */
  const PairStampTemplate := "##:##:##.##"

  /**
    The rewrite of sub2txt.py:198-199, `re.sub(r'\.(\d\d)$', ...)` on an
    `HH:MM:SS.cc` stamp, with the replacement read as group 1 followed by
    "00" (AsWritten models the template as Python reads it).
   */
  function SubripStamp(stamp: string): (r: string)
    requires FullMatch(stamp, PairStampTemplate) && |stamp| == 11
  {
    stamp[..8] + "," + stamp[9..11] + "00"
  }

  /**
    The clock of the stamp is kept, the dot becomes a comma, and the
    millisecond field is the two centisecond digits followed by "00", worth
    a hundred times the centiseconds.
   */
  lemma SubripStampFields(stamp: string)
    requires FullMatch(stamp, PairStampTemplate) && |stamp| == 11
    ensures var r := SubripStamp(stamp); var p := Split(r, ',');
      && |p| == 2 && p[0] == stamp[..8]
      && AllDigits(p[1]) && |p[1]| == 4 && AllDigits(stamp[9..11])
      && Value(p[1]) == 100 * Value(stamp[9..11])
  {
    var r := SubripStamp(stamp);
    assert forall k :: 0 <= k < 11 ==> Fits(stamp[k], PairStampTemplate[k]);
    var cc := stamp[9..11];
    var ms := cc + "00";
    assert r == stamp[..8] + [','] + ms;
    assert ',' !in stamp[..8] by {
      forall k | 0 <= k < 8 ensures stamp[..8][k] != ',' {
        assert Fits(stamp[k], PairStampTemplate[k]);
      }
    }
    assert AllDigits(cc) by {
      assert Fits(stamp[9], PairStampTemplate[9]) && Fits(stamp[10], PairStampTemplate[10]);
    }
    SplitAppend(stamp[..8], ms, ',');
    SplitNoSep(ms, ',');
    assert ms[..3] == cc + "0" && (cc + "0")[..2] == cc;
  }

  /** Different stamps stay different: nothing of the stamp is lost. */
  lemma SubripStampInjective(x: string, y: string)
    requires FullMatch(x, PairStampTemplate) && |x| == 11
    requires FullMatch(y, PairStampTemplate) && |y| == 11
    ensures SubripStamp(x) == SubripStamp(y) ==> x == y
  {
    if SubripStamp(x) == SubripStamp(y) {
      var r := SubripStamp(x);
      assert x[..8] == r[..8] == y[..8];
      assert x[9] == r[9] == y[9] && x[10] == r[10] == y[10];
      assert Fits(x[8], PairStampTemplate[8]) && Fits(y[8], PairStampTemplate[8]);
      assert x == x[..8] + [x[8], x[9], x[10]];
      assert y == y[..8] + [y[8], y[9], y[10]];
    }
  }

  /** A stamp of the SubRip-variant timing line holds no comma. */
  lemma StampHasNoComma(s: string)
    requires FitsAt(s, 0, PairStampTemplate) && |s| == 11
    ensures ',' !in s
  {
    forall k | 0 <= k < 11 ensures s[k] != ',' {
      assert Fits(s[k], PairStampTemplate[k]);
    }
  }

  /** Each half of a timing line has the shape of a stamp. */
  lemma PairHalves(line: string)
    requires FitsAt(line, 0, SubripPairTemplate)
    ensures FitsAt(line[..11], 0, PairStampTemplate) && FitsAt(line[12..23], 0, PairStampTemplate) && line[11] == ','
  {
    assert SubripPairTemplate == PairStampTemplate + "," + PairStampTemplate;
    forall k | 0 <= k < 11 ensures Fits(line[..11][k], PairStampTemplate[k]) {
      assert Fits(line[k], SubripPairTemplate[k]);
    }
    forall k | 0 <= k < 11 ensures Fits(line[12..23][k], PairStampTemplate[k]) {
      assert Fits(line[12 + k], SubripPairTemplate[12 + k]);
    }
    assert Fits(line[11], SubripPairTemplate[11]);
  }

  /**
    A stripped SubRip-variant timing line is exactly 23 characters, and
    `line.split(",")` gives its two stamps, so the unpacking at
    sub2txt.py:197 always succeeds.
   */
  lemma SubripPairPieces(raw: string)
    requires SubripPair(Strip(raw))
    ensures var line := Strip(raw);
      && |line| == 23
      && Split(line, ',') == [line[..11], line[12..]]
      && FullMatch(line[..11], PairStampTemplate) && |line[..11]| == 11
      && FullMatch(line[12..], PairStampTemplate) && |line[12..]| == 11
  {
    var line := Strip(raw);
    StripSpec(raw);
    assert |line| == 23;
    PairHalves(line);
    var a, b := line[..11], line[12..];
    assert b == line[12..23];
    assert line == a + [','] + b;
    StampHasNoComma(a);
    StampHasNoComma(b);
    SplitAppend(a, b, ',');
    SplitNoSep(b, ',');
  }

  /**
    conv_subrip from line i on, with tally t: a timing line takes the next
    line as its text and skips the one after; any other line is rejected.
   */
  function SubripFrom(lines: seq<string>, i: nat, t: Tally): Run
    requires i <= |lines|
    decreases |lines| - i
  {
    if i == |lines| then Run(t, false)
    else if !SubripPair(Strip(lines[i])) then SubripFrom(lines, i + 1, Reject(t))
    else if i + 2 >= |lines| then Run(t, true)
    else
      SubripPairPieces(lines[i]);
      var parts := Split(Strip(lines[i]), ',');
      var text := BrToNewlines(Strip(lines[i + 1]));
      SubripFrom(lines, i + 3, Emit(t, SubripStamp(parts[0]), SubripStamp(parts[1]), text))
  }

  /** conv_subrip: the records and counters are those SubripFrom describes from the first line. */
  method ConvSubrip(lines: seq<string>) returns (out: seq<Record>, converted: nat, failed: nat, stopped: bool)
    ensures Run(Tally(out, converted, failed), stopped) == SubripFrom(lines, 0, Tally([], 0, 0))
  {
    out, converted, failed, stopped := [], 0, 0, false;
    var i := 0;
    while i < |lines|
      invariant i <= |lines|
      invariant SubripFrom(lines, i, Tally(out, converted, failed)) == SubripFrom(lines, 0, Tally([], 0, 0))
    {
      var line := Strip(lines[i]);
      if SubripPair(line) {
        if i + 1 == |lines| {
          stopped := true;
          return;
        }
        var text := Strip(lines[i + 1]);
        if i + 2 == |lines| {
          stopped := true;
          return;
        }
        SubripPairPieces(lines[i]);
        var parts := Split(line, ',');
        var start, end := SubripStamp(parts[0]), SubripStamp(parts[1]);
        converted := converted + 1;
        text := BrToNewlines(text);
        out := out + [Record(converted, start, end, text)];
        i := i + 3;
      } else {
        if converted > 0 {
          failed := failed + 1;
        }
        i := i + 1;
      }
    }
  }

  /** Every record's start and end are `HH:MM:SS,cccc` stamps. */
  predicate SubripStamps(t: Tally) {
    forall k :: 0 <= k < |t.out| ==>
      FullMatch(t.out[k].start, "##:##:##,####") && FullMatch(t.out[k].end, "##:##:##,####")
  }

  lemma SubripStampShape(stamp: string)
    requires FullMatch(stamp, PairStampTemplate) && |stamp| == 11
    ensures FullMatch(SubripStamp(stamp), "##:##:##,####")
  {
    var r := SubripStamp(stamp);
    forall k | 0 <= k < 13 ensures Fits(r[k], "##:##:##,####"[k]) {
      if k < 8 {
        assert Fits(stamp[k], PairStampTemplate[k]);
      } else if 9 <= k < 11 {
        assert Fits(stamp[k], PairStampTemplate[k]);
      }
    }
  }

  /**
    What conv_subrip guarantees from line i on: the counters stay in step
    with the numbered records, no line fails before the first record, every
    start and end is an `HH:MM:SS,cccc` stamp, and each record uses three
    lines and each failure one, so `3 * converted + failed` never exceeds
    the lines read.
   */
  lemma {:induction false} SubripFromKeeps(lines: seq<string>, i: nat, t: Tally)
    requires i <= |lines| && Counted(t) && SubripStamps(t)
    ensures var r := SubripFrom(lines, i, t).tally;
      && Counted(r) && SubripStamps(r)
      && 3 * r.converted + r.failed <= 3 * t.converted + t.failed + (|lines| - i)
    decreases |lines| - i
  {
    if i == |lines| {
    } else if !SubripPair(Strip(lines[i])) {
      SubripFromKeeps(lines, i + 1, Reject(t));
    } else if i + 2 >= |lines| {
    } else {
      SubripPairPieces(lines[i]);
      var parts := Split(Strip(lines[i]), ',');
      var text := BrToNewlines(Strip(lines[i + 1]));
      var start, end := SubripStamp(parts[0]), SubripStamp(parts[1]);
      var t' := Emit(t, start, end, text);
      EmitCounted(t, start, end, text);
      SubripStampShape(parts[0]);
      SubripStampShape(parts[1]);
      assert SubripStamps(t') by {
        forall k | 0 <= k < |t'.out| ensures FullMatch(t'.out[k].start, "##:##:##,####") && FullMatch(t'.out[k].end, "##:##:##,####") {
          if k < |t.out| {
            assert t'.out[k] == t.out[k];
          }
        }
      }
      SubripFromKeeps(lines, i + 3, t');
    }
  }

  /** The index of the first timing line from i on, or the end of the file when there is none. */
  function FirstTiming(lines: seq<string>, i: nat): (h: nat)
    requires i <= |lines|
    ensures i <= h <= |lines|
    ensures h < |lines| ==> SubripPair(Strip(lines[h]))
    ensures forall j :: i <= j < h ==> !SubripPair(Strip(lines[j]))
    decreases |lines| - i
  {
    if i == |lines| || SubripPair(Strip(lines[i])) then i else FirstTiming(lines, i + 1)
  }

  /**
    conv_subrip's exact line accounting from line i on, when it reaches the
    end without StopIteration: once a record has been written every line is
    either one of a record's three lines or a failed line; before the first
    record, the lines up to the first timing line are ignored headers.
   */
  lemma {:induction false} SubripCounts(lines: seq<string>, i: nat, t: Tally)
    requires i <= |lines|
    ensures var run := SubripFrom(lines, i, t); var r := run.tally;
      !run.stopped ==>
        3 * r.converted + r.failed ==
        3 * t.converted + t.failed + |lines| - (if t.converted > 0 then i else FirstTiming(lines, i))
    decreases |lines| - i
  {
    if i == |lines| {
    } else if !SubripPair(Strip(lines[i])) {
      SubripCounts(lines, i + 1, Reject(t));
    } else if i + 2 >= |lines| {
    } else {
      SubripPairPieces(lines[i]);
      var parts := Split(Strip(lines[i]), ',');
      var text := BrToNewlines(Strip(lines[i + 1]));
      SubripCounts(lines, i + 3, Emit(t, SubripStamp(parts[0]), SubripStamp(parts[1]), text));
    }
  }

  /**
    conv_subrip on a whole file: the guarantees of SubripFromKeeps from an
    empty tally and, when no StopIteration ends it, the exact accounting
    `3 * converted + failed == |lines| - h`, h the first timing line.
   */
  lemma SubripOutput(lines: seq<string>)
    ensures var run := SubripFrom(lines, 0, Tally([], 0, 0)); var r := run.tally;
      && Counted(r) && SubripStamps(r)
      && 3 * r.converted + r.failed <= |lines|
      && (!run.stopped ==> 3 * r.converted + r.failed == |lines| - FirstTiming(lines, 0))
  {
    SubripFromKeeps(lines, 0, Tally([], 0, 0));
    SubripCounts(lines, 0, Tally([], 0, 0));
  }

  /**
    A timing line with two more lines after it gives one record: its two
    stamps rewritten, the next line as text, and the line after that skipped.
   */
  lemma SubripBlock(lines: seq<string>, i: nat, t: Tally)
    requires i + 2 < |lines| && SubripPair(Strip(lines[i]))
    ensures var line := Strip(lines[i]);
      && |line| == 23
      && FullMatch(line[..11], PairStampTemplate) && |line[..11]| == 11
      && FullMatch(line[12..], PairStampTemplate) && |line[12..]| == 11
      && SubripFrom(lines, i, t) == SubripFrom(lines, i + 3,
           Emit(t, SubripStamp(line[..11]), SubripStamp(line[12..]), BrToNewlines(Strip(lines[i + 1]))))
  {
    SubripPairPieces(lines[i]);
  }

  lemma ExampleTimingLine()
    ensures Strip("00:00:01.50,00:00:03.20\n") == "00:00:01.50,00:00:03.20"
    ensures SubripPair(Strip("00:00:01.50,00:00:03.20\n"))
    ensures Strip("00:00:01.50,00:00:03.20\n")[..11] == "00:00:01.50"
    ensures Strip("00:00:01.50,00:00:03.20\n")[12..] == "00:00:03.20"
  {
    var line := "00:00:01.50,00:00:03.20";
    assert TrimStart(line + "\n") == line + "\n";
    assert TrimEnd(line + "\n") == TrimEnd(line) == line;
    ExampleTimingShape();
  }

  lemma ExampleTimingShape()
    ensures SubripPair("00:00:01.50,00:00:03.20")
  {
    var line := "00:00:01.50,00:00:03.20";
    forall k | 0 <= k < 23 ensures Fits(line[k], SubripPairTemplate[k]) {
    }
  }

  lemma ExampleTextLine()
    ensures Strip("Hi there\n") == "Hi there"
    ensures BrToNewlines("Hi there") == "Hi there"
  {
    assert TrimStart("Hi there\n") == "Hi there\n";
    assert TrimEnd("Hi there\n") == TrimEnd("Hi there") == "Hi there";
    var s := "Hi there";
    forall k: nat ensures !OccursAt(s, "[br]", k) {
      if k + 4 <= |s| {
        assert s[k..k + 4][0] == s[k] != '[';
      }
    }
    ReplaceAbsent(s, "[br]", "\n");
  }

  lemma ExampleStamps()
    ensures FullMatch("00:00:01.50", PairStampTemplate) && FullMatch("00:00:03.20", PairStampTemplate)
    ensures SubripStamp("00:00:01.50") == "00:00:01,5000"
    ensures SubripStamp("00:00:03.20") == "00:00:03,2000"
  {
    var a, b := "00:00:01.50", "00:00:03.20";
    forall k | 0 <= k < 11 ensures Fits(a[k], PairStampTemplate[k]) && Fits(b[k], PairStampTemplate[k]) {
    }
    assert a[..8] + "," + a[9..11] + "00" == "00:00:01,5000";
    assert b[..8] + "," + b[9..11] + "00" == "00:00:03,2000";
  }

  /** A file of one timing line, its text and a blank line gives exactly that record, numbered 1. */
  lemma SubripSingleBlock(lines: seq<string>)
    requires |lines| == 3 && SubripPair(Strip(lines[0]))
    ensures var line := Strip(lines[0]);
      && FullMatch(line[..11], PairStampTemplate) && |line[..11]| == 11
      && FullMatch(line[12..], PairStampTemplate) && |line[12..]| == 11
      && SubripFrom(lines, 0, Tally([], 0, 0)) ==
         Run(Tally([Record(1, SubripStamp(line[..11]), SubripStamp(line[12..]), BrToNewlines(Strip(lines[1])))], 1, 0), false)
  {
    SubripBlock(lines, 0, Tally([], 0, 0));
  }

  /**
    The file `00:00:01.50,00:00:03.20` / `Hi there` / blank gives one record
    from 00:00:01,5000 to 00:00:03,2000 with text "Hi there", numbered 1.
   */
  lemma SubripExample()
    ensures SubripFrom(["00:00:01.50,00:00:03.20\n", "Hi there\n", "\n"], 0, Tally([], 0, 0))
      == Run(Tally([Record(1, "00:00:01,5000", "00:00:03,2000", "Hi there")], 1, 0), false)
  {
    var lines := ["00:00:01.50,00:00:03.20\n", "Hi there\n", "\n"];
    ExampleTimingLine();
    ExampleTextLine();
    ExampleStamps();
    SubripSingleBlock(lines);
  }

  // ---------------------------------------------------------------------------
  // conv_txtsub (sub2txt.py:256-302)

  /**
    `stamp[1:-1]` followed by "000" when `re.match(r'\d\d\d$', ...)` matches
    it and by ",000" otherwise.
   */
  function TxtsubTime(stamp: string): string
    requires |stamp| >= 2
  {
    var inner := stamp[1..|stamp| - 1];
    if FullMatch(inner, "###") then inner + "000" else inner + ",000"
  }

  /**
    The "000" branch is never taken: the text inside the brackets starts
    with two digits and a colon, so `\d\d\d$` cannot match at its start.
   */
  lemma TxtsubTimeAppendsComma(stamp: string)
    requires TxtsubStamp(stamp)
    ensures TxtsubTime(stamp) == stamp[1..|stamp| - 1] + ",000"
  {
    var t := if FullMatch(stamp, "[##:##:##]") then "[##:##:##]"
      else if FullMatch(stamp, "[##:##:##.]") then "[##:##:##.]"
      else if FullMatch(stamp, "[##:##:#####]") then "[##:##:#####]"
      else "[##:##:##.###]";
    assert FitsAt(stamp, 0, t) && t[3] == ':';
    assert Fits(stamp[3], t[3]);
    assert stamp[1..|stamp| - 1][2] == stamp[3];
  }

  /** A stripped line of a TXTSUB file: a timestamp, read as its time, or anything else. */
  datatype TxtsubLine = Stamp(time: string) | Text(line: string)

  /** `line.strip()` and the timestamp test of sub2txt.py:264 and 274. */
  function ReadTxtsub(raw: string): TxtsubLine {
    var line := Strip(raw);
    if TxtsubStamp(line) then Stamp(TxtsubTime(line)) else Text(line)
  }

  /** How a line is read; conv_txtsub uses ReadTxtsub. */
  type TxtsubReader = string -> TxtsubLine

  /** Every line of the file, read. */
  function ReadLines(lines: seq<string>, read: TxtsubReader): (ls: seq<TxtsubLine>)
    ensures |ls| == |lines|
  {
    seq(|lines|, k requires 0 <= k < |lines| => read(lines[k]))
  }

  /**
    conv_txtsub from line i on, with tally t and the current start time: a
    timestamp sets the start; any other line is a text whose next line must
    be a timestamp, which ends a record (written only when the text is
    non-empty) and becomes the next start; otherwise the pair is rejected.
   */
  function TxtsubFrom(ls: seq<TxtsubLine>, i: nat, t: Tally, start: string): Run
    requires i <= |ls|
    decreases |ls| - i
  {
    if i == |ls| then Run(t, false)
    else match ls[i]
      case Stamp(time) => TxtsubFrom(ls, i + 1, t, time)
      case Text(line) =>
        if i + 1 == |ls| then Run(t, true)
        else match ls[i + 1]
          case Text(_) => TxtsubFrom(ls, i + 2, Reject(t), start)
          case Stamp(end) =>
            var t' := if line != [] then Emit(t, start, end, BrToNewlines(BarsToNewlines(line))) else t;
            TxtsubFrom(ls, i + 2, t', end)
  }

  /** conv_txtsub: the records and counters are those TxtsubFrom describes from the first line, with an empty start. */
  method ConvTxtsub(lines: seq<string>) returns (out: seq<Record>, converted: nat, failed: nat, stopped: bool)
    ensures Run(Tally(out, converted, failed), stopped) == TxtsubFrom(ReadLines(lines, ReadTxtsub), 0, Tally([], 0, 0), "")
  {
    out, converted, failed, stopped := TxtsubLoop(lines, ReadTxtsub);
  }

  /** The loop of conv_txtsub, with the reading of each line passed in. */
  method TxtsubLoop(lines: seq<string>, read: TxtsubReader) returns (out: seq<Record>, converted: nat, failed: nat, stopped: bool)
    ensures Run(Tally(out, converted, failed), stopped) == TxtsubFrom(ReadLines(lines, read), 0, Tally([], 0, 0), "")
  {
    ghost var ls := ReadLines(lines, read);
    out, converted, failed, stopped := [], 0, 0, false;
    var start := "";
    var i := 0;
    while i < |lines|
      invariant i <= |lines|
      invariant TxtsubFrom(ls, i, Tally(out, converted, failed), start) == TxtsubFrom(ls, 0, Tally([], 0, 0), "")
    {
      assert ls[i] == read(lines[i]);
      match read(lines[i]) {
        case Stamp(time) =>
          start := time;
          i := i + 1;
        case Text(text) =>
          if i + 1 == |lines| {
            stopped := true;
            return;
          }
          assert ls[i + 1] == read(lines[i + 1]);
          match read(lines[i + 1]) {
            case Stamp(end) =>
              if text != [] {
                converted := converted + 1;
                out := out + [Record(converted, start, end, BrToNewlines(BarsToNewlines(text)))];
              }
              start := end;
            case Text(_) =>
              if converted > 0 {
                failed := failed + 1;
              }
          }
          i := i + 2;
      }
    }
  }

  /** Every record's text is non-empty and holds no '|'. */
  predicate TxtsubTexts(t: Tally) {
    forall k :: 0 <= k < |t.out| ==> t.out[k].text != [] && '|' !in t.out[k].text
  }

  lemma EmitTxtsubTexts(t: Tally, start: string, end: string, line: string)
    requires TxtsubTexts(t) && line != []
    ensures TxtsubTexts(Emit(t, start, end, BrToNewlines(BarsToNewlines(line))))
  {
    var t' := Emit(t, start, end, BrToNewlines(BarsToNewlines(line)));
    forall k | 0 <= k < |t'.out| ensures t'.out[k].text != [] && '|' !in t'.out[k].text {
      if k < |t.out| {
        assert t'.out[k] == t.out[k];
      }
    }
  }

  /**
    What conv_txtsub guarantees from line i on: the counters stay in step
    with the numbered records, no pair fails before the first record, every
    record has a non-empty text without '|', and each record or failure
    uses two lines.
   */
  lemma {:induction false} TxtsubFromKeeps(ls: seq<TxtsubLine>, i: nat, t: Tally, start: string)
    requires i <= |ls| && Counted(t) && TxtsubTexts(t)
    ensures var r := TxtsubFrom(ls, i, t, start).tally;
      && Counted(r) && TxtsubTexts(r)
      && 2 * (r.converted + r.failed) <= 2 * (t.converted + t.failed) + (|ls| - i)
    decreases |ls| - i
  {
    if i < |ls| {
      match ls[i] {
        case Stamp(time) =>
          TxtsubFromKeeps(ls, i + 1, t, time);
        case Text(line) =>
          if i + 1 < |ls| {
            match ls[i + 1] {
              case Text(_) =>
                TxtsubFromKeeps(ls, i + 2, Reject(t), start);
              case Stamp(end) =>
                if line != [] {
                  var text := BrToNewlines(BarsToNewlines(line));
                  EmitCounted(t, start, end, text);
                  EmitTxtsubTexts(t, start, end, line);
                  TxtsubFromKeeps(ls, i + 2, Emit(t, start, end, text), end);
                } else {
                  TxtsubFromKeeps(ls, i + 2, t, end);
                }
            }
          }
      }
    }
  }

  /**
    The lines from i on that conv_txtsub reads without counting them once
    counting has begun: a timestamp read on its own, both lines of an
    empty text followed by a timestamp, and a text left without a next line.
   */
  function Uncounted(ls: seq<TxtsubLine>, i: nat): (n: nat)
    requires i <= |ls|
    ensures n <= |ls| - i
    decreases |ls| - i
  {
    if i == |ls| then 0
    else match ls[i]
      case Stamp(_) => 1 + Uncounted(ls, i + 1)
      case Text(line) =>
        if i + 1 == |ls| then 1
        else match ls[i + 1]
          case Text(_) => Uncounted(ls, i + 2)
          case Stamp(_) => (if line == [] then 2 else 0) + Uncounted(ls, i + 2)
  }

  /**
    Where conv_txtsub, reading from i on, meets the text line of its first
    record (a non-empty text followed by a timestamp), or the end of the
    file when it writes none.
   */
  function FirstRecord(ls: seq<TxtsubLine>, i: nat): (h: nat)
    requires i <= |ls|
    ensures i <= h <= |ls|
    ensures h < |ls| ==> h + 1 < |ls| && ls[h].Text? && ls[h].line != [] && ls[h + 1].Stamp?
    decreases |ls| - i
  {
    if i == |ls| then i
    else match ls[i]
      case Stamp(_) => FirstRecord(ls, i + 1)
      case Text(line) =>
        if i + 1 == |ls| then |ls|
        else match ls[i + 1]
          case Text(_) => FirstRecord(ls, i + 2)
          case Stamp(_) => if line != [] then i else FirstRecord(ls, i + 2)
  }

  /**
    conv_txtsub's exact line accounting from line i on: once a record has
    been written, every line is a line of a record's pair, of a failed pair,
    or uncounted; before the first record nothing is counted at all.
   */
  lemma {:induction false} TxtsubCounts(ls: seq<TxtsubLine>, i: nat, t: Tally, start: string)
    requires i <= |ls|
    ensures var r := TxtsubFrom(ls, i, t, start).tally;
      var h := if t.converted > 0 then i else FirstRecord(ls, i);
      2 * (r.converted + r.failed) + Uncounted(ls, h) == 2 * (t.converted + t.failed) + |ls| - h
    decreases |ls| - i
  {
    if i < |ls| {
      match ls[i] {
        case Stamp(time) =>
          TxtsubCounts(ls, i + 1, t, time);
        case Text(line) =>
          if i + 1 < |ls| {
            match ls[i + 1] {
              case Text(_) =>
                TxtsubCounts(ls, i + 2, Reject(t), start);
              case Stamp(end) =>
                if line != [] {
                  TxtsubCounts(ls, i + 2, Emit(t, start, end, BrToNewlines(BarsToNewlines(line))), end);
                } else {
                  TxtsubCounts(ls, i + 2, t, end);
                }
            }
          }
      }
    }
  }

  /**
    conv_txtsub on a whole file: the guarantees of TxtsubFromKeeps from an
    empty tally, and the exact accounting from the first record's text line h:
    `2 * (converted + failed)` plus the uncounted lines is `|lines| - h`.
   */
  lemma TxtsubOutput(lines: seq<string>)
    ensures var ls := ReadLines(lines, ReadTxtsub); var r := TxtsubFrom(ls, 0, Tally([], 0, 0), "").tally;
      && Counted(r) && TxtsubTexts(r)
      && 2 * (r.converted + r.failed) <= |lines|
      && 2 * (r.converted + r.failed) + Uncounted(ls, FirstRecord(ls, 0)) == |lines| - FirstRecord(ls, 0)
  {
    TxtsubFromKeeps(ReadLines(lines, ReadTxtsub), 0, Tally([], 0, 0), "");
    TxtsubCounts(ReadLines(lines, ReadTxtsub), 0, Tally([], 0, 0), "");
  }

  /**
    The time of the last timestamp before line j, or "" when there is none.
    It is the start conv_txtsub holds on reaching line j: every timestamp it
    reads, on its own or as the end of a pair, becomes the next start
    (sub2txt.py:275 and 294), and a rejected pair leaves the start alone.
   */
  function LatestStamp(ls: seq<TxtsubLine>, j: nat): string
    requires j <= |ls|
  {
    if j == 0 then "" else if ls[j - 1].Stamp? then ls[j - 1].time else LatestStamp(ls, j - 1)
  }

  /**
    Record r comes from the pair at line j: a non-empty text, then the
    timestamp that ends r; r starts at the last timestamp before the text.
   */
  predicate PairAt(ls: seq<TxtsubLine>, j: int, r: Record) {
    && 0 <= j && j + 1 < |ls|
    && ls[j].Text? && ls[j].line != [] && ls[j + 1] == Stamp(r.end)
    && r.start == LatestStamp(ls, j)
    && r.text == BrToNewlines(BarsToNewlines(ls[j].line))
  }

  /**
    Record k comes from the pair at line `pos[k]`, and the pairs are met in
    file order, each after the one before it.
   */
  predicate FromPairs(ls: seq<TxtsubLine>, out: seq<Record>, pos: seq<int>) {
    && |pos| == |out|
    && (forall k :: 0 <= k < |out| ==> PairAt(ls, pos[k], out[k]))
    && (forall k :: 0 < k < |pos| ==> pos[k - 1] + 2 <= pos[k])
  }

  lemma FromPairsEmit(ls: seq<TxtsubLine>, out: seq<Record>, pos: seq<int>, j: int, r: Record)
    requires FromPairs(ls, out, pos) && PairAt(ls, j, r)
    requires forall k :: 0 <= k < |pos| ==> pos[k] + 2 <= j
    ensures FromPairs(ls, out + [r], pos + [j])
  {
    var out', pos' := out + [r], pos + [j];
    forall k | 0 <= k < |out'| ensures PairAt(ls, pos'[k], out'[k]) {
      if k < |out| {
        assert out'[k] == out[k] && pos'[k] == pos[k];
      }
    }
  }

  lemma {:induction false} TxtsubStartsFrom(ls: seq<TxtsubLine>, i: nat, t: Tally, start: string, pos: seq<int>)
    returns (pos': seq<int>)
    requires i <= |ls| && start == LatestStamp(ls, i) && FromPairs(ls, t.out, pos)
    requires forall k :: 0 <= k < |pos| ==> pos[k] + 2 <= i
    ensures FromPairs(ls, TxtsubFrom(ls, i, t, start).tally.out, pos')
    decreases |ls| - i
  {
    pos' := pos;
    if i < |ls| {
      match ls[i] {
        case Stamp(time) =>
          pos' := TxtsubStartsFrom(ls, i + 1, t, time, pos);
        case Text(line) =>
          if i + 1 < |ls| {
            match ls[i + 1] {
              case Text(_) =>
                pos' := TxtsubStartsFrom(ls, i + 2, Reject(t), start, pos);
              case Stamp(end) =>
                if line != [] {
                  var r := Record(t.converted + 1, start, end, BrToNewlines(BarsToNewlines(line)));
                  FromPairsEmit(ls, t.out, pos, i, r);
                  pos' := TxtsubStartsFrom(ls, i + 2, Emit(t, start, end, r.text), end, pos + [i]);
                } else {
                  pos' := TxtsubStartsFrom(ls, i + 2, t, end, pos);
                }
            }
          }
      }
    }
  }

  /**
    On any TXTSUB file, the records conv_txtsub writes come, in order, from
    pairs of the file: record k from a non-empty text at line `pos[k]`
    followed by the timestamp that ends it, starting at the last timestamp
    before that text. So `start_time = end_time` runs after every
    text-then-timestamp pair, the ones with an empty text included.
   */
  lemma TxtsubStarts(ls: seq<TxtsubLine>) returns (pos: seq<int>)
    ensures FromPairs(ls, TxtsubFrom(ls, 0, Tally([], 0, 0), "").tally.out, pos)
  {
    pos := TxtsubStartsFrom(ls, 0, Tally([], 0, 0), "", []);
  }

  /**
    A pair with an empty text writes nothing but still moves the start on:
    in `[00:00:01]`, an empty line, `[00:00:02]`, `Hi`, `[00:00:03]` the one record
    runs from 00:00:02 to 00:00:03.
   */
  lemma TxtsubEmptyPairExample()
    ensures var ls := [Stamp("00:00:01,000"), Text(""), Stamp("00:00:02,000"), Text("Hi"), Stamp("00:00:03,000")];
      TxtsubFrom(ls, 0, Tally([], 0, 0), "").tally.out == [Record(1, "00:00:02,000", "00:00:03,000", "Hi")]
  {
    SplitNoSep("Hi", '|');
    assert BarsToNewlines("Hi") == "Hi";
    assert BrToNewlines("Hi") == "Hi";
  }

  /**
    A file that alternates timestamps and non-empty texts, starting and
    ending with a timestamp.
   */
  predicate Alternating(ls: seq<TxtsubLine>) {
    && |ls| % 2 == 1
    && (forall j :: 0 <= j < |ls| && j % 2 == 0 ==> ls[j].Stamp?)
    && (forall j :: 0 <= j < |ls| && j % 2 == 1 ==> ls[j].Text? && ls[j].line != [])
  }

  /** Record k runs from the k-th timestamp to the next one. */
  predicate Chained(ls: seq<TxtsubLine>, out: seq<Record>)
    requires Alternating(ls) && 2 * |out| < |ls|
  {
    forall k :: 0 <= k < |out| ==> out[k].start == ls[2 * k].time && out[k].end == ls[2 * k + 2].time
  }

  lemma ChainedEmit(ls: seq<TxtsubLine>, out: seq<Record>, out': seq<Record>)
    requires Alternating(ls) && 2 * |out'| < |ls| && |out'| == |out| + 1
    requires Chained(ls, out) && out'[..|out|] == out
    requires out'[|out|].start == ls[2 * |out|].time && out'[|out|].end == ls[2 * |out| + 2].time
    ensures Chained(ls, out')
  {
    forall k | 0 <= k < |out'| ensures out'[k].start == ls[2 * k].time && out'[k].end == ls[2 * k + 2].time {
      if k < |out| {
        assert out'[k] == out[k];
      }
    }
  }

  lemma {:induction false} TxtsubChainFrom(ls: seq<TxtsubLine>, i: nat, t: Tally, start: string)
    requires Alternating(ls) && i % 2 == 1 && i <= |ls|
    requires start == ls[i - 1].time
    requires 2 * |t.out| == i - 1 && Chained(ls, t.out)
    ensures var r := TxtsubFrom(ls, i, t, start);
      && !r.stopped && 2 * |r.tally.out| == |ls| - 1 && Chained(ls, r.tally.out)
    decreases |ls| - i
  {
    if i < |ls| {
      assert i + 1 < |ls| && ls[i].Text? && ls[i + 1].Stamp?;
      var end := ls[i + 1].time;
      var t' := Emit(t, start, end, BrToNewlines(BarsToNewlines(ls[i].line)));
      ChainedEmit(ls, t.out, t'.out);
      TxtsubChainFrom(ls, i + 2, t', end);
    }
  }

  /**
    On an alternating file conv_txtsub writes one record per text, each
    running from the timestamp before its text to the one after, so every
    record starts where the previous one ended.
   */
  lemma TxtsubChains(ls: seq<TxtsubLine>)
    requires Alternating(ls)
    ensures var r := TxtsubFrom(ls, 0, Tally([], 0, 0), "");
      && !r.stopped && 2 * |r.tally.out| == |ls| - 1
      && Chained(ls, r.tally.out)
      && forall k :: 0 <= k < |r.tally.out| - 1 ==> r.tally.out[k + 1].start == r.tally.out[k].end
  {
    TxtsubChainFrom(ls, 1, Tally([], 0, 0), ls[0].time);
  }
}
