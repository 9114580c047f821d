/**
  The one-line-per-subtitle converters of sub2txt.py: conv_microdvd,
  conv_mpl2 and conv_tmp. Each strips every line, converts the ones its
  pattern matches into a numbered record and counts every other line as
  failed.
 */
module SingleLine {
  import opened Wrappers
  import opened Strings
  import opened Patterns
  import opened TimeCodec
  import opened Emitter

  /** A subtitle before it is numbered: start, end and text as write_srt receives them. */
  datatype Cue = Cue(start: string, end: string, text: string)

  /** The cues of the lines that converted, in order. */
  function Present(cs: seq<Option<Cue>>): (r: seq<Cue>)
    ensures |r| <= |cs|
  {
    if cs == [] then []
    else Present(cs[..|cs| - 1]) + (if cs[|cs| - 1].Some? then [cs[|cs| - 1].value] else [])
  }

  /** Every converted line gives a cue of the output, and nothing else does; all convert exactly when none fails. */
  lemma {:induction false} PresentMembers(cs: seq<Option<Cue>>)
    ensures forall c :: c in Present(cs) <==> Some(c) in cs
    ensures |Present(cs)| == |cs| <==> forall k :: 0 <= k < |cs| ==> cs[k].Some?
  {
    if cs != [] {
      var init := cs[..|cs| - 1];
      PresentMembers(init);
      assert cs == init + [cs[|cs| - 1]];
      if |Present(cs)| == |cs| {
        assert |Present(init)| == |init|;
      }
    }
  }

  /** The records write_srt receives: the cues in order, numbered on from 1. */
  function Numbered(cues: seq<Cue>): (rs: seq<Record>)
    ensures |rs| == |cues|
  {
    if cues == [] then []
    else
      var c := cues[|cues| - 1];
      Numbered(cues[..|cues| - 1]) + [Record(|cues|, c.start, c.end, c.text)]
  }

  /** The numbers run 1..n with no gap, and each record carries its cue unchanged. */
  lemma {:induction false} NumberedNumbers(cues: seq<Cue>)
    ensures forall k :: 0 <= k < |cues| ==>
      Numbered(cues)[k] == Record(k + 1, cues[k].start, cues[k].end, cues[k].text)
  {
    if cues != [] {
      NumberedNumbers(cues[..|cues| - 1]);
    }
  }

  /** One more line: a cue is numbered after the ones before it, a failed line adds nothing. */
  lemma NumberedStep(cs: seq<Option<Cue>>, c: Option<Cue>)
    ensures var before := Numbered(Present(cs));
      Numbered(Present(cs + [c])) == if c.Some? then before + [Record(|before| + 1, c.value.start, c.value.end, c.value.text)] else before
  {
    assert (cs + [c])[..|cs|] == cs;
    if c.Some? {
      var p := Present(cs) + [c.value];
      assert p[..|p| - 1] == Present(cs);
    } else {
      assert Present(cs) + [] == Present(cs);
    }
  }

  // ---------------------------------------------------------------------------
  // The loop the three converters share

  /** A per-line conversion: the cue of a stripped line, or None when its pattern does not match. */
  type LineConverter = string -> Option<Cue>

  /** The outcome of every line, stripped, in order. */
  function Outcomes(lines: seq<string>, convert: LineConverter): (cs: seq<Option<Cue>>)
    ensures |cs| == |lines|
  {
    if lines == [] then [] else Outcomes(lines[..|lines| - 1], convert) + [convert(Strip(lines[|lines| - 1]))]
  }

  /**
    The output file grows one line at a time: a line that converts appends
    exactly its block, numbered after the others, and a failed line appends
    nothing.
   */
  lemma DocumentGrows(lines: seq<string>, line: string, convert: LineConverter)
    ensures var before := Numbered(Present(Outcomes(lines, convert))); var c := convert(Strip(line));
      Document(Numbered(Present(Outcomes(lines + [line], convert)))) ==
        Document(before) + (if c.Some? then WriteSrt(Record(|before| + 1, c.value.start, c.value.end, c.value.text)) else [])
  {
    var cs := Outcomes(lines, convert);
    var c := convert(Strip(line));
    assert (lines + [line])[..|lines|] == lines;
    assert Outcomes(lines + [line], convert) == cs + [c];
    NumberedStep(cs, c);
    var before := Numbered(Present(cs));
    if c.Some? {
      var rec := Record(|before| + 1, c.value.start, c.value.end, c.value.text);
      DocumentAppend(before, [rec]);
      assert [rec][..0] == [];
    } else {
      assert Document(before) + [] == Document(before);
    }
  }

  /**
    The `for line in infile` loop of conv_microdvd, conv_mpl2 and conv_tmp:
    a matching line is numbered with the incremented `converted` and
    written, any other line increments `failed`. The records are the cues
    of the matching lines in order, numbered 1..converted with no gap, and
    `converted + failed` is the number of lines.
   */
  method ConvertLines(lines: seq<string>, convert: LineConverter) returns (out: seq<Record>, converted: nat, failed: nat)
    ensures out == Numbered(Present(Outcomes(lines, convert)))
    ensures converted == |out| && converted + failed == |lines|
    ensures forall k :: 0 <= k < |out| ==> out[k].nr == k + 1
  {
    out, converted, failed := [], 0, 0;
    var i := 0;
    while i < |lines|
      invariant i <= |lines|
      invariant out == Numbered(Present(Outcomes(lines[..i], convert)))
      invariant converted == |out| && converted + failed == i
    {
      var line := Strip(lines[i]);
      var cue := convert(line);
      assert lines[..i + 1][..i] == lines[..i];
      NumberedStep(Outcomes(lines[..i], convert), cue);
      match cue {
        case Some(c) =>
          converted := converted + 1;
          out := out + [Record(converted, c.start, c.end, c.text)];
        case None =>
          failed := failed + 1;
      }
      i := i + 1;
    }
    assert lines[..i] == lines;
    NumberedNumbers(Present(Outcomes(lines, convert)));
  }

  // ---------------------------------------------------------------------------
  // How the converted times read back

  /**
    `text.replace("|", "\n")`: no bar is left, and when the text had no line
    break of its own the lines of the result are its '|'-separated pieces.
   */
  function BarsToNewlines(text: string): (r: string)
    ensures '|' !in r
    ensures '\n' !in text ==> Split(r, '\n') == Split(text, '|')
  {
    ReplaceCharRemoves(text, '|', "\n");
    if '\n' !in text then
      ReplaceThenSplit(text, "|", '\n');
      SplitOnChar(text, '|');
      Replace(text, "|", "\n")
    else Replace(text, "|", "\n")
  }

  // ---------------------------------------------------------------------------
  // conv_microdvd (sub2txt.py:226-254)

  /**
    One stripped MicroDVD line: both frame numbers through frames_2_time and
    the text with '|' turned into line breaks. The fields are the capture
    groups of the corrected pattern `^\{(\d+)\}\{(\d+)\}(.+)$`; the pattern
    at sub2txt.py:232-233 captures only the text, which AsWritten models.
   */
  function MicroDvdCue(line: string, fps: Fps): (c: Option<Cue>)
    ensures c.Some? <==> ParseMicroDvd(line).Some?
    ensures c.Some? ==> var f := ParseMicroDvd(line).value;
      && ReadsAsFields(c.value.start, FramesToFields(Value(f.first), fps))
      && ReadsAsFields(c.value.end, FramesToFields(Value(f.second), fps))
      && Split(c.value.text, '\n') == Split(f.text, '|')
  {
    match ParseMicroDvd(line)
    case None => None
    case Some(f) =>
      FramesToTimeDecodes(Value(f.first), fps);
      FramesToTimeDecodes(Value(f.second), fps);
      Some(Cue(FramesToTime(Value(f.first), fps), FramesToTime(Value(f.second), fps), BarsToNewlines(f.text)))
  }

  /** conv_microdvd at a whole number of frames per second. */
  method ConvMicroDvd(lines: seq<string>, fps: Fps) returns (out: seq<Record>, converted: nat, failed: nat)
    ensures out == Numbered(Present(Outcomes(lines, line => MicroDvdCue(line, fps))))
    ensures converted == |out| && converted + failed == |lines|
  {
    out, converted, failed := ConvertLines(lines, line => MicroDvdCue(line, fps));
  }

  // ---------------------------------------------------------------------------
  // conv_mpl2 (sub2txt.py:304-332)

  /**
    One stripped MPL2 line: both times are deciseconds, `int(n / 10)` whole
    seconds through seconds_2_time, and the text has '|' turned into line
    breaks. The fields are the capture groups of `^\[(\d+)\]\[(\d+)\](.+)$`
    (the split on "][" that sub2txt.py:311-313 performs instead is modelled
    in AsWritten).
   */
  function Mpl2Cue(line: string): (c: Option<Cue>)
    ensures c.Some? <==> ParseMpl2(line).Some?
    ensures c.Some? ==> var f := ParseMpl2(line).value;
      && ReadsAsSeconds(c.value.start, Value(f.first) / 10)
      && ReadsAsSeconds(c.value.end, Value(f.second) / 10)
      && Split(c.value.text, '\n') == Split(f.text, '|')
  {
    match ParseMpl2(line)
    case None => None
    case Some(f) =>
      SecondsToTimeDecodes(Value(f.first) / 10);
      SecondsToTimeDecodes(Value(f.second) / 10);
      Some(Cue(SecondsToTime(Value(f.first) / 10), SecondsToTime(Value(f.second) / 10), BarsToNewlines(f.text)))
  }

  /** conv_mpl2. */
  method ConvMpl2(lines: seq<string>) returns (out: seq<Record>, converted: nat, failed: nat)
    ensures out == Numbered(Present(Outcomes(lines, Mpl2Cue)))
    ensures converted == |out| && converted + failed == |lines|
  {
    out, converted, failed := ConvertLines(lines, Mpl2Cue);
  }

  // ---------------------------------------------------------------------------
  // conv_tmp (sub2txt.py:334-365)

  /** The seconds `hh * 3600 + mm * 60 + ss` of a TMP line's three leading fields. */
  function TmpStartSeconds(f: TmpFields): nat
    requires AllDigits(f.hours) && AllDigits(f.minutes) && AllDigits(f.seconds)
  {
    Value(f.hours) * 3600 + Value(f.minutes) * 60 + Value(f.seconds)
  }

  /**
    The end-time estimate conv_tmp uses: whole seconds from the start in
    seconds and the length of the text.
   */
  type Estimator = (nat, nat) -> nat

  /**
    The three time groups of a TMP line, one or two digits each, are the
    first three pieces of its `split(":")`.
   */
  predicate TmpGroups(f: TmpFields, parts: seq<string>) {
    && 1 <= |f.hours| <= 2 && 1 <= |f.minutes| <= 2 && 1 <= |f.seconds| <= 2
    && TmpPieces(parts)
    && parts[0] == f.hours && parts[1] == f.minutes && parts[2] == f.seconds
  }

  /** What `map(int, line.split(":")[:3])` needs: at least four pieces, the first three digits. */
  predicate TmpPieces(parts: seq<string>) {
    |parts| >= 4 && AllDigits(parts[0]) && AllDigits(parts[1]) && AllDigits(parts[2])
  }

  /**
    One stripped TMP line: a cue exactly when the line matches the TMP
    pattern, and then the cue built from the pieces of `line.split(":")`,
    whose first three are the pattern's time groups.
   */
  function TmpCue(line: string, estimate: Estimator): (c: Option<Cue>)
    ensures c.Some? <==> ParseTmp(line).Some?
    ensures c.Some? ==> TmpGroups(ParseTmp(line).value, Split(line, ':'))
    ensures c.Some? ==> c.value == TmpCueOf(Split(line, ':'), estimate)
  {
    if ParseTmp(line).None? then None
    else
      TmpSplitFields(line);
      Some(TmpCueOf(Split(line, ':'), estimate))
  }

  /**
    The cue built from the pieces of `line.split(":")`: the text is the last
    piece, the start is the first three pieces zero-padded with ",000"
    appended, and the end is seconds_2_time of the estimate for the start
    and the length of the text, without milliseconds. The lines of the text
    are the '|'-separated parts of the last piece.
   */
  function TmpCueOf(parts: seq<string>, estimate: Estimator): (c: Cue)
    requires TmpPieces(parts)
    ensures '|' !in c.text
    ensures '\n' !in parts[|parts| - 1] ==> Split(c.text, '\n') == Split(parts[|parts| - 1], '|')
  {
    var text := parts[|parts| - 1];
    var hh, mm, ss := Value(parts[0]), Value(parts[1]), Value(parts[2]);
    var start := Colons(ZeroPad(hh, 2), ZeroPad(mm, 2), ZeroPad(ss, 2)) + ",000";
    Cue(start, SecondsToTime(estimate(hh * 3600 + mm * 60 + ss, |text|)), BarsToNewlines(text))
  }

  /**
    The start of a TMP cue reads back as its three time groups: it splits on
    ':' into three pieces, the first two exactly two digits, the third two
    digits followed by ",000", holding the values of the hours, minutes and
    seconds groups.
   */
  lemma TmpCueStart(f: TmpFields, parts: seq<string>, estimate: Estimator)
    requires TmpGroups(f, parts)
    ensures var p := Split(TmpCueOf(parts, estimate).start, ':');
      && |p| == 3 && |p[0]| == 2 && |p[1]| == 2 && |p[2]| == 6
      && AllDigits(p[0]) && AllDigits(p[1]) && AllDigits(p[2][..2]) && p[2][2..] == ",000"
      && Value(p[0]) == Value(f.hours) && Value(p[1]) == Value(f.minutes) && Value(p[2][..2]) == Value(f.seconds)
  {
    TwoDigitValue(f.hours);
    TwoDigitValue(f.minutes);
    TwoDigitValue(f.seconds);
    var h, m, c := ZeroPad(Value(f.hours), 2), ZeroPad(Value(f.minutes), 2), ZeroPad(Value(f.seconds), 2);
    ZeroPadValue(Value(f.hours), 2);
    ZeroPadValue(Value(f.minutes), 2);
    ZeroPadValue(Value(f.seconds), 2);
    TwoDigitsThenMillis(h, m, c);
  }

  /** Two-digit fields joined by colons, then ",000", split back into the fields. */
  lemma TwoDigitsThenMillis(h: string, m: string, c: string)
    requires AllDigits(h) && AllDigits(m) && AllDigits(c) && |h| == 2 && |m| == 2 && |c| == 2
    ensures var p := Split(Colons(h, m, c) + ",000", ':');
      |p| == 3 && p[0] == h && p[1] == m && p[2] == c + ",000" && p[2][..2] == c && p[2][2..] == ",000"
  {
    DigitsHaveNoColon(h);
    DigitsHaveNoColon(m);
    DigitsHaveNoColon(c);
    assert Colons(h, m, c) + ",000" == Colons(h, m, c + ",000");
    assert ':' !in c + ",000" by {
      assert forall k :: 0 <= k < 2 ==> (c + ",000")[k] == c[k];
    }
    SplitColons(h, m, c + ",000");
  }

  /**
    The end of a TMP cue reads back as the estimate for the start in seconds
    and the length of the text.
   */
  lemma TmpCueEnd(f: TmpFields, parts: seq<string>, estimate: Estimator)
    requires TmpGroups(f, parts)
    ensures ReadsAsSeconds(TmpCueOf(parts, estimate).end, estimate(TmpStartSeconds(f), |parts[|parts| - 1]|))
  {
    var n := estimate(TmpStartSeconds(f), |parts[|parts| - 1]|);
    assert TmpCueOf(parts, estimate).end == SecondsToTime(n);
    SecondsToTimeDecodes(n);
  }

  /**
    With get_tmp_endtime as the estimate, a TMP subtitle never ends before
    it starts: its end reads as at least the start's `hh * 3600 + mm * 60 + ss`.
   */
  lemma TmpEndNotBeforeStart(f: TmpFields, parts: seq<string>)
    requires TmpGroups(f, parts)
    ensures exists n: nat :: n >= TmpStartSeconds(f) && ReadsAsSeconds(TmpCueOf(parts, TmpEndSeconds).end, n)
  {
    TwoDigitValue(f.hours);
    TwoDigitValue(f.minutes);
    TwoDigitValue(f.seconds);
    TmpEndAfterStart(TmpStartSeconds(f), |parts[|parts| - 1]|);
    TmpCueEnd(f, parts, TmpEndSeconds);
  }

  /**
    The TMP line `0:0:5:Hello` gives the cue starting at `00:00:05,000`,
    ending at the estimate for five seconds and five characters, eleven
    whole seconds, with the text unchanged.
   */
  lemma TmpExample()
    ensures TmpCue("0:0:5:Hello", TmpEndSeconds) == Some(Cue("00:00:05,000", "00:00:11", "Hello"))
  {
    ExampleParses();
    ExamplePieces();
    ExampleCue();
  }

  lemma ExampleCue()
    ensures TmpPieces(["0", "0", "5", "Hello"])
    ensures TmpCueOf(["0", "0", "5", "Hello"], TmpEndSeconds) == Cue("00:00:05,000", "00:00:11", "Hello")
  {
    var parts := ["0", "0", "5", "Hello"];
    ExampleValue();
    assert TmpPieces(parts);
    var c := TmpCueOf(parts, TmpEndSeconds);
    ExampleStart();
    assert c.start == "00:00:05,000";
    ExampleEndSeconds();
    ExampleEnd();
    assert c.end == "00:00:11";
    ExampleText();
    assert c.text == "Hello";
  }

  lemma ExampleParses()
    ensures ParseTmp("0:0:5:Hello").Some?
  {
    assert "0:0:5:Hello" == "0" + ":" + "0" + ":" + "5" + ":" + "Hello";
    assert AllDigits("0") && AllDigits("5");
    ParseTmpComplete("0", "0", "5", "Hello");
  }

  lemma ExamplePieces()
    ensures Split("0:0:5:Hello", ':') == ["0", "0", "5", "Hello"]
  {
    assert "0:0:5:Hello" == "0" + [':'] + ("0" + [':'] + ("5" + [':'] + "Hello"));
    SplitThree("0", "0", "5", "Hello");
    SplitNoSep("Hello", ':');
  }

  lemma ExampleValue()
    ensures AllDigits("0") && AllDigits("5") && Value("0") == 0 && Value("5") == 5
  {
    assert Value("0") == 0 && Value("5") == 5;
  }

  lemma ExampleStart()
    ensures Colons(ZeroPad(0, 2), ZeroPad(0, 2), ZeroPad(5, 2)) + ",000" == "00:00:05,000"
  {
    ExamplePad(0);
    ExamplePad(5);
  }

  lemma ExamplePad(n: nat)
    requires n < 10
    ensures ZeroPad(n, 2) == ['0', DigitChar(n)]
  {
    assert Decimal(n) == [DigitChar(n)];
    assert Zeros(1) == "0";
  }

  lemma ExampleEnd()
    ensures SecondsToTime(11) == "00:00:11"
  {
    assert SecondsToClock(11) == Clock(0, 0, 11);
    ExamplePad(0);
    assert Decimal(11) == "11" by {
      assert Decimal(1) == "1";
    }
  }

  lemma ExampleText()
    ensures BarsToNewlines("Hello") == "Hello"
  {
    SplitNoSep("Hello", '|');
  }

  /** get_tmp_endtime(5, 5) is 5 + 9979/1587, about 11.29 seconds. */
  lemma ExampleEndSeconds()
    ensures TmpEndSeconds(5, 5) == 11
  {
    assert TmpDuration(5) == 9979.0 / 1587.0;
    assert GetTmpEndtime(5, 5) == 17914.0 / 1587.0;
  }

  /** conv_tmp. */
  method ConvTmp(lines: seq<string>) returns (out: seq<Record>, converted: nat, failed: nat)
    ensures out == Numbered(Present(Outcomes(lines, line => TmpCue(line, TmpEndSeconds))))
    ensures converted == |out| && converted + failed == |lines|
  {
    out, converted, failed := ConvertLines(lines, line => TmpCue(line, TmpEndSeconds));
  }
}
