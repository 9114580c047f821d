/**
  The format sniffer of sub2txt.py (detect_format): ordered tests on the
  first three or four lines of the decoded file.
 */
module Sniffer {
  import opened Wrappers
  import opened Strings
  import opened Patterns

  /** The tags detect_format returns: "microdvd", "mpl2", "tmp", "subrip", "txtsub", "srt". */
  datatype Format = MicroDvd | Mpl2 | Tmp | SubRip | TxtSub | Srt

  /**
    The outcome of detect_format: a format, None, or the IndexError raised
    by `lines[3]` when a three-line file passes the first three SubRip tests.
   */
  datatype Detection = Detected(format: Format) | Undetected | Raised(error: Error)

  /** detect_format on the lines of the file as `readlines()` returns them. */
  function DetectFormat(lines: seq<string>): (d: Detection)
    ensures |lines| < 3 ==> d == Undetected
  {
    if |lines| < 3 then Undetected
    else
      var l1, l2, l3 := Strip(lines[0]), Strip(lines[1]), Strip(lines[2]);
      if ParseMicroDvd(l1).Some? && ParseMicroDvd(l2).Some? then Detected(MicroDvd)
      else if ParseMpl2(l1).Some? && ParseMpl2(l2).Some? then Detected(Mpl2)
      else if ParseTmp(l1).Some? && ParseTmp(l2).Some? then Detected(Tmp)
      else if SubripPair(l1) && NonBlankLine(l2) && Blank(l3) && |lines| == 3 then Raised(IndexError)
      else if SubripPair(l1) && NonBlankLine(l2) && Blank(l3) && SubripPair(lines[3]) then Detected(SubRip)
      else if TxtsubStampShape(l1) && l2 != [] && TxtsubStampShape(l3) then Detected(TxtSub)
      else if SrtTiming(l1) then Detected(Srt)
      else Undetected
  }

  /** What the first (stripped) line must look like for each format. */
  predicate Shape(f: Format, l1: string) {
    match f
    case MicroDvd => ParseMicroDvd(l1).Some?
    case Mpl2 => ParseMpl2(l1).Some?
    case Tmp => ParseTmp(l1).Some?
    case SubRip => SubripPair(l1)
    case TxtSub => TxtsubStampShape(l1)
    case Srt => SrtTiming(l1)
  }

  /** The whole condition for each format, read on its own, independent of test order. */
  predicate Rule(f: Format, lines: seq<string>)
    requires |lines| >= 3
  {
    var l1, l2, l3 := Strip(lines[0]), Strip(lines[1]), Strip(lines[2]);
    match f
    case MicroDvd => ParseMicroDvd(l1).Some? && ParseMicroDvd(l2).Some?
    case Mpl2 => ParseMpl2(l1).Some? && ParseMpl2(l2).Some?
    case Tmp => ParseTmp(l1).Some? && ParseTmp(l2).Some?
    case SubRip => SubripPair(l1) && NonBlankLine(l2) && Blank(l3) && |lines| >= 4 && SubripPair(lines[3])
    case TxtSub => TxtsubStampShape(l1) && l2 != [] && TxtsubStampShape(l3)
    case Srt => SrtTiming(l1)
  }

  lemma RuleHasShape(f: Format, lines: seq<string>)
    requires |lines| >= 3 && Rule(f, lines)
    ensures Shape(f, Strip(lines[0]))
  {
  }

  // ---------------------------------------------------------------------------
  // The first-line shapes are pairwise exclusive.

  lemma TemplateAt(s: string, t: string, k: nat)
    requires FitsAt(s, 0, t) && k < |t|
    ensures Fits(s[k], t[k])
  {
  }

  /** An MPL2 opening `[digits]` is never the opening `[dd:` of a TXTSUB stamp. */
  lemma Mpl2NotTxtsub(s: string)
    requires TxtsubStampShape(s)
    ensures ParseMpl2(s).None?
  {
    var t := if FullMatch(s, "[##:##:##]") then "[##:##:##]" else "[##:##:##.###]";
    TemplateAt(s, t, 1);
    TemplateAt(s, t, 2);
    TemplateAt(s, t, 3);
    RunOfDigits(s, 1, s[1..3]);
  }

  /** A TMP line has a colon after its third field, where the timing lines have '.' or ','. */
  lemma TmpNotClock(s: string)
    requires FitsAt(s, 0, "##:##:##") && 8 < |s| && (s[8] == '.' || s[8] == ',')
    ensures ParseTmp(s).None?
  {
    var t := "##:##:##";
    forall k | 0 <= k < 8 ensures Fits(s[k], t[k]) {
      TemplateAt(s, t, k);
    }
  }

  lemma PairHasClock(s: string)
    requires SubripPair(s)
    ensures FitsAt(s, 0, "##:##:##") && 8 < |s| && s[8] == '.'
  {
    var t := SubripPairTemplate;
    forall k | 0 <= k < 9 ensures Fits(s[k], t[k]) {
      TemplateAt(s, t, k);
    }
  }

  lemma SrtHasClock(s: string)
    requires SrtTiming(s)
    ensures FitsAt(s, 0, "##:##:##") && 8 < |s| && s[8] == ','
  {
    var t := SrtTimingTemplate;
    forall k | 0 <= k < 9 ensures Fits(s[k], t[k]) {
      TemplateAt(s, t, k);
    }
  }

  lemma FirstChar(s: string, t: string)
    requires FitsAt(s, 0, t) && |t| > 0
    ensures Fits(s[0], t[0])
  {
  }

  /** No first line has the shape of two formats. */
  lemma ShapesExclusive(f: Format, g: Format, l1: string)
    requires Shape(f, l1) && Shape(g, l1)
    ensures f == g
  {
    if f != g {
      ShapeFirstChar(f, l1);
      ShapeFirstChar(g, l1);
      if {f, g} == {Mpl2, TxtSub} {
        Mpl2NotTxtsub(l1);
      } else if {f, g} == {Tmp, SubRip} {
        PairHasClock(l1);
        TmpNotClock(l1);
      } else if {f, g} == {Tmp, Srt} {
        SrtHasClock(l1);
        TmpNotClock(l1);
      } else if {f, g} == {SubRip, Srt} {
        PairHasClock(l1);
        SrtHasClock(l1);
      }
    }
  }

  /** The first character a line of each shape starts with. */
  lemma ShapeFirstChar(f: Format, l1: string)
    requires Shape(f, l1)
    ensures l1 != []
    ensures f == MicroDvd ==> l1[0] == '{'
    ensures f in {Mpl2, TxtSub} ==> l1[0] == '['
    ensures f in {Tmp, SubRip, Srt} ==> IsDigit(l1[0])
  {
    match f
    case SubRip => FirstChar(l1, SubripPairTemplate);
    case Srt => FirstChar(l1, SrtTimingTemplate);
    case TxtSub =>
      if FullMatch(l1, "[##:##:##]") { FirstChar(l1, "[##:##:##]"); }
      else { FirstChar(l1, "[##:##:##.###]"); }
    case _ =>
  }

  // ---------------------------------------------------------------------------
  // What detect_format decides

  /** Whatever detect_format names, that format's whole condition holds. */
  lemma DetectFormatSound(lines: seq<string>, f: Format)
    requires DetectFormat(lines) == Detected(f)
    ensures |lines| >= 3 && Rule(f, lines)
  {
  }

  /**
    The order of the tests never decides anything: when a format's whole
    condition holds, detect_format names that format, because no first line
    can satisfy two of them.
   */
  lemma DetectFormatComplete(lines: seq<string>, f: Format)
    requires |lines| >= 3 && Rule(f, lines)
    ensures DetectFormat(lines) == Detected(f)
  {
    var l1 := Strip(lines[0]);
    RuleHasShape(f, lines);
    NotShape(f, MicroDvd, l1);
    NotShape(f, Mpl2, l1);
    NotShape(f, Tmp, l1);
    NotShape(f, SubRip, l1);
    NotShape(f, TxtSub, l1);
  }

  /** A line of one shape has no other shape. */
  lemma NotShape(f: Format, g: Format, l1: string)
    requires Shape(f, l1)
    ensures g != f ==> !Shape(g, l1)
  {
    if g != f && Shape(g, l1) {
      ShapesExclusive(f, g, l1);
    }
  }

  /** detect_format raises IndexError only on a three-line file whose first three lines pass the SubRip tests. */
  lemma DetectIndexError(lines: seq<string>)
    ensures DetectFormat(lines) == Raised(IndexError) <==>
      |lines| == 3 && SubripPair(Strip(lines[0])) && NonBlankLine(Strip(lines[1])) && Blank(Strip(lines[2]))
  {
    if |lines| == 3 && SubripPair(Strip(lines[0])) {
      var l1 := Strip(lines[0]);
      assert Shape(SubRip, l1);
      NotShape(SubRip, MicroDvd, l1);
      NotShape(SubRip, Mpl2, l1);
      NotShape(SubRip, Tmp, l1);
    }
  }

  /** Two MicroDVD lines at the top give "microdvd", whatever follows them. */
  lemma MicroDvdWinsWhateverFollows(l1: string, l2: string, rest: seq<string>)
    requires ParseMicroDvd(Strip(l1)).Some? && ParseMicroDvd(Strip(l2)).Some? && |rest| >= 1
    ensures DetectFormat([l1, l2] + rest) == Detected(MicroDvd)
  {
  }

  /** A SubRip timing first line is enough for "srt": the other lines are not looked at. */
  lemma SrtNeedsOnlyLineOne(lines: seq<string>)
    requires |lines| >= 3 && SrtTiming(Strip(lines[0]))
    ensures DetectFormat(lines) == Detected(Srt)
  {
    DetectFormatComplete(lines, Srt);
  }
}
