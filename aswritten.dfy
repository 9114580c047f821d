/**
  Three places where sub2txt.py, read as Python runs it, does not do what
  its authors evidently meant. Each is modelled here as written, next to
  the lemma that exhibits the discrepancy; the converters of SingleLine and
  MultiLine use the corrected behaviour.
 */
module AsWritten {
  import opened Wrappers
  import opened Strings
  import opened Patterns
  import opened TimeCodec
  import opened SingleLine
  import opened MultiLine

  /** A Python step that either yields a value or raises. */
  datatype Attempt<T> = Ok(value: T) | Raised(error: Error)

  // ---------------------------------------------------------------------------
  // conv_microdvd, sub2txt.py:233

  /**
    `.groups()` of `^\\{\\d+\\}\\{\\d+\\}(.+)$`: the pattern has one capturing
    group, so there is one group, the text.
   */
  function MicroDvdGroups(line: string): (gs: seq<string>)
    requires ParseMicroDvd(line).Some?
    ensures |gs| == 1
  {
    [ParseMicroDvd(line).value.text]
  }

  /** `a, b, c = groups`: unpacking into three names raises ValueError unless there are exactly three. */
  function UnpackThree(gs: seq<string>): (r: Attempt<(string, string, string)>)
    ensures r.Ok? <==> |gs| == 3
    ensures r.Ok? ==> r.value == (gs[0], gs[1], gs[2])
  {
    if |gs| == 3 then Ok((gs[0], gs[1], gs[2])) else Raised(ValueError)
  }

  /** As written, every line conv_microdvd accepts raises ValueError at the unpacking. */
  lemma MicroDvdUnpackRaises(line: string)
    requires ParseMicroDvd(line).Some?
    ensures UnpackThree(MicroDvdGroups(line)) == Raised(ValueError)
  {
    var gs := MicroDvdGroups(line);
    assert |gs| != 3;
  }

  // ---------------------------------------------------------------------------
  // conv_mpl2, sub2txt.py:311-313

  /**
    What `float()` accepts among the pieces below: a non-empty digit string.
    Every other piece these lines produce holds ']' (Mpl2BracketPiece),
    which `float()` rejects.
   */
  predicate Numeric(s: string) {
    s != [] && AllDigits(s)
  }

  /**
    The times and text as sub2txt.py:311-313 compute them: the fields come
    from splitting `line[1:-1]` on "][" (pieces 0 and 1, through `float`)
    and `line` on "][" (piece 2), not from the capture groups.
   */
  function Mpl2AsWritten(line: string): (r: Attempt<(nat, nat, string)>)
    requires |line| >= 2
    ensures r.Ok? ==> r.value.2 in SplitOn(line, "][")
  {
    var inner := SplitOn(line[1..|line| - 1], "][");
    var whole := SplitOn(line, "][");
    if !Numeric(inner[0]) then Raised(ValueError)
    else if |inner| < 2 then Raised(IndexError)
    else if !Numeric(inner[1]) then Raised(ValueError)
    else if |whole| < 3 then Raised(IndexError)
    else Ok((Value(inner[0]) / 10, Value(inner[1]) / 10, whole[2]))
  }

  /** The piece after a digit run and its ']' keeps that ']' unless a '[' follows it. */
  lemma {:induction false} BracketStays(b: string, rest: string)
    requires ']' !in b && (rest == [] || rest[0] != '[')
    ensures ']' in SplitOn(b + "]" + rest, "][")[0]
    decreases |b|
  {
    var w := b + "]" + rest;
    if b == [] {
      assert w == "]" + rest;
      if |w| >= 2 {
        assert w[..2] != "][" by {
          assert w[1] == rest[0];
        }
        assert SplitOn(w, "][")[0] == [w[0]] + SplitOn(w[1..], "][")[0];
      }
    } else {
      assert w[..2] != "][" by {
        assert w[0] == b[0];
      }
      BracketStays(b[1..], rest);
      assert w[1..] == b[1..] + "]" + rest;
    }
  }

  /**
    As written, an MPL2 line whose text does not start with '[' keeps a ']'
    in the end-time piece, so `float()` raises ValueError. Such lines are
    exactly the ordinary MPL2 subtitles the pattern matches
    (ParseFramedComplete), so every one of them fails.
   */
  lemma Mpl2BracketPiece(line: string, a: string, b: string, t: string)
    requires line == ['['] + a + [']'] + ['['] + b + [']'] + t
    requires a != [] && AllDigits(a) && AllDigits(b) && t != [] && t[0] != '['
    ensures var inner := SplitOn(line[1..|line| - 1], "][");
      |inner| >= 2 && ']' in inner[1]
    ensures Mpl2AsWritten(line) == Raised(ValueError)
  {
    var rest := t[..|t| - 1];
    InnerOfFramed(line, a, b, t);
    InnerPieces(a, b, rest);
    var inner := SplitOn(line[1..|line| - 1], "][");
    assert Numeric(inner[0]);
    assert !Numeric(inner[1]) by {
      var j :| 0 <= j < |inner[1]| && inner[1][j] == ']';
    }
  }

  /** Without its outer brackets, an MPL2 line is the two numbers joined by "][", then "]" and the text less its last character. */
  lemma InnerOfFramed(line: string, a: string, b: string, t: string)
    requires line == ['['] + a + [']'] + ['['] + b + [']'] + t && t != []
    ensures line[1..|line| - 1] == a + "][" + (b + "]" + t[..|t| - 1])
  {
    assert line == "[" + (a + "][" + (b + "]" + t[..|t| - 1])) + [t[|t| - 1]];
  }

  /** Splitting `a][b]rest` on "][" gives `a` and then a piece that keeps the ']' after `b`. */
  lemma InnerPieces(a: string, b: string, rest: string)
    requires AllDigits(a) && AllDigits(b) && (rest == [] || rest[0] != '[')
    ensures var inner := SplitOn(a + "][" + (b + "]" + rest), "][");
      |inner| >= 2 && inner[0] == a && ']' in inner[1]
  {
    assert ']' !in a && ']' !in b by {
      assert forall k :: 0 <= k < |a| ==> IsDigit(a[k]);
      assert forall k :: 0 <= k < |b| ==> IsDigit(b[k]);
    }
    SplitOnLeading(a, "][", b + "]" + rest);
    BracketStays(b, rest);
  }

  /** The MPL2 line `[100][250]Sample` matches, with groups "100", "250" and "Sample". */
  lemma ExampleMatches()
    ensures ParseMpl2("[100][250]Sample") == Some(Framed("100", "250", "Sample"))
  {
    ExampleDigits();
    ParseFramedComplete("100", "250", "Sample", '[', ']');
    ExampleLine();
  }

  lemma ExampleDigits()
    ensures AllDigits("100") && AllDigits("250")
  {
  }

  lemma ExampleLine()
    ensures ['['] + "100" + [']'] + ['['] + "250" + [']'] + "Sample" == "[100][250]Sample"
  {
  }

  /** As written, `[100][250]Sample` raises ValueError, where the capture groups give 10 s, 25 s and "Sample". */
  lemma Mpl2ExampleRaises()
    ensures ParseMpl2("[100][250]Sample").Some?
    ensures Mpl2AsWritten("[100][250]Sample") == Raised(ValueError)
  {
    ExampleMatches();
    ExampleLine();
    Mpl2BracketPiece("[100][250]Sample", "100", "250", "Sample");
  }

  /** The corrected conversion gives the example its intended times, 10 s and 25 s, and its text. */
  lemma Mpl2ExampleCorrected()
    ensures var c := Mpl2Cue("[100][250]Sample");
      && c.Some? && ReadsAsSeconds(c.value.start, 10) && ReadsAsSeconds(c.value.end, 25)
      && Split(c.value.text, '\n') == ["Sample"]
  {
    ExampleMatches();
    ExampleValues();
    SplitNoSep("Sample", '|');
  }

  lemma ExampleValues()
    ensures Value("100") / 10 == 10 && Value("250") / 10 == 25
  {
    assert Value("1") == 1 && Value("10") == 10 && Value("100") == 100;
    assert Value("2") == 2 && Value("25") == 25 && Value("250") == 250;
  }

  // ---------------------------------------------------------------------------
  // conv_subrip, sub2txt.py:198-199

  /**
    `re.sub(r'\\.(\\d\\d)$', r",\\100", stamp)`: in a replacement template
    `\\100` is the octal escape for '@', not group 1 followed by "00", so the
    dot and the centiseconds become ",@".
   */
  function SubripStampAsWritten(stamp: string): (r: string)
    requires FullMatch(stamp, PairStampTemplate) && |stamp| == 11
    ensures |r| == 10 && r[..8] == stamp[..8]
  {
    stamp[..8] + ",@"
  }

  /**
    As written, the centiseconds are lost: two stamps with the same clock
    become the same, and the millisecond field is "@", which is no number.
    The corrected SubripStamp keeps different stamps apart.
   */
  lemma SubripStampLosesCentiseconds(x: string, y: string)
    requires FullMatch(x, PairStampTemplate) && |x| == 11
    requires FullMatch(y, PairStampTemplate) && |y| == 11
    requires x[..8] == y[..8]
    ensures SubripStampAsWritten(x) == SubripStampAsWritten(y)
    ensures var p := Split(SubripStampAsWritten(x), ','); |p| == 2 && p[0] == x[..8] && !AllDigits(p[1])
    ensures x != y ==> SubripStamp(x) != SubripStamp(y)
  {
    var r := SubripStampAsWritten(x);
    assert r == x[..8] + [','] + "@";
    StampHasNoComma(x);
    assert ',' !in x[..8] by {
      forall k | 0 <= k < 8 ensures x[..8][k] != ',' {
        assert x[..8][k] == x[k];
      }
    }
    SplitAppend(x[..8], "@", ',');
    SplitNoSep("@", ',');
    assert !IsDigit('@');
    SubripStampInjective(x, y);
  }

  /** `00:00:01.50` and `00:00:01.20` are written alike as `00:00:01,@`. */
  lemma ExampleStampCollision()
    ensures FullMatch("00:00:01.50", PairStampTemplate) && FullMatch("00:00:01.20", PairStampTemplate)
    ensures SubripStampAsWritten("00:00:01.50") == SubripStampAsWritten("00:00:01.20") == "00:00:01,@"
    ensures SubripStamp("00:00:01.50") != SubripStamp("00:00:01.20")
  {
    var a, b := "00:00:01.50", "00:00:01.20";
    forall k | 0 <= k < 11 ensures Fits(a[k], PairStampTemplate[k]) && Fits(b[k], PairStampTemplate[k]) {
    }
    assert a[..8] == b[..8] == "00:00:01";
    SubripStampLosesCentiseconds(a, b);
  }
}
