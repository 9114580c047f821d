/** The Option wrapper the parsers return, and the exceptions of the code as written. */
module Wrappers {
  datatype Option<+T> = None | Some(value: T)

  /** The Python exceptions the program can raise on its input. */
  datatype Error = ValueError | IndexError
}

/**
  The Python string operations the converter relies on, over `string`
  (the input has already been decoded as ISO-8859-1, so every character
  of interest lies in the Latin-1 range).
 */
module Strings {

  /** Python's `str.isspace()` (and the `\s` class of `re`) on Latin-1 characters. */
  predicate IsSpace(c: char) {
    ('\t' <= c <= '\r') || ('\U{1c}' <= c <= '\U{1f}') || c == ' ' || c == '\U{85}' || c == '\U{a0}'
  }

  /** ASCII digits: the meaning of `\d` and of `int()` in this model. */
  predicate IsDigit(c: char) {
    '0' <= c <= '9'
  }

  predicate AllDigits(s: string) {
    forall k :: 0 <= k < |s| ==> IsDigit(s[k])
  }

  lemma DigitsHaveNoColon(s: string)
    requires AllDigits(s)
    ensures ':' !in s
  {
  }

  // ---------------------------------------------------------------------------
  // str.strip()

  /** `s.lstrip()`. */
  function TrimStart(s: string): (r: string)
    ensures |r| <= |s|
    decreases |s|
  {
    if s != [] && IsSpace(s[0]) then TrimStart(s[1..]) else s
  }

  /** `s.rstrip()`. */
  function TrimEnd(s: string): (r: string)
    ensures |r| <= |s|
    decreases |s|
  {
    if s != [] && IsSpace(s[|s| - 1]) then TrimEnd(s[..|s| - 1]) else s
  }

  /** `s.strip()`. */
  function Strip(s: string): (r: string)
    ensures |r| <= |s|
  {
    TrimEnd(TrimStart(s))
  }

  /** lstrip removes the leading whitespace and nothing else. */
  lemma {:induction false} TrimStartSpec(s: string)
    ensures var r := TrimStart(s); var a := |s| - |r|;
      r == s[a..] && (r != [] ==> !IsSpace(r[0])) &&
      forall k :: 0 <= k < a ==> IsSpace(s[k])
    decreases |s|
  {
    if s != [] && IsSpace(s[0]) {
      TrimStartSpec(s[1..]);
    }
  }

  /** rstrip removes the trailing whitespace and nothing else. */
  lemma {:induction false} TrimEndSpec(s: string)
    ensures var r := TrimEnd(s);
      r == s[..|r|] && (r != [] ==> !IsSpace(r[|r| - 1])) &&
      forall k :: |r| <= k < |s| ==> IsSpace(s[k])
    decreases |s|
  {
    if s != [] && IsSpace(s[|s| - 1]) {
      TrimEndSpec(s[..|s| - 1]);
    }
  }

  /**
    strip keeps a slice of the string that neither starts nor ends with
    whitespace, and everything it drops is whitespace; it gives "" exactly
    when the string is all whitespace.
   */
  lemma StripSpec(s: string)
    ensures var r := Strip(s); var a := |s| - |TrimStart(s)|;
      && (r != [] ==> !IsSpace(r[0]) && !IsSpace(r[|r| - 1]))
      && a + |r| <= |s| && r == s[a..a + |r|]
      && (forall k :: 0 <= k < |s| && !(a <= k < a + |r|) ==> IsSpace(s[k]))
      && (r == [] <==> forall k :: 0 <= k < |s| ==> IsSpace(s[k]))
  {
    var t := TrimStart(s);
    var r := Strip(s);
    var a := |s| - |t|;
    TrimStartSpec(s);
    TrimEndSpec(t);
    assert r == s[a..a + |r|];
    forall k | 0 <= k < |s| && !(a <= k < a + |r|) ensures IsSpace(s[k]) {
      if k >= a {
        assert s[k] == t[k - a];
      }
    }
  }

  lemma StripIdempotent(s: string)
    ensures Strip(Strip(s)) == Strip(s)
  {
    var r := Strip(s);
    StripSpec(s);
    if r != [] {
      assert TrimStart(r) == r;
      assert TrimEnd(r) == r;
    }
  }

  // ---------------------------------------------------------------------------
  // int() of a digit string, and f"{n}" / f"{n:0Wd}"

  function DigitValue(c: char): nat
    requires IsDigit(c)
  {
    c as int - '0' as int
  }

  function DigitChar(d: nat): (c: char)
    requires d < 10
    ensures IsDigit(c) && DigitValue(c) == d
  {
    ('0' as int + d) as char
  }

  /** `int(s)` for a string of ASCII digits (leading zeros allowed). */
  function Value(s: string): nat
    requires AllDigits(s)
    decreases |s|
  {
    if s == [] then 0 else 10 * Value(s[..|s| - 1]) + DigitValue(s[|s| - 1])
  }

  /** `str(n)`: the shortest decimal rendering of `n`. */
  function Decimal(n: nat): (r: string)
    ensures r != [] && AllDigits(r)
    ensures n < 10 <==> |r| == 1
    ensures n < 100 ==> |r| <= 2
    ensures n < 1000 ==> |r| <= 3
  {
    if n < 10 then [DigitChar(n)] else Decimal(n / 10) + [DigitChar(n % 10)]
  }

  lemma {:induction false} DecimalValue(n: nat)
    ensures Value(Decimal(n)) == n
  {
    if n >= 10 {
      DecimalValue(n / 10);
      var d := Decimal(n);
      assert d[..|d| - 1] == Decimal(n / 10);
    }
  }

  function Zeros(k: nat): (r: string)
    ensures |r| == k && AllDigits(r)
  {
    seq(k, _ => '0')
  }

  /** `f"{n:0{width}d}"`: decimal, left-padded with zeros to at least `width` characters. */
  function ZeroPad(n: nat, width: nat): (r: string)
    ensures AllDigits(r)
    ensures |r| == if |Decimal(n)| >= width then |Decimal(n)| else width
  {
    var d := Decimal(n);
    if |d| >= width then d else Zeros(width - |d|) + d
  }

  lemma {:induction false} LeadingZerosValue(k: nat, s: string)
    requires AllDigits(s)
    ensures Value(Zeros(k) + s) == Value(s)
    decreases |s|
  {
    if s == [] {
      ZerosValue(k);
      assert Zeros(k) + s == Zeros(k);
    } else {
      var t := Zeros(k) + s;
      assert t[..|t| - 1] == Zeros(k) + s[..|s| - 1];
      LeadingZerosValue(k, s[..|s| - 1]);
    }
  }

  lemma {:induction false} ZerosValue(k: nat)
    ensures Value(Zeros(k)) == 0
  {
    if k > 0 {
      assert Zeros(k)[..k - 1] == Zeros(k - 1);
      ZerosValue(k - 1);
    }
  }

  /** Padding never changes the number: `int(f"{n:0Wd}") == n`. */
  lemma ZeroPadValue(n: nat, width: nat)
    ensures Value(ZeroPad(n, width)) == n
  {
    DecimalValue(n);
    if |Decimal(n)| < width {
      LeadingZerosValue(width - |Decimal(n)|, Decimal(n));
    }
  }

  /** One or two digits are worth at most 99. */
  lemma TwoDigitValue(s: string)
    requires AllDigits(s) && |s| <= 2
    ensures Value(s) <= 99
  {
    if |s| == 2 {
      assert s[..1][..0] == [];
    } else if |s| == 1 {
      assert s[..0] == [];
    }
  }

  // ---------------------------------------------------------------------------
  // str.replace(pat, rep)

  /** `s.replace(pat, rep)`: left-to-right, non-overlapping occurrences. */
  function Replace(s: string, pat: string, rep: string): string
    requires pat != []
    decreases |s|
  {
    if |s| < |pat| then s
    else if s[..|pat|] == pat then rep + Replace(s[|pat|..], pat, rep)
    else [s[0]] + Replace(s[1..], pat, rep)
  }

  /** Replacing one character by a string that does not contain it removes it everywhere. */
  lemma {:induction false} ReplaceCharRemoves(s: string, c: char, rep: string)
    requires c !in rep
    ensures c !in Replace(s, [c], rep)
    decreases |s|
  {
    if |s| >= 1 {
      ReplaceCharRemoves(s[1..], c, rep);
    }
  }

  /** Replacing never empties a non-empty string when the replacement is non-empty. */
  lemma ReplaceNonEmpty(s: string, pat: string, rep: string)
    requires pat != [] && rep != []
    ensures s != [] ==> Replace(s, pat, rep) != []
  {
  }

  /** Replacing cannot introduce a character that neither the string nor the replacement holds. */
  lemma {:induction false} ReplaceKeepsAbsent(s: string, pat: string, rep: string, c: char)
    requires pat != [] && c !in s && c !in rep
    ensures c !in Replace(s, pat, rep)
    decreases |s|
  {
    if |s| >= |pat| {
      if s[..|pat|] == pat {
        ReplaceKeepsAbsent(s[|pat|..], pat, rep, c);
      } else {
        ReplaceKeepsAbsent(s[1..], pat, rep, c);
      }
    }
  }

  predicate OccursAt(s: string, pat: string, k: nat) {
    k + |pat| <= |s| && s[k..k + |pat|] == pat
  }

  /** Where the pattern does not occur, replacing changes nothing. */
  lemma {:induction false} ReplaceAbsent(s: string, pat: string, rep: string)
    requires pat != []
    requires forall k: nat :: !OccursAt(s, pat, k)
    ensures Replace(s, pat, rep) == s
    decreases |s|
  {
    if |s| >= |pat| {
      assert !OccursAt(s, pat, 0);
      assert s[0..|pat|] == s[..|pat|];
      forall k: nat ensures !OccursAt(s[1..], pat, k) {
        assert !OccursAt(s, pat, k + 1);
      }
      ReplaceAbsent(s[1..], pat, rep);
    }
  }

  /** Replacing one character by another changes exactly its occurrences and keeps the length. */
  lemma {:induction false} ReplaceCharPointwise(s: string, c: char, d: char)
    ensures |Replace(s, [c], [d])| == |s|
    ensures forall k :: 0 <= k < |s| ==> Replace(s, [c], [d])[k] == if s[k] == c then d else s[k]
    decreases |s|
  {
    if s != [] {
      ReplaceCharPointwise(s[1..], c, d);
      assert s[..1] == [c] <==> s[0] == c;
    }
  }

  /** A one-character replacement commutes with dropping a prefix. */
  lemma ReplaceCharSuffix(s: string, c: char, d: char, j: nat)
    requires j <= |s|
    ensures |Replace(s, [c], [d])| == |s|
    ensures Replace(s[j..], [c], [d]) == Replace(s, [c], [d])[j..]
  {
    ReplaceCharPointwise(s, c, d);
    ReplaceCharPointwise(s[j..], c, d);
  }

  // ---------------------------------------------------------------------------
  // str.split(sep) for a one-character separator

  /** `s.split(c)`: the pieces between separators; there is always at least one. */
  function Split(s: string, c: char): (r: seq<string>)
    ensures |r| >= 1
    ensures forall k :: 0 <= k < |r| ==> c !in r[k]
    decreases |s|
  {
    if s == [] then [[]]
    else
      var rest := Split(s[1..], c);
      if s[0] == c then [[]] + rest else [[s[0]] + rest[0]] + rest[1..]
  }

  /** `c.join(parts)`. */
  function Join(parts: seq<string>, c: char): string
    requires |parts| >= 1
  {
    if |parts| == 1 then parts[0] else parts[0] + [c] + Join(parts[1..], c)
  }

  /** Joining the pieces of a split gives back the string. */
  lemma {:induction false} JoinSplit(s: string, c: char)
    ensures Join(Split(s, c), c) == s
    decreases |s|
  {
    if s != [] {
      var rest := Split(s[1..], c);
      JoinSplit(s[1..], c);
      if s[0] == c {
        assert Split(s, c)[1..] == rest;
      } else {
        var r := Split(s, c);
        if |rest| == 1 {
          assert r == [[s[0]] + rest[0]];
        } else {
          assert r[1..] == rest[1..];
        }
      }
    }
  }

  /** A string without the separator is one piece. */
  lemma {:induction false} SplitNoSep(s: string, c: char)
    requires c !in s
    ensures Split(s, c) == [s]
    decreases |s|
  {
    if s != [] {
      SplitNoSep(s[1..], c);
      assert [s[0]] + s[1..] == s;
    }
  }

  /** Splitting `a + c + b` splits `a` and `b` separately. */
  lemma {:induction false} SplitAppend(a: string, b: string, c: char)
    requires c !in a
    ensures Split(a + [c] + b, c) == [a] + Split(b, c)
    decreases |a|
  {
    if a == [] {
      assert a + [c] + b == [c] + b;
      assert ([c] + b)[1..] == b;
    } else {
      SplitAppend(a[1..], b, c);
      assert (a + [c] + b)[1..] == a[1..] + [c] + b;
      var rest := Split(a[1..] + [c] + b, c);
      assert rest[0] == a[1..] && rest[1..] == Split(b, c);
      assert [a[0]] + a[1..] == a;
    }
  }

  /** Splitting `a + c + b` on c gives the pieces of `a` followed by the pieces of `b`. */
  lemma {:induction false} SplitConcat(a: string, b: string, c: char)
    ensures Split(a + [c] + b, c) == Split(a, c) + Split(b, c)
    decreases |a|
  {
    if a == [] {
      assert a + [c] + b == [c] + b;
      assert ([c] + b)[1..] == b;
    } else {
      var t := a[1..] + [c] + b;
      assert a + [c] + b == [a[0]] + t;
      assert a == [a[0]] + a[1..];
      SplitConcat(a[1..], b, c);
      SplitCons(a[0], t, c);
      SplitCons(a[0], a[1..], c);
      var r := Split(a[1..], c);
      if a[0] == c {
        ConsAppend([], r, Split(b, c));
      } else {
        HeadTailAppend(r, Split(b, c));
        ConsAppend([a[0]] + r[0], r[1..], Split(b, c));
      }
    }
  }

  lemma ConsAppend<T>(x: T, r: seq<T>, q: seq<T>)
    ensures [x] + (r + q) == ([x] + r) + q
  {
  }

  lemma HeadTailAppend<T>(r: seq<T>, q: seq<T>)
    requires |r| >= 1
    ensures (r + q)[0] == r[0] && (r + q)[1..] == r[1..] + q
  {
  }

  /** One step of `Split`: the first character either ends the first piece or joins it. */
  lemma SplitCons(x: char, t: string, c: char)
    ensures Split([x] + t, c) ==
      if x == c then [[]] + Split(t, c) else [[x] + Split(t, c)[0]] + Split(t, c)[1..]
  {
    assert ([x] + t)[1..] == t;
  }

  // ---------------------------------------------------------------------------
  // str.split(sep) for a separator of any length

  /** `s.split(pat)`: left-to-right, non-overlapping occurrences, as `Replace` finds them. */
  function SplitOn(s: string, pat: string): (r: seq<string>)
    requires pat != []
    ensures |r| >= 1
    decreases |s|
  {
    if |s| < |pat| then [s]
    else if s[..|pat|] == pat then [[]] + SplitOn(s[|pat|..], pat)
    else
      var rest := SplitOn(s[1..], pat);
      [[s[0]] + rest[0]] + rest[1..]
  }

  /** For a one-character separator both splits agree. */
  lemma {:induction false} SplitOnChar(s: string, c: char)
    ensures SplitOn(s, [c]) == Split(s, c)
    decreases |s|
  {
    if s != [] {
      SplitOnChar(s[1..], c);
      assert s[..1] == [c] <==> s[0] == c;
    }
  }

  /**
    Replacing every occurrence of `pat` by a character absent from `s` and
    splitting on that character gives the pieces between the occurrences.
   */
  lemma {:induction false} ReplaceThenSplit(s: string, pat: string, d: char)
    requires pat != [] && d !in s
    ensures Split(Replace(s, pat, [d]), d) == SplitOn(s, pat)
    decreases |s|
  {
    if |s| < |pat| {
      SplitNoSep(s, d);
    } else if s[..|pat|] == pat {
      ReplaceThenSplit(s[|pat|..], pat, d);
      var x := Replace(s[|pat|..], pat, [d]);
      assert ([d] + x)[1..] == x;
    } else {
      ReplaceThenSplit(s[1..], pat, d);
      var x := Replace(s[1..], pat, [d]);
      assert ([s[0]] + x)[1..] == x;
    }
  }

  /** A piece free of the separator's first character ends at the first separator. */
  lemma {:induction false} SplitOnLeading(x: string, pat: string, y: string)
    requires pat != [] && pat[0] !in x
    ensures SplitOn(x + pat + y, pat) == [x] + SplitOn(y, pat)
    decreases |x|
  {
    var s := x + pat + y;
    if x == [] {
      assert s[..|pat|] == pat && s[|pat|..] == y;
    } else {
      assert s[..|pat|] != pat by {
        assert s[0] == x[0];
      }
      SplitOnLeading(x[1..], pat, y);
      assert s[1..] == x[1..] + pat + y;
      assert [x[0]] + x[1..] == x;
    }
  }

  /** Every piece split further at `c`, all the resulting pieces in order. */
  function SplitEach(pieces: seq<string>, c: char): (r: seq<string>)
    ensures |r| >= |pieces|
  {
    if pieces == [] then [] else Split(pieces[0], c) + SplitEach(pieces[1..], c)
  }
}
