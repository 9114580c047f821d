/**
  The time codecs of sub2txt.py: seconds_2_time, frames_2_time and the
  TMP end-time estimator get_tmp_endtime.
 */
module TimeCodec {
  import opened Strings

  /** A frame rate: a positive whole number of frames per second. */
  type Fps = n: nat | 0 < n witness 25

  /** Three fields joined by colons, as both formatters lay them out. */
  function Colons(a: string, b: string, c: string): string {
    a + ":" + b + ":" + c
  }

  /** Colon-free fields come back out of a split on ':'. */
  lemma SplitColons(a: string, b: string, c: string)
    requires ':' !in a && ':' !in b && ':' !in c
    ensures Split(Colons(a, b, c), ':') == [a, b, c]
  {
    assert Colons(a, b, c) == a + [':'] + (b + [':'] + c);
    SplitAppend(a, b + [':'] + c, ':');
    SplitAppend(b, c, ':');
    SplitNoSep(c, ':');
  }

  /** `t` is three colon-separated digit fields worth `n` seconds. */
  predicate ReadsAsSeconds(t: string, n: nat) {
    var p := Split(t, ':');
    |p| == 3 && AllDigits(p[0]) && AllDigits(p[1]) && AllDigits(p[2]) &&
    Value(p[1]) < 60 && Value(p[2]) < 60 &&
    Value(p[0]) * 3600 + Value(p[1]) * 60 + Value(p[2]) == n
  }

  /** `t` is three colon-separated digit fields holding the numbers `f`. */
  predicate ReadsAsFields(t: string, f: FrameFields) {
    var p := Split(t, ':');
    |p| == 3 && AllDigits(p[0]) && AllDigits(p[1]) && AllDigits(p[2]) &&
    Value(p[0]) == f.whole && Value(p[1]) == f.sixtieths && Value(p[2]) == f.ms
  }

  // ---------------------------------------------------------------------------
  // seconds_2_time (sub2txt.py:377-381)

  datatype Clock = Clock(hours: nat, minutes: nat, seconds: nat)

  /** The hours, minutes and seconds of a whole number of seconds. */
  function SecondsToClock(n: nat): (c: Clock)
    ensures c.minutes < 60 && c.seconds < 60
    ensures c.hours * 3600 + c.minutes * 60 + c.seconds == n
  {
    var q := n / 60;
    assert n == q * 60 + n % 60;
    assert q == (q / 60) * 60 + q % 60;
    assert n / 3600 == q / 60;
    Clock(n / 3600, q % 60, n % 60)
  }

  /** `f"{h:02d}:{m:02d}:{s:02d}"`: no millisecond field. */
  function RenderClock(c: Clock): string {
    Colons(ZeroPad(c.hours, 2), ZeroPad(c.minutes, 2), ZeroPad(c.seconds, 2))
  }

  /** seconds_2_time on a whole number of seconds. */
  function SecondsToTime(n: nat): string {
    RenderClock(SecondsToClock(n))
  }

  /**
    seconds_2_time's text reads back as the time it was given: three colon
    separated fields, the hours at least two digits wide, the minutes and
    seconds exactly two digits and below 60, worth n seconds together.
   */
  lemma SecondsToTimeDecodes(n: nat)
    ensures ReadsAsSeconds(SecondsToTime(n), n)
    ensures var p := Split(SecondsToTime(n), ':'); |p| == 3 && |p[0]| >= 2 && |p[1]| == 2 && |p[2]| == 2
  {
    var c := SecondsToClock(n);
    var h, m, s := ZeroPad(c.hours, 2), ZeroPad(c.minutes, 2), ZeroPad(c.seconds, 2);
    DigitsHaveNoColon(h);
    DigitsHaveNoColon(m);
    DigitsHaveNoColon(s);
    SplitColons(h, m, s);
    ZeroPadValue(c.hours, 2);
    ZeroPadValue(c.minutes, 2);
    ZeroPadValue(c.seconds, 2);
  }

  /** Two different counts of seconds never render alike. */
  lemma SecondsToTimeInjective(n: nat, n': nat)
    requires SecondsToTime(n) == SecondsToTime(n')
    ensures n == n'
  {
    SecondsToTimeDecodes(n);
    SecondsToTimeDecodes(n');
  }

  /**
    seconds_2_time applied to a non-negative real, with Python's float
    operators: `int(x % 60)`, `int((x // 60) % 60)` and `int(x // 3600)`.
   */
  function RealClock(x: real): Clock
    requires x >= 0.0
  {
    var q := (x / 60.0).Floor;
    Clock((x / 3600.0).Floor, q % 60, (x - 60.0 * q as real).Floor)
  }

  /** Python's float operators give the clock of the whole seconds. */
  lemma RealClockFloor(x: real)
    requires x >= 0.0
    ensures RealClock(x) == SecondsToClock(x.Floor)
  {
    var f := x.Floor;
    var q := (x / 60.0).Floor;
    FloorDiv(x, 60);
    FloorDiv(x, 3600);
    assert (x - 60.0 * q as real).Floor == f - 60 * q by {
      assert x - 60.0 * q as real - (f - 60 * q) as real == x - f as real;
    }
  }

  /** `x // d` on a non-negative real is the integer quotient of its floor. */
  lemma FloorDiv(x: real, d: nat)
    requires x >= 0.0 && d > 0
    ensures (x / d as real).Floor == x.Floor / d
  {
    var f := x.Floor;
    var q := f / d;
    assert q * d <= f < q * d + d;
    assert (q * d) as real <= x < (q * d + d) as real;
    assert q as real <= x / d as real < (q + 1) as real;
  }

  /** seconds_2_time applied to the float conv_tmp passes it. */
  function SecondsToTimeReal(x: real): string
    requires x >= 0.0
  {
    RenderClock(RealClock(x))
  }

  /** On a float, seconds_2_time renders its whole seconds. */
  lemma SecondsToTimeRealFloor(x: real)
    requires x >= 0.0
    ensures SecondsToTimeReal(x) == SecondsToTime(x.Floor)
  {
    RealClockFloor(x);
  }

  // ---------------------------------------------------------------------------
  // frames_2_time (sub2txt.py:370-375)

  /** The three numbers frames_2_time renders. */
  datatype FrameFields = FrameFields(whole: nat, sixtieths: nat, ms: nat)

  /**
    `seconds = frames / fps`, then `int(seconds)`, `int((seconds % 1) * 60)`
    and `int((seconds - int(seconds)) * 1000)` bumped to the next even
    number when odd, computed exactly.
   */
  function FramesToFields(frames: nat, fps: Fps): FrameFields {
    var rem := frames % fps;
    var ms := rem * 1000 / fps;
    FrameFields(frames / fps, rem * 60 / fps, if ms % 2 == 1 then ms + 1 else ms)
  }

  /** `f"{W:02d}:{F:02d}:{ms:03d}"`. */
  function FramesToTime(frames: nat, fps: Fps): string {
    var t := FramesToFields(frames, fps);
    Colons(ZeroPad(t.whole, 2), ZeroPad(t.sixtieths, 2), ZeroPad(t.ms, 3))
  }

  lemma DivBelow(a: nat, b: nat, k: nat)
    requires a < b && k > 0
    ensures a * k / b < k
  {
    var q := a * k / b;
    assert q * b <= a * k;
    MulMonotone(a + 1, b, k);
    assert a * k < b * k by {
      assert (a + 1) * k == a * k + k;
    }
    if q >= k {
      MulMonotone(k, q, b);
      assert false;
    }
  }

  lemma DivMonotone(a: nat, a': nat, b: nat)
    requires a <= a' && b > 0
    ensures a / b <= a' / b
  {
    var q, q' := a / b, a' / b;
    assert q * b <= a && a' < q' * b + b;
    if q > q' {
      MulMonotone(q' + 1, q, b);
      assert false;
    }
  }

  lemma MulMonotone(a: nat, a': nat, k: nat)
    requires a <= a'
    ensures a * k <= a' * k
  {
  }

  /**
    What the three fields mean: the first is the whole seconds, the second
    the fractional second counted in sixtieths (so below 60), the third the
    fractional second in truncated milliseconds rounded up to even, which
    keeps it even, at most 1000 and within one millisecond of the exact
    fraction.
   */
  lemma FramesToFieldsBounds(frames: nat, fps: Fps)
    ensures var t := FramesToFields(frames, fps);
      && t.whole * fps <= frames < t.whole * fps + fps
      && t.sixtieths < 60
      && t.sixtieths * fps <= (frames - t.whole * fps) * 60 < (t.sixtieths + 1) * fps
      && t.ms % 2 == 0 && t.ms <= 1000
      && (frames - t.whole * fps) * 1000 < t.ms * fps + fps
      && t.ms * fps <= (frames - t.whole * fps) * 1000 + fps
  {
    var rem, w := frames % fps, frames / fps;
    assert frames == w * fps + rem;
    assert frames - w * fps == rem;
    FractionField(rem, fps, 60);
    EvenMilliseconds(rem, fps);
  }

  /**
    The millisecond field rounded up to even is even, at most 1000, and within
    one millisecond of the exact fraction `rem * 1000 / fps`: less than one
    below it and at most one above it.
   */
  lemma EvenMilliseconds(rem: nat, fps: nat)
    requires rem < fps
    ensures var ms := rem * 1000 / fps; var even := if ms % 2 == 1 then ms + 1 else ms;
      && even % 2 == 0 && even <= 1000
      && rem * 1000 < even * fps + fps
      && even * fps <= rem * 1000 + fps
  {
    FractionField(rem, fps, 1000);
    var ms := rem * 1000 / fps;
    assert (ms + 1) * fps == ms * fps + fps;
  }

  /** A remainder below fps, scaled by k and divided by fps: below k, with the usual division bounds. */
  lemma FractionField(rem: nat, fps: nat, k: nat)
    requires rem < fps && k > 0
    ensures rem * k / fps < k
    ensures (rem * k / fps) * fps <= rem * k < (rem * k / fps) * fps + fps
  {
    DivBelow(rem, fps, k);
  }

  /**
    Later frames never give earlier fields: the three fields grow
    lexicographically with the frame number (and, within one second, each
    of the two fractional fields grows on its own).
   */
  lemma FramesToFieldsMonotone(f: nat, f': nat, fps: Fps)
    requires f <= f'
    ensures var t, t' := FramesToFields(f, fps), FramesToFields(f', fps);
      t.whole <= t'.whole &&
      (t.whole == t'.whole ==> t.sixtieths <= t'.sixtieths && t.ms <= t'.ms)
  {
    DivMonotone(f, f', fps);
    var t, t' := FramesToFields(f, fps), FramesToFields(f', fps);
    if t.whole == t'.whole {
      assert f == t.whole * fps + f % fps;
      assert f' == t.whole * fps + f' % fps;
      var r, r' := f % fps, f' % fps;
      MulMonotone(r, r', 60);
      MulMonotone(r, r', 1000);
      DivMonotone(r * 60, r' * 60, fps);
      DivMonotone(r * 1000, r' * 1000, fps);
    }
  }

  /** frames_2_time's text splits back into its three fields. */
  lemma FramesToTimeDecodes(frames: nat, fps: Fps)
    ensures ReadsAsFields(FramesToTime(frames, fps), FramesToFields(frames, fps))
    ensures var p := Split(FramesToTime(frames, fps), ':'); |p| == 3 && |p[0]| >= 2 && |p[1]| == 2 && 3 <= |p[2]| <= 4
  {
    var t := FramesToFields(frames, fps);
    FramesToFieldsBounds(frames, fps);
    PaddedFields(t.whole, t.sixtieths, t.ms);
  }

  /** Fields padded to 2, 2 and 3 digits and joined by colons split back into their values. */
  lemma PaddedFields(x: nat, y: nat, z: nat)
    requires y < 100 && z <= 1000
    ensures var p := Split(Colons(ZeroPad(x, 2), ZeroPad(y, 2), ZeroPad(z, 3)), ':');
      && |p| == 3
      && AllDigits(p[0]) && AllDigits(p[1]) && AllDigits(p[2])
      && Value(p[0]) == x && Value(p[1]) == y && Value(p[2]) == z
      && |p[0]| >= 2 && |p[1]| == 2 && 3 <= |p[2]| <= 4
  {
    var a, b, c := ZeroPad(x, 2), ZeroPad(y, 2), ZeroPad(z, 3);
    DigitsHaveNoColon(a);
    DigitsHaveNoColon(b);
    DigitsHaveNoColon(c);
    SplitColons(a, b, c);
    ZeroPadValue(x, 2);
    ZeroPadValue(y, 2);
    ZeroPadValue(z, 3);
    if z == 1000 {
      assert Decimal(z) == Decimal(100) + [DigitChar(0)];
    }
  }

  // ---------------------------------------------------------------------------
  // get_tmp_endtime (sub2txt.py:383-393)

  /** The default `max_duration` of get_tmp_endtime. */
  const MaxDuration: int := 99999999999999999999

  /** The reading-time heuristic `((30 / (L + 8.8)) - 150) / (L + 8.8) + 17`. */
  function TmpDuration(length: nat): (d: real)
    ensures d > 0.0
  {
    var u := length as real + 8.8;
    var a := 30.0 / u;
    var b := (a - 150.0) / u;
    DurationPositive(u, a, b);
    b + 17.0
  }

  lemma DurationPositive(u: real, a: real, b: real)
    requires u >= 8.8 && a == 30.0 / u && b == (a - 150.0) / u
    ensures b + 17.0 > 0.0
  {
    assert a * u == 30.0;
    assert a > 0.0;
    assert b * u == a - 150.0;
  }

  /**
    get_tmp_endtime: the start plus the heuristic duration, clamped to
    `max_duration - 1` when it would exceed `max_duration`. The result never
    exceeds the ceiling, and lies after the start whenever it is not clamped.
   */
  function GetTmpEndtime(start: nat, length: nat): (r: real)
    ensures 0.0 <= r <= MaxDuration as real
    ensures start as real + TmpDuration(length) <= MaxDuration as real ==> r > start as real
    ensures start as real + TmpDuration(length) > MaxDuration as real ==> r == (MaxDuration - 1) as real
  {
    var end := start as real + TmpDuration(length);
    if end > MaxDuration as real then (MaxDuration - 1) as real else end
  }

  /**
    The whole seconds of get_tmp_endtime, which is all seconds_2_time reads
    of it (SecondsToTimeRealFloor).
   */
  function TmpEndSeconds(start: nat, length: nat): nat {
    GetTmpEndtime(start, length).Floor
  }

  /** Below the ceiling, the estimated end never comes before the start. */
  lemma TmpEndAfterStart(start: nat, length: nat)
    requires start < MaxDuration
    ensures TmpEndSeconds(start, length) >= start
  {
    var r := GetTmpEndtime(start, length);
    assert r >= start as real;
  }
}
