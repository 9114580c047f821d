/**
  write_srt of sub2txt.py: one numbered SubRip block per subtitle, appended
  to the output file.
 */
module Emitter {
  import opened Strings

  /** One subtitle as write_srt receives it: number, start, end and text. */
  datatype Record = Record(nr: nat, start: string, end: string, text: string)

  /**
    The characters write_srt sends to the file: the f-string
    `"{nr}\n{start} --> {end}\n{text}\n\n"` followed by the line end the output call
    adds.
   */
  function WriteSrt(r: Record): (block: string)
    ensures |block| > |r.start| + |r.end| + |r.text| + 8
    ensures block[|block| - 3..] == "\n\n\n"
  {
    Decimal(r.nr) + "\n" + r.start + " --> " + r.end + "\n" + r.text + "\n\n" + "\n"
  }

  /** The output file after a converter wrote `rs` in order. */
  function Document(rs: seq<Record>): string {
    if rs == [] then [] else Document(rs[..|rs| - 1]) + WriteSrt(rs[|rs| - 1])
  }

  /**
    Read back line by line, a block is the number, the timing line, the
    lines of the text and three empty lines (the last one after the final
    newline); the first line is the record number in decimal.
   */
  lemma WriteSrtLines(r: Record)
    requires '\n' !in r.start && '\n' !in r.end
    ensures var ls := Split(WriteSrt(r), '\n');
      ls == [Decimal(r.nr), r.start + " --> " + r.end] + Split(r.text, '\n') + ["", "", ""]
    ensures Value(Split(WriteSrt(r), '\n')[0]) == r.nr
  {
    var n, t := Decimal(r.nr), r.start + " --> " + r.end;
    var tail := r.text + ['\n'] + "\n\n";
    assert '\n' !in n;
    assert '\n' !in t;
    assert WriteSrt(r) == n + ['\n'] + (t + ['\n'] + tail);
    SplitAppend(n, t + ['\n'] + tail, '\n');
    SplitAppend(t, tail, '\n');
    SplitConcat(r.text, "\n\n", '\n');
    BlankLines();
    Regroup(n, t, Split(r.text, '\n'), ["", "", ""]);
    DecimalValue(r.nr);
  }

  /** Two newlines make three empty lines. */
  lemma BlankLines()
    ensures Split("\n\n", '\n') == ["", "", ""]
  {
    assert "\n\n" == [] + ['\n'] + "\n";
    SplitAppend([], "\n", '\n');
    assert "\n" == [] + ['\n'] + [];
    SplitAppend([], [], '\n');
  }

  lemma Regroup<T>(x: T, y: T, r: seq<T>, q: seq<T>)
    ensures [x] + ([y] + (r + q)) == [x, y] + r + q
  {
  }

  /** Writing two runs of records one after the other gives their two documents in turn. */
  lemma {:induction false} DocumentAppend(rs: seq<Record>, qs: seq<Record>)
    ensures Document(rs + qs) == Document(rs) + Document(qs)
    decreases |qs|
  {
    if qs != [] {
      assert (rs + qs)[..|rs + qs| - 1] == rs + qs[..|qs| - 1];
      DocumentAppend(rs, qs[..|qs| - 1]);
    } else {
      assert rs + qs == rs;
    }
  }
}
