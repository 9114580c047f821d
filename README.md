# sub2txt conversion engine, modelled in Dafny

sub2txt.py converts subtitle files to SubRip (`.srt`). It first guesses the
input format from the first lines of the file. The formats are:

- MicroDVD `{a}{b}text`
- MPL2 `[a][b]text`
- TMP `h:m:s:text`
- a SubRip variant with `HH:MM:SS.cc,HH:MM:SS.cc` timing lines
- TXTSUB, with bracketed timestamps between text lines
- plain SRT

It then runs one converter per format. Each converter:

1. strips every line;
2. matches it against the format's line pattern;
3. rewrites the timestamps: MicroDVD through `frames_2_time`, MPL2 and
   the TMP end time through `seconds_2_time`, while the SubRip variant,
   TXTSUB and the TMP start time are rewritten as text, without either
   codec;
4. turns the format's line-break markers (`|`, `[br]`) into newlines;
5. writes numbered SubRip blocks with `write_srt`, counting the lines it
   converted and the lines it failed on.

The model works on the file's lines, already decoded into strings.

Modules, one per part of the program:

- `Wrappers`: the `Option` type, and `Error` (`ValueError` or `IndexError`),
  the Python exceptions that `Sniffer` and `AsWritten` report.
- `Strings`: the Python string operations the program relies on:
  - `strip`
  - `int()` of a digit string
  - `str(n)` and `f"{n:0Wd}"`
  - `replace`
  - `split`
- `Patterns`: the regular expressions of the program, written as matchers.
  - `re.match` anchors at the start.
  - `$` matches at the end or before a final newline.
  - `.` is any character but a newline.
  - `\s` is `str.isspace()`.
  - `\d` is an ASCII digit.
- `TimeCodec`: `seconds_2_time`, `frames_2_time` and `get_tmp_endtime`.
- `Sniffer`: `detect_format`.
- `Emitter`: `write_srt` and the output file as the concatenation of its
  blocks.
- `SingleLine`: `conv_microdvd`, `conv_mpl2` and `conv_tmp`.
  - They share one loop method, `ConvertLines`.
  - That method is proved against the specification
    "numbered cues of the matching lines".
- `MultiLine`: `conv_subrip` and `conv_txtsub`.
  - These read extra lines with `next(infile)`.
  - Each is a `while` loop proved equal to a recursive specification
    function.
  - Lemmas about that function give the invariants the program keeps.
- `AsWritten`: three places where the Python does not do what its patterns
  promise, modelled exactly as written (see Findings).

## Model

| member | source | states |
|---|---|---|
| Sniffer.DetectFormat | sub2txt.py:46-51 | a file of fewer than three lines is not recognised (None) |
| Sniffer.DetectFormatSound | sub2txt.py:53-78 | whatever format is returned, that format's own complete test holds on lines 1-3 (and line 4 for subrip) |
| Sniffer.DetectFormatComplete | sub2txt.py:53-78 | whenever a format's complete test holds, that format is returned: the order of the tests never matters, so sound and complete together make the result exactly "the format whose test holds" |
| Sniffer.ShapesExclusive | sub2txt.py:57-77 | no stripped first line has the first-line shape of two different formats |
| Sniffer.ShapeFirstChar | sub2txt.py:57-77 | a MicroDVD line starts with '{', MPL2 and TXTSUB lines with '[', TMP, subrip and srt lines with a digit |
| Sniffer.Mpl2NotTxtsub | sub2txt.py:61-74 | a TXTSUB timestamp line never matches the MPL2 pattern |
| Sniffer.TmpNotClock | sub2txt.py:65-77 | a line with a '.' or ',' after `dd:dd:dd` never matches the TMP pattern |
| Sniffer.DetectIndexError | sub2txt.py:69-70 | `lines[3]` raises IndexError exactly when the file has three lines and they pass the first three subrip tests |
| Sniffer.MicroDvdWinsWhateverFollows | sub2txt.py:57-59 | two MicroDVD lines at the top give "microdvd" whatever the remaining lines are |
| Sniffer.SrtNeedsOnlyLineOne | sub2txt.py:77-78 | an SRT timing first line gives "srt" whatever the other lines are |
| TimeCodec.SecondsToClock | sub2txt.py:377-381 | minutes and seconds are below 60 and `h*3600 + m*60 + s` is the input |
| TimeCodec.SecondsToTime | sub2txt.py:377-381 | seconds_2_time on whole seconds: the clock of the input rendered as zero-padded `HH:MM:SS`, read back by SecondsToTimeDecodes |
| TimeCodec.SecondsToTimeDecodes | sub2txt.py:377-381 | the text is three colon-separated fields: hours at least two digits, minutes and seconds exactly two digits, no millisecond field, reading back as the input |
| TimeCodec.SecondsToTimeInjective | sub2txt.py:377-381 | different second counts never render alike |
| TimeCodec.RealClockFloor | sub2txt.py:378-380 | on a non-negative float, `%`, `//` and `int` give the clock of its whole seconds |
| TimeCodec.SecondsToTimeRealFloor | sub2txt.py:346 | seconds_2_time of the float end time renders its whole seconds |
| TimeCodec.FramesToFieldsBounds | sub2txt.py:370-375 | first field is the whole seconds `frames // fps`; second is the fraction in sixtieths (below 60); third is the truncated milliseconds rounded up to even, always even and at most 1000, and within one millisecond of the exact fractional milliseconds (less than one below, at most one above) |
| TimeCodec.FramesToTime | sub2txt.py:370-375 | frames_2_time: the three fields of FramesToFieldsBounds, zero-padded to two, two and three digits and joined by colons, read back by FramesToTimeDecodes |
| TimeCodec.EvenMilliseconds | sub2txt.py:372-374 | bumping odd milliseconds keeps the field even, at most 1000, and within one millisecond of the exact fraction `rem * 1000 / fps` (less than one below, at most one above) |
| TimeCodec.FramesToFieldsMonotone | sub2txt.py:370-375 | a later frame never gives an earlier whole second, and within one second neither fractional field decreases |
| TimeCodec.FramesToTimeDecodes | sub2txt.py:375 | the text splits on ':' into three digit fields holding the three numbers, padded to 2, 2 and 3 digits (4 digits when the milliseconds reach 1000) |
| TimeCodec.TmpDuration | sub2txt.py:384 | the reading-time heuristic is positive for every text length |
| TimeCodec.GetTmpEndtime | sub2txt.py:383-388 | the end lies after the start unless it exceeds `max_duration`; when it does it is clamped to `max_duration - 1`; it never exceeds `max_duration` |
| TimeCodec.TmpEndAfterStart | sub2txt.py:383-388 | below the ceiling, the whole seconds of the estimated end are at least the start |
| Emitter.WriteSrt | sub2txt.py:367-368 | a block is longer than its fields and ends in three newlines (two from the f-string, one from `print`) |
| Emitter.WriteSrtLines | sub2txt.py:367-368 | read line by line, a block is: the number, `start --> end`, the lines of the text, and three empty lines; the first line reads back as the record number |
| Emitter.DocumentAppend | sub2txt.py:367-368 | writing two runs of records in turn gives the two documents one after the other |
| SingleLine.PresentMembers | sub2txt.py:232-247 | a cue is written exactly when its line converted; every line converts exactly when no line fails |
| SingleLine.NumberedNumbers | sub2txt.py:237-245 | record k carries number k+1 and its cue's start, end and text unchanged |
| SingleLine.NumberedStep | sub2txt.py:237-247 | one more line adds one record numbered after the others when it converts, and nothing when it fails |
| SingleLine.DocumentGrows | sub2txt.py:237-247 | the output file after one more line is the earlier file plus exactly that line's block, numbered after the others, when it converts, and unchanged when it fails |
| SingleLine.ConvertLines | sub2txt.py:230-249 | the records are the cues of the matching lines in order, numbered 1..converted with no gap, and `converted + failed` is the number of lines |
| SingleLine.BarsToNewlines | sub2txt.py:243 | no bar character is left; for a one-line text the lines of the result are its bar-separated pieces |
| SingleLine.MicroDvdCue | sub2txt.py:232-245 | a cue exactly when the MicroDVD pattern matches; start and end read back as frames_2_time of the two frame numbers; the text's lines are the bar-separated pieces |
| SingleLine.ConvMicroDvd | sub2txt.py:226-249 | conv_microdvd writes the numbered MicroDVD cues of the matching lines, and every other line fails |
| SingleLine.Mpl2Cue | sub2txt.py:310-323 | a cue exactly when the MPL2 pattern matches; start and end read back as `int(n / 10)` seconds; the text's lines are the bar-separated pieces |
| SingleLine.ConvMpl2 | sub2txt.py:304-327 | conv_mpl2 writes the numbered MPL2 cues of the matching lines, and every other line fails |
| SingleLine.TmpCue | sub2txt.py:340-346 | a cue exactly when the TMP pattern matches; the first three pieces of `line.split(":")` are then the pattern's one- or two-digit time groups |
| SingleLine.TmpExample | sub2txt.py:340-354 | the line `0:0:5:Hello` gives the cue from 00:00:05,000 to 00:00:11, the estimate for five seconds and five characters, with the text Hello |
| SingleLine.TmpCueOf | sub2txt.py:341-354 | the text has no bar character, and its lines are the bar-separated pieces of the last ':' piece |
| SingleLine.TmpCueStart | sub2txt.py:342-343 | the start reads back as the three time groups: it splits on ':' into exactly two digits, two digits, and two digits followed by ",000", holding the values of the hours, minutes and seconds groups |
| SingleLine.TmpCueEnd | sub2txt.py:344-346 | the end reads back as the estimate for the start in seconds and the text length, with no millisecond field |
| SingleLine.TmpEndNotBeforeStart | sub2txt.py:344-346 | with get_tmp_endtime as the estimate, a TMP subtitle never ends before it starts |
| SingleLine.ConvTmp | sub2txt.py:334-360 | conv_tmp writes the numbered TMP cues of the matching lines, and every other line fails |
| MultiLine.EmitCounted | sub2txt.py:203-211 | writing a record with the incremented counter keeps the numbers 1..converted without gaps |
| MultiLine.BrToNewlines | sub2txt.py:209 | for a one-line text the lines of the result are its "[br]"-separated pieces; no bar character is introduced; a non-empty text stays non-empty |
| MultiLine.BarsAndBreaks | sub2txt.py:289-290 | after both replacements the lines of a one-line text are its "[br]"-separated pieces, each split further at the bar: both markers become line breaks and nothing else does |
| MultiLine.SubripStampFields | sub2txt.py:198-199 | the rewritten stamp keeps the clock, turns the dot into a comma, and has a four-digit millisecond field worth 100 times the centiseconds |
| MultiLine.SubripStampInjective | sub2txt.py:198-199 | the rewrite keeps different stamps apart |
| MultiLine.SubripStampShape | sub2txt.py:198-199 | a rewritten stamp has the shape `HH:MM:SS,cccc` |
| MultiLine.SubripPairPieces | sub2txt.py:196-197 | a matching timing line splits at the comma into exactly two stamps, so the unpacking never fails |
| MultiLine.ConvSubrip | sub2txt.py:190-219 | the records, counters and StopIteration outcome of the loop are those of the line-by-line specification from an empty tally |
| MultiLine.SubripFrom | sub2txt.py:192-217 | conv_subrip from a given line with a given tally: a timing line and the two lines after it give one record, other lines are ignored before the first record and counted as failed after it, and a missing line stops the run |
| MultiLine.SubripFromKeeps | sub2txt.py:196-217 | from any point on: numbers stay 1..converted; no line fails before the first record; every start and end is `HH:MM:SS,cccc`; each record uses three lines and each failure one |
| MultiLine.SubripOutput | sub2txt.py:190-219 | on a whole file, the guarantees above hold, `3*converted + failed` is at most the number of lines, and, without StopIteration, exactly the number of lines from the first timing line on |
| MultiLine.FirstTiming | sub2txt.py:194-196 | the index of the first line that strips to a timing line, or the end of the file: no line before it is a timing line |
| MultiLine.SubripCounts | sub2txt.py:203-217 | when no StopIteration ends the run, once a record is written every line is one of a record's three lines or a failed line, and before it only the header lines up to the first timing line go uncounted: `3*converted + failed` gains exactly the lines read |
| MultiLine.SubripBlock | sub2txt.py:196-211 | a timing line with two lines after it gives one record: its two rewritten stamps and the next line's text with "[br]" replaced; the line after is skipped |
| MultiLine.SubripSingleBlock | sub2txt.py:196-211 | a three-line file of timing line, text and blank line gives exactly one record, numbered 1 |
| MultiLine.SubripExample | sub2txt.py:190-211 | the file `00:00:01.50,00:00:03.20` / `Hi there` / blank gives the single record 1, `00:00:01,5000`, `00:00:03,2000`, "Hi there" |
| MultiLine.TxtsubTimeAppendsComma | sub2txt.py:264-279 | every timestamp becomes its bracketed text plus ",000": the "000" branch is never taken |
| MultiLine.TxtsubTime | sub2txt.py:265-269 | a timestamp's bracketed text followed by "000" or ",000", by the test of sub2txt.py:266 |
| MultiLine.ReadTxtsub | sub2txt.py:262-264 | a line is stripped, then read as a timestamp when the converter's pattern matches and as text otherwise |
| MultiLine.TxtsubFrom | sub2txt.py:261-302 | conv_txtsub from a given line, tally and start: a timestamp becomes the start; a text needs a next line, and a timestamp there ends a record written when the text is non-empty and becomes the next start; a text there makes the pair fail |
| MultiLine.TxtsubLoop | sub2txt.py:259-302 | the records, counters and StopIteration outcome of the loop are those of the pairwise specification, with an empty start time |
| MultiLine.ConvTxtsub | sub2txt.py:256-302 | the same, with the line reading of sub2txt.py:262-279 |
| MultiLine.EmitTxtsubTexts | sub2txt.py:282-292 | a record written from a non-empty text has a non-empty text without a bar character |
| MultiLine.TxtsubFromKeeps | sub2txt.py:261-302 | from any point on: numbers stay 1..converted; no pair fails before the first record; every text is non-empty and free of bar characters; each record or failure uses two lines |
| MultiLine.TxtsubOutput | sub2txt.py:256-302 | on a whole file, the guarantees above hold, `2*(converted + failed)` is at most the number of lines, and together with the uncounted lines it is exactly the number of lines from the first record's text on |
| MultiLine.Uncounted | sub2txt.py:264-294 | the lines read without counting, at most the lines left: lone timestamps, the two lines of an empty text followed by a timestamp, and a final text without a next line |
| MultiLine.FirstRecord | sub2txt.py:271-283 | where the first record's text line is met: a non-empty text followed by a timestamp, or the end of the file |
| MultiLine.TxtsubCounts | sub2txt.py:261-302 | once a record is written, every line read is a line of a record's pair, of a failed pair, or uncounted, and before the first record nothing is counted: `2*(converted + failed)` plus the uncounted lines gains exactly the lines read |
| MultiLine.TxtsubChainFrom | sub2txt.py:273-294 | on an alternating file, from any text line on, every text gives one record running from the timestamp before it to the one after |
| MultiLine.TxtsubChains | sub2txt.py:294 | on a file alternating timestamps and non-empty texts there is one record per text, and each record starts where the previous one ended |
| MultiLine.TxtsubStartsFrom | sub2txt.py:261-294 | from any line on, with the start equal to the last timestamp before it, the records written come, in file order, from pairs of the file, each starting at the last timestamp before its text |
| MultiLine.TxtsubStarts | sub2txt.py:294 | on any file, record k comes from a non-empty text at line `pos[k]` followed by the timestamp that ends it, the positions increase, and each record starts at the last timestamp before its text, timestamps read on their own and those after empty texts included |
| MultiLine.TxtsubEmptyPairExample | sub2txt.py:282-294 | a pair with an empty text writes nothing but still moves the start on: the one record of `[00:00:01]`, an empty line, `[00:00:02]`, `Hi`, `[00:00:03]` starts at 00:00:02 |
| AsWritten.MicroDvdGroups | sub2txt.py:232-233 | the MicroDVD pattern has exactly one capture group |
| AsWritten.UnpackThree | sub2txt.py:233 | unpacking into three names succeeds exactly on three values |
| AsWritten.MicroDvdUnpackRaises | sub2txt.py:232-233 | as written, every line the MicroDVD pattern accepts raises ValueError |
| AsWritten.Mpl2AsWritten | sub2txt.py:311-313 | as written, any text produced is a piece of `line.split("][")` |
| AsWritten.Mpl2BracketPiece | sub2txt.py:310-312 | as written, an MPL2 line whose text does not start with '[' keeps ']' in the end-time piece and raises ValueError |
| AsWritten.Mpl2ExampleRaises | sub2txt.py:310-312 | `[100][250]Sample` matches the pattern, yet raises ValueError as written |
| AsWritten.Mpl2ExampleCorrected | sub2txt.py:310-321 | the corrected conversion gives `[100][250]Sample` 10 s, 25 s and the text "Sample" |
| AsWritten.SubripStampAsWritten | sub2txt.py:198-199 | as written, the stamp keeps its clock and ends ",@" |
| AsWritten.SubripStampLosesCentiseconds | sub2txt.py:198-199 | as written, two stamps with the same clock become identical and the millisecond field is not a number; the corrected rewrite keeps them apart |
| AsWritten.ExampleStampCollision | sub2txt.py:198-199 | `00:00:01.50` and `00:00:01.20` are both written as `00:00:01,@` |
| Patterns.RestOfLine | sub2txt.py:232 | the `(.+)$` group is non-empty and newline-free, sits at the position, and runs to the end or to a final newline; no match means a newline lies before every end |
| Patterns.ParseFramed | sub2txt.py:310 | both numbers are non-empty digit strings and the text is non-empty without a newline |
| Patterns.ParseFramedSound | sub2txt.py:310 | a matched line is exactly its groups put back between the brackets, possibly followed by a newline |
| Patterns.ParseFramedComplete | sub2txt.py:310 | every line built from two digit strings and a newline-free text matches with those groups |
| Patterns.ParseTmp | sub2txt.py:340 | a matching line begins `h:m:s:` with one- or two-digit groups, and its text group is non-empty without a newline |
| Patterns.ParseTmpSound | sub2txt.py:340 | a matching line is exactly its four groups joined by ':', possibly followed by a newline |
| Patterns.ParseTmpComplete | sub2txt.py:340 | every line made of one- or two-digit groups and a non-empty text without a newline, with or without a final newline, matches with exactly those groups |
| Patterns.TmpSplitFields | sub2txt.py:340-342 | on a TMP line, `line.split(":")` has at least four pieces and the first three are the time groups |
| Strings.StripSpec | sub2txt.py:195 | strip keeps a slice that neither starts nor ends with whitespace, drops only whitespace, and gives "" exactly for all-whitespace lines |
| Strings.StripIdempotent | sub2txt.py:195 | stripping twice is stripping once |
| Strings.DecimalValue | sub2txt.py:368 | `str(nr)` reads back as nr |
| Strings.ZeroPadValue | sub2txt.py:343 | zero-padding never changes the number |
| Strings.Split | sub2txt.py:197 | split gives at least one piece, none containing the separator |
| Strings.JoinSplit | sub2txt.py:197 | joining the pieces of a split with the separator gives back the string |
| Strings.ReplaceCharRemoves | sub2txt.py:243 | replacing a character by text without it leaves none of it |
| Strings.ReplaceCharPointwise | sub2txt.py:243 | replacing one character by another keeps the length and changes exactly that character's occurrences |
| Strings.ReplaceThenSplit | sub2txt.py:209 | replacing a marker by a fresh character and splitting there gives the pieces between the markers |

## Left out

- `main` (command-line options, the fps flags, file checks, the overwrite prompt, the dispatch on the format): command-line and file-system plumbing.
- `convert_encoding`: it runs the external `iconv` program and renames a file.
- Opening and decoding the files: the model takes the lines as strings, as `readlines()` and iteration over the file give them.
- Debug and quiet printing, and the closing tallies. `debug` and `quiet` are locals of `main`, so inside the converters and `get_tmp_endtime` they name undefined globals; the model reads them as false and leaves the output out.
- `help`, `license`, `version`: printing and exit only.
- Non-integer frame rates (29.97, 23.976) and float rounding in `frames_2_time`: the frame rate is a positive integer, and the arithmetic is exact.
- TimeCodec.GetTmpEndtime: computed on exact reals, so the float rounding of `8.8` and of the division is not modelled. The end is passed on as its whole seconds, which is all seconds_2_time reads of it (`SecondsToTimeRealFloor`).
- SingleLine.TmpCueEnd and SingleLine.TmpCueOf: stated for any end-time estimate on whole seconds. SingleLine.TmpEndNotBeforeStart then ties them to get_tmp_endtime.
- SingleLine.Mpl2Cue: the time is `float(n) / 10` truncated; it is modelled as the integer quotient of the digit string's value by 10, which agrees with the float computation for every value below 2^53 (the float then holds n exactly, and rounding n / 10 cannot cross a whole number); above that the float result can differ, for example on 1152921504606846976.
- Exceptions are modelled as values:
  - StopIteration from `next(infile)` ends a converter with `stopped` set, keeping what was written;
  - the IndexError of `detect_format` is a `Detection` value;
  - the crashes of the code as written are `Attempt` values in `AsWritten`.
- AsWritten.Mpl2AsWritten: `float()` is modelled only on the pieces these lines produce (a digit string, or a piece holding ']'); its other spellings (signs, exponents, "inf") are not modelled.
- The Unicode meaning of `\d`: only ASCII digits are digits.
- Whitespace is `str.isspace()` on Latin-1 characters, the range an ISO-8859-1 decoding produces.

## Findings

| source | as written | input that shows it | evidently intended | confidence | as-written member | corrected member |
|---|---|---|---|---|---|---|
| sub2txt.py:233 | `.groups()` of a one-group match is unpacked into three names, so every MicroDVD line raises ValueError | `{10}{20}Hello` | take the two frame numbers and the text from three capture groups | not executed | AsWritten.MicroDvdUnpackRaises | SingleLine.MicroDvdCue |
| sub2txt.py:311-313 | the times come from `line[1:-1].split("][")`, whose second piece keeps the ']' after the end time, so `float` raises ValueError | `[100][250]Sample` | start 10 s, end 25 s, text "Sample" from the pattern's capture groups | not executed | AsWritten.Mpl2BracketPiece | SingleLine.Mpl2Cue |
| sub2txt.py:311-313 | the same, on the example line | `[100][250]Sample` | the example gives 00:00:10 and 00:00:25 | not executed | AsWritten.Mpl2ExampleRaises | AsWritten.Mpl2ExampleCorrected |
| sub2txt.py:198-199 | in the replacement `r",\100"` Python reads `\100` as the octal escape for '@', so the centiseconds are lost | `00:00:01.50` and `00:00:01.20` both become `00:00:01,@` | keep the centiseconds: `,` then group 1 then "00" | not executed | AsWritten.SubripStampLosesCentiseconds | MultiLine.SubripStampInjective |
| sub2txt.py:198-199 | the same, on the example stamps | `00:00:01.50`, `00:00:01.20` | `00:00:01,5000` and `00:00:01,2000` | not executed | AsWritten.ExampleStampCollision | MultiLine.SubripStampFields |
