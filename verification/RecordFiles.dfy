/**
 A Bronze file: one serialised record a line. A text file is iterated by '\n', '\r' and "\r\n",
 and the checksums skip empty lines.
 */
module RecordFiles {
  import opened TextLines

  const FILE_BREAKS: Breaks := {'\n', '\r'}

  ghost predicate IsRecordLine(line: string) {
    line != "" && '\n' !in line && '\r' !in line
  }

  /** What `json.dumps` gives for a record: never empty, line breaks escaped. */
  type RecordLine = line: string | IsRecordLine(line) witness "{}"

  function NonEmpty(lines: seq<string>): (r: seq<string>)
    ensures forall line :: line in r ==> line in lines && line != ""
  {
    if lines == [] then []
    else (if lines[0] == "" then [] else [lines[0]]) + NonEmpty(lines[1..])
  }

  /** Only empty lines are left out, and the others keep their order. */
  lemma {:induction false} NonEmptyAre(first: seq<string>, line: string, more: seq<string>)
    ensures NonEmpty(first + [line] + more) == NonEmpty(first) + (if line == "" then [] else [line]) + NonEmpty(more)
    decreases |first|
  {
    var all := first + [line] + more;
    if first == [] {
      assert all[0] == line && all[1..] == more;
    } else {
      assert all[1..] == first[1..] + [line] + more;
      NonEmptyAre(first[1..], line, more);
    }
  }

  /** The lines a checksum reads from a file's text. */
  function RecordLines(content: string): seq<string> {
    NonEmpty(SplitLines(FILE_BREAKS, content))
  }

  function Render(lines: seq<string>): string {
    if lines == [] then "" else lines[0] + "\n" + Render(lines[1..])
  }

  function LinesOf<R>(dump: R -> RecordLine, records: seq<R>): (lines: seq<string>)
    ensures |lines| == |records|
    ensures forall i :: 0 <= i < |records| ==> lines[i] == dump(records[i])
    ensures forall line :: line in lines ==> IsRecordLine(line)
  {
    if records == [] then [] else [dump(records[0])] + LinesOf(dump, records[1..])
  }

  /** The first line of a rendered file is the first line that was written. */
  lemma {:induction false} FirstLineRead(breaks: Breaks, line: string, rest: string)
    requires forall c :: c in line ==> c !in breaks
    ensures Content(breaks, line + "\n" + rest) == |line|
    ensures Extent(breaks, line + "\n" + rest) == |line| + 1
  {
    if line != "" {
      FirstLineRead(breaks, line[1..], rest);
      assert (line + "\n" + rest)[1..] == line[1..] + "\n" + rest;
    }
  }

  /** Writing record lines and reading them back gives the same lines. */
  lemma {:induction false} RenderRead(lines: seq<string>)
    requires forall line :: line in lines ==> IsRecordLine(line)
    ensures SplitLines(FILE_BREAKS, Render(lines)) == lines
    ensures RecordLines(Render(lines)) == lines
  {
    if lines != [] {
      assert lines[0] in lines;
      FirstLineRead(FILE_BREAKS, lines[0], Render(lines[1..]));
      var text := Render(lines);
      assert text[..|lines[0]|] == lines[0];
      assert text[|lines[0]| + 1..] == Render(lines[1..]);
      RenderRead(lines[1..]);
    }
  }

  lemma {:induction false} LinesHoldNoBreaks(breaks: Breaks, s: string)
    ensures forall line, c :: line in SplitLines(breaks, s) && c in line ==> c !in breaks
  {
    if s != "" {
      LinesHoldNoBreaks(breaks, s[Extent(breaks, s)..]);
    }
  }

  /** Every line read from a file can be written to another and read back. */
  lemma ReadLinesAreRecordLines(content: string)
    ensures forall line :: line in RecordLines(content) ==> IsRecordLine(line)
  {
    LinesHoldNoBreaks(FILE_BREAKS, content);
    forall line | line in RecordLines(content) ensures IsRecordLine(line) {
      assert line in SplitLines(FILE_BREAKS, content);
      assert '\n' in line ==> '\n' !in FILE_BREAKS;
      assert '\r' in line ==> '\r' !in FILE_BREAKS;
    }
  }
}
