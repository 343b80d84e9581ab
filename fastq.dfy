/**
 * FASTQ records as the filter sees them: four C strings read line by line
 * (each keeps its '\n'), and the pair of records read in lockstep.
 */
module Fastq {
  import StrTok

  /** A C string: text that holds no NUL character. */
  type CString = s: string | '\0' !in s

  /** FastqRead: header, sequence, strand (separator) and quality lines. */
  datatype Read = Read(header: CString, sequence: CString, strand: CString, qual: CString)

  /** FastqReadPair: the R1 and R2 records at the same position of their streams. */
  datatype ReadPair = ReadPair(r1: Read, r2: Read)

  /** The i-th line of a stream; reading past the end gives the empty string. */
  function Line(stream: seq<CString>, i: nat): (line: CString)
    ensures line != "" ==> i < |stream| && line == stream[i]
  {
    if i < |stream| then stream[i] else ""
  }

  /** The k-th record of a stream: the four lines from line 4k on. */
  function ReadAt(stream: seq<CString>, k: nat): Read
  {
    Read(Line(stream, 4 * k), Line(stream, 4 * k + 1), Line(stream, 4 * k + 2), Line(stream, 4 * k + 3))
  }

  function PairAt(r1: seq<CString>, r2: seq<CString>, k: nat): ReadPair
  {
    ReadPair(ReadAt(r1, k), ReadAt(r2, k))
  }

  /** What std_include writes for a record: its four lines concatenated in order. */
  function Record(r: Read): string
  {
    r.header + r.sequence + r.strand + r.qual
  }

  /** A stored line: some text without a newline, then one newline. */
  predicate IsLine(line: string)
  {
    |line| > 0 && line[|line| - 1] == '\n' && '\n' !in line[..|line| - 1]
  }

  /** A line without its newline. */
  function Chomp(line: string): string
    requires IsLine(line)
  {
    line[..|line| - 1]
  }

  /** Splitting at newlines peels one stored line off the front. */
  lemma SplitLine(line: string, rest: string)
    requires IsLine(line)
    ensures StrTok.Split(line + rest, '\n') == [Chomp(line)] + StrTok.Split(rest, '\n')
  {
    assert line + rest == Chomp(line) + ['\n'] + rest;
    StrTok.SplitField(Chomp(line), '\n', rest);
  }

  /** Lines written one after the other. */
  function Concat(lines: seq<string>): string
  {
    if lines == [] then "" else lines[0] + Concat(lines[1..])
  }

  /** The texts of stored lines. */
  function Chomps(lines: seq<string>): (texts: seq<string>)
    requires forall i :: 0 <= i < |lines| ==> IsLine(lines[i])
    ensures |texts| == |lines|
  {
    if lines == [] then [] else [Chomp(lines[0])] + Chomps(lines[1..])
  }

  /** Stored lines written one after the other split back into their texts. */
  lemma {:induction false} SplitLines(lines: seq<string>)
    requires forall i :: 0 <= i < |lines| ==> IsLine(lines[i])
    ensures StrTok.Split(Concat(lines), '\n') == Chomps(lines) + [""]
  {
    if lines == [] {
      assert StrTok.Split("", '\n') == [""];
    } else {
      var tail := lines[1..];
      var split := StrTok.Split(Concat(tail), '\n');
      assert split == Chomps(tail) + [""] by {
        SplitLines(tail);
      }
      assert StrTok.Split(Concat(lines), '\n') == [Chomp(lines[0])] + split by {
        assert Concat(lines) == lines[0] + Concat(tail);
        SplitLine(lines[0], Concat(tail));
      }
      assert Chomps(lines) == [Chomp(lines[0])] + Chomps(tail);
    }
  }

  /** A written record of four well-formed lines splits back into those four lines. */
  lemma RecordRoundTrip(r: Read)
    requires IsLine(r.header) && IsLine(r.sequence) && IsLine(r.strand) && IsLine(r.qual)
    ensures StrTok.Split(Record(r), '\n') == [Chomp(r.header), Chomp(r.sequence), Chomp(r.strand), Chomp(r.qual), ""]
  {
    var lines: seq<string> := [r.header, r.sequence, r.strand, r.qual];
    assert Concat(lines[3..]) == r.qual;
    assert Concat(lines[2..]) == r.strand + r.qual;
    assert Concat(lines[1..]) == r.sequence + (r.strand + r.qual);
    assert Record(r) == Concat(lines);
    assert Chomps(lines[3..]) == [Chomp(r.qual)];
    assert Chomps(lines[2..]) == [Chomp(r.strand), Chomp(r.qual)];
    assert Chomps(lines[1..]) == [Chomp(r.sequence), Chomp(r.strand), Chomp(r.qual)];
    SplitLines(lines);
  }
}
