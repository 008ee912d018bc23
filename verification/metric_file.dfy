/**
 Reading a metrics file that is still being written.

 A newline commits a line.  The reader keeps a byte offset and takes one complete line at a time; the
 JSON decoder is a parameter, applied to the line as read.
 */
module MetricFile {
  import opened Wrappers
  import opened Domain

  const MAX_LINE := 1048576

  type Decoder = string -> Option<MetricSample>

  /** Where the line that starts at `from` ends, if it is complete. */
  function LineEnd(file: string, from: nat): (end: Option<nat>)
    ensures end.Some? ==> from < end.value <= |file| && file[end.value - 1] == '\n'
    decreases |file| - from
  {
    if from >= |file| then None
    else if file[from] == '\n' then Some(from + 1)
    else LineEnd(file, from + 1)
  }

  /** The line ends at the first newline. */
  lemma {:induction false} LineEndIsFirst(file: string, from: nat)
    ensures var end := LineEnd(file, from);
            forall i :: from <= i < (if end.Some? then end.value - 1 else |file|) ==> file[i] != '\n'
    decreases |file| - from
  {
    if from < |file| && file[from] != '\n' {
      LineEndIsFirst(file, from + 1);
    }
  }

  datatype Reading =
    | Wait                                       // no complete line yet
    | TooLong
    | Skip(next: nat)                            // a line that is not a finite sample
    | Take(sample: MetricSample, next: nat)

  /** What the reader does at an offset. */
  function ReadLine(decode: Decoder, file: string, offset: nat): Reading {
    var end := LineEnd(file, offset);
    if end.None? then Wait
    else if end.value - offset > MAX_LINE then TooLong
    else
      var sample := decode(file[offset..end.value]);
      if sample.None? || sample.value.value.NonFinite? then Skip(end.value)
      else Take(sample.value, end.value)
  }

  /******* The reference: all complete lines, and the samples among them *******/

  function CompleteLines(text: string): seq<string>
    decreases |text|
  {
    var end := LineEnd(text, 0);
    if end.None? then [] else [text[..end.value]] + CompleteLines(text[end.value..])
  }

  function Accepted(decode: Decoder, lines: seq<string>): seq<MetricSample>
    decreases |lines|
  {
    if |lines| == 0 then []
    else
      var sample := decode(lines[0]);
      (if sample.Some? && sample.value.value.Finite? then [sample.value] else []) + Accepted(decode, lines[1..])
  }

  function SamplesIn(decode: Decoder, text: string): seq<MetricSample> {
    Accepted(decode, CompleteLines(text))
  }

  /** An offset at which a line starts. */
  predicate Boundary(file: string, offset: nat) {
    offset <= |file| && (offset == 0 || file[offset - 1] == '\n')
  }

  lemma {:induction false} LineEndShift(text: string, from: nat, shift: nat)
    requires from + shift <= |text|
    ensures LineEnd(text[shift..], from) ==
            if LineEnd(text, from + shift).None? then None else Some(LineEnd(text, from + shift).value - shift)
    decreases |text| - from
  {
    if from + shift < |text| && text[from + shift] != '\n' {
      LineEndShift(text, from + 1, shift);
    }
  }

  lemma {:induction false} LineEndPrefix(a: string, b: string, from: nat)
    requires LineEnd(a, from).Some?
    ensures LineEnd(a + b, from) == LineEnd(a, from)
    decreases |a| - from
  {
    if a[from] != '\n' {
      LineEndPrefix(a, b, from + 1);
    }
  }

  /** Splitting at a line boundary splits the lines. */
  lemma {:induction false} LinesConcat(a: string, b: string)
    requires Boundary(a, |a|)
    ensures CompleteLines(a + b) == CompleteLines(a) + CompleteLines(b)
    decreases |a|
  {
    if |a| == 0 {
      assert a + b == b;
    } else {
      var end := LineEnd(a, 0);
      LineEndIsFirst(a, 0);
      assert end.Some?;
      LineEndPrefix(a, b, 0);
      assert (a + b)[..end.value] == a[..end.value];
      assert (a + b)[end.value..] == a[end.value..] + b;
      LinesConcat(a[end.value..], b);
    }
  }

  lemma {:induction false} AcceptedConcat(decode: Decoder, a: seq<string>, b: seq<string>)
    ensures Accepted(decode, a + b) == Accepted(decode, a) + Accepted(decode, b)
    decreases |a|
  {
    if |a| == 0 {
      assert a + b == b;
    } else {
      assert (a + b)[1..] == a[1..] + b;
      AcceptedConcat(decode, a[1..], b);
    }
  }

  lemma OneLine(line: string)
    requires LineEnd(line, 0) == Some(|line|)
    ensures CompleteLines(line) == [line]
  {
    assert line[..|line|] == line;
    assert line[|line|..] == "";
  }

  lemma LineSlice(file: string, offset: nat, next: nat)
    requires LineEnd(file, offset) == Some(next)
    ensures LineEnd(file[offset..next], 0) == Some(next - offset)
  {
    var line := file[offset..next];
    assert line[|line| - 1] == '\n';
    var end := LineEnd(line, 0);
    LineEndIsFirst(line, 0);
    LineEndIsFirst(file, offset);
    assert end.Some?;
    assert line[end.value - 1] == file[offset + end.value - 1];
  }

  lemma AddLine(decode: Decoder, text: string, line: string)
    requires Boundary(text, |text|) && LineEnd(line, 0) == Some(|line|)
    ensures SamplesIn(decode, text + line) == SamplesIn(decode, text) + Accepted(decode, [line])
  {
    OneLine(line);
    LinesConcat(text, line);
    AcceptedConcat(decode, CompleteLines(text), [line]);
  }

  /**
   One line taken or skipped moves from boundary to boundary and accounts for exactly that line; the
   reader waits exactly when nothing complete follows the offset.
   */
  lemma ReadLineIsExact(decode: Decoder, file: string, offset: nat)
    requires Boundary(file, offset)
    ensures match ReadLine(decode, file, offset)
            case Skip(next) =>
              && offset < next <= offset + 1048576 && Boundary(file, next)
              && SamplesIn(decode, file[..next]) == SamplesIn(decode, file[..offset])
            case Take(sample, next) =>
              && offset < next <= offset + 1048576 && Boundary(file, next)
              && SamplesIn(decode, file[..next]) == SamplesIn(decode, file[..offset]) + [sample]
            case Wait => forall i :: offset <= i < |file| ==> file[i] != '\n'
            case TooLong =>
              exists end :: offset + 1048576 <= end < |file| && file[end] == '\n' && forall i :: offset <= i < end ==> file[i] != '\n'
  {
    hide SamplesIn;
    var reading := ReadLine(decode, file, offset);
    LineEndIsFirst(file, offset);
    if reading.Skip? || reading.Take? {
      var next := reading.next;
      var line := file[offset..next];
      LineSlice(file, offset, next);
      AddLine(decode, file[..offset], line);
      assert file[..next] == file[..offset] + line;
      assert Accepted(decode, [line][1..]) == [];
    }
  }

  /** Appending to the file does not disturb what lies before the offset. */
  lemma AppendKeepsPrefix(file: string, more: string, offset: nat)
    requires Boundary(file, offset)
    ensures Boundary(file + more, offset)
    ensures (file + more)[..offset] == file[..offset]
  {
  }
}
