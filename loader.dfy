/**
 * The normalisation in `read_sequence`: every line of the input is stripped
 * of surrounding whitespace, the pieces are joined in order with nothing
 * between them, and the result is upper-cased. The file itself is not part of
 * this model; its lines are the input.
 */
module Loader {
  import opened Text

  /** `''.join(line.strip() for line in lines)`. */
  function JoinStripped(lines: seq<string>): string
  {
    if lines == [] then "" else Strip(lines[0]) + JoinStripped(lines[1..])
  }

  /** The sequence `read_sequence` returns for a file with these lines. */
  function ReadSequence(lines: seq<string>): (r: string)
    ensures forall i :: 0 <= i < |r| ==> !('a' <= r[i] <= 'z')
  {
    UpperIsUpper(JoinStripped(lines));
    Upper(JoinStripped(lines))
  }

  lemma {:induction false} JoinStrippedAppend(a: seq<string>, b: seq<string>)
    ensures JoinStripped(a + b) == JoinStripped(a) + JoinStripped(b)
  {
    if a == [] {
      assert a + b == b;
    } else {
      var head := Strip(a[0]);
      assert (a + b)[0] == a[0] && (a + b)[1..] == a[1..] + b;
      JoinStrippedAppend(a[1..], b);
      calc {
        JoinStripped(a + b);
        head + JoinStripped(a[1..] + b);
        head + (JoinStripped(a[1..]) + JoinStripped(b));
        (head + JoinStripped(a[1..])) + JoinStripped(b);
        JoinStripped(a) + JoinStripped(b);
      }
    }
  }

  /** Reading two runs of lines one after the other yields the two sequences concatenated. */
  lemma ReadSequenceAppend(a: seq<string>, b: seq<string>)
    ensures ReadSequence(a + b) == ReadSequence(a) + ReadSequence(b)
  {
    JoinStrippedAppend(a, b);
    UpperAppend(JoinStripped(a), JoinStripped(b));
  }

  /** A single line contributes its stripped, upper-cased text. */
  lemma ReadSequenceOneLine(line: string)
    ensures ReadSequence([line]) == Upper(Strip(line))
  {
    assert [line][1..] == [];
    assert JoinStripped([line]) == Strip(line) + "" == Strip(line);
  }

  /** No input, no sequence. */
  lemma ReadSequenceEmpty()
    ensures ReadSequence([]) == ""
  {
  }

  /** A line as a text file yields it: no line feed anywhere except possibly as its last character. */
  predicate IsFileLine(line: string)
  {
    forall i :: 0 <= i < |line| - 1 ==> line[i] != '\n'
  }

  lemma StrippedFileLineHasNoLineFeed(line: string)
    requires IsFileLine(line)
    ensures '\n' !in Strip(line)
  {
    var r := Strip(line);
    StripShape(line);
    var i: nat :| IsInfixAt(r, line, i);
    forall p | 0 <= p < |r| ensures r[p] != '\n' {
      // Only the last character of r can sit on the last character of the line, and it is not whitespace.
      assert r[p] == line[i + p];
      assert i + p < |line| - 1 || p == |r| - 1;
    }
  }

  /** The sequence read from text-file lines holds no line feed. */
  lemma {:induction false} ReadSequenceHasNoLineFeed(lines: seq<string>)
    requires forall i :: 0 <= i < |lines| ==> IsFileLine(lines[i])
    ensures '\n' !in ReadSequence(lines)
  {
    var j := JoinStripped(lines);
    var r := ReadSequence(lines);
    JoinStrippedHasNoLineFeed(lines);
    forall p | 0 <= p < |r| ensures r[p] != '\n' {
      assert r[p] == UpperChar(j[p]);
      assert j[p] in j;
    }
  }

  lemma {:induction false} JoinStrippedHasNoLineFeed(lines: seq<string>)
    requires forall i :: 0 <= i < |lines| ==> IsFileLine(lines[i])
    ensures '\n' !in JoinStripped(lines)
  {
    if lines != [] {
      StrippedFileLineHasNoLineFeed(lines[0]);
      JoinStrippedHasNoLineFeed(lines[1..]);
    }
  }

  /** A line holding no whitespace before its final line feed is read as the text before it. */
  lemma StripLineWithoutSpaces(line: string)
    requires |line| >= 2 && line[|line| - 1] == '\n'
    requires forall p :: 0 <= p < |line| - 1 ==> !IsSpace(line[p])
    ensures Strip(line) == line[..|line| - 1]
  {
    StripIsUniqueInfix(line, 0, |line| - 1);
    assert line[0..|line| - 1] == line[..|line| - 1];
  }

  /** A line of upper-case text without whitespace, ended by a line feed, is read as that text. */
  lemma ReadLineWithoutSpaces(line: string)
    requires |line| >= 2 && line[|line| - 1] == '\n'
    requires forall p :: 0 <= p < |line| - 1 ==> !IsSpace(line[p]) && !('a' <= line[p] <= 'z')
    ensures ReadSequence([line]) == line[..|line| - 1]
  {
    StripLineWithoutSpaces(line);
    UpperKeeps(line[..|line| - 1]);
    ReadSequenceOneLine(line);
  }

  /** Reading two lines is reading each of them. */
  lemma ReadSequencePair(a: string, b: string)
    ensures ReadSequence([a, b]) == ReadSequence([a]) + ReadSequence([b])
  {
    assert [a] + [b] == [a, b];
    ReadSequenceAppend([a], [b]);
  }

  /** The example of the test suite: lines "ACG\n" and "TTG\n" give "ACGTTG". */
  lemma ReadSequenceExample()
    ensures ReadSequence(["ACG\n", "TTG\n"]) == "ACGTTG"
  {
    var first, second := "ACG\n", "TTG\n";
    ReadLineWithoutSpaces(first);
    ReadLineWithoutSpaces(second);
    ReadSequencePair(first, second);
    var r := "ACGTTG";
    assert r[..3] == first[..3];
    assert r[3..] == second[..3];
    assert r == r[..3] + r[3..];
  }
}
