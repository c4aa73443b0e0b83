/**
 * The report written by `write_output`: a fixed header line, then one line
 * per key of the k-mer table in ascending string order, each holding the
 * k-mer, its count and its `c:n` follow pairs in ascending character order,
 * separated by tabs. The output file is modelled as the text it ends up
 * holding.
 */
module Report {
  import opened Text
  import opened Order
  import opened KmerCounts
  import opened FollowCounts

  /** The header row, without its line feed. */
  const HeaderLine: string := "kmer\tCount\tNextChars"

  /** `f"{char}:{cnt}"`. */
  function PairText(c: char, n: nat): string
  {
    [c] + ":" + NatToString(n)
  }

  /** `sep.join(parts)`. */
  function Join(sep: string, parts: seq<string>): string
  {
    if parts == [] then ""
    else if |parts| == 1 then parts[0]
    else parts[0] + sep + Join(sep, parts[1..])
  }

  /** The first components of a sequence of pairs. */
  function Chars(items: seq<(char, nat)>): (cs: seq<char>)
    ensures |cs| == |items|
  {
    seq(|items|, i requires 0 <= i < |items| => items[i].0)
  }

  /**
   * `sorted(next_info.items())`: the entries of an inner table, ascending by
   * character. The characters are distinct, so the tuple order is the
   * character order.
   */
  function SortedItems(m: map<char, nat>): (items: seq<(char, nat)>)
    ensures |items| == |m|
    ensures StrictlySorted(Chars(items), CharLess)
    ensures forall i :: 0 <= i < |items| ==> items[i].0 in m && items[i].1 == m[items[i].0]
    ensures forall c :: c in m ==> c in Chars(items)
  {
    CharLessIsStrictTotalOrder();
    var cs := SortedSet(m.Keys, CharLess);
    var items := seq(|cs|, i requires 0 <= i < |cs| => (cs[i], m[cs[i]]));
    assert Chars(items) == cs;
    items
  }

  /** The `c:n` texts of a sequence of pairs, in order. */
  function PairTexts(items: seq<(char, nat)>): (texts: seq<string>)
    ensures |texts| == |items|
  {
    seq(|items|, i requires 0 <= i < |items| => PairText(items[i].0, items[i].1))
  }

  /** `next_str`: the pairs of an inner table joined by a comma and a space. */
  function NextText(m: map<char, nat>): string
  {
    Join(", ", PairTexts(SortedItems(m)))
  }

  /** One row without its line feed: `f"{kmer}\t{count}\t{next_str}"`. */
  function RowLine(kmer: string, count: nat, next: map<char, nat>): string
  {
    kmer + "\t" + NatToString(count) + "\t" + NextText(next)
  }

  /** The keys of the k-mer table in ascending order: `sorted(kmer_counts)`. */
  function SortedKmers(counts: KmerTable): (ks: seq<string>)
    ensures |ks| == |counts|
    ensures forall i :: 0 <= i < |ks| ==> ks[i] in counts
  {
    LexLessIsStrictTotalOrder();
    SortedSet(counts.Keys, LexLess)
  }

  /** `sorted` lists every key exactly once, in strictly ascending order. */
  lemma SortedKmersOrdered(counts: KmerTable)
    ensures forall w :: w in SortedKmers(counts) <==> w in counts
    ensures StrictlySorted(SortedKmers(counts), LexLess)
  {
    LexLessIsStrictTotalOrder();
  }

  /** The row lines for the given k-mers, in the given order. */
  function RowLines(kmers: seq<string>, counts: KmerTable, follow: FollowTable): (rows: seq<string>)
    requires forall i :: 0 <= i < |kmers| ==> kmers[i] in counts
    ensures |rows| == |kmers|
  {
    seq(|kmers|, i requires 0 <= i < |kmers| => RowLine(kmers[i], counts[kmers[i]], FollowersOf(follow, kmers[i])))
  }

  /** The lines of the report, header first. */
  function ReportLines(counts: KmerTable, follow: FollowTable): seq<string>
  {
    [HeaderLine] + RowLines(SortedKmers(counts), counts, follow)
  }

  /** Every line followed by a line feed, concatenated. */
  function Terminated(lines: seq<string>): string
  {
    if lines == [] then "" else Terminated(lines[..|lines| - 1]) + lines[|lines| - 1] + "\n"
  }

  /** The whole text of the output file. */
  function ReportText(counts: KmerTable, follow: FollowTable): string
  {
    Terminated(ReportLines(counts, follow))
  }

  /** Terminating one more line appends it and a line feed. */
  lemma TerminatedStep(lines: seq<string>, i: nat)
    requires i < |lines|
    ensures Terminated(lines[..i + 1]) == Terminated(lines[..i]) + lines[i] + "\n"
  {
    assert lines[..i + 1][..i] == lines[..i];
  }

  lemma RowLinesAt(kmers: seq<string>, counts: KmerTable, follow: FollowTable, i: nat)
    requires forall j :: 0 <= j < |kmers| ==> kmers[j] in counts
    requires i < |kmers|
    ensures RowLines(kmers, counts, follow)[i] == RowLine(kmers[i], counts[kmers[i]], FollowersOf(follow, kmers[i]))
  {
  }

  /** Line i + 1 of the report is the row of the i-th smallest k-mer. */
  lemma ReportLineAt(counts: KmerTable, follow: FollowTable, i: nat)
    requires i < |counts|
    ensures var ks := SortedKmers(counts);
            ReportLines(counts, follow)[i + 1] == RowLine(ks[i], counts[ks[i]], FollowersOf(follow, ks[i]))
  {
    var ks := SortedKmers(counts);
    var rows := RowLines(ks, counts, follow);
    assert ReportLines(counts, follow) == [HeaderLine] + rows;
    ConsAt(HeaderLine, rows, i);
    RowLinesAt(ks, counts, follow, i);
  }

  lemma ConsAt<T>(h: T, t: seq<T>, i: nat)
    requires i < |t|
    ensures ([h] + t)[i + 1] == t[i]
  {
  }

  /** The header alone is the first line of the report, terminated. */
  lemma WriteStart(counts: KmerTable, follow: FollowTable)
    ensures HeaderLine + "\n" == Terminated(ReportLines(counts, follow)[..1])
  {
    var lines := ReportLines(counts, follow);
    TerminatedStep(lines, 0);
    assert lines[..0] == [];
  }

  /** One iteration of the loop at kmer_analyzer.py:79-87 appends the next line of the report. */
  lemma WriteStep(counts: KmerTable, follow: FollowTable, i: nat, out: string, kmer: string, row: string)
    requires i < |counts| && kmer == SortedKmers(counts)[i]
    requires out == Terminated(ReportLines(counts, follow)[..i + 1])
    requires row == kmer + "\t" + NatToString(counts[kmer]) + "\t" + NextText(FollowersOf(follow, kmer))
    ensures out + row + "\n" == Terminated(ReportLines(counts, follow)[..i + 2])
  {
    ReportLineAt(counts, follow, i);
    TerminatedStep(ReportLines(counts, follow), i + 1);
  }

  /** After the last iteration every line has been written. */
  lemma WriteEnd(counts: KmerTable, follow: FollowTable, out: string)
    requires out == Terminated(ReportLines(counts, follow)[..|counts| + 1])
    ensures out == ReportText(counts, follow)
  {
    assert ReportLines(counts, follow)[..|counts| + 1] == ReportLines(counts, follow);
  }

  /** `write_output`: the header, then the loop at kmer_analyzer.py:79-87 appending one row per k-mer. */
  method WriteOutput(counts: KmerTable, follow: FollowTable) returns (out: string)
    ensures out == ReportText(counts, follow)
  {
    var kmers := SortedKmers(counts);
    out := HeaderLine + "\n";
    WriteStart(counts, follow);
    for i := 0 to |kmers|
      invariant out == Terminated(ReportLines(counts, follow)[..i + 1])
    {
      var kmer := kmers[i];
      var count := counts[kmer];
      var nextInfo := FollowersOf(follow, kmer);
      var nextStr := NextText(nextInfo);
      var row := kmer + "\t" + NatToString(count) + "\t" + nextStr;
      WriteStep(counts, follow, i, out, kmer, row);
      out := out + row + "\n";
    }
    WriteEnd(counts, follow, out);
  }

  /**
   * The report has one line more than the k-mer table has keys: the header,
   * then the row of each k-mer in strictly ascending order.
   */
  lemma ReportShape(counts: KmerTable, follow: FollowTable)
    ensures var lines := ReportLines(counts, follow);
            var ks := SortedKmers(counts);
            && |lines| == |counts| + 1
            && lines[0] == HeaderLine
            && StrictlySorted(ks, LexLess)
            && (forall w :: w in ks <==> w in counts)
            && forall i :: 0 <= i < |ks| ==>
                 lines[i + 1] == RowLine(ks[i], counts[ks[i]], FollowersOf(follow, ks[i]))
  {
    SortedKmersOrdered(counts);
    forall i | 0 <= i < |counts| {
      ReportLineAt(counts, follow, i);
    }
  }

  /** A k-mer with no inner table, or an empty one, gets an empty third field and keeps the tab before it. */
  lemma RowWithoutFollowers(kmer: string, count: nat, follow: FollowTable)
    requires kmer !in follow || follow[kmer] == map[]
    ensures RowLine(kmer, count, FollowersOf(follow, kmer)) == kmer + "\t" + NatToString(count) + "\t"
  {
    assert |SortedItems(FollowersOf(follow, kmer))| == 0;
  }

  /** The third field is empty exactly when the inner table is. */
  lemma NextTextEmpty(m: map<char, nat>)
    ensures NextText(m) == "" <==> m == map[]
  {
    var texts := PairTexts(SortedItems(m));
    if m != map[] {
      assert |texts[0]| >= 3;
      JoinStartsWithFirst(", ", texts);
    }
  }

  /** A non-empty join is at least as long as its first part. */
  lemma JoinStartsWithFirst(sep: string, parts: seq<string>)
    requires parts != []
    ensures |Join(sep, parts)| >= |parts[0]|
  {
  }

  /** With no k-mers the report is the header alone. */
  lemma ReportOfEmptyTable(follow: FollowTable)
    ensures ReportText(map[], follow) == HeaderLine + "\n"
  {
    var lines := ReportLines(map[], follow);
    assert lines == [HeaderLine];
    assert lines[..0] == [];
  }

  /** When no window fits, the analyzer writes only the header. */
  lemma ReportWhenKExceedsLength(s: string, k: nat)
    requires k > |s|
    ensures ReportText(KmerTableOf(s, k), FollowTableOf(s, k)) == HeaderLine + "\n"
  {
    KmerTableEmpty(s, k);
    ReportOfEmptyTable(FollowTableOf(s, k));
  }
}
