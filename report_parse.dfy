/**
 * Reading a report back. The text `write_output` produces determines, row by
 * row, the k-mer, its count and its follow pairs, provided no k-mer holds a
 * tab or a line feed and no following character is a line feed: splitting
 * at line feeds, then at the first two tabs of each row, then at the ", "
 * separators recovers exactly what was written, in the order it was written.
 */
module ReportParse {
  import opened Text
  import opened Order
  import opened KmerCounts
  import opened FollowCounts
  import opened Report

  datatype Option<T> = None | Some(value: T)

  /** One row of the report as read back: the k-mer, its count and its follow pairs. */
  datatype Row = Row(kmer: string, count: nat, next: seq<(char, nat)>)

  /** The index of the first c in s, or |s| when there is none. */
  function FindChar(s: string, c: char): (i: nat)
    ensures i <= |s|
    ensures i < |s| ==> s[i] == c
    ensures forall j :: 0 <= j < i ==> s[j] != c
  {
    if s == [] || s[0] == c then 0 else 1 + FindChar(s[1..], c)
  }

  /** `s.split(c)` for a one-character separator. */
  function Split(s: string, c: char): (parts: seq<string>)
    ensures |parts| >= 1
    decreases |s|
  {
    var i := FindChar(s, c);
    if i == |s| then [s] else [s[..i]] + Split(s[i + 1..], c)
  }

  /** The number of decimal digits at the start of s. */
  function DigitRun(s: string): (n: nat)
    ensures n <= |s|
    ensures forall i :: 0 <= i < n ==> IsDigit(s[i])
    ensures n < |s| ==> !IsDigit(s[n])
  {
    if s == [] || !IsDigit(s[0]) then 0 else 1 + DigitRun(s[1..])
  }

  /** One or more `c:n` pairs separated by ", ". */
  function ParsePairList(s: string): Option<seq<(char, nat)>>
    decreases |s|
  {
    if |s| < 2 || s[1] != ':' then None
    else
      var tail := s[2..];
      var n := DigitRun(tail);
      if n == 0 then None
      else
        var item := (s[0], DigitsValue(tail[..n]));
        var rest := tail[n..];
        if rest == [] then Some([item])
        else if |rest| < 2 || rest[..2] != ", " then None
        else
          match ParsePairList(rest[2..])
          case None => None
          case Some(items) => Some([item] + items)
  }

  /** The third field of a row: no pairs at all, or a list of them. */
  function ParseNext(s: string): Option<seq<(char, nat)>>
  {
    if s == [] then Some([]) else ParsePairList(s)
  }

  /** A row: the text before the first tab is the k-mer, the rest holds the count and the pairs. */
  function ParseRow(line: string): Option<Row>
  {
    var i := FindChar(line, '\t');
    if i == |line| then None else ParseCountAndNext(line[..i], line[i + 1..])
  }

  /** The rest of a row: the digits up to the next tab, then the pairs. */
  function ParseCountAndNext(kmer: string, rest: string): Option<Row>
  {
    var j := FindChar(rest, '\t');
    if j == |rest| || j == 0 || DigitRun(rest) != j then None
    else WithNext(kmer, DigitsValue(rest[..j]), ParseNext(rest[j + 1..]))
  }

  function WithNext(kmer: string, count: nat, next: Option<seq<(char, nat)>>): Option<Row>
  {
    match next
    case None => None
    case Some(items) => Some(Row(kmer, count, items))
  }

  function ParseRows(lines: seq<string>): Option<seq<Row>>
  {
    if lines == [] then Some([])
    else
      match ParseRow(lines[0])
      case None => None
      case Some(row) =>
        match ParseRows(lines[1..])
        case None => None
        case Some(rows) => Some([row] + rows)
  }

  /** A whole report: the header line, then rows, each line ended by a line feed. */
  function ParseReport(text: string): Option<seq<Row>>
  {
    var lines := Split(text, '\n');
    if |lines| < 2 || lines[0] != HeaderLine || lines[|lines| - 1] != "" then None
    else ParseRows(lines[1..|lines| - 1])
  }

  /** The k-mers of a sequence of rows. */
  function Kmers(rows: seq<Row>): (ks: seq<string>)
    ensures |ks| == |rows|
  {
    seq(|rows|, i requires 0 <= i < |rows| => rows[i].kmer)
  }

  /**
   * What a report says: one row per key of the k-mer table, in strictly
   * ascending order of k-mer, each with the k-mer's count and the entries of
   * its inner follow table in ascending order of character.
   */
  function RowsOf(counts: KmerTable, follow: FollowTable): (rows: seq<Row>)
    ensures |rows| == |counts|
    ensures Kmers(rows) == SortedKmers(counts)
    ensures StrictlySorted(Kmers(rows), LexLess)
    ensures forall w :: w in counts <==> w in Kmers(rows)
    ensures forall i :: 0 <= i < |rows| ==>
              && rows[i].kmer in counts
              && rows[i].count == counts[rows[i].kmer]
              && rows[i].next == SortedItems(FollowersOf(follow, rows[i].kmer))
  {
    SortedKmersOrdered(counts);
    var ks := SortedKmers(counts);
    var rows := seq(|ks|, i requires 0 <= i < |ks| => Row(ks[i], counts[ks[i]], SortedItems(FollowersOf(follow, ks[i]))));
    assert Kmers(rows) == ks;
    rows
  }

  /** The first c in a + [c] + b is the one after a, when a holds none. */
  lemma FindCharAfter(a: string, c: char, b: string)
    requires c !in a
    ensures FindChar(a + [c] + b, c) == |a|
  {
    var s := a + [c] + b;
    assert s[|a|] == c;
    assert forall j :: 0 <= j < |a| ==> s[j] == a[j];
  }

  /** A string of digits followed by a non-digit, or by nothing, is a digit run of its own length. */
  lemma {:induction false} DigitRunPrefix(d: string, t: string)
    requires forall i :: 0 <= i < |d| ==> IsDigit(d[i])
    requires t == [] || !IsDigit(t[0])
    ensures DigitRun(d + t) == |d|
  {
    if d != [] {
      assert (d + t)[1..] == d[1..] + t;
      DigitRunPrefix(d[1..], t);
    }
  }

  /** Terminated lines read from the front: the first line, its line feed, then the rest. */
  lemma {:induction false} TerminatedCons(line: string, rest: seq<string>)
    ensures Terminated([line] + rest) == line + "\n" + Terminated(rest)
    decreases |rest|
  {
    var xs := [line] + rest;
    if rest == [] {
      assert xs[..0] == [];
    } else {
      var n := |rest| - 1;
      assert xs[..|xs| - 1] == [line] + rest[..n];
      TerminatedCons(line, rest[..n]);
    }
  }

  /** Splitting a + [c] + b at c, when a holds no c, cuts off a. */
  lemma SplitAt(a: string, c: char, b: string)
    requires c !in a
    ensures Split(a + [c] + b, c) == [a] + Split(b, c)
  {
    var s := a + [c] + b;
    FindCharAfter(a, c, b);
    assert s[..|a|] == a;
    assert s[|a| + 1..] == b;
  }

  /** Splitting terminated lines at line feeds gives the lines back, and an empty last part. */
  lemma {:induction false} SplitTerminated(lines: seq<string>)
    requires forall i :: 0 <= i < |lines| ==> '\n' !in lines[i]
    ensures Split(Terminated(lines), '\n') == lines + [""]
  {
    if lines != [] {
      var rest := lines[1..];
      TerminatedCons(lines[0], rest);
      assert lines == [lines[0]] + rest;
      assert Terminated(lines) == lines[0] + ['\n'] + Terminated(rest);
      SplitAt(lines[0], '\n', Terminated(rest));
      SplitTerminated(rest);
      assert lines + [""] == [lines[0]] + (rest + [""]);
    }
  }

  /** The front of one written pair: its character, the colon, and digits that read back as its count. */
  lemma PairFront(c: char, v: nat, after: string)
    requires after == [] || !IsDigit(after[0])
    ensures var s := [c] + ":" + NatToString(v) + after;
            var tail := s[2..];
            && |s| >= 2 && s[0] == c && s[1] == ':'
            && DigitRun(tail) == |NatToString(v)|
            && DigitsValue(tail[..|NatToString(v)|]) == v
            && tail[|NatToString(v)|..] == after
  {
    var d := NatToString(v);
    var s := [c] + ":" + d + after;
    assert s[2..] == d + after;
    DigitRunPrefix(d, after);
    assert (d + after)[..|d|] == d;
    NatToStringRoundTrip(v);
  }

  /** The last pair of a list. */
  lemma ParseLastPair(c: char, v: nat)
    ensures ParsePairList(PairText(c, v)) == Some([(c, v)])
  {
    PairFront(c, v, []);
    assert PairText(c, v) == [c] + ":" + NatToString(v) + [];
  }

  /** A pair followed by the separator and more pairs. */
  lemma ParsePairThenMore(c: char, v: nat, more: string)
    requires ParsePairList(more).Some?
    ensures ParsePairList(PairText(c, v) + ", " + more) == Some([(c, v)] + ParsePairList(more).value)
  {
    var after := ", " + more;
    PairFront(c, v, after);
    assert PairText(c, v) + ", " + more == [c] + ":" + NatToString(v) + after;
    assert after[..2] == ", " && after[2..] == more;
  }

  /** Reading back a list of pairs written with `c:n` and ", ". */
  lemma {:induction false} ParsePairListJoin(items: seq<(char, nat)>)
    requires items != []
    ensures ParsePairList(Join(", ", PairTexts(items))) == Some(items)
    decreases |items|
  {
    var texts := PairTexts(items);
    var c, v := items[0].0, items[0].1;
    if |items| == 1 {
      ParseLastPair(c, v);
      assert Join(", ", texts) == texts[0] == PairText(c, v);
      assert items == [(c, v)];
    } else {
      var more := Join(", ", texts[1..]);
      assert Join(", ", texts) == PairText(c, v) + ", " + more;
      assert texts[1..] == PairTexts(items[1..]);
      ParsePairListJoin(items[1..]);
      ParsePairThenMore(c, v, more);
      assert items == [(c, v)] + items[1..];
    }
  }

  /** Reading back the third field of a row gives the sorted entries of the inner table. */
  lemma ParseNextText(m: map<char, nat>)
    ensures ParseNext(NextText(m)) == Some(SortedItems(m))
  {
    var items := SortedItems(m);
    if items == [] {
      assert PairTexts(items) == [];
    } else {
      ParsePairListJoin(items);
      NextTextEmpty(m);
    }
  }

  /** The decimal text of a number holds neither a tab nor a line feed. */
  lemma DigitsHaveNoBreaks(n: nat)
    ensures '\t' !in NatToString(n) && '\n' !in NatToString(n)
  {
    var d := NatToString(n);
    forall i | 0 <= i < |d| ensures d[i] != '\t' && d[i] != '\n' {
      assert IsDigit(d[i]);
    }
  }

  /** Cutting at the first separator c of a + [c] + b, when a holds no c. */
  lemma CutAt(a: string, c: char, b: string)
    requires c !in a
    ensures var s := a + [c] + b;
            FindChar(s, c) == |a| && s[..|a|] == a && s[|a| + 1..] == b
  {
    FindCharAfter(a, c, b);
    var s := a + [c] + b;
    assert s[..|a|] == a;
    assert s[|a| + 1..] == b;
  }

  /** The count field: digits, then the tab. */
  lemma CountField(d: string, n: string)
    requires d != [] && forall i :: 0 <= i < |d| ==> IsDigit(d[i])
    ensures var rest := d + "\t" + n;
            FindChar(rest, '\t') == |d| && DigitRun(rest) == |d| && rest[..|d|] == d && rest[|d| + 1..] == n
  {
    assert '\t' !in d by {
      forall i | 0 <= i < |d| ensures d[i] != '\t' {
        assert IsDigit(d[i]);
      }
    }
    CutAt(d, '\t', n);
    DigitRunPrefix(d, "\t" + n);
    assert d + "\t" + n == d + ['\t'] + n == d + ("\t" + n);
  }

  /** A row splits at the tab after the k-mer and the tab after the digits. */
  lemma ParseRowPieces(kmer: string, d: string, n: string)
    requires '\t' !in kmer
    requires d != [] && forall i :: 0 <= i < |d| ==> IsDigit(d[i])
    ensures ParseRow(kmer + ['\t'] + (d + "\t" + n)) == WithNext(kmer, DigitsValue(d), ParseNext(n))
  {
    var rest := d + "\t" + n;
    ParseRowFirstTab(kmer, rest);
    ParseCountField(kmer, d, n);
  }

  lemma ParseRowFirstTab(kmer: string, rest: string)
    requires '\t' !in kmer
    ensures ParseRow(kmer + ['\t'] + rest) == ParseCountAndNext(kmer, rest)
  {
    CutAt(kmer, '\t', rest);
  }

  lemma ParseCountField(kmer: string, d: string, n: string)
    requires d != [] && forall i :: 0 <= i < |d| ==> IsDigit(d[i])
    ensures ParseCountAndNext(kmer, d + "\t" + n) == WithNext(kmer, DigitsValue(d), ParseNext(n))
  {
    CountField(d, n);
  }

  /** Reading back one row. */
  lemma ParseRowLine(kmer: string, count: nat, next: map<char, nat>)
    requires '\t' !in kmer
    ensures ParseRow(RowLine(kmer, count, next)) == Some(Row(kmer, count, SortedItems(next)))
  {
    var d, n := NatToString(count), NextText(next);
    assert RowLine(kmer, count, next) == kmer + ['\t'] + (d + "\t" + n);
    ParseNextText(next);
    ParseRowPieces(kmer, d, n);
    NatToStringRoundTrip(count);
  }

  /** A row that reads back, followed by rows that read back. */
  lemma ParseRowsCons(lines: seq<string>, row: Row, rest: seq<Row>)
    requires lines != []
    requires ParseRow(lines[0]) == Some(row)
    requires ParseRows(lines[1..]) == Some(rest)
    ensures ParseRows(lines) == Some([row] + rest)
  {
  }

  /** Rows that each read back read back together. */
  lemma {:induction false} ParseRowsEach(lines: seq<string>, rows: seq<Row>)
    requires |lines| == |rows|
    requires forall i :: 0 <= i < |lines| ==> ParseRow(lines[i]) == Some(rows[i])
    ensures ParseRows(lines) == Some(rows)
  {
    if lines != [] {
      var lines', rows' := lines[1..], rows[1..];
      forall i | 0 <= i < |lines'| ensures ParseRow(lines'[i]) == Some(rows'[i]) {
        assert lines'[i] == lines[i + 1] && rows'[i] == rows[i + 1];
      }
      ParseRowsEach(lines', rows');
      ParseRowsCons(lines, rows[0], rows');
      assert rows == [rows[0]] + rows';
    }
  }

  /** A join of parts free of c with a separator free of c is free of c. */
  lemma {:induction false} JoinAvoids(sep: string, parts: seq<string>, c: char)
    requires c !in sep
    requires forall i :: 0 <= i < |parts| ==> c !in parts[i]
    ensures c !in Join(sep, parts)
  {
    if |parts| > 1 {
      JoinAvoids(sep, parts[1..], c);
    }
  }

  /** The third field holds a line feed only if the inner table has it as a key. */
  lemma NextTextHasNoLineFeed(m: map<char, nat>)
    requires '\n' !in m
    ensures '\n' !in NextText(m)
  {
    var items := SortedItems(m);
    var texts := PairTexts(items);
    forall i | 0 <= i < |texts| ensures '\n' !in texts[i] {
      DigitsHaveNoBreaks(items[i].1);
      assert texts[i] == [items[i].0] + ":" + NatToString(items[i].1);
    }
    JoinAvoids(", ", texts, '\n');
  }

  /** No k-mer holds a tab or a line feed, and no follow character is a line feed. */
  ghost predicate Writable(counts: KmerTable, follow: FollowTable)
  {
    && (forall w :: w in counts ==> '\t' !in w && '\n' !in w)
    && (forall w :: w in counts ==> '\n' !in FollowersOf(follow, w))
  }

  lemma HeaderHasNoLineFeed()
    ensures '\n' !in HeaderLine
  {
    var h := HeaderLine;
    forall i | 0 <= i < |h| ensures h[i] != '\n' {
    }
  }

  /** A row line holds a line feed only if its k-mer or a follow character does. */
  lemma RowLineHasNoLineFeed(kmer: string, count: nat, next: map<char, nat>)
    requires '\n' !in kmer && '\n' !in next
    ensures '\n' !in RowLine(kmer, count, next)
  {
    var d, n := NatToString(count), NextText(next);
    assert RowLine(kmer, count, next) == kmer + ['\t'] + (d + "\t" + n);
    DigitsHaveNoBreaks(count);
    NextTextHasNoLineFeed(next);
  }

  /** Line i of the report of writable tables is free of line feeds. */
  lemma ReportLineHasNoLineFeed(counts: KmerTable, follow: FollowTable, i: nat)
    requires Writable(counts, follow)
    requires i < |counts| + 1
    ensures '\n' !in ReportLines(counts, follow)[i]
  {
    if i == 0 {
      HeaderHasNoLineFeed();
    } else {
      var w := SortedKmers(counts)[i - 1];
      assert w in counts;
      ReportLineAt(counts, follow, i - 1);
      RowLineHasNoLineFeed(w, counts[w], FollowersOf(follow, w));
    }
  }

  /** Every line of the report of writable tables is free of line feeds. */
  lemma ReportLinesHaveNoLineFeed(counts: KmerTable, follow: FollowTable)
    requires Writable(counts, follow)
    ensures var lines := ReportLines(counts, follow);
            forall i :: 0 <= i < |lines| ==> '\n' !in lines[i]
  {
    forall i | 0 <= i < |ReportLines(counts, follow)| ensures '\n' !in ReportLines(counts, follow)[i] {
      ReportLineHasNoLineFeed(counts, follow, i);
    }
  }

  /** Splitting a terminated header-first text at its line feeds and reading the rows in between. */
  lemma ParseTerminated(lines: seq<string>)
    requires |lines| >= 1 && lines[0] == HeaderLine
    requires forall i :: 0 <= i < |lines| ==> '\n' !in lines[i]
    ensures ParseReport(Terminated(lines)) == ParseRows(lines[1..])
  {
    SplitTerminated(lines);
    var parts := lines + [""];
    assert parts[0] == HeaderLine;
    assert parts[1..|parts| - 1] == lines[1..];
  }

  /** The row lines of the report read back as the table rows. */
  lemma ReportRowsReadBack(counts: KmerTable, follow: FollowTable)
    requires forall w :: w in counts ==> '\t' !in w
    ensures ParseRows(ReportLines(counts, follow)[1..]) == Some(RowsOf(counts, follow))
  {
    var rowLines := ReportLines(counts, follow)[1..];
    var ks := SortedKmers(counts);
    var rows := RowsOf(counts, follow);
    forall i | 0 <= i < |rowLines| ensures ParseRow(rowLines[i]) == Some(rows[i]) {
      ReportLineAt(counts, follow, i);
      ParseRowLine(ks[i], counts[ks[i]], FollowersOf(follow, ks[i]));
    }
    ParseRowsEach(rowLines, rows);
  }

  /**
   * The report of writable tables reads back as exactly its rows: one per
   * k-mer, ascending, each with its count and its sorted follow pairs.
   */
  lemma ReportRoundTrip(counts: KmerTable, follow: FollowTable)
    requires Writable(counts, follow)
    ensures ParseReport(ReportText(counts, follow)) == Some(RowsOf(counts, follow))
  {
    ReportLinesHaveNoLineFeed(counts, follow);
    ReportShape(counts, follow);
    ParseTerminated(ReportLines(counts, follow));
    ReportRowsReadBack(counts, follow);
  }

  /** The tables built from a sequence without tabs and line feeds are writable. */
  lemma AnalysisIsWritable(s: string, k: nat)
    requires '\t' !in s && '\n' !in s
    ensures Writable(KmerTableOf(s, k), FollowTableOf(s, k))
  {
    var counts, follow := KmerTableOf(s, k), FollowTableOf(s, k);
    forall w | w in counts ensures '\t' !in w && '\n' !in w {
      KmerTablePositional(s, k, w);
      var i :| i in Starts(s, k, w, ScanLength(s, k));
      forall p | 0 <= p < |w| ensures w[p] != '\t' && w[p] != '\n' {
        assert w[p] == s[i + p];
      }
    }
    forall w, c | w in counts && c in FollowersOf(follow, w) ensures c != '\n' {
      FollowTablePositional(s, k, w, c);
      var i :| i in FollowStarts(s, k, w, c, FollowScanLength(s, k));
      assert s[i + k] == c;
    }
  }

  /** The report of an analysis of such a sequence reads back as the table rows of that analysis. */
  lemma AnalysisReportRoundTrip(s: string, k: nat)
    requires '\t' !in s && '\n' !in s
    ensures ParseReport(ReportText(KmerTableOf(s, k), FollowTableOf(s, k)))
            == Some(RowsOf(KmerTableOf(s, k), FollowTableOf(s, k)))
  {
    AnalysisIsWritable(s, k);
    ReportRoundTrip(KmerTableOf(s, k), FollowTableOf(s, k));
  }
}
