/**
 * The examples of the repository's test suite (test_kmer_analyzer.py),
 * stated about the model.
 */
module Examples {
  import opened Text
  import opened Order
  import opened KmerCounts
  import opened FollowCounts
  import opened Report
  import opened ReportParse

  /** `test_get_kmer_counts_typical`: "ACGACG" with k = 3. */
  lemma KmerCountsTypical()
    ensures KmerTableOf("ACGACG", 3) == map["ACG" := 2, "CGA" := 1, "GAC" := 1]
  {
    var s := "ACGACG";
    assert Window(s, 3, 0) == "ACG" && Window(s, 3, 1) == "CGA" && Window(s, 3, 2) == "GAC" && Window(s, 3, 3) == "ACG";
    assert CountsFold(s, 3, 1) == map["ACG" := 1];
    assert CountsFold(s, 3, 2) == map["ACG" := 1, "CGA" := 1];
    assert CountsFold(s, 3, 3) == map["ACG" := 1, "CGA" := 1, "GAC" := 1];
    CountsFoldIsPositional(s, 3, 4);
  }

  /** `test_get_kmer_counts_edge_k_too_large`: "ACG" with k = 5. */
  lemma KmerCountsKTooLarge()
    ensures KmerTableOf("ACG", 5) == map[]
  {
    KmerTableEmpty("ACG", 5);
  }

  /** `test_get_following_counts_typical`: "ACGTG" with k = 2. */
  lemma FollowCountsTypical()
    ensures FollowTableOf("ACGTG", 2) == map["AC" := map['G' := 1], "CG" := map['T' := 1], "GT" := map['G' := 1]]
  {
    var s := "ACGTG";
    assert Window(s, 2, 0) == "AC" && Window(s, 2, 1) == "CG" && Window(s, 2, 2) == "GT";
    assert FollowFold(s, 2, 1) == map["AC" := map['G' := 1]];
    assert FollowFold(s, 2, 2) == map["AC" := map['G' := 1], "CG" := map['T' := 1]];
    FollowFoldIsPositional(s, 2, 3);
  }

  /** `test_get_following_counts_edge_no_follow`: the last window of "AAA" has no follower. */
  lemma FollowCountsNoFollow()
    ensures FollowTableOf("AAA", 2) == map["AA" := map['A' := 1]]
  {
    var s := "AAA";
    assert Window(s, 2, 0) == "AA";
    FollowFoldIsPositional(s, 2, 1);
  }

  /** A table with two keys, a before b, is written in the order a, b. */
  lemma SortedKmersOfTwo(counts: KmerTable, a: string, b: string)
    requires counts.Keys == {a, b} && LexLess(a, b)
    ensures SortedKmers(counts) == [a, b]
  {
    LexLessIsStrictTotalOrder();
    SortedSetCharacterized(counts.Keys, [a, b], LexLess);
  }

  /** An inner table with one entry lists that entry. */
  lemma SortedItemsOfOne(c: char, n: nat)
    ensures SortedItems(map[c := n]) == [(c, n)]
  {
    var items := SortedItems(map[c := n]);
    assert items[0].0 == c;
  }

  /** The first row of `test_write_output`. */
  lemma FirstRowOfTest()
    ensures RowLine("AA", 3, map['A' := 3]) == "AA\t3\tA:3"
  {
    SortedItemsOfOne('A', 3);
    var r := RowLine("AA", 3, map['A' := 3]);
    assert NextText(map['A' := 3]) == "A:3";
  }

  /** The second row of `test_write_output`: no follow pairs, and the tab before them is kept. */
  lemma SecondRowOfTest()
    ensures RowLine("AC", 1, map[]) == "AC\t1\t"
  {
    NextTextEmpty(map[]);
  }

  lemma TwoKeys(counts: KmerTable, a: string, b: string)
    requires counts.Keys == {a, b} && a != b
    ensures |counts| == 2
  {
    assert |counts.Keys| == |counts|;
  }

  lemma Three<T>(s: seq<T>, x: T, y: T, z: T)
    requires |s| == 3 && s[0] == x && s[1] == y && s[2] == z
    ensures s == [x, y, z]
  {
  }

  /** The report of a table with two keys, a before b. */
  lemma ReportLinesOfTwo(counts: KmerTable, follow: FollowTable, a: string, b: string)
    requires counts.Keys == {a, b} && LexLess(a, b)
    ensures ReportLines(counts, follow)
            == [HeaderLine, RowLine(a, counts[a], FollowersOf(follow, a)), RowLine(b, counts[b], FollowersOf(follow, b))]
  {
    LexLessIrreflexive(a);
    TwoKeys(counts, a, b);
    var lines := ReportLines(counts, follow);
    SortedKmersOfTwo(counts, a, b);
    ReportLineAt(counts, follow, 0);
    ReportLineAt(counts, follow, 1);
    assert lines[0] == HeaderLine;
    Three(lines, HeaderLine, RowLine(a, counts[a], FollowersOf(follow, a)), RowLine(b, counts[b], FollowersOf(follow, b)));
  }

  /** The lines `write_output` produces for the tables of `test_write_output`. */
  lemma ReportLinesOfTest()
    ensures ReportLines(map["AA" := 3, "AC" := 1], map["AA" := map['A' := 3], "AC" := map[]])
            == [HeaderLine, "AA\t3\tA:3", "AC\t1\t"]
  {
    var counts: KmerTable := map["AA" := 3, "AC" := 1];
    var follow: FollowTable := map["AA" := map['A' := 3], "AC" := map[]];
    assert LexLess("AA", "AC");
    ReportLinesOfTwo(counts, follow, "AA", "AC");
    assert FollowersOf(follow, "AA") == map['A' := 3] && FollowersOf(follow, "AC") == map[];
    FirstRowOfTest();
    SecondRowOfTest();
  }

  /** Three terminated lines. */
  lemma TerminatedThree(a: string, b: string, c: string)
    ensures Terminated([a, b, c]) == a + "\n" + b + "\n" + c + "\n"
  {
    var lines := [a, b, c];
    TerminatedStep(lines, 0);
    TerminatedStep(lines, 1);
    TerminatedStep(lines, 2);
    assert lines[..0] == [] && lines[..3] == lines;
  }

  /** The text of the output file of `test_write_output`. */
  lemma ReportTextOfTest()
    ensures ReportText(map["AA" := 3, "AC" := 1], map["AA" := map['A' := 3], "AC" := map[]])
            == HeaderLine + "\n" + "AA\t3\tA:3" + "\n" + "AC\t1\t" + "\n"
  {
    ReportLinesOfTest();
    TerminatedThree(HeaderLine, "AA\t3\tA:3", "AC\t1\t");
  }

  /** Stripping a text whose ends are not whitespace, followed by whitespace, gives the text. */
  lemma StripTrailing(p: string, tail: string)
    requires p != [] && !IsSpace(p[0]) && !IsSpace(p[|p| - 1])
    requires forall i :: 0 <= i < |tail| ==> IsSpace(tail[i])
    ensures Strip(p + tail) == p
  {
    var s := p + tail;
    assert forall i :: |p| <= i < |s| ==> s[i] == tail[i - |p|];
    StripIsUniqueInfix(s, 0, |p|);
    assert s[0..|p|] == p;
  }

  /** A text without c is one part. */
  lemma SplitWithout(s: string, c: char)
    requires c !in s
    ensures Split(s, c) == [s]
  {
  }

  lemma SplitThree(a: string, b: string, c: string)
    requires '\n' !in a && '\n' !in b && '\n' !in c
    ensures Split(a + ['\n'] + (b + ['\n'] + c), '\n') == [a, b, c]
  {
    SplitAt(a, '\n', b + ['\n'] + c);
    SplitAt(b, '\n', c);
    SplitWithout(c, '\n');
  }

  lemma StripThree(a: string, b: string, c: string)
    requires a != [] && !IsSpace(a[0]) && c != [] && !IsSpace(c[|c| - 1])
    ensures Strip(a + ['\n'] + (b + ['\n'] + c) + "\t\n") == a + ['\n'] + (b + ['\n'] + c)
  {
    var p := a + ['\n'] + (b + ['\n'] + c);
    assert p[0] == a[0];
    assert p[|p| - 1] == c[|c| - 1];
    StripTrailing(p, "\t\n");
  }

  lemma RegroupThree(a: string, b: string, c: string)
    ensures a + "\n" + b + "\n" + (c + "\t") + "\n" == a + ['\n'] + (b + ['\n'] + c) + "\t\n"
  {
  }

  /** Three terminated lines, the last ending in a tab, as read back after `strip()` and `split("\n")`. */
  lemma StripSplitTerminated(a: string, b: string, c: string)
    requires '\n' !in a && '\n' !in b && '\n' !in c
    requires a != [] && !IsSpace(a[0]) && c != [] && !IsSpace(c[|c| - 1])
    ensures Split(Strip(Terminated([a, b, c + "\t"])), '\n') == [a, b, c]
  {
    TerminatedThree(a, b, c + "\t");
    RegroupThree(a, b, c);
    StripThree(a, b, c);
    SplitThree(a, b, c);
  }

  /**
   * What the test reads back: after `strip()` and `split("\n")` the last row
   * is "AC\t1", because `strip()` also removes the tab the code writes at the
   * end of that row.
   */
  lemma ReportTextAsTestReadsIt()
    ensures var text := ReportText(map["AA" := 3, "AC" := 1], map["AA" := map['A' := 3], "AC" := map[]]);
            Split(Strip(text), '\n') == [HeaderLine, "AA\t3\tA:3", "AC\t1"]
  {
    ReportLinesOfTest();
    var r1, r2 := "AA\t3\tA:3", "AC\t1";
    var last := "AC\t1\t";
    assert last[..4] == r2 && last == last[..4] + "\t";
    assert [HeaderLine, r1, last] == [HeaderLine, r1, r2 + "\t"];
    HeaderHasNoLineFeed();
    assert '\n' !in r1 && '\n' !in r2;
    assert !IsSpace(HeaderLine[0]) && !IsSpace(r2[3]);
    StripSplitTerminated(HeaderLine, r1, r2);
  }
}
