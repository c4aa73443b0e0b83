# k-mer analyzer, modelled in Dafny

`kmer_analyzer.py` reads a DNA sequence from a text file and runs two scans over it:

- It counts every k-mer, meaning every length-k window `sequence[i:i+k]`.
- It counts, per k-mer, each character that immediately follows that window.

It then writes a tab-separated report. The report has a header row, then one row per k-mer in ascending
string order, holding the k-mer, its count and its `c:n` follow pairs in ascending character order.

This project models those four pieces and proves what they promise:

- **`read_sequence`.** Each line is stripped of surrounding whitespace, the pieces are joined and the
  result is upper-cased (module `Loader`, with `str.strip()` and `str.upper()` in `Text`).
- **`get_kmer_counts`.** Modelled as a method with the source's loop (`KmerCounts.GetKmerCounts`). It is
  proved equal to a *positional* table: the count of w is the number of start indices at which w
  occurs. A compilable left fold of the loop's update is a second, independent definition, and it is
  proved equal too.
- **`get_following_counts`.** Modelled as a method with the source's loop, including the creation of an
  empty inner dictionary on first sight of a k-mer (`FollowCounts.GetFollowingCounts`). It is proved
  against a positional table and a fold in the same way.
- **`write_output`.** Modelled as a method that builds the file's text row by row
  (`Report.WriteOutput`). It is proved equal to a specification of the report's lines. `sorted` is a
  generic sort of a finite set under a strict total order (`Order`). Python's `<` on strings is
  lexicographic code-point order, which `Order.LexLess` states.

Beyond the shapes of the single tables, the project proves:

- **Consistency between the two tables** (`Consistency`). The follow scan stops one index before the
  k-mer scan, so per k-mer the follow counts add up to the k-mer count. The one exception is the window
  that ends the sequence, which is one short. The follow keys are k-mer keys. The grand totals are
  n − k + 1 and n − k, or 0.
- **A read-back of the report** (`ReportParse`). The report is split at line feeds, each row at its
  first two tabs, and the third field at `", "`. This recovers exactly the rows written, in order,
  provided no k-mer holds a tab or a line feed and no follow character is a line feed. Every
  analysis of a sequence without tabs and line feeds meets that condition.

The examples of `test_kmer_analyzer.py` are stated as lemmas of module `Examples`.

The code and a comment of the test suite disagree about the last field of a row. The model follows the
code:

- A k-mer with an empty inner follow table is written with an empty third field, so its row ends in a
  tab (`"AC\t1\t"`, see `Examples.SecondRowOfTest`).
- The comment at `test_kmer_analyzer.py:98` says such a row has no trailing tab.
- The assertion on that line holds only because the test calls `.strip()` on the whole file text
  before splitting it. The file ends with that row, and `.strip()` removes the final tab together with
  the final line feed. `Examples.ReportTextAsTestReadsIt` proves exactly that reading.

Integers are unbounded in Python, and so they are here. `k` is a `nat`: for `k = 0` Python counts
the empty window n + 1 times, and the model does the same, with no precondition.

## Model

| member | source | states |
|---|---|---|
| `KmerCounts.GetKmerCounts` | kmer_analyzer.py:21-36 | the loop returns exactly the positional table: each window of length k that occurs maps to its number of start indices among the n − k + 1 visited |
| `KmerCounts.KmerTablePositional` | kmer_analyzer.py:33-35 | w is a key iff it occurs at some start index; a key has length k and its count is the number of start indices where it occurs |
| `KmerCounts.KmerTotal` | kmer_analyzer.py:33-35 | the counts add up to n − k + 1, or to 0 when k > n |
| `KmerCounts.CountsBeforeTotal` | kmer_analyzer.py:33-35 | after the scan has visited `end` start indices, the counts add up to `end` |
| `KmerCounts.KmerTableEmpty` | kmer_analyzer.py:33 | when k exceeds the sequence length the table is empty |
| `KmerCounts.CountsFoldIsPositional` | kmer_analyzer.py:33-35 | folding `counts[kmer] = counts.get(kmer, 0) + 1` over the windows in order gives the positional table at every point of the scan |
| `Sums.SumBump` | kmer_analyzer.py:35 | one `get(x, 0) + 1` update raises the sum of the counts by exactly one |
| `Sums.SumRemove` | kmer_analyzer.py:35 | the sum of a table's counts does not depend on the order its keys are taken in |
| `FollowCounts.GetFollowingCounts` | kmer_analyzer.py:39-62 | the loop returns exactly the positional follow table over the n − k start indices that have a next character |
| `FollowCounts.LoopStep` | kmer_analyzer.py:56-60 | creating the inner table on first sight and then bumping the next character's count advances the table by exactly one start index |
| `FollowCounts.FollowTablePositional` | kmer_analyzer.py:52-60 | (w, c) is in the table iff some visited start index has window w followed by c, and its count is the number of such indices |
| `FollowCounts.FollowTableShape` | kmer_analyzer.py:56-60 | every key is a window of length k whose inner table is non-empty with only positive counts |
| `FollowCounts.FollowTableEmpty` | kmer_analyzer.py:52 | when k is at least the sequence length the follow table is empty |
| `FollowCounts.FollowFoldIsPositional` | kmer_analyzer.py:52-60 | folding one iteration's update over the start indices in order gives the positional follow table at every point of the scan |
| `Consistency.TotalsOfFollowTable` | kmer_analyzer.py:33-60 | per window, the follow counts add up to the k-mer count of a scan one start index shorter |
| `Consistency.FollowSumMatchesCount` | kmer_analyzer.py:33-60 | for every k-mer, its follow counts plus one for the window s[n−k..n] and zero for every other window equal its k-mer count |
| `Consistency.FollowGrandTotal` | kmer_analyzer.py:52-60 | all follow counts add up to n − k, or to 0 when k ≥ n |
| `Consistency.FollowKeysInKmerTable` | kmer_analyzer.py:33-60 | every key of the follow table is a key of the k-mer table |
| `Text.TrimStartAt` | kmer_analyzer.py:17 | `lstrip` removes exactly the leading run of whitespace |
| `Text.TrimEndAt` | kmer_analyzer.py:17 | `rstrip` removes exactly the trailing run of whitespace |
| `Text.StripIsUniqueInfix` | kmer_analyzer.py:17 | `strip` returns the one infix with only whitespace outside it and no whitespace at either of its ends, or empty |
| `Text.StripShape` | kmer_analyzer.py:17 | the stripped line is an infix of the line, no longer than it, with no whitespace at either end |
| `Text.StripIdempotent` | kmer_analyzer.py:17 | stripping twice is stripping once |
| `Text.UpperIsUpper` | kmer_analyzer.py:18 | no lower-case ASCII letter survives `upper`, and `upper` is idempotent |
| `Text.UpperKeeps` | kmer_analyzer.py:18 | `upper` leaves text without lower-case ASCII letters unchanged |
| `Text.UpperAppend` | kmer_analyzer.py:18 | `upper` distributes over concatenation |
| `Text.NatToString` | kmer_analyzer.py:87 | the decimal text of a count is non-empty, all digits, and has no leading zero unless the count is 0 |
| `Text.NatToStringRoundTrip` | kmer_analyzer.py:87 | reading the decimal text of a count back gives the count |
| `Text.NatToStringInjective` | kmer_analyzer.py:87 | different counts are written differently |
| `Loader.ReadSequence` | kmer_analyzer.py:17-18 | the sequence read holds no lower-case ASCII letter |
| `Loader.ReadSequenceAppend` | kmer_analyzer.py:17-18 | reading two runs of lines gives the two sequences concatenated, in order |
| `Loader.ReadSequenceOneLine` | kmer_analyzer.py:17-18 | one line contributes its stripped, upper-cased text |
| `Loader.ReadSequenceEmpty` | kmer_analyzer.py:17-18 | an empty file gives the empty sequence |
| `Loader.StrippedFileLineHasNoLineFeed` | kmer_analyzer.py:17 | a file line, whose only possible line feed is its last character, has none left after `strip` |
| `Loader.ReadSequenceHasNoLineFeed` | kmer_analyzer.py:15-18 | the sequence read from the lines of a text file holds no line feed |
| `Loader.ReadLineWithoutSpaces` | kmer_analyzer.py:17-18 | a line of upper-case text without whitespace, ended by a line feed, is read as that text |
| `Loader.ReadSequenceExample` | test_kmer_analyzer.py:14-18 | the lines "ACG\n" and "TTG\n" give "ACGTTG" |
| `Order.LexLessIsStrictTotalOrder` | kmer_analyzer.py:79 | Python's order on strings is irreflexive, transitive and total |
| `Order.SortedSet` | kmer_analyzer.py:79 | `sorted` of a set of distinct keys lists each key exactly once, in strictly ascending order |
| `Order.SortedSetCharacterized` | kmer_analyzer.py:79 | that listing is the only strictly ascending listing of the set |
| `Report.SortedKmersOrdered` | kmer_analyzer.py:79 | the k-mers are written in strictly ascending string order, each key of the table exactly once |
| `Report.SortedItems` | kmer_analyzer.py:84 | the follow pairs of a k-mer are its inner table's entries, each once, in strictly ascending character order |
| `Report.WriteOutput` | kmer_analyzer.py:65-87 | the loop writes exactly the header line and then the row of each k-mer in sorted order, each ended by a line feed |
| `Report.WriteStep` | kmer_analyzer.py:79-87 | one iteration appends the next line of the report and its line feed |
| `Report.ReportShape` | kmer_analyzer.py:76-87 | the report has one line more than the table has keys: the header, then the row of each k-mer in strictly ascending order |
| `Report.ReportLineAt` | kmer_analyzer.py:79-87 | line i + 1 of the report is the row of the i-th smallest k-mer |
| `Report.RowWithoutFollowers` | kmer_analyzer.py:81-87 | a k-mer missing from the follow table, or with an empty inner table, gets an empty third field and keeps the tab before it |
| `Report.NextTextEmpty` | kmer_analyzer.py:84 | the third field is empty exactly when the inner table is empty |
| `Report.ReportOfEmptyTable` | kmer_analyzer.py:76-79 | with no k-mers the report is the header line alone |
| `Report.ReportWhenKExceedsLength` | kmer_analyzer.py:76-79 | when k exceeds the sequence length the analyzer writes only the header line |
| `ReportParse.RowsOf` | kmer_analyzer.py:79-87 | the rows a report states: one per key, strictly ascending by k-mer, each with its count and its inner table's entries in ascending character order |
| `ReportParse.ParsePairListJoin` | kmer_analyzer.py:84 | a non-empty list of `c:n` pairs joined by ", " reads back as that list |
| `ReportParse.ParseNextText` | kmer_analyzer.py:84 | the third field reads back as the sorted entries of the inner table |
| `ReportParse.ParseRowLine` | kmer_analyzer.py:87 | a row whose k-mer has no tab reads back as its k-mer, its count and its sorted follow pairs |
| `ReportParse.ReportRoundTrip` | kmer_analyzer.py:74-87 | the text of the report of writable tables reads back as exactly the rows it states |
| `ReportParse.AnalysisIsWritable` | kmer_analyzer.py:33-60 | the tables of a sequence without tabs and line feeds have no such characters in keys or follow characters |
| `ReportParse.AnalysisReportRoundTrip` | kmer_analyzer.py:110-116 | the report of the analysis of such a sequence reads back as the rows of its two tables |
| `Examples.KmerCountsTypical` | test_kmer_analyzer.py:29-32 | "ACGACG" with k = 3 gives ACG: 2, CGA: 1, GAC: 1 |
| `Examples.KmerCountsKTooLarge` | test_kmer_analyzer.py:43-45 | "ACG" with k = 5 gives the empty table |
| `Examples.FollowCountsTypical` | test_kmer_analyzer.py:56-63 | "ACGTG" with k = 2 gives AC: {G: 1}, CG: {T: 1}, GT: {G: 1} |
| `Examples.FollowCountsNoFollow` | test_kmer_analyzer.py:74-77 | "AAA" with k = 2 gives AA: {A: 1}; the last window has no follower |
| `Examples.SortedKmersOfTwo` | kmer_analyzer.py:79 | a table with two keys a < b is written in the order a, b |
| `Examples.FirstRowOfTest` | test_kmer_analyzer.py:97 | the row of AA with count 3 and inner table {A: 3} is "AA\t3\tA:3" |
| `Examples.SecondRowOfTest` | kmer_analyzer.py:84-87 | the row of AC with count 1 and no follow pairs is "AC\t1\t", with its trailing tab |
| `Examples.ReportLinesOfTest` | test_kmer_analyzer.py:90-93 | the tables of the write test give the lines header, "AA\t3\tA:3", "AC\t1\t" |
| `Examples.ReportTextOfTest` | test_kmer_analyzer.py:90-93 | the file written for those tables is the three lines, each ended by a line feed |
| `Examples.ReportTextAsTestReadsIt` | test_kmer_analyzer.py:95-98 | after `strip()` and `split("\n")` that text is header, "AA\t3\tA:3", "AC\t1": the final tab is lost to `strip` |

## Left out

- Opening and reading the input file (kmer_analyzer.py:15) is not modelled: the file's lines are the input of `Loader.ReadSequence`. How a file is cut into lines, with the line feed kept on each line, is the premise `Loader.IsFileLine`.
- Opening and writing the output file (kmer_analyzer.py:74) is not modelled either: `Report.WriteOutput` returns the text the file ends up holding.
- `main` (kmer_analyzer.py:90-120) is left out: argument checking, `int(sys.argv[2])`, `sys.exit` and the two summary `print` lines are I/O. Its pipeline is stated as `ReportParse.AnalysisReportRoundTrip`.
- A negative k is not modelled, because k is a `nat`. With a negative k Python's slices count from the end of the string, which the program evidently does not intend.
- `Text.UpperChar`: `str.upper()` is modelled for ASCII letters only. Other letters, and the ones whose upper case is longer than one character, are left as they are.
- `Text.IsSpace` is a fixed list of the characters for which Python's `str.isspace()` holds. No Unicode database is consulted.
- `ReportParse.ReportRoundTrip` requires the tables to be writable: no tab or line feed in a k-mer and no line feed as a follow character. Without that, the text does not determine the rows. `ReportParse.AnalysisIsWritable` shows that any sequence without tabs and line feeds qualifies, and `Loader.ReadSequenceHasNoLineFeed` shows that a sequence read from a file has no line feed.
- `ReportParse.ParseReport` reads a report as this model writes it. It is not a general TSV reader, and it does not model the `read_text` and `strip` / `split` of the tests, except in `Examples.ReportTextAsTestReadsIt`.
