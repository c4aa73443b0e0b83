/**
 * The k-mer counter (`get_kmer_counts`): one left-to-right scan over the
 * sequence that bumps, for every start index i, the count of the window
 * s[i..i+k] in a dictionary.
 *
 * The specification is positional: the count of w is the number of start
 * indices at which w occurs.
 */
module KmerCounts {
  import opened Sums

  type KmerTable = map<string, nat>

  /** The length-k window starting at index i: `sequence[i:i + k]`. */
  function Window(s: string, k: nat, i: nat): string
    requires i + k <= |s|
  {
    s[i..i + k]
  }

  /** Start indices below `end` at which the whole window s[i..i+k] lies in s and spells w. */
  ghost function Starts(s: string, k: nat, w: string, end: int): set<int>
  {
    set i | 0 <= i < end && i + k <= |s| && Window(s, k, i) == w
  }

  /** The windows that start below `end`. */
  ghost function WindowsBefore(s: string, k: nat, end: int): set<string>
  {
    set i | 0 <= i < end && i + k <= |s| :: Window(s, k, i)
  }

  /** The table after the scan has visited the start indices below `end`. */
  ghost function CountsBefore(s: string, k: nat, end: int): KmerTable
  {
    map w | w in WindowsBefore(s, k, end) :: |Starts(s, k, w, end)|
  }

  /** The number of iterations of the scan: `range(len(sequence) - k + 1)`. */
  function ScanLength(s: string, k: nat): int
  {
    |s| - k + 1
  }

  /** What `get_kmer_counts(s, k)` returns. */
  ghost function KmerTableOf(s: string, k: nat): KmerTable
  {
    CountsBefore(s, k, ScanLength(s, k))
  }

  /** A window is a key exactly when it has a start index. */
  lemma WindowsBeforeStarts(s: string, k: nat, w: string, end: int)
    ensures w in WindowsBefore(s, k, end) <==> Starts(s, k, w, end) != {}
  {
    if w in WindowsBefore(s, k, end) {
      var i :| 0 <= i < end && i + k <= |s| && Window(s, k, i) == w;
      assert i in Starts(s, k, w, end);
    }
  }

  lemma StartsStep(s: string, k: nat, v: string, end: nat)
    requires end + k <= |s|
    ensures Starts(s, k, v, end + 1) ==
            if v == Window(s, k, end) then Starts(s, k, v, end) + {end} else Starts(s, k, v, end)
  {
  }

  lemma WindowsStep(s: string, k: nat, end: nat)
    requires end + k <= |s|
    ensures WindowsBefore(s, k, end + 1) == WindowsBefore(s, k, end) + {Window(s, k, end)}
  {
  }

  /** One more iteration of the scan adds one to the count of the window at `end`. */
  lemma CountsStep(s: string, k: nat, end: nat)
    requires end + k <= |s|
    ensures CountsBefore(s, k, end + 1) == Bump(CountsBefore(s, k, end), Window(s, k, end))
  {
    var t := CountsBefore(s, k, end);
    var t' := CountsBefore(s, k, end + 1);
    var w := Window(s, k, end);
    var u := Bump(t, w);
    WindowsStep(s, k, end);
    assert t'.Keys == u.Keys;
    forall v | v in t' ensures t'[v] == u[v] {
      StartsStep(s, k, v, end);
      if v == w {
        assert end !in Starts(s, k, w, end);
        WindowsBeforeStarts(s, k, w, end);
      }
    }
  }

  /** Before the scan has started the table is empty. */
  lemma CountsBeforeStart(s: string, k: nat, end: int)
    requires end <= 0
    ensures CountsBefore(s, k, end) == map[]
  {
    assert WindowsBefore(s, k, end) == {};
  }

  /** `get_kmer_counts`: the loop at kmer_analyzer.py:33-35. */
  method GetKmerCounts(s: string, k: nat) returns (counts: KmerTable)
    ensures counts == KmerTableOf(s, k)
  {
    counts := map[];
    CountsBeforeStart(s, k, 0);
    var i := 0;
    while i < |s| - k + 1
      invariant 0 <= i
      invariant i <= |s| - k + 1 || i == 0
      invariant counts == CountsBefore(s, k, i)
    {
      var kmer := Window(s, k, i);
      CountsStep(s, k, i);
      counts := Bump(counts, kmer);
      i := i + 1;
    }
    if |s| - k + 1 < 0 {
      CountsBeforeStart(s, k, |s| - k + 1);
    }
  }

  /** The scan reaches a total of one per visited start index. */
  lemma CountsBeforeTotal(s: string, k: nat, end: int)
    requires end <= ScanLength(s, k)
    ensures SumValues(CountsBefore(s, k, end)) == if end < 0 then 0 else end
  {
    CountsFoldIsPositional(s, k, end);
    FoldTotal(s, k, end);
  }

  /** Each step of the fold adds one to the total. */
  lemma {:induction false} FoldTotal(s: string, k: nat, end: int)
    requires end + k <= |s| + 1
    ensures SumValues(CountsFold(s, k, end)) == if end < 0 then 0 else end
  {
    if end > 0 {
      FoldTotal(s, k, end - 1);
      SumBump(CountsFold(s, k, end - 1), Window(s, k, end - 1), CountsFold(s, k, end));
    }
  }

  /** The counts add up to the number of windows: n - k + 1, or 0 when k > n. */
  lemma KmerTotal(s: string, k: nat)
    ensures SumValues(KmerTableOf(s, k)) == if k > |s| then 0 else |s| - k + 1
  {
    CountsBeforeTotal(s, k, ScanLength(s, k));
  }

  /** Every key is a window of length k, and its count is its number of start indices. */
  lemma KmerTablePositional(s: string, k: nat, w: string)
    ensures w in KmerTableOf(s, k) <==> Starts(s, k, w, ScanLength(s, k)) != {}
    ensures w in KmerTableOf(s, k) ==> |w| == k && KmerTableOf(s, k)[w] == |Starts(s, k, w, ScanLength(s, k))|
  {
    WindowsBeforeStarts(s, k, w, ScanLength(s, k));
  }

  /** No window fits when k exceeds the sequence length. */
  lemma KmerTableEmpty(s: string, k: nat)
    requires k > |s|
    ensures KmerTableOf(s, k) == map[]
  {
    CountsBeforeStart(s, k, ScanLength(s, k));
  }

  /**
   * An independent reading of the scan: the table as a left fold of the
   * single-key update over the windows, in order.
   */
  function CountsFold(s: string, k: nat, end: int): KmerTable
    requires end + k <= |s| + 1
  {
    if end <= 0 then map[] else Bump(CountsFold(s, k, end - 1), Window(s, k, end - 1))
  }

  /** The fold and the positional counts agree at every point of the scan. */
  lemma {:induction false} CountsFoldIsPositional(s: string, k: nat, end: int)
    requires end + k <= |s| + 1
    ensures CountsFold(s, k, end) == CountsBefore(s, k, end)
  {
    if end <= 0 {
      CountsBeforeStart(s, k, end);
    } else {
      CountsFoldIsPositional(s, k, end - 1);
      CountsStep(s, k, end - 1);
    }
  }
}
