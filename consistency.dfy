/**
 * How the follow table relates to the k-mer table built from the same
 * sequence: the follow scan visits every start index the k-mer scan visits
 * except the last one, so per window the follow counts add up to the k-mer
 * count, less one for the window that ends the sequence.
 */
module Consistency {
  import opened Sums
  import opened KmerCounts
  import opened FollowCounts

  /** Per window, the sum of its next-character counts. */
  ghost function Totals(t: FollowTable): map<string, nat>
  {
    map w | w in t :: SumValues(t[w])
  }

  /** Before the follow scan ends, the next-character counts of w add up to its number of start indices. */
  lemma {:induction false} FollowersTotal(s: string, k: nat, w: string, end: int)
    requires end <= FollowScanLength(s, k)
    ensures SumValues(FollowersBefore(s, k, w, end)) == |Starts(s, k, w, end)|
  {
    if end <= 0 {
      FollowersTotalStart(s, k, w, end);
    } else {
      FollowersTotal(s, k, w, end - 1);
      FollowersTotalStep(s, k, w, end - 1);
    }
  }

  /** Before the scan has started there is nothing to add up. */
  lemma FollowersTotalStart(s: string, k: nat, w: string, end: int)
    requires end <= 0
    ensures SumValues(FollowersBefore(s, k, w, end)) == |Starts(s, k, w, end)| == 0
  {
    assert NextCharsBefore(s, k, w, end) == {};
    assert FollowersBefore(s, k, w, end) == map[];
    assert Starts(s, k, w, end) == {};
  }

  /** One more iteration adds one to the follow total of w exactly when it adds a start index of w. */
  lemma FollowersTotalStep(s: string, k: nat, w: string, end: nat)
    requires end + k < |s|
    ensures var d := if w == Window(s, k, end) then 1 else 0;
            && SumValues(FollowersBefore(s, k, w, end + 1)) == SumValues(FollowersBefore(s, k, w, end)) + d
            && |Starts(s, k, w, end + 1)| == |Starts(s, k, w, end)| + d
  {
    FollowersStep(s, k, w, end);
    StartsStep(s, k, w, end);
    if w == Window(s, k, end) {
      SumBump(FollowersBefore(s, k, w, end), s[end + k], FollowersBefore(s, k, w, end + 1));
      assert end !in Starts(s, k, w, end);
    }
  }

  /** Up to the end of the follow scan, the windows with a follower are the windows. */
  lemma FollowedWindowsAreWindows(s: string, k: nat, end: int)
    requires end <= FollowScanLength(s, k)
    ensures FollowedWindowsBefore(s, k, end) == WindowsBefore(s, k, end)
  {
  }

  /** The follow total of one window is its count over the follow scan. */
  lemma TotalOfWindow(s: string, k: nat, w: string)
    requires w in FollowTableOf(s, k)
    ensures w in CountsBefore(s, k, FollowScanLength(s, k))
    ensures Totals(FollowTableOf(s, k))[w] == CountsBefore(s, k, FollowScanLength(s, k))[w]
  {
    var end := FollowScanLength(s, k);
    FollowedWindowsAreWindows(s, k, end);
    FollowersTotal(s, k, w, end);
  }

  /** The windows with follow totals are the windows counted by the follow scan. */
  lemma TotalsKeys(s: string, k: nat)
    ensures Totals(FollowTableOf(s, k)).Keys == CountsBefore(s, k, FollowScanLength(s, k)).Keys
  {
    FollowedWindowsAreWindows(s, k, FollowScanLength(s, k));
  }

  lemma MapsEqual<K, V>(a: map<K, V>, b: map<K, V>)
    requires a.Keys == b.Keys
    requires forall x :: x in a ==> a[x] == b[x]
    ensures a == b
  {
  }

  /** The per-window follow totals are the k-mer counts of a scan one index shorter. */
  lemma TotalsOfFollowTable(s: string, k: nat)
    ensures Totals(FollowTableOf(s, k)) == CountsBefore(s, k, FollowScanLength(s, k))
  {
    var t := Totals(FollowTableOf(s, k));
    var c := CountsBefore(s, k, FollowScanLength(s, k));
    TotalsKeys(s, k);
    forall w | w in t ensures t[w] == c[w] {
      TotalOfWindow(s, k, w);
    }
    MapsEqual(t, c);
  }

  /** The follow counts add up to n - k, or 0 when k >= n: one fewer than the k-mer counts. */
  lemma FollowGrandTotal(s: string, k: nat)
    ensures SumValues(Totals(FollowTableOf(s, k))) == if |s| > k then |s| - k else 0
  {
    TotalsOfFollowTable(s, k);
    CountsBeforeTotal(s, k, FollowScanLength(s, k));
  }

  /** Every window in the follow table is a key of the k-mer table. */
  lemma FollowKeysInKmerTable(s: string, k: nat)
    ensures FollowTableOf(s, k).Keys <= KmerTableOf(s, k).Keys
  {
    forall w | w in FollowTableOf(s, k) ensures w in KmerTableOf(s, k) {
      var i :| 0 <= i < FollowScanLength(s, k) && i + k < |s| && Window(s, k, i) == w;
      assert i in Starts(s, k, w, ScanLength(s, k));
      WindowsBeforeStarts(s, k, w, ScanLength(s, k));
    }
  }

  /** The k-mer scan visits the start indices of the follow scan and one more, |s| - k. */
  lemma StartsOfLastIndex(s: string, k: nat, w: string)
    requires k <= |s|
    ensures |Starts(s, k, w, ScanLength(s, k))|
            == |Starts(s, k, w, FollowScanLength(s, k))| + (if w == Window(s, k, |s| - k) then 1 else 0)
  {
    var end := FollowScanLength(s, k);
    StartsStep(s, k, w, end);
    if w == Window(s, k, end) {
      assert end !in Starts(s, k, w, end);
    }
  }

  /**
   * For every k-mer, its follow counts add up to its k-mer count, except that
   * the window ending the sequence, s[n-k..n], has one occurrence with no
   * following character.
   */
  lemma FollowSumMatchesCount(s: string, k: nat, w: string)
    requires w in KmerTableOf(s, k)
    ensures k <= |s|
    ensures SumValues(FollowersOf(FollowTableOf(s, k), w)) + (if w == Window(s, k, |s| - k) then 1 else 0)
            == KmerTableOf(s, k)[w]
  {
    KmerTablePositional(s, k, w);
    var end := FollowScanLength(s, k);
    FollowersOfBefore(s, k, w, end);
    FollowersTotal(s, k, w, end);
    StartsOfLastIndex(s, k, w);
  }
}
