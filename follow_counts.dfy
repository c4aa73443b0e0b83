/**
 * The follow-character counter (`get_following_counts`): a scan that stops
 * one start index before the k-mer counter's scan, and for each start index i
 * bumps the count of the character s[i+k] in the inner dictionary of the
 * window s[i..i+k], creating that inner dictionary on first sight.
 *
 * Its specification is positional too, and the lemmas at the end tie it to
 * the k-mer counter's table.
 */
module FollowCounts {
  import opened Sums
  import opened KmerCounts

  type FollowTable = map<string, map<char, nat>>

  /** `follow_counts.get(kmer, {})`. */
  function FollowersOf(t: FollowTable, w: string): map<char, nat>
  {
    if w in t then t[w] else map[]
  }

  /** Start indices below `end` whose window spells w and is followed by the character c. */
  ghost function FollowStarts(s: string, k: nat, w: string, c: char, end: int): set<int>
  {
    set i | 0 <= i < end && i + k < |s| && Window(s, k, i) == w && s[i + k] == c
  }

  /** The characters seen after w at start indices below `end`. */
  ghost function NextCharsBefore(s: string, k: nat, w: string, end: int): set<char>
  {
    set i | 0 <= i < end && i + k < |s| && Window(s, k, i) == w :: s[i + k]
  }

  /** The windows that start below `end` and have a following character. */
  ghost function FollowedWindowsBefore(s: string, k: nat, end: int): set<string>
  {
    set i | 0 <= i < end && i + k < |s| :: Window(s, k, i)
  }

  /** The inner table of w after the scan has visited the start indices below `end`. */
  ghost function FollowersBefore(s: string, k: nat, w: string, end: int): map<char, nat>
  {
    map c | c in NextCharsBefore(s, k, w, end) :: |FollowStarts(s, k, w, c, end)|
  }

  /** The whole table after the scan has visited the start indices below `end`. */
  ghost function FollowBefore(s: string, k: nat, end: int): FollowTable
  {
    map w | w in FollowedWindowsBefore(s, k, end) :: FollowersBefore(s, k, w, end)
  }

  /** The number of iterations of the scan: `range(len(sequence) - k)`. */
  function FollowScanLength(s: string, k: nat): int
  {
    |s| - k
  }

  /** What `get_following_counts(s, k)` returns. */
  ghost function FollowTableOf(s: string, k: nat): FollowTable
  {
    FollowBefore(s, k, FollowScanLength(s, k))
  }

  lemma NextCharsStarts(s: string, k: nat, w: string, c: char, end: int)
    ensures c in NextCharsBefore(s, k, w, end) <==> FollowStarts(s, k, w, c, end) != {}
  {
    if c in NextCharsBefore(s, k, w, end) {
      var i :| 0 <= i < end && i + k < |s| && Window(s, k, i) == w && s[i + k] == c;
      assert i in FollowStarts(s, k, w, c, end);
    }
  }

  lemma FollowedWindowsNextChars(s: string, k: nat, w: string, end: int)
    ensures w in FollowedWindowsBefore(s, k, end) <==> NextCharsBefore(s, k, w, end) != {}
  {
    if w in FollowedWindowsBefore(s, k, end) {
      var i :| 0 <= i < end && i + k < |s| && Window(s, k, i) == w;
      assert s[i + k] in NextCharsBefore(s, k, w, end);
    }
  }

  /** The inner table of a window with no entry yet is read as empty, as `.get(kmer, {})` does. */
  lemma FollowersOfBefore(s: string, k: nat, w: string, end: int)
    ensures FollowersOf(FollowBefore(s, k, end), w) == FollowersBefore(s, k, w, end)
  {
    FollowedWindowsNextChars(s, k, w, end);
  }

  lemma FollowStartsStep(s: string, k: nat, v: string, c: char, end: nat)
    requires end + k < |s|
    ensures FollowStarts(s, k, v, c, end + 1) ==
            if v == Window(s, k, end) && c == s[end + k] then FollowStarts(s, k, v, c, end) + {end}
            else FollowStarts(s, k, v, c, end)
  {
  }

  lemma NextCharsStep(s: string, k: nat, v: string, end: nat)
    requires end + k < |s|
    ensures NextCharsBefore(s, k, v, end + 1) ==
            if v == Window(s, k, end) then NextCharsBefore(s, k, v, end) + {s[end + k]}
            else NextCharsBefore(s, k, v, end)
  {
  }

  lemma FollowedWindowsStep(s: string, k: nat, end: nat)
    requires end + k < |s|
    ensures FollowedWindowsBefore(s, k, end + 1) == FollowedWindowsBefore(s, k, end) + {Window(s, k, end)}
  {
  }

  /** The count of d in the inner table of the window at `end` after one more iteration. */
  lemma FollowerCountStep(s: string, k: nat, end: nat, d: char)
    requires end + k < |s|
    requires d in NextCharsBefore(s, k, Window(s, k, end), end + 1)
    ensures var w := Window(s, k, end);
            |FollowStarts(s, k, w, d, end + 1)| ==
            (if d in NextCharsBefore(s, k, w, end) then |FollowStarts(s, k, w, d, end)| else 0) +
            (if d == s[end + k] then 1 else 0)
  {
    var w := Window(s, k, end);
    FollowStartsStep(s, k, w, d, end);
    NextCharsStarts(s, k, w, d, end);
    assert end !in FollowStarts(s, k, w, d, end);
  }

  /** One iteration bumps the count of s[end+k] in the inner table of the window at `end`. */
  lemma FollowersStepHere(s: string, k: nat, end: nat)
    requires end + k < |s|
    ensures var w := Window(s, k, end);
            FollowersBefore(s, k, w, end + 1) == Bump(FollowersBefore(s, k, w, end), s[end + k])
  {
    var w := Window(s, k, end);
    var f := FollowersBefore(s, k, w, end);
    var f' := FollowersBefore(s, k, w, end + 1);
    var u := Bump(f, s[end + k]);
    NextCharsStep(s, k, w, end);
    assert f'.Keys == u.Keys;
    forall d | d in f' ensures f'[d] == u[d] {
      FollowerCountStep(s, k, end, d);
    }
  }

  /** One iteration leaves the inner tables of all other windows alone. */
  lemma FollowersStepElsewhere(s: string, k: nat, v: string, end: nat)
    requires end + k < |s|
    requires v != Window(s, k, end)
    ensures FollowersBefore(s, k, v, end + 1) == FollowersBefore(s, k, v, end)
  {
    var f := FollowersBefore(s, k, v, end);
    var f' := FollowersBefore(s, k, v, end + 1);
    NextCharsStep(s, k, v, end);
    assert f'.Keys == f.Keys;
    forall d | d in f' ensures f'[d] == f[d] {
      FollowStartsStep(s, k, v, d, end);
    }
  }

  /** One iteration bumps the count of s[end+k] in the inner table of the window at `end`, and nothing else. */
  lemma FollowersStep(s: string, k: nat, v: string, end: nat)
    requires end + k < |s|
    ensures FollowersBefore(s, k, v, end + 1) ==
            if v == Window(s, k, end) then Bump(FollowersBefore(s, k, v, end), s[end + k])
            else FollowersBefore(s, k, v, end)
  {
    if v == Window(s, k, end) {
      FollowersStepHere(s, k, end);
    } else {
      FollowersStepElsewhere(s, k, v, end);
    }
  }

  /** One iteration of the loop at kmer_analyzer.py:52-60. */
  lemma FollowStep(s: string, k: nat, end: nat)
    requires end + k < |s|
    ensures var t := FollowBefore(s, k, end);
            var w := Window(s, k, end);
            FollowBefore(s, k, end + 1) == t[w := Bump(FollowersOf(t, w), s[end + k])]
  {
    var t := FollowBefore(s, k, end);
    var t' := FollowBefore(s, k, end + 1);
    var w := Window(s, k, end);
    var u := t[w := Bump(FollowersOf(t, w), s[end + k])];
    FollowedWindowsStep(s, k, end);
    assert t'.Keys == u.Keys;
    forall v | v in t' ensures t'[v] == u[v] {
      FollowersStep(s, k, v, end);
      if v == w {
        FollowersOfBefore(s, k, w, end);
      }
    }
  }

  lemma FollowBeforeStart(s: string, k: nat, end: int)
    requires end <= 0
    ensures FollowBefore(s, k, end) == map[]
  {
    assert FollowedWindowsBefore(s, k, end) == {};
  }

  /** The two updates of one iteration, creating the inner table if need be and then bumping it, take the table one index on. */
  lemma LoopStep(s: string, k: nat, end: nat, before: FollowTable, created: FollowTable, after: FollowTable)
    requires end + k < |s|
    requires before == FollowBefore(s, k, end)
    requires created == if Window(s, k, end) in before then before else before[Window(s, k, end) := map[]]
    requires after == created[Window(s, k, end) := Bump(created[Window(s, k, end)], s[end + k])]
    ensures after == FollowBefore(s, k, end + 1)
  {
    FollowStep(s, k, end);
    var w := Window(s, k, end);
    assert created[w] == FollowersOf(before, w);
    assert after == before[w := Bump(FollowersOf(before, w), s[end + k])];
  }

  /** `get_following_counts`: the loop at kmer_analyzer.py:52-60. */
  method GetFollowingCounts(s: string, k: nat) returns (follow: FollowTable)
    ensures follow == FollowTableOf(s, k)
  {
    follow := map[];
    FollowBeforeStart(s, k, 0);
    var i := 0;
    while i < |s| - k
      invariant 0 <= i
      invariant i <= |s| - k || i == 0
      invariant follow == FollowBefore(s, k, i)
    {
      var kmer := Window(s, k, i);
      var next := s[i + k];
      ghost var before := follow;
      if kmer !in follow {
        follow := follow[kmer := map[]];
      }
      ghost var created := follow;
      follow := follow[kmer := Bump(follow[kmer], next)];
      LoopStep(s, k, i, before, created, follow);
      i := i + 1;
    }
    if |s| - k < 0 {
      FollowBeforeStart(s, k, |s| - k);
    }
  }

  /** The table holds exactly the (window, next character) pairs that occur, with their numbers of start indices. */
  lemma FollowTablePositional(s: string, k: nat, w: string, c: char)
    ensures var t := FollowTableOf(s, k);
            w in t && c in t[w] <==> FollowStarts(s, k, w, c, FollowScanLength(s, k)) != {}
    ensures var t := FollowTableOf(s, k);
            w in t && c in t[w] ==> t[w][c] == |FollowStarts(s, k, w, c, FollowScanLength(s, k))|
  {
    NextCharsStarts(s, k, w, c, FollowScanLength(s, k));
    FollowedWindowsNextChars(s, k, w, FollowScanLength(s, k));
  }

  /** Every key is a window of length k whose inner table is non-empty and holds only positive counts. */
  lemma FollowTableShape(s: string, k: nat, w: string)
    requires w in FollowTableOf(s, k)
    ensures |w| == k
    ensures FollowTableOf(s, k)[w] != map[]
    ensures forall c :: c in FollowTableOf(s, k)[w] ==> FollowTableOf(s, k)[w][c] > 0
  {
    var end := FollowScanLength(s, k);
    FollowedWindowsNextChars(s, k, w, end);
    var c :| c in NextCharsBefore(s, k, w, end);
    assert c in FollowTableOf(s, k)[w];
    forall d | d in FollowTableOf(s, k)[w] ensures FollowTableOf(s, k)[w][d] > 0 {
      NextCharsStarts(s, k, w, d, end);
    }
  }

  /** No window has a following character when k is at least the sequence length. */
  lemma FollowTableEmpty(s: string, k: nat)
    requires k >= |s|
    ensures FollowTableOf(s, k) == map[]
  {
    FollowBeforeStart(s, k, FollowScanLength(s, k));
  }

  /** The table as a left fold of the two updates of one iteration over the start indices, in order. */
  function FollowFold(s: string, k: nat, end: int): FollowTable
    requires end + k <= |s|
  {
    if end <= 0 then map[]
    else
      var t := FollowFold(s, k, end - 1);
      var w := Window(s, k, end - 1);
      t[w := Bump(FollowersOf(t, w), s[end - 1 + k])]
  }

  /** The fold and the positional table agree at every point of the scan. */
  lemma {:induction false} FollowFoldIsPositional(s: string, k: nat, end: int)
    requires end + k <= |s|
    ensures FollowFold(s, k, end) == FollowBefore(s, k, end)
  {
    if end <= 0 {
      FollowBeforeStart(s, k, end);
    } else {
      FollowFoldIsPositional(s, k, end - 1);
      FollowStep(s, k, end - 1);
    }
  }
}
