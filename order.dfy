/**
 * Orderings and sorting of finite sets, standing in for Python's `sorted`.
 *
 * Python orders `str` values code point by code point, and a shorter string
 * comes before every longer string it is a prefix of. Dafny's `char` order is
 * the same code point order, so `LexLess` below is exactly Python's `<` on
 * strings, and `CharLess` is Python's `<` on one-character strings.
 */
module Order {

  /** a < b in Python's string order. */
  predicate LexLess(a: string, b: string)
  {
    if |a| == 0 then |b| > 0
    else if |b| == 0 then false
    else if a[0] != b[0] then a[0] < b[0]
    else LexLess(a[1..], b[1..])
  }

  /** a < b on single characters (Python compares them by code point). */
  predicate CharLess(a: char, b: char)
  {
    a < b
  }

  ghost predicate StrictTotalOrder<T(!new)>(less: (T, T) -> bool)
  {
    && (forall a :: !less(a, a))
    && (forall a, b, c :: less(a, b) && less(b, c) ==> less(a, c))
    && (forall a, b :: a != b ==> less(a, b) || less(b, a))
  }

  /** Every element is strictly smaller than all later ones (so there are no duplicates). */
  ghost predicate StrictlySorted<T>(r: seq<T>, less: (T, T) -> bool)
  {
    forall i, j :: 0 <= i < j < |r| ==> less(r[i], r[j])
  }

  lemma {:induction false} LexLessIrreflexive(a: string)
    ensures !LexLess(a, a)
  {
    if |a| > 0 {
      LexLessIrreflexive(a[1..]);
    }
  }

  lemma {:induction false} LexLessTransitive(a: string, b: string, c: string)
    requires LexLess(a, b) && LexLess(b, c)
    ensures LexLess(a, c)
  {
    if |a| > 0 && |b| > 0 && |c| > 0 && a[0] == b[0] && b[0] == c[0] {
      LexLessTransitive(a[1..], b[1..], c[1..]);
    }
  }

  lemma {:induction false} LexLessTotal(a: string, b: string)
    requires a != b
    ensures LexLess(a, b) || LexLess(b, a)
  {
    if |a| > 0 && |b| > 0 && a[0] == b[0] {
      assert a == [a[0]] + a[1..] && b == [b[0]] + b[1..];
      LexLessTotal(a[1..], b[1..]);
    }
  }

  /** Python's string order is a strict total order. */
  lemma LexLessIsStrictTotalOrder()
    ensures StrictTotalOrder(LexLess)
  {
    forall a { LexLessIrreflexive(a); }
    forall a, b, c | LexLess(a, b) && LexLess(b, c) ensures LexLess(a, c) {
      LexLessTransitive(a, b, c);
    }
    forall a, b | a != b ensures LexLess(a, b) || LexLess(b, a) {
      LexLessTotal(a, b);
    }
  }

  lemma CharLessIsStrictTotalOrder()
    ensures StrictTotalOrder(CharLess)
  {
  }

  lemma Transitive<T(!new)>(less: (T, T) -> bool, a: T, b: T, c: T)
    requires StrictTotalOrder(less) && less(a, b) && less(b, c)
    ensures less(a, c)
  {
  }

  lemma Total<T(!new)>(less: (T, T) -> bool, a: T, b: T)
    requires StrictTotalOrder(less) && a != b && !less(a, b)
    ensures less(b, a)
  {
  }

  /** A least element of a non-empty finite set, found by removing one element at a time. */
  lemma {:induction false} LeastWitness<T(!new)>(s: set<T>, less: (T, T) -> bool) returns (m: T)
    requires s != {} && StrictTotalOrder(less)
    ensures m in s && forall x :: x in s && x != m ==> less(m, x)
  {
    var y :| y in s;
    if s == {y} {
      m := y;
    } else {
      var m' := LeastWitness(s - {y}, less);
      if less(m', y) {
        m := m';
        forall x | x in s && x != m ensures less(m, x) {
          if x != y {
            assert x in s - {y};
          }
        }
      } else {
        m := y;
        Total(less, m', y);
        forall x | x in s && x != y ensures less(y, x) {
          if x != m' {
            assert x in s - {y};
            Transitive(less, y, m', x);
          }
        }
      }
    }
  }

  /** A non-empty finite set has a least element. */
  lemma LeastExists<T(!new)>(s: set<T>, less: (T, T) -> bool)
    requires s != {} && StrictTotalOrder(less)
    ensures exists m :: m in s && forall x :: x in s && x != m ==> less(m, x)
  {
    var m := LeastWitness(s, less);
  }

  /** The least element of a non-empty finite set. */
  function Least<T(!new)>(s: set<T>, less: (T, T) -> bool): (m: T)
    requires s != {} && StrictTotalOrder(less)
    ensures m in s && forall x :: x in s && x != m ==> less(m, x)
  {
    LeastExists(s, less);
    var m :| m in s && forall x :: x in s && x != m ==> less(m, x); m
  }

  /** The elements of s in ascending order: what `sorted` returns for a set of distinct keys. */
  function SortedSet<T(!new)>(s: set<T>, less: (T, T) -> bool): (r: seq<T>)
    requires StrictTotalOrder(less)
    ensures |r| == |s|
    ensures forall x :: x in r <==> x in s
    ensures StrictlySorted(r, less)
    decreases s
  {
    if s == {} then []
    else
      var m := Least(s, less);
      [m] + SortedSet(s - {m}, less)
  }

  /** The head of a strictly sorted sequence is below every other element. */
  lemma HeadIsLeast<T(!new)>(a: seq<T>, less: (T, T) -> bool)
    requires StrictlySorted(a, less) && a != []
    ensures forall x :: x in a && x != a[0] ==> less(a[0], x)
  {
    forall x | x in a && x != a[0] ensures less(a[0], x) {
      var i :| 0 <= i < |a| && a[i] == x;
    }
  }

  lemma NoElementsIsEmpty<T>(a: seq<T>)
    ensures (forall x :: x !in a) <==> a == []
  {
    if a != [] {
      assert a[0] in a;
    }
  }

  /** Two strictly sorted sequences with the same elements are the same sequence. */
  lemma {:induction false} StrictlySortedUnique<T(!new)>(a: seq<T>, b: seq<T>, less: (T, T) -> bool)
    requires StrictTotalOrder(less)
    requires StrictlySorted(a, less) && StrictlySorted(b, less)
    requires forall x :: x in a <==> x in b
    ensures a == b
  {
    if a != [] && b != [] {
      HeadIsLeast(a, less);
      HeadIsLeast(b, less);
      assert a[0] in b && b[0] in a;
      assert a[0] == b[0];
      forall x ensures x in a[1..] <==> x in b[1..] {
        if x in a[1..] {
          var i :| 1 <= i < |a| && a[i] == x;
          assert less(a[0], x);
          assert x in a && x in b;
          var j :| 0 <= j < |b| && b[j] == x;
          assert j != 0;
          assert b[1..][j - 1] == x;
        }
        if x in b[1..] {
          var j :| 1 <= j < |b| && b[j] == x;
          assert less(b[0], x);
          assert x in b && x in a;
          var i :| 0 <= i < |a| && a[i] == x;
          assert i != 0;
          assert a[1..][i - 1] == x;
        }
      }
      StrictlySortedUnique(a[1..], b[1..], less);
      assert a == [a[0]] + a[1..] && b == [b[0]] + b[1..];
    } else {
      NoElementsIsEmpty(a);
      NoElementsIsEmpty(b);
    }
  }

  /** SortedSet is the only strictly sorted listing of a set. */
  lemma SortedSetCharacterized<T(!new)>(s: set<T>, r: seq<T>, less: (T, T) -> bool)
    requires StrictTotalOrder(less)
    requires StrictlySorted(r, less) && forall x :: x in r <==> x in s
    ensures SortedSet(s, less) == r
  {
    StrictlySortedUnique(SortedSet(s, less), r, less);
  }
}
