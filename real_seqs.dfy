/**
 * Sequences of reals as the aggregation code uses them: sums, the ascending
 * order Collections.sort produces, and the index window that drop_lowest and
 * drop_highest cut out of a sorted list.
 */
module RealSeqs {
  function Sum(s: seq<real>): real
  {
    if |s| == 0 then 0.0 else s[0] + Sum(s[1..])
  }

  lemma {:induction false} SumSnoc(s: seq<real>, x: real)
    ensures Sum(s + [x]) == Sum(s) + x
  {
    if |s| > 0 {
      assert (s + [x])[1..] == s[1..] + [x];
      SumSnoc(s[1..], x);
    }
  }

  predicate Sorted(s: seq<real>)
  {
    forall i, j :: 0 <= i < j < |s| ==> s[i] <= s[j]
  }

  /** a is pointwise no greater than b. */
  predicate PointwiseLe(a: seq<real>, b: seq<real>)
  {
    |a| == |b| && forall i :: 0 <= i < |a| ==> a[i] <= b[i]
  }

  /** Insert x before the first element that is not smaller. */
  function Insert(x: real, s: seq<real>): (r: seq<real>)
    ensures |r| == |s| + 1
  {
    if |s| == 0 then [x]
    else if x <= s[0] then [x] + s
    else [s[0]] + Insert(x, s[1..])
  }

  /** Inserting adds x and keeps every element of s. */
  lemma {:induction false} InsertPermutation(x: real, s: seq<real>)
    ensures multiset(Insert(x, s)) == multiset(s) + multiset{x}
  {
    if |s| > 0 && x > s[0] {
      InsertPermutation(x, s[1..]);
      assert s == [s[0]] + s[1..];
    }
  }

  /** The ascending order of s, as Collections.sort leaves a list of doubles. */
  function SortAsc(s: seq<real>): (r: seq<real>)
    ensures |r| == |s|
  {
    if |s| == 0 then [] else Insert(s[0], SortAsc(s[1..]))
  }

  /** Sorting keeps exactly the elements of s. */
  lemma {:induction false} SortAscPermutation(s: seq<real>)
    ensures multiset(SortAsc(s)) == multiset(s)
  {
    if |s| > 0 {
      SortAscPermutation(s[1..]);
      InsertPermutation(s[0], SortAsc(s[1..]));
      assert s == [s[0]] + s[1..];
    }
  }

  /** The first element after an insertion into the tail is x or the tail's first element. */
  lemma {:induction false} InsertSorted(x: real, s: seq<real>)
    requires Sorted(s)
    ensures Sorted(Insert(x, s))
  {
    if |s| > 0 && x > s[0] {
      InsertSorted(x, s[1..]);
      var t := Insert(x, s[1..]);
      assert t[0] == x || t[0] == s[1];
    }
  }

  lemma {:induction false} SortAscSorted(s: seq<real>)
    ensures Sorted(SortAsc(s))
  {
    if |s| > 0 {
      SortAscSorted(s[1..]);
      InsertSorted(s[0], SortAsc(s[1..]));
    }
  }

  lemma {:induction false} SumInsert(x: real, s: seq<real>)
    ensures Sum(Insert(x, s)) == x + Sum(s)
  {
    if |s| > 0 && x > s[0] {
      SumInsert(x, s[1..]);
    }
  }

  lemma {:induction false} SumSortAsc(s: seq<real>)
    ensures Sum(SortAsc(s)) == Sum(s)
  {
    if |s| > 0 {
      SumSortAsc(s[1..]);
      SumInsert(s[0], SortAsc(s[1..]));
    }
  }

  function Max(a: real, b: real): real { if a >= b then a else b }
  function Min(a: real, b: real): real { if a <= b then a else b }

  /** The k-th element of a sorted list after inserting x, in closed form. */
  function InsertedAt(x: real, s: seq<real>, k: nat): real
    requires k <= |s|
  {
    if |s| == 0 then x
    else if k == 0 then Min(x, s[0])
    else if k == |s| then Max(s[k - 1], x)
    else Max(s[k - 1], Min(x, s[k]))
  }

  lemma {:induction false} InsertAt(x: real, s: seq<real>, k: nat)
    requires Sorted(s) && k <= |s|
    ensures Insert(x, s)[k] == InsertedAt(x, s, k)
  {
    if |s| == 0 {
    } else if x <= s[0] {
      assert Insert(x, s) == [x] + s;
      if k > 0 { assert s[0] <= s[k - 1]; }
    } else if k > 0 {
      var t := s[1..];
      assert Insert(x, s) == [s[0]] + Insert(x, t);
      InsertAt(x, t, k - 1);
      if |t| > 0 && k - 1 == 0 { assert s[0] <= s[1]; }
    }
  }

  lemma InsertMonotone(x: real, s: seq<real>, y: real, t: seq<real>)
    requires Sorted(s) && Sorted(t) && PointwiseLe(s, t) && x <= y
    ensures PointwiseLe(Insert(x, s), Insert(y, t))
  {
    forall k | 0 <= k < |s| + 1 ensures Insert(x, s)[k] <= Insert(y, t)[k] {
      InsertAt(x, s, k);
      InsertAt(y, t, k);
    }
  }

  /** Sorting preserves a pointwise order between two lists. */
  lemma {:induction false} SortAscMonotone(a: seq<real>, b: seq<real>)
    requires PointwiseLe(a, b)
    ensures PointwiseLe(SortAsc(a), SortAsc(b))
  {
    if |a| > 0 {
      SortAscMonotone(a[1..], b[1..]);
      SortAscSorted(a[1..]);
      SortAscSorted(b[1..]);
      InsertMonotone(a[0], SortAsc(a[1..]), b[0], SortAsc(b[1..]));
    }
  }

  /** Index i of s is counted by the window of drop_lowest lo and drop_highest hi. */
  predicate InWindow(i: int, n: int, lo: int, hi: int)
  {
    i >= lo && i < n - hi
  }

  /** Sum of s[i] over the first k indices that lie in the window. */
  function WindowPrefixSum(s: seq<real>, lo: int, hi: int, k: nat): real
    requires k <= |s|
  {
    if k == 0 then 0.0
    else WindowPrefixSum(s, lo, hi, k - 1) + (if InWindow(k - 1, |s|, lo, hi) then s[k - 1] else 0.0)
  }

  /** Sum of s[i] over the indices lo <= i < |s| - hi. */
  function WindowSum(s: seq<real>, lo: int, hi: int): real
  {
    WindowPrefixSum(s, lo, hi, |s|)
  }

  lemma {:induction false} WindowPrefixEmpty(s: seq<real>, lo: int, hi: int, k: nat)
    requires k <= |s| && lo + hi >= |s|
    ensures WindowPrefixSum(s, lo, hi, k) == 0.0
  {
    if k > 0 { WindowPrefixEmpty(s, lo, hi, k - 1); }
  }

  /** Dropping at least as many items as there are leaves nothing to sum. */
  lemma WindowSumEmpty(s: seq<real>, lo: int, hi: int)
    requires lo + hi >= |s|
    ensures WindowSum(s, lo, hi) == 0.0
  {
    WindowPrefixEmpty(s, lo, hi, |s|);
  }

  lemma {:induction false} WindowPrefixAll(s: seq<real>, lo: int, hi: int, k: nat)
    requires k <= |s| && lo <= 0 && hi <= 0
    ensures WindowPrefixSum(s, lo, hi, k) == Sum(s[..k])
  {
    if k > 0 {
      WindowPrefixAll(s, lo, hi, k - 1);
      assert s[..k] == s[..k - 1] + [s[k - 1]];
      SumSnoc(s[..k - 1], s[k - 1]);
    }
  }

  /** Without drops the window is the whole list. */
  lemma WindowSumAll(s: seq<real>, lo: int, hi: int)
    requires lo <= 0 && hi <= 0
    ensures WindowSum(s, lo, hi) == Sum(s)
  {
    WindowPrefixAll(s, lo, hi, |s|);
    assert s[..|s|] == s;
  }

  lemma {:induction false} WindowPrefixMonotone(a: seq<real>, b: seq<real>, lo: int, hi: int, k: nat)
    requires PointwiseLe(a, b) && k <= |a|
    ensures WindowPrefixSum(a, lo, hi, k) <= WindowPrefixSum(b, lo, hi, k)
  {
    if k > 0 { WindowPrefixMonotone(a, b, lo, hi, k - 1); }
  }

  /** A pointwise smaller list has a smaller window sum. */
  lemma WindowSumMonotone(a: seq<real>, b: seq<real>, lo: int, hi: int)
    requires PointwiseLe(a, b)
    ensures WindowSum(a, lo, hi) <= WindowSum(b, lo, hi)
  {
    WindowPrefixMonotone(a, b, lo, hi, |a|);
  }
}
