/** The order statistics readstat_calculator takes of one column: min(), max(),
    statistics.mean() and statistics.median(), on exact reals. */
module Statistics {

  /** min(): the smallest value, one of the inputs. */
  function Min(xs: seq<real>): (m: real)
    requires |xs| > 0
    ensures m in xs
    ensures forall i :: 0 <= i < |xs| ==> m <= xs[i]
  {
    if |xs| == 1 then xs[0]
    else
      var rest := Min(xs[1..]);
      if xs[0] <= rest then xs[0] else rest
  }

  /** max(): the largest value, one of the inputs. */
  function Max(xs: seq<real>): (m: real)
    requires |xs| > 0
    ensures m in xs
    ensures forall i :: 0 <= i < |xs| ==> xs[i] <= m
  {
    if |xs| == 1 then xs[0]
    else
      var rest := Max(xs[1..]);
      if rest <= xs[0] then xs[0] else rest
  }

  function Sum(xs: seq<real>): real {
    if xs == [] then 0.0 else xs[0] + Sum(xs[1..])
  }

  /** statistics.mean(): the sum divided by the count. */
  function Mean(xs: seq<real>): real
    requires |xs| > 0
  {
    Sum(xs) / |xs| as real
  }

  /** n copies of x added up. */
  function Repeat(x: real, n: nat): real {
    if n == 0 then 0.0 else x + Repeat(x, n - 1)
  }

  lemma {:induction false} RepeatIsProduct(x: real, n: nat)
    ensures Repeat(x, n) == x * n as real
  {
    if n > 0 {
      RepeatIsProduct(x, n - 1);
    }
  }

  /** A lower and an upper bound on every value bound the sum by count copies of the bound. */
  lemma {:induction false} SumBounds(xs: seq<real>, lo: real, hi: real)
    requires forall i :: 0 <= i < |xs| ==> lo <= xs[i] <= hi
    ensures Repeat(lo, |xs|) <= Sum(xs) <= Repeat(hi, |xs|)
  {
    if xs != [] {
      assert forall i :: 0 <= i < |xs[1..]| ==> xs[1..][i] == xs[i + 1];
      SumBounds(xs[1..], lo, hi);
    }
  }

  lemma DivideBetween(x: real, n: nat, lo: real, hi: real)
    requires n > 0 && Repeat(lo, n) <= x <= Repeat(hi, n)
    ensures lo <= x / n as real <= hi
  {
    RepeatIsProduct(lo, n);
    RepeatIsProduct(hi, n);
    assert x / n as real * n as real == x;
  }

  /** The mean lies between the minimum and the maximum. */
  lemma MeanBetweenMinAndMax(xs: seq<real>)
    requires |xs| > 0
    ensures Min(xs) <= Mean(xs) <= Max(xs)
  {
    var lo, hi := Min(xs), Max(xs);
    SumBounds(xs, lo, hi);
    DivideBetween(Sum(xs), |xs|, lo, hi);
  }

  predicate IsSorted(s: seq<real>) {
    forall i, j :: 0 <= i < j < |s| ==> s[i] <= s[j]
  }

  /** x inserted into s before the first element not below it. */
  function Insert(x: real, s: seq<real>): (r: seq<real>)
    ensures |r| == |s| + 1
    ensures multiset(r) == multiset(s) + multiset{x}
  {
    if s == [] || x <= s[0] then [x] + s
    else
      assert s == [s[0]] + s[1..];
      [s[0]] + Insert(x, s[1..])
  }

  /** A lower bound on x and on every element of s bounds every element after insertion. */
  lemma {:induction false} InsertLowerBound(x: real, s: seq<real>, lo: real)
    requires lo <= x && forall k :: 0 <= k < |s| ==> lo <= s[k]
    ensures forall k :: 0 <= k < |Insert(x, s)| ==> lo <= Insert(x, s)[k]
  {
    if s != [] && s[0] < x {
      InsertLowerBound(x, s[1..], lo);
    }
  }

  /** Inserting into an ascending sequence keeps it ascending. */
  lemma {:induction false} InsertSorted(x: real, s: seq<real>)
    requires IsSorted(s)
    ensures IsSorted(Insert(x, s))
  {
    var r := Insert(x, s);
    if s != [] && s[0] < x {
      var rest := Insert(x, s[1..]);
      assert IsSorted(s[1..]) by {
        forall i, j | 0 <= i < j < |s[1..]| ensures s[1..][i] <= s[1..][j] {
          assert s[1..][i] == s[i + 1] && s[1..][j] == s[j + 1];
        }
      }
      InsertSorted(x, s[1..]);
      InsertLowerBound(x, s[1..], s[0]);
      assert r == [s[0]] + rest;
      forall i, j | 0 <= i < j < |r| ensures r[i] <= r[j] {
        if i == 0 {
          assert r[j] == rest[j - 1];
        } else {
          assert r[i] == rest[i - 1] && r[j] == rest[j - 1];
        }
      }
    } else {
      assert r == [x] + s;
      forall i, j | 0 <= i < j < |r| ensures r[i] <= r[j] {
        if i == 0 {
          assert r[j] == s[j - 1];
        } else {
          assert r[i] == s[i - 1] && r[j] == s[j - 1];
        }
      }
    }
  }

  /** sorted(): an ascending permutation of the input, by insertion. */
  function Sort(xs: seq<real>): (r: seq<real>)
    ensures IsSorted(r)
    ensures multiset(r) == multiset(xs)
    ensures |r| == |xs|
  {
    if xs == [] then []
    else
      assert xs == [xs[0]] + xs[1..];
      InsertSorted(xs[0], Sort(xs[1..]));
      Insert(xs[0], Sort(xs[1..]))
  }

  /** Two ascending orderings of the same values are the same sequence. */
  lemma {:induction false} SortedUnique(a: seq<real>, b: seq<real>)
    requires IsSorted(a) && IsSorted(b) && multiset(a) == multiset(b)
    ensures a == b
    decreases |a|
  {
    if a != [] {
      assert |b| == |a| by {
        assert |multiset(a)| == |a| && |multiset(b)| == |b|;
      }
      assert a[0] in multiset(b);
      assert b[0] in multiset(a);
      assert a[0] == b[0];
      assert a == [a[0]] + a[1..];
      assert b == [b[0]] + b[1..];
      assert multiset(a) == multiset{a[0]} + multiset(a[1..]);
      assert multiset(b) == multiset{b[0]} + multiset(b[1..]);
      assert multiset(a[1..]) == multiset(a) - multiset{a[0]};
      assert multiset(b[1..]) == multiset(b) - multiset{b[0]};
      assert IsSorted(a[1..]) by {
        forall i, j | 0 <= i < j < |a[1..]| ensures a[1..][i] <= a[1..][j] {
          assert a[1..][i] == a[i + 1] && a[1..][j] == a[j + 1];
        }
      }
      assert IsSorted(b[1..]) by {
        forall i, j | 0 <= i < j < |b[1..]| ensures b[1..][i] <= b[1..][j] {
          assert b[1..][i] == b[i + 1] && b[1..][j] == b[j + 1];
        }
      }
      SortedUnique(a[1..], b[1..]);
    }
  }

  /** The middle of ascending data: the middle value for an odd count, the mean of the two
      middle values for an even count. */
  function Middle(s: seq<real>): real
    requires |s| > 0
  {
    var n := |s|;
    if n % 2 == 1 then s[n / 2] else (s[n / 2 - 1] + s[n / 2]) / 2.0
  }

  /** statistics.median(): the middle of the sorted data. */
  function Median(xs: seq<real>): real
    requires |xs| > 0
  {
    Middle(Sort(xs))
  }

  /** The middle of ascending data lies between its first and its last value. */
  lemma MiddleBetweenEnds(s: seq<real>)
    requires |s| > 0 && IsSorted(s)
    ensures s[0] <= Middle(s) <= s[|s| - 1]
  {
    var n := |s|;
    assert s[0] <= s[n / 2] <= s[n - 1];
    if n % 2 == 0 {
      assert s[0] <= s[n / 2 - 1] <= s[n - 1];
    }
  }

  /** The first element of an ascending permutation of xs is the minimum of xs, the last
      the maximum. */
  lemma SortedEnds(s: seq<real>, xs: seq<real>)
    requires |xs| > 0 && IsSorted(s) && multiset(s) == multiset(xs)
    ensures |s| == |xs|
    ensures s[0] == Min(xs) && s[|s| - 1] == Max(xs)
  {
    assert |multiset(s)| == |s| && |multiset(xs)| == |xs|;
    var lo, hi := Min(xs), Max(xs);
    assert lo in multiset(s) && hi in multiset(s);
    var a :| 0 <= a < |s| && s[a] == lo;
    var b :| 0 <= b < |s| && s[b] == hi;
    assert s[0] <= s[a] && s[b] <= s[|s| - 1];
    assert s[0] in multiset(xs) && s[|s| - 1] in multiset(xs);
    var c :| 0 <= c < |xs| && xs[c] == s[0];
    var d :| 0 <= d < |xs| && xs[d] == s[|s| - 1];
  }

  /** The sorted data starts at the minimum and ends at the maximum. */
  lemma SortEnds(xs: seq<real>)
    requires |xs| > 0
    ensures Sort(xs)[0] == Min(xs) && Sort(xs)[|xs| - 1] == Max(xs)
  {
    SortedEnds(Sort(xs), xs);
  }

  /** The median lies between the minimum and the maximum. */
  lemma MedianBetweenMinAndMax(xs: seq<real>)
    requires |xs| > 0
    ensures Min(xs) <= Median(xs) <= Max(xs)
  {
    SortEnds(xs);
    MiddleBetweenEnds(Sort(xs));
  }

  /** The median depends only on the values, not on their order. */
  lemma MedianOfPermutation(xs: seq<real>, ys: seq<real>)
    requires |xs| > 0 && multiset(xs) == multiset(ys)
    ensures |ys| > 0 && Median(xs) == Median(ys)
  {
    assert |multiset(xs)| == |xs| && |multiset(ys)| == |ys|;
    SortedUnique(Sort(xs), Sort(ys));
  }

  /** The four statistics of one column. */
  datatype Summary = Summary(min: real, median: real, mean: real, max: real)

  /** min, median, mean and max of a non-empty column, in that order; both the median and
      the mean lie between the extremes, which are themselves values of the column. */
  function Summarize(xs: seq<real>): (r: Summary)
    requires |xs| > 0
    ensures r.min in xs && r.max in xs
    ensures forall i :: 0 <= i < |xs| ==> r.min <= xs[i] <= r.max
    ensures r.min <= r.median <= r.max
    ensures r.min <= r.mean <= r.max
  {
    MeanBetweenMinAndMax(xs);
    MedianBetweenMinAndMax(xs);
    Summary(Min(xs), Median(xs), Mean(xs), Max(xs))
  }

  /** lengths [10, 20]: median 15 (mean of the two middle values) and mean 15. */
  lemma TwoValueExample()
    ensures Summarize([10.0, 20.0]) == Summary(10.0, 15.0, 15.0, 20.0)
  {
    assert [10.0, 20.0][1..] == [20.0];
    assert Sort([20.0]) == [20.0];
    assert Sort([10.0, 20.0]) == [10.0, 20.0];
  }

  lemma SortExample()
    ensures Sort([4.0, 1.0, 3.0, 2.0]) == [1.0, 2.0, 3.0, 4.0]
  {
    var xs := [4.0, 1.0, 3.0, 2.0];
    var ys := [1.0, 2.0, 3.0, 4.0];
    assert multiset(xs) == multiset(ys);
    assert IsSorted(ys);
    SortedUnique(Sort(xs), ys);
  }

  /** [4, 1, 3, 2]: sorted first, median (2 + 3) / 2 = 2.5. */
  lemma EvenCountExample()
    ensures Median([4.0, 1.0, 3.0, 2.0]) == 2.5
  {
    var ys := [1.0, 2.0, 3.0, 4.0];
    SortExample();
    assert Middle(ys) == (ys[1] + ys[2]) / 2.0;
  }

  /** A one-value column: every statistic is that value. */
  lemma SingletonSummary(x: real)
    ensures Summarize([x]) == Summary(x, x, x, x)
  {
    assert Sort([x]) == [x];
  }
}
