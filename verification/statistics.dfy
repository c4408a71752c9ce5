/** The descriptive statistics behind `stats_summary`: Python's
    `statistics.mean`, `statistics.median`, `statistics.pvariance`, `min` and
    `max`, computed on exact reals. */
module Statistics {

  /** `sum(f(x) for x in xs)` */
  function SumOf(f: real -> real, xs: seq<real>): real {
    if |xs| == 0 then 0.0 else f(xs[0]) + SumOf(f, xs[1..])
  }

  function Identity(x: real): real {
    x
  }

  function Sum(xs: seq<real>): real {
    SumOf(Identity, xs)
  }

  lemma {:induction false} SumOfConcat(f: real -> real, a: seq<real>, b: seq<real>)
    ensures SumOf(f, a + b) == SumOf(f, a) + SumOf(f, b)
  {
    if |a| > 0 {
      assert (a + b)[1..] == a[1..] + b;
      SumOfConcat(f, a[1..], b);
    } else {
      assert a + b == b;
    }
  }

  /** A sum does not depend on the order of its terms. */
  lemma {:induction false} SumOfPermutation(f: real -> real, xs: seq<real>, ys: seq<real>)
    requires multiset(xs) == multiset(ys)
    ensures SumOf(f, xs) == SumOf(f, ys)
    decreases |xs|
  {
    if |xs| == 0 {
      assert |ys| == |multiset(ys)| == 0;
    } else {
      var x := xs[0];
      assert x in multiset(ys);
      var k :| 0 <= k < |ys| && ys[k] == x;
      var before, after := ys[..k], ys[k + 1..];
      assert ys == before + [x] + after;
      SumOfConcat(f, before + [x], after);
      SumOfConcat(f, before, [x]);
      SumOfConcat(f, before, after);
      assert SumOf(f, [x]) == f(x) + SumOf(f, []);
      assert xs == [x] + xs[1..];
      assert multiset(xs[1..]) == multiset(before + after) by {
        assert multiset(ys) == multiset(before) + multiset([x]) + multiset(after);
        assert multiset(xs) == multiset([x]) + multiset(xs[1..]);
        assert multiset(before + after) == multiset(before) + multiset(after);
        assert multiset(xs[1..]) == multiset(xs) - multiset([x]);
      }
      SumOfPermutation(f, xs[1..], before + after);
    }
  }

  /** A sum of non-negative terms is non-negative. */
  lemma {:induction false} SumOfNonneg(f: real -> real, xs: seq<real>)
    requires forall i :: 0 <= i < |xs| ==> f(xs[i]) >= 0.0
    ensures SumOf(f, xs) >= 0.0
  {
    if |xs| > 0 {
      assert forall i :: 0 <= i < |xs| - 1 ==> xs[1..][i] == xs[i + 1];
      SumOfNonneg(f, xs[1..]);
    }
  }

  /** `statistics.mean` */
  function Mean(xs: seq<real>): real
    requires |xs| > 0
  {
    Sum(xs) / |xs| as real
  }

  /** `min(xs)`: an element no larger than any other. */
  function Min(xs: seq<real>): (m: real)
    requires |xs| > 0
    ensures m in xs
    ensures forall i :: 0 <= i < |xs| ==> m <= xs[i]
  {
    if |xs| == 1 then xs[0]
    else
      var m := Min(xs[1..]);
      assert forall i :: 1 <= i < |xs| ==> xs[i] == xs[1..][i - 1];
      if xs[0] <= m then xs[0] else m
  }

  /** `max(xs)`: an element no smaller than any other. */
  function Max(xs: seq<real>): (m: real)
    requires |xs| > 0
    ensures m in xs
    ensures forall i :: 0 <= i < |xs| ==> xs[i] <= m
  {
    if |xs| == 1 then xs[0]
    else
      var m := Max(xs[1..]);
      assert forall i :: 1 <= i < |xs| ==> xs[i] == xs[1..][i - 1];
      if xs[0] >= m then xs[0] else m
  }

  /** The smallest and largest values depend only on which values there are. */
  lemma MinMaxPermutation(xs: seq<real>, ys: seq<real>)
    requires |xs| > 0 && multiset(xs) == multiset(ys)
    ensures |ys| > 0 && Min(xs) == Min(ys) && Max(xs) == Max(ys)
  {
    assert |ys| == |multiset(ys)| == |xs|;
    forall z | z in xs ensures z in ys {
      assert z in multiset(xs);
    }
    forall z | z in ys ensures z in xs {
      assert z in multiset(ys);
    }
  }

  predicate Sorted(xs: seq<real>) {
    forall i, j :: 0 <= i < j < |xs| ==> xs[i] <= xs[j]
  }

  /** Insert `x` into a sorted sequence, keeping it sorted. */
  function Insert(x: real, s: seq<real>): (r: seq<real>)
    requires Sorted(s)
    ensures Sorted(r)
    ensures |r| == |s| + 1
    ensures forall i :: 0 <= i < |r| ==> r[i] == x || r[i] in s
    ensures multiset(r) == multiset(s) + multiset{x}
  {
    if |s| == 0 then [x]
    else if x <= s[0] then [x] + s
    else
      var t := Insert(x, s[1..]);
      assert s == [s[0]] + s[1..];
      assert forall i :: 0 <= i < |t| ==> t[i] == x || t[i] in s[1..];
      [s[0]] + t
  }

  /** `sorted(xs)`: the same values in ascending order. */
  function Sort(xs: seq<real>): (r: seq<real>)
    ensures Sorted(r)
    ensures |r| == |xs|
    ensures forall i :: 0 <= i < |r| ==> r[i] in xs
    ensures multiset(r) == multiset(xs)
  {
    if |xs| == 0 then []
    else
      assert xs == [xs[0]] + xs[1..];
      Insert(xs[0], Sort(xs[1..]))
  }

  /** The first element of a sorted sequence is its least. */
  lemma SortedFirst(a: seq<real>, z: real)
    requires Sorted(a) && z in a
    ensures a[0] <= z
  {
  }

  lemma SortedTail(a: seq<real>)
    requires Sorted(a) && |a| > 0
    ensures Sorted(a[1..])
  {
    forall i, j | 0 <= i < j < |a| - 1 ensures a[1..][i] <= a[1..][j] {
      assert a[1..][i] == a[i + 1] && a[1..][j] == a[j + 1];
    }
  }

  lemma TailMultiset(a: seq<real>)
    requires |a| > 0
    ensures multiset(a[1..]) == multiset(a) - multiset{a[0]}
  {
    assert a == [a[0]] + a[1..];
  }

  /** Sorting determines the order: two sorted sequences holding the same
      values are equal. */
  lemma {:induction false} SortedUnique(a: seq<real>, b: seq<real>)
    requires Sorted(a) && Sorted(b)
    requires multiset(a) == multiset(b)
    ensures a == b
  {
    assert |a| == |multiset(a)| == |b|;
    if |a| > 0 {
      assert a[0] in multiset(b) && b[0] in multiset(a);
      SortedFirst(b, a[0]);
      SortedFirst(a, b[0]);
      assert a[0] == b[0];
      assert multiset(a[1..]) == multiset(b[1..]) by {
        TailMultiset(a);
        TailMultiset(b);
      }
      SortedTail(a);
      SortedTail(b);
      SortedUnique(a[1..], b[1..]);
      assert a == [a[0]] + a[1..] && b == [b[0]] + b[1..];
    }
  }

  /** A sorted input is its own sort. */
  lemma SortSorted(xs: seq<real>)
    requires Sorted(xs)
    ensures Sort(xs) == xs
  {
    SortedUnique(Sort(xs), xs);
  }

  /** The middle of a sorted sequence: the middle element, or the mean of the
      two middle ones when the length is even. */
  function Middle(s: seq<real>): (m: real)
    requires |s| > 0
    ensures exists i, j :: 0 <= i < |s| && 0 <= j < |s| && s[i] <= m <= s[j]
  {
    var n := |s|;
    if n % 2 == 1 then s[n / 2] else (s[n / 2 - 1] + s[n / 2]) / 2.0
  }

  /** `statistics.median` */
  function Median(xs: seq<real>): (m: real)
    requires |xs| > 0
    ensures Min(xs) <= m <= Max(xs)
  {
    var s := Sort(xs);
    var m := Middle(s);
    assert Min(xs) <= m <= Max(xs) by {
      var i, j :| 0 <= i < |s| && 0 <= j < |s| && s[i] <= m <= s[j];
      assert s[i] in xs && s[j] in xs;
    }
    m
  }

  /** The median does not depend on the order of the values. */
  lemma MedianPermutation(xs: seq<real>, ys: seq<real>)
    requires |xs| > 0
    requires multiset(xs) == multiset(ys)
    ensures |ys| > 0 && Median(xs) == Median(ys)
  {
    assert |xs| == |multiset(xs)| == |ys|;
    SortedUnique(Sort(xs), Sort(ys));
  }

  function Square(y: real): real {
    y * y
  }

  lemma SquareNonneg(y: real)
    ensures Square(y) >= 0.0
  {
    if y >= 0.0 {
      MulNonneg(y, y);
    } else {
      MulNonneg(-y, -y);
    }
  }

  /** `y -> (y - c) ** 2` */
  function DeviationFrom(c: real): real -> real {
    y => Square(y - c)
  }

  /** Sum of squared deviations from `c`: never negative. */
  function SumSqDev(xs: seq<real>, c: real): (d: real)
    ensures d >= 0.0
  {
    forall i | 0 <= i < |xs| ensures DeviationFrom(c)(xs[i]) >= 0.0 {
      SquareNonneg(xs[i] - c);
    }
    SumOfNonneg(DeviationFrom(c), xs);
    SumOf(DeviationFrom(c), xs)
  }

  /** `statistics.pvariance`: the mean squared deviation from the mean. */
  function PVariance(xs: seq<real>): (v: real)
    requires |xs| > 0
    ensures v >= 0.0
  {
    SumSqDev(xs, Mean(xs)) / |xs| as real
  }

  /** A sum lies between `n` times a lower and `n` times an upper bound. */
  lemma {:induction false} SumBounds(xs: seq<real>, lo: real, hi: real)
    requires forall i :: 0 <= i < |xs| ==> lo <= xs[i] <= hi
    ensures |xs| as real * lo <= Sum(xs) <= |xs| as real * hi
  {
    if |xs| > 0 {
      assert forall i :: 0 <= i < |xs| - 1 ==> xs[1..][i] == xs[i + 1];
      SumBounds(xs[1..], lo, hi);
      assert |xs| as real * lo == lo + (|xs| - 1) as real * lo;
      assert |xs| as real * hi == hi + (|xs| - 1) as real * hi;
    }
  }

  /** The mean of values within bounds is within the same bounds. */
  lemma MeanWithin(xs: seq<real>, lo: real, hi: real)
    requires |xs| > 0
    requires forall i :: 0 <= i < |xs| ==> lo <= xs[i] <= hi
    ensures lo <= Mean(xs) <= hi
  {
    SumBounds(xs, lo, hi);
    DivBounds(Sum(xs), |xs| as real, lo, hi);
  }

  /** One value has no spread: the `len(clean) > 1` guard changes nothing. */
  lemma SingletonVariance(x: real)
    ensures PVariance([x]) == 0.0
  {
    assert [x][1..] == [];
    assert SumOf(Identity, [x]) == Identity(x) + SumOf(Identity, []);
    assert Mean([x]) == x;
    assert SumOf(DeviationFrom(x), [x]) == DeviationFrom(x)(x) + SumOf(DeviationFrom(x), []);
    assert DeviationFrom(x)(x) == Square(0.0) == 0.0;
  }

  /** The record `stats_summary` returns: `{"count": 0}` when there is no
      value, the six statistics otherwise. */
  datatype Summary =
    | Empty
    | Full(count: nat, mean: real, median: real, variance: real, min: real, max: real)

  /** The summary of a list with the `None` entries already removed. */
  function Summarize(clean: seq<real>): (s: Summary)
    ensures s.Empty? <==> |clean| == 0
    ensures s.Full? ==> s.count == |clean| && s.min in clean && s.max in clean
    ensures s.Full? ==> forall i :: 0 <= i < |clean| ==> s.min <= clean[i] <= s.max
    ensures s.Full? ==> s.min <= s.mean <= s.max && s.min <= s.median <= s.max
    ensures s.Full? ==> s.variance >= 0.0
  {
    if |clean| == 0 then Empty
    else
      MeanWithin(clean, Min(clean), Max(clean));
      Full(|clean|, Mean(clean), Median(clean), if |clean| > 1 then PVariance(clean) else 0.0, Min(clean), Max(clean))
  }

  /** The variance field is the population variance whatever the count. */
  lemma SummaryVariance(clean: seq<real>)
    requires |clean| > 0
    ensures Summarize(clean).variance == PVariance(clean)
  {
    if |clean| == 1 {
      assert clean == [clean[0]];
      SingletonVariance(clean[0]);
    }
  }

  /** The summary depends only on which values occur how often, not on their
      order. */
  lemma SummarizePermutation(xs: seq<real>, ys: seq<real>)
    requires multiset(xs) == multiset(ys)
    ensures Summarize(xs) == Summarize(ys)
  {
    assert |xs| == |multiset(xs)| == |ys|;
    if |xs| > 0 {
      SumOfPermutation(Identity, xs, ys);
      assert Mean(xs) == Mean(ys);
      SumOfPermutation(DeviationFrom(Mean(xs)), xs, ys);
      MedianPermutation(xs, ys);
      MinMaxPermutation(xs, ys);
    }
  }

  lemma ExampleSums()
    ensures Mean([1.0, 2.0, 3.0, 4.0]) == 2.5
    ensures SumSqDev([1.0, 2.0, 3.0, 4.0], 2.5) == 5.0
  {
    var xs := [1.0, 2.0, 3.0, 4.0];
    assert xs[1..] == [2.0, 3.0, 4.0] && xs[1..][1..] == [3.0, 4.0] && xs[1..][1..][1..] == [4.0];
    assert Sum(xs) == 10.0;
  }

  /** The median of sorted values is their middle. */
  lemma MedianSorted(xs: seq<real>)
    requires |xs| > 0 && Sorted(xs)
    ensures Median(xs) == Middle(xs)
  {
    SortSorted(xs);
  }

  /** The median is read off any sorted arrangement of the values: its
      middle element when the count is odd, and the mean of its two middle
      elements when the count is even. */
  lemma MedianOfSorted(xs: seq<real>, s: seq<real>)
    requires |xs| > 0 && Sorted(s) && multiset(s) == multiset(xs)
    ensures |s| == |xs|
    ensures |s| % 2 == 1 ==> Median(xs) == s[|s| / 2]
    ensures |s| % 2 == 0 ==> Median(xs) == (s[|s| / 2 - 1] + s[|s| / 2]) / 2.0
  {
    SortedUnique(Sort(xs), s);
    assert Median(xs) == Middle(s);
    MiddleAt(s);
  }

  lemma MiddleAt(s: seq<real>)
    requires |s| > 0
    ensures |s| % 2 == 1 ==> Middle(s) == s[|s| / 2]
    ensures |s| % 2 == 0 ==> Middle(s) == (s[|s| / 2 - 1] + s[|s| / 2]) / 2.0
  {
  }

  /** Of four ordered values, the median is the mean of the middle two. */
  lemma MedianOfFour(a: real, b: real, c: real, d: real)
    requires a <= b <= c <= d
    ensures Median([a, b, c, d]) == (b + c) / 2.0
  {
    SortedFour(a, b, c, d);
    MedianSorted([a, b, c, d]);
    MiddleOfFour(a, b, c, d);
  }

  lemma SortedFour(a: real, b: real, c: real, d: real)
    requires a <= b <= c <= d
    ensures Sorted([a, b, c, d])
  {
  }

  lemma MiddleOfFour(a: real, b: real, c: real, d: real)
    ensures Middle([a, b, c, d]) == (b + c) / 2.0
  {
  }

  lemma ExampleRange()
    ensures Min([1.0, 2.0, 3.0, 4.0]) == 1.0 && Max([1.0, 2.0, 3.0, 4.0]) == 4.0
  {
    var xs := [1.0, 2.0, 3.0, 4.0];
    assert Min(xs) <= xs[0] && xs[3] <= Max(xs);
    assert 1.0 <= Min(xs) && Max(xs) <= 4.0 by {
      assert forall z :: z in xs ==> 1.0 <= z <= 4.0;
    }
  }

  /** `[1, 2, 3, 4]` has mean 2.5, median 2.5 and population variance 1.25. */
  lemma SummaryExample()
    ensures Summarize([1.0, 2.0, 3.0, 4.0]) == Full(4, 2.5, 2.5, 1.25, 1.0, 4.0)
  {
    ExampleSums();
    MedianOfFour(1.0, 2.0, 3.0, 4.0);
    ExampleRange();
  }

  // Real arithmetic the solver needs spelled out.

  lemma MulNonneg(a: real, b: real)
    requires a >= 0.0 && b >= 0.0
    ensures a * b >= 0.0
  {
  }

  lemma MulPos(a: real, b: real)
    requires a > 0.0 && b > 0.0
    ensures a * b > 0.0
  {
  }

  lemma DivMul(s: real, n: real)
    requires n > 0.0
    ensures s / n * n == s
  {
  }

  lemma DivBounds(s: real, n: real, lo: real, hi: real)
    requires n > 0.0 && n * lo <= s <= n * hi
    ensures lo <= s / n <= hi
  {
    var q := s / n;
    DivMul(s, n);
    if q < lo {
      MulPos(lo - q, n);
    }
    if q > hi {
      MulPos(q - hi, n);
    }
  }
}
