/** Reference definitions over sequences: the order-preserving filter and
    first-appearance de-duplication that several pipeline stages are
    specified against. */
module Lists {

  /** `[f(x) for x in xs]` */
  function Map<A, B>(f: A -> B, xs: seq<A>): (r: seq<B>)
    ensures |r| == |xs|
    ensures forall i :: 0 <= i < |xs| ==> r[i] == f(xs[i])
  {
    seq(|xs|, i requires 0 <= i < |xs| => f(xs[i]))
  }

  lemma AppendAssoc<T>(a: seq<T>, b: seq<T>, c: seq<T>)
    ensures a + b + c == a + (b + c)
  {
  }

  /** A prefix one longer is the prefix with the next element appended. */
  lemma TakeSnoc<T>(xs: seq<T>, j: int)
    requires 0 <= j < |xs|
    ensures xs[..j + 1] == xs[..j] + [xs[j]]
  {
  }

  lemma AppendEmpty<T>(a: seq<T>)
    ensures [] + a == a && a + [] == a
  {
  }

  /** Mapping a sequence extended at the end extends the result at the end. */
  lemma MapSnoc<A, B>(f: A -> B, xs: seq<A>, x: A)
    ensures Map(f, xs + [x]) == Map(f, xs) + [f(x)]
  {
  }

  /** How many elements satisfy `p`. */
  function Count<T>(p: T -> bool, xs: seq<T>): nat {
    if |xs| == 0 then 0 else (if p(xs[0]) then 1 else 0) + Count(p, xs[1..])
  }

  /** `a` is obtained from `b` by deleting elements, keeping the order. */
  predicate Subseq<T(==)>(a: seq<T>, b: seq<T>)
    decreases |b|
  {
    |a| == 0 || (|b| > 0 && ((a[0] == b[0] && Subseq(a[1..], b[1..])) || Subseq(a, b[1..])))
  }

  /** `[x for x in xs if p(x)]`: an order-preserving subsequence, made only of
      elements satisfying `p`, and as long as the number of such elements;
      these three facts determine it. */
  function Filter<T(==)>(p: T -> bool, xs: seq<T>): (r: seq<T>)
    ensures |r| == Count(p, xs)
    ensures forall i :: 0 <= i < |r| ==> p(r[i])
    ensures Subseq(r, xs)
  {
    if |xs| == 0 then []
    else if p(xs[0]) then
      var t := Filter(p, xs[1..]);
      assert ([xs[0]] + t)[1..] == t;
      [xs[0]] + t
    else Filter(p, xs[1..])
  }

  /** Filtering a sequence extended at the end extends the result at the end;
      this is what a left-to-right loop with an output list computes. */
  lemma {:induction false} FilterSnoc<T>(p: T -> bool, xs: seq<T>, x: T)
    ensures Filter(p, xs + [x]) == Filter(p, xs) + if p(x) then [x] else []
  {
    if |xs| == 0 {
      assert xs + [x] == [x];
    } else {
      assert (xs + [x])[1..] == xs[1..] + [x];
      FilterSnoc(p, xs[1..], x);
    }
  }

  /** Filtering then mapping, one element further. */
  lemma MapFilterSnoc<A, B>(f: A -> B, p: A -> bool, xs: seq<A>, x: A)
    ensures Map(f, Filter(p, xs + [x])) == Map(f, Filter(p, xs)) + if p(x) then [f(x)] else []
  {
    FilterSnoc(p, xs, x);
    if p(x) {
      MapSnoc(f, Filter(p, xs), x);
    }
  }

  /** Keeping everything returns the input. */
  lemma {:induction false} FilterAll<T>(p: T -> bool, xs: seq<T>)
    requires forall i :: 0 <= i < |xs| ==> p(xs[i])
    ensures Filter(p, xs) == xs
  {
    if |xs| > 0 {
      FilterAll(p, xs[1..]);
    }
  }

  /** Two predicates that agree on the elements filter alike. */
  lemma {:induction false} FilterCongruence<T>(p: T -> bool, q: T -> bool, xs: seq<T>)
    requires forall i :: 0 <= i < |xs| ==> p(xs[i]) == q(xs[i])
    ensures Filter(p, xs) == Filter(q, xs)
  {
    if |xs| > 0 {
      FilterCongruence(p, q, xs[1..]);
    }
  }

  /** If `p` implies `q` on every element, fewer elements satisfy `p`; strictly
      fewer when some element satisfies `q` but not `p`. */
  lemma {:induction false} CountMonotone<T>(p: T -> bool, q: T -> bool, xs: seq<T>)
    requires forall i :: 0 <= i < |xs| ==> p(xs[i]) ==> q(xs[i])
    ensures Count(p, xs) <= Count(q, xs)
    ensures (exists i :: 0 <= i < |xs| && q(xs[i]) && !p(xs[i])) ==> Count(p, xs) < Count(q, xs)
  {
    if |xs| > 0 {
      CountMonotone(p, q, xs[1..]);
      if exists i :: 0 <= i < |xs| && q(xs[i]) && !p(xs[i]) {
        var i :| 0 <= i < |xs| && q(xs[i]) && !p(xs[i]);
        if i > 0 {
          assert xs[1..][i - 1] == xs[i];
        }
      }
    }
  }

  /** No element occurs twice. */
  predicate NoDup<T(==)>(xs: seq<T>) {
    forall i, j :: 0 <= i < j < |xs| ==> xs[i] != xs[j]
  }

  /** The distinct elements of `xs`, each at the place it first appears. */
  function Dedup<T(==,!new)>(xs: seq<T>): (r: seq<T>)
    ensures NoDup(r)
    ensures forall x :: x in r <==> x in xs
  {
    if |xs| == 0 then []
    else
      var init, last := xs[..|xs| - 1], xs[|xs| - 1];
      assert xs == init + [last];
      var d := Dedup(init);
      if last in d then d else d + [last]
  }

  /** Position of the first occurrence of `x`, or `|xs|`. */
  function FirstIndex<T(==)>(xs: seq<T>, x: T): (i: nat)
    ensures i <= |xs|
    ensures i < |xs| ==> xs[i] == x
    ensures forall j :: 0 <= j < i ==> xs[j] != x
  {
    if |xs| == 0 then 0 else if xs[0] == x then 0 else 1 + FirstIndex(xs[1..], x)
  }

  lemma FirstIndexPrefix<T>(xs: seq<T>, y: T, x: T)
    requires x in xs
    ensures FirstIndex(xs + [y], x) == FirstIndex(xs, x)
  {
    var r := xs + [y];
    var i, j := FirstIndex(xs, x), FirstIndex(r, x);
    assert i < |xs| ==> r[i] == xs[i];
    assert j < |xs| ==> r[j] == xs[j];
  }

  /** `Dedup` lists the distinct elements in order of first appearance. */
  lemma {:induction false} DedupFirstAppearance<T(!new)>(xs: seq<T>)
    ensures forall i, j :: 0 <= i < j < |Dedup(xs)| ==>
      FirstIndex(xs, Dedup(xs)[i]) < FirstIndex(xs, Dedup(xs)[j])
  {
    if |xs| > 0 {
      var init, last := xs[..|xs| - 1], xs[|xs| - 1];
      assert xs == init + [last];
      var d := Dedup(init);
      DedupFirstAppearance(init);
      forall x | x in d ensures FirstIndex(xs, x) == FirstIndex(init, x) < |init| {
        FirstIndexPrefix(init, last, x);
      }
      if last !in d {
        assert last !in init;
        assert FirstIndex(xs, last) == |init|;
        assert Dedup(xs) == d + [last];
        forall i, j | 0 <= i < j < |Dedup(xs)|
          ensures FirstIndex(xs, Dedup(xs)[i]) < FirstIndex(xs, Dedup(xs)[j])
        {
          assert Dedup(xs)[i] == d[i];
          if j < |d| {
            assert Dedup(xs)[j] == d[j];
          }
        }
      }
    }
  }

  /** Number of occurrences of `x`. */
  function Occurrences<T(==)>(xs: seq<T>, x: T): (n: nat)
    ensures n == 0 <==> x !in xs
  {
    if |xs| == 0 then 0
    else
      assert xs == xs[..|xs| - 1] + [xs[|xs| - 1]];
      Occurrences(xs[..|xs| - 1], x) + if xs[|xs| - 1] == x then 1 else 0
  }
}
