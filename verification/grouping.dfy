/** Summing values per key, the keys kept in order of first appearance: the
    dictionary accumulator behind `aggregate_sum_by_key`.  A list of
    `(key, value)` entries is grouped by key; `Grouped` is the reference
    result and `AddTo` the one-entry step both variants perform. */
module Grouping {
  import opened Dicts
  import Lists

  /** `acc[k] = acc.get(k, 0.0) + v` */
  function AddTo<K(==,!new)>(acc: seq<(K, real)>, k: K, v: real): (r: seq<(K, real)>)
    ensures Get(r, k) == Some(Get(acc, k).GetOr(0.0) + v)
    ensures forall k' :: k' != k ==> Get(r, k') == Get(acc, k')
    ensures UniqueKeys(acc) ==> UniqueKeys(r)
  {
    Set(acc, k, Get(acc, k).GetOr(0.0) + v)
  }

  /** The sum of the values of the entries with key `k`. */
  function GroupTotal<K(==)>(ps: seq<(K, real)>, k: K): real {
    if |ps| == 0 then 0.0
    else GroupTotal(ps[..|ps| - 1], k) + if ps[|ps| - 1].0 == k then ps[|ps| - 1].1 else 0.0
  }

  /** A key with no entry totals zero. */
  lemma {:induction false} GroupTotalAbsent<K>(ps: seq<(K, real)>, k: K)
    requires k !in Keys(ps)
    ensures GroupTotal(ps, k) == 0.0
  {
    if |ps| > 0 {
      var init := ps[..|ps| - 1];
      assert ps[|ps| - 1].0 == Keys(ps)[|ps| - 1];
      assert k !in Keys(init) by {
        assert forall i :: 0 <= i < |init| ==> Keys(init)[i] == Keys(ps)[i];
      }
      GroupTotalAbsent(init, k);
    }
  }

  /** The grouped sums: one entry per distinct key, in order of first
      appearance, holding that key's total. */
  function Grouped<K(==,!new)>(ps: seq<(K, real)>): (g: seq<(K, real)>)
    ensures Keys(g) == Lists.Dedup(Keys(ps))
    ensures UniqueKeys(g)
  {
    var d := Lists.Dedup(Keys(ps));
    var g := seq(|d|, i requires 0 <= i < |d| => (d[i], GroupTotal(ps, d[i])));
    assert Keys(g) == d;
    g
  }

  /** Group `i` is the `i`-th distinct key with its total. */
  lemma GroupedAt<K(!new)>(ps: seq<(K, real)>)
    ensures forall i :: 0 <= i < |Grouped(ps)| ==>
      Grouped(ps)[i] == (Lists.Dedup(Keys(ps))[i], GroupTotal(ps, Lists.Dedup(Keys(ps))[i]))
  {
  }

  /** Nothing to group gives no groups. */
  lemma GroupedEmpty<K(!new)>()
    ensures Grouped<K>([]) == []
  {
    assert Keys(Grouped<K>([])) == [];
  }

  /** Looking a key up in the grouped sums yields its total exactly when the
      key occurs. */
  lemma GroupedGet<K(!new)>(ps: seq<(K, real)>, k: K)
    ensures Get(Grouped(ps), k) == if k in Keys(ps) then Some(GroupTotal(ps, k)) else None
  {
    var g := Grouped(ps);
    if k in Keys(ps) {
      assert k in Keys(g);
      var i :| 0 <= i < |g| && Keys(g)[i] == k;
      GetAt(g, i);
    }
  }

  /** Adding one more entry to the grouped sums of a list groups the extended
      list: this is the invariant of the accumulating loop. */
  lemma AddToGrouped<K(!new)>(ps: seq<(K, real)>, k: K, v: real)
    ensures AddTo(Grouped(ps), k, v) == Grouped(ps + [(k, v)])
  {
    var a, b := AddTo(Grouped(ps), k, v), Grouped(ps + [(k, v)]);
    AddToKeys(ps, k, v);
    forall k' ensures Get(a, k') == Get(b, k') {
      AddToGet(ps, k, v, k');
    }
    Extensionality(a, b);
  }

  lemma AddToKeys<K(!new)>(ps: seq<(K, real)>, k: K, v: real)
    ensures Keys(AddTo(Grouped(ps), k, v)) == Keys(Grouped(ps + [(k, v)]))
  {
    var qs := ps + [(k, v)];
    assert Keys(qs) == Keys(ps) + [k];
    assert Keys(qs)[..|qs| - 1] == Keys(ps);
  }

  lemma AddToGet<K(!new)>(ps: seq<(K, real)>, k: K, v: real, k': K)
    ensures Get(AddTo(Grouped(ps), k, v), k') == Get(Grouped(ps + [(k, v)]), k')
  {
    var qs := ps + [(k, v)];
    assert qs[..|qs| - 1] == ps;
    assert Keys(qs) == Keys(ps) + [k];
    GroupedGet(ps, k');
    GroupedGet(qs, k');
    if k' == k && k !in Keys(ps) {
      GroupTotalAbsent(ps, k);
    }
  }

  /** The sum of all values of an association list. */
  function Total<K>(m: seq<(K, real)>): real {
    if |m| == 0 then 0.0 else Total(m[..|m| - 1]) + m[|m| - 1].1
  }

  /** Replacing one entry changes the total by the difference of the values. */
  lemma {:induction false} TotalUpdate<K>(m: seq<(K, real)>, i: int, e: (K, real))
    requires 0 <= i < |m|
    ensures Total(m[i := e]) == Total(m) - m[i].1 + e.1
  {
    var n := |m| - 1;
    if i < n {
      assert m[i := e][..n] == m[..n][i := e];
      TotalUpdate(m[..n], i, e);
    } else {
      assert m[i := e][..n] == m[..n];
    }
  }

  /** One step adds its value to the total. */
  lemma AddToTotal<K(!new)>(acc: seq<(K, real)>, k: K, v: real)
    ensures Total(AddTo(acc, k, v)) == Total(acc) + v
  {
    var i := Find(acc, k);
    if i < |acc| {
      TotalUpdate(acc, i, (k, acc[i].1 + v));
    } else {
      assert (acc + [(k, 0.0 + v)])[..|acc|] == acc;
    }
  }

  /** The group totals add up to the total over all entries. */
  lemma {:induction false} GroupedTotal<K(!new)>(ps: seq<(K, real)>)
    ensures Total(Grouped(ps)) == Total(ps)
  {
    if |ps| == 0 {
      assert Keys(Grouped(ps)) == [];
    } else {
      var init, last := ps[..|ps| - 1], ps[|ps| - 1];
      assert ps == init + [(last.0, last.1)];
      GroupedTotal(init);
      AddToGrouped(init, last.0, last.1);
      AddToTotal(Grouped(init), last.0, last.1);
    }
  }

  /** `{k: f(k) for k in ks}`: one entry per distinct key, in order of first
      appearance. */
  function Tabulate<K(==,!new), V>(ks: seq<K>, f: K -> V): (t: seq<(K, V)>)
    ensures Keys(t) == Lists.Dedup(ks)
    ensures UniqueKeys(t)
  {
    var d := Lists.Dedup(ks);
    var t := seq(|d|, i requires 0 <= i < |d| => (d[i], f(d[i])));
    assert Keys(t) == d;
    t
  }

  /** No keys, no table. */
  lemma TabulateEmpty<K(!new), V>(f: K -> V)
    ensures Tabulate([], f) == []
  {
    assert Keys(Tabulate([], f)) == [];
  }

  /** A key is in the table exactly when it was listed, with its value. */
  lemma TabulateGet<K(!new), V>(ks: seq<K>, f: K -> V, k: K)
    ensures Get(Tabulate(ks, f), k) == if k in ks then Some(f(k)) else None
  {
    var t := Tabulate(ks, f);
    if k in ks {
      assert k in Keys(t);
      var i :| 0 <= i < |t| && Keys(t)[i] == k;
      GetAt(t, i);
    }
  }

  /** Assigning the next key its value extends the table: the invariant of
      the loop that fills the dictionary. */
  lemma SetTabulate<K(!new), V>(ks: seq<K>, f: K -> V, k: K)
    ensures Set(Tabulate(ks, f), k, f(k)) == Tabulate(ks + [k], f)
  {
    var a, b := Set(Tabulate(ks, f), k, f(k)), Tabulate(ks + [k], f);
    assert (ks + [k])[..|ks|] == ks;
    assert Keys(a) == Keys(b);
    forall k' ensures Get(a, k') == Get(b, k') {
      TabulateGet(ks, f, k');
      TabulateGet(ks + [k], f, k');
    }
    Extensionality(a, b);
  }

  /** Storing `f(k)` under each key of `ks` in turn, from the first to the
      last: the accumulator recursion that fills such a table. */
  function SetEach<K(==,!new), V>(ks: seq<K>, f: K -> V, acc: seq<(K, V)>): seq<(K, V)> {
    if |ks| == 0 then acc else SetEach(ks[1..], f, Set(acc, ks[0], f(ks[0])))
  }

  /** The accumulator invariant: started from the table of the keys done so
      far, the recursion ends with the table of all keys. */
  lemma {:induction false} SetEachTabulate<K(!new), V>(ks: seq<K>, f: K -> V, done: seq<K>)
    ensures SetEach(ks, f, Tabulate(done, f)) == Tabulate(done + ks, f)
  {
    if |ks| > 0 {
      SetTabulate(done, f, ks[0]);
      SetEachTabulate(ks[1..], f, done + [ks[0]]);
      Lists.AppendAssoc(done, [ks[0]], ks[1..]);
      assert [ks[0]] + ks[1..] == ks;
    } else {
      Lists.AppendEmpty(done);
    }
  }
}
