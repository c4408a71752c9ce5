/** Insertion-ordered dictionaries in the manner of Python's `dict`: an
    association list whose keys are pairwise distinct.  Assigning to a key
    that is present keeps its position; assigning to an absent key appends it. */
module Dicts {

  datatype Option<+T> = None | Some(value: T) {
    /** `d.get(k, default)` once the lookup has been done. */
    function GetOr(default: T): T {
      match this
      case Some(v) => v
      case None => default
    }
  }

  /** No key occurs twice. */
  predicate UniqueKeys<K(==), V>(m: seq<(K, V)>) {
    forall i, j :: 0 <= i < j < |m| ==> m[i].0 != m[j].0
  }

  /** The keys, in order. */
  function Keys<K, V>(m: seq<(K, V)>): (ks: seq<K>)
    ensures |ks| == |m|
    ensures forall i :: 0 <= i < |m| ==> ks[i] == m[i].0
  {
    seq(|m|, i requires 0 <= i < |m| => m[i].0)
  }

  /** Position of the first entry with key `k`, or `|m|` when there is none. */
  function Find<K(==), V>(m: seq<(K, V)>, k: K): (i: nat)
    ensures i <= |m|
    ensures i < |m| ==> m[i].0 == k
    ensures forall j :: 0 <= j < i ==> m[j].0 != k
  {
    if |m| == 0 then 0
    else if m[0].0 == k then 0
    else 1 + Find(m[1..], k)
  }

  /** `k in d` */
  predicate Has<K(==), V>(m: seq<(K, V)>, k: K) {
    Find(m, k) < |m|
  }

  /** `d.get(k)`, with `None` standing for an absent key. */
  function Get<K(==), V>(m: seq<(K, V)>, k: K): (r: Option<V>)
    ensures r.Some? <==> Has(m, k)
    ensures r.Some? <==> k in Keys(m)
  {
    var i := Find(m, k);
    if i < |m| then Some(m[i].1) else None
  }

  /** `d[k] = v` */
  function Set<K(==,!new), V>(m: seq<(K, V)>, k: K, v: V): (r: seq<(K, V)>)
    ensures Get(r, k) == Some(v)
    ensures forall k' :: k' != k ==> Get(r, k') == Get(m, k')
    ensures Keys(r) == if k in Keys(m) then Keys(m) else Keys(m) + [k]
    ensures UniqueKeys(m) ==> UniqueKeys(r)
  {
    var i := Find(m, k);
    if i < |m| then
      var r := m[i := (k, v)];
      FindSameKeys(m, r);
      r
    else
      var r := m + [(k, v)];
      assert Keys(r) == Keys(m) + [k];
      FindConcat(m, [(k, v)]);
      r
  }

  /** `{k: f(k, v) for k, v in d.items()}`: the same keys in the same order,
      each value replaced by `f` of its key and value. */
  function MapValues<K(==,!new), V>(m: seq<(K, V)>, f: (K, V) --> V): (r: seq<(K, V)>)
    requires forall i :: 0 <= i < |m| ==> f.requires(m[i].0, m[i].1)
    ensures Keys(r) == Keys(m)
    ensures UniqueKeys(m) ==> UniqueKeys(r)
    ensures forall k :: Get(m, k).Some? ==>
      f.requires(k, Get(m, k).value) && Get(r, k) == Some(f(k, Get(m, k).value))
    ensures forall k :: Get(m, k).None? ==> Get(r, k).None?
  {
    var r := seq(|m|, i requires 0 <= i < |m| => (m[i].0, f(m[i].0, m[i].1)));
    FindSameKeys(m, r);
    r
  }

  /** Two association lists with the same keys position for position. */
  predicate SameKeys<K(==), V, W>(a: seq<(K, V)>, b: seq<(K, W)>) {
    |a| == |b| && forall j :: 0 <= j < |a| ==> a[j].0 == b[j].0
  }

  /** Finding a key depends only on the sequence of keys. */
  lemma FindSameKeys<K, V, W>(a: seq<(K, V)>, b: seq<(K, W)>)
    requires SameKeys(a, b)
    ensures forall k :: Find(a, k) == Find(b, k)
    ensures Keys(a) == Keys(b)
  {
    forall k ensures Find(a, k) == Find(b, k) {
      var i, j := Find(a, k), Find(b, k);
      assert i < |a| ==> b[i].0 == a[i].0;
      assert j < |b| ==> a[j].0 == b[j].0;
    }
  }

  /** Finding a key in a concatenation: in the first part if it is there,
      otherwise in the second part, shifted. */
  lemma FindConcat<K, V>(m: seq<(K, V)>, t: seq<(K, V)>)
    ensures forall k :: Find(m + t, k) == if Find(m, k) < |m| then Find(m, k) else |m| + Find(t, k)
  {
    var r := m + t;
    forall k ensures Find(r, k) == if Find(m, k) < |m| then Find(m, k) else |m| + Find(t, k) {
      var i, j, l := Find(m, k), Find(r, k), Find(t, k);
      assert i < |m| ==> r[i] == m[i];
      assert j < |m| ==> r[j] == m[j];
      assert l < |t| ==> r[|m| + l] == t[l];
      assert |m| <= j < |r| ==> r[j] == t[j - |m|];
    }
  }

  /** Looking up in a list extended by one entry: an earlier entry wins. */
  lemma GetSnoc<K, V>(m: seq<(K, V)>, k: K, v: V, k': K)
    ensures Get(m + [(k, v)], k') == if Has(m, k') then Get(m, k') else if k' == k then Some(v) else None
  {
    FindConcat(m, [(k, v)]);
    assert (m + [(k, v)])[|m|] == (k, v);
  }

  /** Setting a key moves no existing key. */
  lemma SetKeepsPositions<K(!new), V>(m: seq<(K, V)>, k: K, v: V)
    ensures |m| <= |Set(m, k, v)|
    ensures forall i :: 0 <= i < |m| ==> Set(m, k, v)[i].0 == m[i].0
  {
    var r := Set(m, k, v);
    assert forall i :: 0 <= i < |m| ==> Keys(r)[i] == Keys(m)[i];
  }

  /** In a dictionary, the entry at position `i` is what its key looks up. */
  lemma GetAt<K, V>(m: seq<(K, V)>, i: int)
    requires UniqueKeys(m)
    requires 0 <= i < |m|
    ensures Find(m, m[i].0) == i
    ensures Get(m, m[i].0) == Some(m[i].1)
  {
  }

  /** A dictionary is determined by its key order and its lookups. */
  lemma Extensionality<K(!new), V>(a: seq<(K, V)>, b: seq<(K, V)>)
    requires UniqueKeys(a) && UniqueKeys(b)
    requires Keys(a) == Keys(b)
    requires forall k :: Get(a, k) == Get(b, k)
    ensures a == b
  {
    assert |a| == |Keys(a)| == |Keys(b)| == |b|;
    forall i | 0 <= i < |a| ensures a[i] == b[i] {
      assert a[i].0 == Keys(a)[i] == Keys(b)[i] == b[i].0;
      GetAt(a, i);
      GetAt(b, i);
    }
  }
}
