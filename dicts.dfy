/** Python's insertion-ordered `dict`, as a sequence of (key, value) pairs. */
module Dicts {
  import opened Errors

  /** `k in d`, returning the position of the pair that holds key `k`. */
  function Find<K(==), V>(d: seq<(K, V)>, k: K): (r: Option<nat>)
    ensures r.Some? ==> r.value < |d| && d[r.value].0 == k
    ensures r.Some? ==> forall j :: 0 <= j < r.value ==> d[j].0 != k
    ensures r.None? <==> forall j :: 0 <= j < |d| ==> d[j].0 != k
  {
    if d == [] then None
    else if d[0].0 == k then Some(0)
    else match Find(d[1..], k)
      case None => None
      case Some(i) => Some(i + 1)
  }

  /** `d.get(k, dflt)`. */
  function Get<K(==), V>(d: seq<(K, V)>, k: K, dflt: V): V
  {
    match Find(d, k)
    case None => dflt
    case Some(i) => d[i].1
  }

  /** The keys of the dict. */
  function KeySet<K, V>(d: seq<(K, V)>): set<K>
  {
    set i | 0 <= i < |d| :: d[i].0
  }

  /** `list(d)`: the keys of the dict, in insertion order. */
  function KeyList<K, V>(d: seq<(K, V)>): (r: seq<K>)
    ensures |r| == |d| && forall i :: 0 <= i < |d| ==> r[i] == d[i].0
  {
    seq(|d|, i requires 0 <= i < |d| => d[i].0)
  }

  /** No key occurs twice, as in every Python dict. */
  ghost predicate DistinctKeys<K, V>(d: seq<(K, V)>)
  {
    forall i, j :: 0 <= i < j < |d| ==> d[i].0 != d[j].0
  }

  /** `d[k] = v`: overwrite in place when `k` is present, append otherwise. */
  function Put<K(==), V>(d: seq<(K, V)>, k: K, v: V): seq<(K, V)>
  {
    match Find(d, k)
    case None => d + [(k, v)]
    case Some(i) => d[i := (k, v)]
  }

  /** `d[k] = v` overwrites the pair of `k` in place, or appends a new pair. */
  lemma PutShape<K, V>(d: seq<(K, V)>, k: K, v: V)
    ensures Find(d, k).None? ==> Put(d, k, v) == d + [(k, v)]
    ensures Find(d, k).Some? ==> Put(d, k, v) == d[Find(d, k).value := (k, v)]
  {
  }

  /** `d[k] = v` adds `k` to the keys and keeps them distinct. */
  lemma PutKeys<K, V>(d: seq<(K, V)>, k: K, v: V)
    ensures k in KeySet(Put(d, k, v)) && KeySet(Put(d, k, v)) == KeySet(d) + {k}
    ensures DistinctKeys(d) ==> DistinctKeys(Put(d, k, v))
  {
    match Find(d, k)
    case None => AppendKeySet(d, k, v);
    case Some(i) => UpdateKeySet(d, i, v);
  }

  lemma AppendKeySet<K, V>(d: seq<(K, V)>, k: K, v: V)
    ensures KeySet(d + [(k, v)]) == KeySet(d) + {k}
  {
    var r := d + [(k, v)];
    assert r[|d|].0 == k;
    forall x | x in KeySet(r) ensures x in KeySet(d) + {k} {
      var i :| 0 <= i < |r| && r[i].0 == x;
      if i < |d| { assert d[i].0 == x; }
    }
    forall x | x in KeySet(d) ensures x in KeySet(r) {
      var i :| 0 <= i < |d| && d[i].0 == x;
      assert r[i].0 == x;
    }
  }

  lemma UpdateKeySet<K, V>(d: seq<(K, V)>, i: nat, v: V)
    requires i < |d|
    ensures KeySet(d[i := (d[i].0, v)]) == KeySet(d)
  {
    var r := d[i := (d[i].0, v)];
    forall x | x in KeySet(d) ensures x in KeySet(r) {
      var j :| 0 <= j < |d| && d[j].0 == x;
      assert r[j].0 == x;
    }
    forall x | x in KeySet(r) ensures x in KeySet(d) {
      var j :| 0 <= j < |r| && r[j].0 == x;
      assert d[j].0 == x;
    }
  }

  /** After `d[k] = v`, every other key is found where it was. */
  lemma FindPutOther<K, V>(d: seq<(K, V)>, k: K, v: V, q: K)
    requires q != k
    ensures Find(Put(d, k, v), q) == Find(d, q)
  {
    var r := Put(d, k, v);
    match Find(d, q)
    case None =>
      forall j | 0 <= j < |r| ensures r[j].0 != q {
        if j < |d| && r[j] != d[j] { assert r[j].0 == k; }
      }
    case Some(j) =>
      assert r[j].0 == q;
      forall m | 0 <= m < j ensures r[m].0 != q {
        if r[m] != d[m] { assert r[m].0 == k; }
      }
      FindFirst(r, q, j);
  }

  /** After `d[k] = v`, `k` is found where it was, or at the end. */
  lemma FindPutSame<K, V>(d: seq<(K, V)>, k: K, v: V)
    ensures Find(Put(d, k, v), k) == Some(if Find(d, k).Some? then Find(d, k).value else |d|)
  {
    var r := Put(d, k, v);
    match Find(d, k)
    case None =>
      assert r[|d|].0 == k;
      forall m | 0 <= m < |d| ensures r[m].0 != k { assert r[m] == r[..|d|][m]; }
      FindFirst(r, k, |d|);
    case Some(i) =>
      assert r[i].0 == k;
      FindFirst(r, k, i);
  }

  /** After `d[k] = v`, `d.get(k)` is `v` and every other key reads as before. */
  lemma GetPut<K, V>(d: seq<(K, V)>, k: K, v: V, q: K, dflt: V)
    ensures Get(Put(d, k, v), q, dflt) == if q == k then v else Get(d, q, dflt)
  {
    if q == k {
      FindPutSame(d, k, v);
    } else {
      FindPutOther(d, k, v, q);
    }
  }

  /** Two dicts with the same keys in the same order find every key at the same position. */
  lemma {:induction false} FindKeysAgree<K, V, W>(a: seq<(K, V)>, b: seq<(K, W)>, k: K)
    requires |a| == |b| && forall i :: 0 <= i < |a| ==> a[i].0 == b[i].0
    ensures Find(a, k) == Find(b, k)
  {
    if a != [] && a[0].0 != k {
      FindKeysAgree(a[1..], b[1..], k);
    }
  }

  /** Distinct keys make the dict exactly as long as its key set is large. */
  lemma {:induction false} DistinctKeySetCard<K, V>(d: seq<(K, V)>)
    requires DistinctKeys(d)
    ensures |KeySet(d)| == |d|
  {
    if d != [] {
      var p := d[..|d| - 1];
      DistinctKeySetCard(p);
      assert d == p + [d[|d| - 1]];
      AppendKeySet(p, d[|d| - 1].0, d[|d| - 1].1);
      assert d[|d| - 1].0 !in KeySet(p);
    }
  }

  /** `Find` returns the first position holding the key. */
  lemma FindFirst<K, V>(d: seq<(K, V)>, k: K, j: nat)
    requires j < |d| && d[j].0 == k
    requires forall m :: 0 <= m < j ==> d[m].0 != k
    ensures Find(d, k) == Some(j)
  {
  }
}
