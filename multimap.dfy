/**
 * `std::multimap` as the sequence of its entries in iteration order.
 * `Insert` places a new entry after every entry whose key is not greater,
 * which is where `std::multimap::insert` puts it: entries with equal keys
 * keep their insertion order.
 */
module Multimap {

  /** The index of the first entry whose key is greater than `k`. */
  function UpperBound<K, V>(m: seq<(K, V)>, k: K, less: (K, K) -> bool): (u: nat)
    ensures u <= |m|
    ensures forall i :: 0 <= i < u ==> !less(k, m[i].0)
    ensures u < |m| ==> less(k, m[u].0)
  {
    if m == [] || less(k, m[0].0) then 0 else 1 + UpperBound(m[1..], k, less)
  }

  /** `std::multimap::insert`: one more entry, nothing lost or duplicated. */
  function Insert<K, V>(m: seq<(K, V)>, k: K, v: V, less: (K, K) -> bool): (r: seq<(K, V)>)
    ensures multiset(r) == multiset(m) + multiset{(k, v)}
  {
    assert m != [] ==> m == [m[0]] + m[1..];
    if m == [] || less(k, m[0].0) then [(k, v)] + m else [m[0]] + Insert(m[1..], k, v, less)
  }

  /** The new entry goes in at the upper bound of its key; nothing else moves. */
  lemma {:induction false} InsertAt<K, V>(m: seq<(K, V)>, k: K, v: V, less: (K, K) -> bool)
    ensures Insert(m, k, v, less) == m[..UpperBound(m, k, less)] + [(k, v)] + m[UpperBound(m, k, less)..]
  {
    if m == [] || less(k, m[0].0) {
      assert m[..0] == [] && m[0..] == m;
    } else {
      InsertAt(m[1..], k, v, less);
      Splice(m, UpperBound(m[1..], k, less), (k, v));
    }
  }

  /** Splicing `y` in after the first `u + 1` elements of `s` keeps its head in front. */
  lemma Splice<T>(s: seq<T>, u: nat, y: T)
    requires u < |s|
    ensures [s[0]] + (s[1..][..u] + [y] + s[1..][u..]) == s[..u + 1] + [y] + s[u + 1..]
  {
    assert s[..u + 1] == [s[0]] + s[1..][..u];
    assert s[u + 1..] == s[1..][u..];
  }

  /** Entry by entry: the old entries before the upper bound, the new one at it, the rest after it. */
  lemma InsertIndex<K, V>(m: seq<(K, V)>, k: K, v: V, less: (K, K) -> bool)
    ensures var u := UpperBound(m, k, less); var r := Insert(m, k, v, less);
      && |r| == |m| + 1 && r[u] == (k, v)
      && (forall i | 0 <= i < u :: r[i] == m[i])
      && (forall i | u < i < |r| :: r[i] == m[i - 1])
  {
    InsertAt(m, k, v, less);
  }

  /** The entries after `insert` are the old ones and the new one. */
  lemma InsertHas<K, V>(m: seq<(K, V)>, k: K, v: V, less: (K, K) -> bool)
    ensures forall e :: e in Insert(m, k, v, less) <==> e in m || e == (k, v)
  {
    var r := Insert(m, k, v, less);
    assert forall e :: e in r <==> e in multiset(r);
    assert forall e :: e in m <==> e in multiset(m);
  }

  /** A key that no entry's key exceeds goes in last. */
  lemma {:induction false} InsertLast<K, V>(m: seq<(K, V)>, k: K, v: V, less: (K, K) -> bool)
    requires forall i :: 0 <= i < |m| ==> !less(k, m[i].0)
    ensures Insert(m, k, v, less) == m + [(k, v)]
  {
    if m != [] {
      InsertLast(m[1..], k, v, less);
      assert [m[0]] + (m[1..] + [(k, v)]) == m + [(k, v)];
    }
  }

  /** The keys of the entries, in iteration order. */
  function Keys<K, V>(m: seq<(K, V)>): (ks: seq<K>)
    ensures |ks| == |m|
    ensures forall i :: 0 <= i < |m| ==> ks[i] == m[i].0
  {
    if m == [] then [] else [m[0].0] + Keys(m[1..])
  }

  /** The values of the entries, in iteration order. */
  function Values<K, V>(m: seq<(K, V)>): (vs: seq<V>)
    ensures |vs| == |m|
    ensures forall i :: 0 <= i < |m| ==> vs[i] == m[i].1
  {
    if m == [] then [] else [m[0].1] + Values(m[1..])
  }

  /** `std::multimap::count`: the number of entries whose key is `k`. */
  function Count<K(==), V>(m: seq<(K, V)>, k: K): nat
  {
    if m == [] then 0 else (if m[0].0 == k then 1 else 0) + Count(m[1..], k)
  }

  /** An entry at `i` is the only one with its key iff `Count` of that key is 1. */
  lemma {:induction false} CountOne<K, V>(m: seq<(K, V)>, i: nat)
    requires i < |m|
    ensures Count(m, m[i].0) >= 1
    ensures Count(m, m[i].0) == 1 <==> forall j :: 0 <= j < |m| && j != i ==> m[j].0 != m[i].0
  {
    if i > 0 {
      CountOne(m[1..], i - 1);
      assert forall j :: 1 <= j < |m| ==> m[1..][j - 1] == m[j];
      if Count(m, m[i].0) == 1 {
      } else {
        if m[0].0 != m[i].0 {
          var j :| 0 <= j < |m[1..]| && j != i - 1 && m[1..][j].0 == m[i].0;
          assert m[j + 1].0 == m[i].0;
        }
      }
    } else {
      CountAbsent(m[1..], m[0].0);
      assert forall j :: 1 <= j < |m| ==> m[1..][j - 1] == m[j];
    }
  }

  /** A key occurs in no entry iff its count is zero. */
  lemma {:induction false} CountAbsent<K, V>(m: seq<(K, V)>, k: K)
    ensures Count(m, k) == 0 <==> forall j :: 0 <= j < |m| ==> m[j].0 != k
  {
    if m != [] {
      CountAbsent(m[1..], k);
      assert forall j :: 1 <= j < |m| ==> m[1..][j - 1] == m[j];
    }
  }
}
