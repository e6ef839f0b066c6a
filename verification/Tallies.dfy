/**
 Keyed counters under `INSERT ... ON CONFLICT DO UPDATE SET n = n + excluded.n`.

 A bump of 0 still creates its row. The laws below are what makes the order, the
 grouping and the batching of upserts irrelevant.
 */
module Tallies {

  datatype Bump<K> = Bump(key: K, amount: nat)

  function Get<K>(t: map<K, nat>, k: K): nat {
    if k in t then t[k] else 0
  }

  function Add<K>(t: map<K, nat>, b: Bump<K>): map<K, nat> {
    t[b.key := Get(t, b.key) + b.amount]
  }

  function AddAll<K>(t: map<K, nat>, bs: seq<Bump<K>>): map<K, nat>
    decreases |bs|
  {
    if bs == [] then t else AddAll(Add(t, bs[0]), bs[1..])
  }

  /** Everything `bs` adds to the counter of `k`. */
  function Sum<K(==)>(bs: seq<Bump<K>>, k: K): nat
    decreases |bs|
  {
    if bs == [] then 0 else (if bs[0].key == k then bs[0].amount else 0) + Sum(bs[1..], k)
  }

  ghost predicate Mentions<K>(bs: seq<Bump<K>>, k: K) {
    exists i :: 0 <= i < |bs| && bs[i].key == k
  }

  lemma {:induction false} AddAllConcat<K>(t: map<K, nat>, a: seq<Bump<K>>, b: seq<Bump<K>>)
    ensures AddAll(t, a + b) == AddAll(AddAll(t, a), b)
    decreases |a|
  {
    if a == [] {
      assert a + b == b;
    } else {
      assert (a + b)[1..] == a[1..] + b;
      AddAllConcat(Add(t, a[0]), a[1..], b);
    }
  }

  lemma {:induction false} SumConcat<K>(a: seq<Bump<K>>, b: seq<Bump<K>>, k: K)
    ensures Sum(a + b, k) == Sum(a, k) + Sum(b, k)
    decreases |a|
  {
    if a == [] {
      assert a + b == b;
    } else {
      assert (a + b)[1..] == a[1..] + b;
      SumConcat(a[1..], b, k);
    }
  }

  /** A counter ends at its old value plus what was added to it; rows appear as mentioned. */
  lemma {:induction false} AddAllGet<K>(t: map<K, nat>, bs: seq<Bump<K>>, k: K)
    ensures Get(AddAll(t, bs), k) == Get(t, k) + Sum(bs, k)
    ensures k in AddAll(t, bs) <==> k in t || Mentions(bs, k)
    decreases |bs|
  {
    if bs != [] {
      AddAllGet(Add(t, bs[0]), bs[1..], k);
      assert Mentions(bs, k) <==> bs[0].key == k || Mentions(bs[1..], k) by {
        if Mentions(bs[1..], k) {
          var i :| 0 <= i < |bs[1..]| && bs[1..][i].key == k;
          assert bs[i + 1].key == k;
        }
      }
    }
  }

  /** Two lists of bumps that mention the same keys and agree on every sum are interchangeable. */
  lemma SameEffect<K(!new)>(t: map<K, nat>, a: seq<Bump<K>>, b: seq<Bump<K>>)
    requires forall k :: Sum(a, k) == Sum(b, k)
    requires forall k :: Mentions(a, k) <==> Mentions(b, k)
    ensures AddAll(t, a) == AddAll(t, b)
  {
    var x, y := AddAll(t, a), AddAll(t, b);
    forall k ensures k in x.Keys <==> k in y.Keys {
      AddAllGet(t, a, k);
      AddAllGet(t, b, k);
    }
    forall k | k in x ensures x[k] == y[k] {
      AddAllGet(t, a, k);
      AddAllGet(t, b, k);
    }
  }

  lemma {:induction false} SumPermutes<K>(a: seq<Bump<K>>, b: seq<Bump<K>>, k: K)
    requires multiset(a) == multiset(b)
    ensures Sum(a, k) == Sum(b, k)
    decreases |a|
  {
    if a == [] {
      assert |b| == |multiset(b)| == 0;
    } else {
      var j := Partner(a, b);
      SumPermutes(a[1..], b[..j] + b[j + 1..], k);
      SumWithout(b, j, k);
    }
  }

  /** Where the first element of `a` stands in a reordering of `a`. */
  lemma Partner<T>(a: seq<T>, b: seq<T>) returns (j: nat)
    requires a != [] && multiset(a) == multiset(b)
    ensures j < |b| && b[j] == a[0] && multiset(a[1..]) == multiset(b[..j] + b[j + 1..])
  {
    assert a[0] in multiset(b);
    j :| 0 <= j < |b| && b[j] == a[0];
    RemoveAt(a, 0);
    RemoveAt(b, j);
    assert a[..0] + a[1..] == a[1..];
  }

  lemma RemoveAt<T>(s: seq<T>, j: nat)
    requires j < |s|
    ensures multiset(s[..j] + s[j + 1..]) == multiset(s) - multiset{s[j]}
  {
    assert s == s[..j] + ([s[j]] + s[j + 1..]);
    assert multiset(s) == multiset(s[..j]) + (multiset{s[j]} + multiset(s[j + 1..]));
  }

  lemma SumWithout<K>(bs: seq<Bump<K>>, j: nat, k: K)
    requires j < |bs|
    ensures Sum(bs, k) == Sum(bs[..j] + bs[j + 1..], k) + (if bs[j].key == k then bs[j].amount else 0)
  {
    hide *;
    var front, back := bs[..j], bs[j + 1..];
    assert bs == front + ([bs[j]] + back);
    SumCons(bs[j], back, k);
    SumConcat(front, [bs[j]] + back, k);
    SumConcat(front, back, k);
  }

  lemma SumCons<K>(b: Bump<K>, bs: seq<Bump<K>>, k: K)
    ensures Sum([b] + bs, k) == (if b.key == k then b.amount else 0) + Sum(bs, k)
  {
    assert ([b] + bs)[1..] == bs;
  }

  /** The order of upserts does not matter. */
  lemma AddAllPermutes<K(!new)>(t: map<K, nat>, a: seq<Bump<K>>, b: seq<Bump<K>>)
    requires multiset(a) == multiset(b)
    ensures AddAll(t, a) == AddAll(t, b)
  {
    forall k ensures Sum(a, k) == Sum(b, k) { SumPermutes(a, b, k); }
    forall k ensures Mentions(a, k) <==> Mentions(b, k) {
      MentionsIn(a, b, k);
      MentionsIn(b, a, k);
    }
    SameEffect(t, a, b);
  }

  lemma MentionsIn<K>(a: seq<Bump<K>>, b: seq<Bump<K>>, k: K)
    requires multiset(a) == multiset(b)
    ensures Mentions(a, k) ==> Mentions(b, k)
  {
    if Mentions(a, k) {
      var i :| 0 <= i < |a| && a[i].key == k;
      assert a[i] in multiset(b);
      var j :| 0 <= j < |b| && b[j] == a[i];
    }
  }

  // ---- Totals over a whole table --------------------------------------------

  ghost function Total<K(!new)>(t: map<K, nat>, p: K -> bool): nat
    decreases |t|
  {
    if t == map[] then 0
    else
      var k :| k in t;
      (if p(k) then t[k] else 0) + Total(t - {k}, p)
  }

  lemma {:induction false} TotalSplit<K(!new)>(t: map<K, nat>, p: K -> bool, k: K)
    requires k in t
    ensures Total(t, p) == (if p(k) then t[k] else 0) + Total(t - {k}, p)
    decreases |t|
  {
    var j :| j in t && Total(t, p) == (if p(j) then t[j] else 0) + Total(t - {j}, p);
    if j != k {
      TotalSplit(t - {j}, p, k);
      TotalSplit(t - {k}, p, j);
      assert t - {j} - {k} == t - {k} - {j};
    }
  }

  lemma TotalAdd<K(!new)>(t: map<K, nat>, p: K -> bool, b: Bump<K>)
    ensures Total(Add(t, b), p) == Total(t, p) + (if p(b.key) then b.amount else 0)
  {
    var u := Add(t, b);
    TotalSplit(u, p, b.key);
    if b.key in t {
      TotalSplit(t, p, b.key);
      assert u - {b.key} == t - {b.key};
    } else {
      assert u - {b.key} == t;
    }
  }

  /** Everything `bs` adds to the counters that satisfy `p`. */
  function SumWhere<K>(bs: seq<Bump<K>>, p: K -> bool): nat
    decreases |bs|
  {
    if bs == [] then 0 else (if p(bs[0].key) then bs[0].amount else 0) + SumWhere(bs[1..], p)
  }

  lemma {:induction false} TotalAddAll<K(!new)>(t: map<K, nat>, p: K -> bool, bs: seq<Bump<K>>)
    ensures Total(AddAll(t, bs), p) == Total(t, p) + SumWhere(bs, p)
    decreases |bs|
  {
    if bs != [] {
      TotalAdd(t, p, bs[0]);
      TotalAddAll(Add(t, bs[0]), p, bs[1..]);
    }
  }
}
