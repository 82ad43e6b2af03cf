/** Small vocabulary shared by the other modules. */
module Basics {

  datatype Option<+T> = None | Some(value: T)

  function Min(a: int, b: int): int {
    if a < b then a else b
  }

  /** The sum of a map's values, in any order. */
  ghost function Total<K>(m: map<K, nat>): nat {
    if m == map[] then 0
    else
      var k :| k in m;
      m[k] + Total(m - {k})
  }

  lemma {:induction false} TotalRemove<K>(m: map<K, nat>, k: K)
    requires k in m
    ensures Total(m) == m[k] + Total(m - {k})
  {
    var p :| p in m && Total(m) == m[p] + Total(m - {p});
    if p != k {
      TotalRemove(m - {p}, k);
      TotalRemove(m - {k}, p);
      assert m - {p} - {k} == m - {k} - {p};
    }
  }

  lemma TotalUpdate<K>(m: map<K, nat>, k: K, v: nat)
    ensures Total(m[k := v]) == Total(m) + v - (if k in m then m[k] else 0)
  {
    TotalRemove(m[k := v], k);
    assert m[k := v] - {k} == m - {k};
    if k in m {
      TotalRemove(m, k);
    } else {
      assert m - {k} == m;
    }
  }

  /** Dropping keys never increases the sum. */
  lemma {:induction false} TotalRestrict<K>(m: map<K, nat>, n: map<K, nat>)
    requires n.Keys <= m.Keys
    requires forall k :: k in n ==> n[k] == m[k]
    ensures Total(n) <= Total(m)
    decreases |m|
  {
    if k :| k in m && k !in n {
      TotalRemove(m, k);
      assert |m - {k}| < |m| by { assert m.Keys == (m - {k}).Keys + {k}; }
      TotalRestrict(m - {k}, n);
    } else {
      assert n == m;
    }
  }

  lemma MultisetSplit<T>(q: seq<T>, i: nat)
    requires i < |q|
    ensures multiset(q) == multiset(q[..i]) + multiset{q[i]} + multiset(q[i + 1..])
  {
    assert q == q[..i] + [q[i]] + q[i + 1..];
  }

  lemma {:induction false} MultisetLength<T>(q: seq<T>)
    ensures |multiset(q)| == |q|
  {
    if q != [] {
      MultisetLength(q[1..]);
      assert q == [q[0]] + q[1..];
    }
  }

  /** The positions below n at which p holds. */
  ghost function Where(n: nat, p: nat -> bool): set<nat> {
    set i: nat | i < n && p(i)
  }

  lemma WhereNext(n: nat, p: nat -> bool)
    ensures |Where(n + 1, p)| == |Where(n, p)| + (if p(n) then 1 else 0)
  {
    assert Where(n + 1, p) == if p(n) then Where(n, p) + {n} else Where(n, p);
  }

  lemma WhereSame(n: nat, p: nat -> bool, q: nat -> bool)
    requires forall i: nat :: i < n ==> p(i) == q(i)
    ensures Where(n, p) == Where(n, q)
  {
  }
}
