/** Sums over finite maps. Every ledger statement of this project is a sum over
    the rows of a table, so each update of a table must say how it moves a sum. */
module Sums {

  datatype Option<+T> = None | Some(value: T) {
    function GetOr(default: T): T {
      if Some? then value else default
    }
  }

  /** The sum of f over the rows of m. The rows are visited in an arbitrary order. */
  ghost function Sum<K(!new), V(!new)>(m: map<K, V>, f: (K, V) -> int): int
    decreases m.Keys
  {
    if m.Keys == {} then 0
    else
      var k :| k in m.Keys;
      f(k, m[k]) + Sum(m - {k}, f)
  }

  /** Any row can be taken out first, so the order of the visit does not matter. */
  lemma {:induction false} SumRemove<K(!new), V(!new)>(m: map<K, V>, f: (K, V) -> int, k: K)
    requires k in m
    ensures Sum(m, f) == f(k, m[k]) + Sum(m - {k}, f)
    decreases m.Keys
  {
    var j :| j in m.Keys && Sum(m, f) == f(j, m[j]) + Sum(m - {j}, f);
    if j != k {
      SumRemove(m - {j}, f, k);
      assert k in m - {j} && j in m - {k};
      SumRemove(m - {k}, f, j);
      assert (m - {j}) - {k} == (m - {k}) - {j};
    }
  }

  /** Inserting or overwriting one row moves the sum by the difference of the rows. */
  lemma SumUpdate<K(!new), V(!new)>(m: map<K, V>, f: (K, V) -> int, k: K, v: V)
    ensures Sum(m[k := v], f) == Sum(m, f) - (if k in m then f(k, m[k]) else 0) + f(k, v)
  {
    SumRemove(m[k := v], f, k);
    assert m[k := v] - {k} == m - {k};
    if k in m {
      SumRemove(m, f, k);
    } else {
      assert m - {k} == m;
    }
  }

  /** Adding the rows of another table with other keys adds its sum. */
  lemma {:induction false} SumDisjoint<K(!new), V(!new)>(m: map<K, V>, n: map<K, V>, f: (K, V) -> int)
    requires m.Keys !! n.Keys
    ensures Sum(m + n, f) == Sum(m, f) + Sum(n, f)
    decreases n.Keys
  {
    if n.Keys == {} {
      assert m + n == m;
    } else {
      var k :| k in n.Keys;
      SumRemove(n, f, k);
      SumRemove(m + n, f, k);
      assert (m + n) - {k} == m + (n - {k});
      SumDisjoint(m, n - {k}, f);
    }
  }

  /** A sum of non-negative rows is not negative. */
  lemma {:induction false} SumNonNegative<K(!new), V(!new)>(m: map<K, V>, f: (K, V) -> int)
    requires forall k :: k in m ==> f(k, m[k]) >= 0
    ensures Sum(m, f) >= 0
    decreases m.Keys
  {
    if m.Keys != {} {
      var j :| j in m.Keys && Sum(m, f) == f(j, m[j]) + Sum(m - {j}, f);
      SumNonNegative(m - {j}, f);
    }
  }

  /** Functions that agree on the rows of m have the same sum. */
  lemma {:induction false} SumCongruent<K(!new), V(!new)>(m: map<K, V>, f: (K, V) -> int, g: (K, V) -> int)
    requires forall k :: k in m ==> f(k, m[k]) == g(k, m[k])
    ensures Sum(m, f) == Sum(m, g)
    decreases m.Keys
  {
    if m.Keys != {} {
      var j :| j in m.Keys && Sum(m, f) == f(j, m[j]) + Sum(m - {j}, f);
      SumRemove(m, g, j);
      SumCongruent(m - {j}, f, g);
    }
  }

  /** An aggregate query: one pass over the rows, in an arbitrary order. */
  method SumRows<K(!new, ==), V(!new)>(m: map<K, V>, f: (K, V) -> int) returns (total: int)
    ensures total == Sum(m, f)
  {
    total := 0;
    var rest := m;
    while rest.Keys != {}
      invariant total + Sum(rest, f) == Sum(m, f)
      decreases rest.Keys
    {
      var k :| k in rest.Keys;
      SumRemove(rest, f, k);
      total := total + f(k, rest[k]);
      rest := rest - {k};
    }
  }

  /** The next row of a cursor; which one is up to the database. */
  method TakeOne<K(!new, ==)>(keys: set<K>) returns (k: K)
    requires keys != {}
    ensures k in keys
  {
    k :| k in keys;
  }

  /** A query for one row. */
  method FindRow<K(!new, ==), V(!new)>(m: map<K, V>, p: (K, V) -> bool) returns (r: Option<K>)
    ensures r.Some? ==> r.value in m && p(r.value, m[r.value])
    ensures r.None? ==> forall k :: k in m ==> !p(k, m[k])
  {
    var rest := m.Keys;
    while rest != {}
      invariant rest <= m.Keys
      invariant forall k :: k in m && p(k, m[k]) ==> k in rest
      decreases rest
    {
      var k :| k in rest;
      if p(k, m[k]) {
        return Some(k);
      }
      rest := rest - {k};
    }
    r := None;
  }
}
