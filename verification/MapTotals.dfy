/** Sums of the values of a finite map of reals, for ledgers kept in dictionaries. */
module MapTotals {

  ghost function Total(m: map<string, real>): real {
    if m == map[] then 0.0
    else
      var k :| k in m;
      m[k] + Total(m - {k})
  }

  /** The sum does not depend on the order in which keys are taken. */
  lemma {:induction false} TotalTakes(m: map<string, real>, k: string)
    requires k in m
    ensures Total(m) == m[k] + Total(m - {k})
    decreases |m|
  {
    var j :| j in m && Total(m) == m[j] + Total(m - {j});
    if j != k {
      TotalTakes(m - {j}, k);
      TotalTakes(m - {k}, j);
      assert m - {j} - {k} == m - {k} - {j};
    }
  }

  lemma TotalSet(m: map<string, real>, k: string, v: real)
    ensures Total(m[k := v]) == Total(m - {k}) + v
  {
    TotalTakes(m[k := v], k);
    assert m[k := v] - {k} == m - {k};
  }

  lemma TotalDrop(m: map<string, real>, k: string)
    ensures Total(m - {k}) == Total(m) - if k in m then m[k] else 0.0
  {
    if k in m {
      TotalTakes(m, k);
    } else {
      assert m - {k} == m;
    }
  }

  lemma {:induction false} TotalNonneg(m: map<string, real>)
    requires forall k :: k in m ==> m[k] >= 0.0
    ensures Total(m) >= 0.0
    decreases |m|
  {
    if m != map[] {
      var k :| k in m;
      TotalTakes(m, k);
      TotalNonneg(m - {k});
    }
  }

  /** The entries of `m` whose keys are in `keys`. */
  function Within(m: map<string, real>, keys: set<string>): map<string, real> {
    map k | k in m && k in keys :: m[k]
  }

  lemma WithinTakes(m: map<string, real>, keys: set<string>, k: string)
    requires k in m && k in keys
    ensures Total(Within(m, keys)) == m[k] + Total(Within(m, keys - {k}))
  {
    TotalTakes(Within(m, keys), k);
    assert Within(m, keys) - {k} == Within(m, keys - {k});
  }

  lemma WithinAll(m: map<string, real>)
    ensures Within(m, m.Keys) == m
    ensures Total(Within(m, {})) == 0.0
  {
    assert Within(m, {}) == map[];
  }

  lemma {:induction false} TotalsBalance(
      a: map<string, real>, b: map<string, real>, c: map<string, real>, d: map<string, real>)
    requires a.Keys == b.Keys == c.Keys == d.Keys
    requires forall k :: k in a ==> a[k] + 2.0 * b[k] == c[k] + d[k]
    ensures Total(a) + 2.0 * Total(b) == Total(c) + Total(d)
    decreases |a|
  {
    if a == map[] {
      assert b == map[] && c == map[] && d == map[];
    } else {
      var k :| k in a;
      TotalTakes(a, k);
      TotalTakes(b, k);
      TotalTakes(c, k);
      TotalTakes(d, k);
      TotalsBalance(a - {k}, b - {k}, c - {k}, d - {k});
    }
  }

  /** The sum of a map split in two by key. */
  lemma {:induction false} TotalSplits(m: map<string, real>, keys: set<string>)
    requires keys <= m.Keys
    ensures Total(m) == Total(Within(m, keys)) + Total(m - keys)
    decreases |keys|
  {
    if keys == {} {
      assert m - keys == m;
      WithinAll(m);
    } else {
      var k :| k in keys;
      var rest := keys - {k};
      TotalSplits(m, rest);
      WithinTakes(m, keys, k);
      TotalTakes(m - rest, k);
      assert m - rest - {k} == m - keys;
    }
  }

  /** A sum of non-negative values is zero exactly if all of them are. */
  lemma {:induction false} TotalZero(m: map<string, real>)
    requires forall k :: k in m ==> m[k] >= 0.0
    ensures Total(m) == 0.0 <==> forall k :: k in m ==> m[k] == 0.0
    decreases |m|
  {
    if m != map[] {
      var k :| k in m;
      TotalTakes(m, k);
      TotalNonneg(m - {k});
      TotalZero(m - {k});
      assert forall j :: j in m <==> j == k || j in m - {k};
    }
  }
}
