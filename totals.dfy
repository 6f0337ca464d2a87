/** Sums of the values of a map: what `sum(series.values)` means for a count or
    proportion table, independent of the order its keys are visited in. */
module Totals {

  ghost function Total<K>(m: map<K, nat>): nat
    decreases |m|
  {
    if m == map[] then 0
    else
      var k :| k in m;
      RemoveShrinks(m, k);
      m[k] + Total(m - {k})
  }

  ghost function RealTotal<K>(m: map<K, real>): real
    decreases |m|
  {
    if m == map[] then 0.0
    else
      var k :| k in m;
      RemoveShrinks(m, k);
      m[k] + RealTotal(m - {k})
  }

  /** Taking a key out of a map makes it smaller. */
  lemma RemoveShrinks<K, V>(m: map<K, V>, k: K)
    requires k in m
    ensures |m - {k}| < |m|
  {
    assert m.Keys == (m - {k}).Keys + {k};
  }

  lemma SetRemoveShrinks<K>(keys: set<K>, k: K)
    requires k in keys
    ensures |keys - {k}| < |keys|
  {
    assert keys == (keys - {k}) + {k};
  }

  /** The total does not depend on which key is taken out first. */
  lemma {:induction false} TotalRemove<K>(m: map<K, nat>, k: K)
    requires k in m
    ensures Total(m) == m[k] + Total(m - {k})
    decreases |m|
  {
    var j :| j in m && Total(m) == m[j] + Total(m - {j});
    if j != k {
      RemoveShrinks(m, j);
      RemoveShrinks(m, k);
      TotalRemove(m - {j}, k);
      TotalRemove(m - {k}, j);
      assert m - {j} - {k} == m - {k} - {j};
    }
  }

  lemma {:induction false} RealTotalRemove<K>(m: map<K, real>, k: K)
    requires k in m
    ensures RealTotal(m) == m[k] + RealTotal(m - {k})
    decreases |m|
  {
    var j :| j in m && RealTotal(m) == m[j] + RealTotal(m - {j});
    if j != k {
      RemoveShrinks(m, j);
      RemoveShrinks(m, k);
      RealTotalRemove(m - {j}, k);
      RealTotalRemove(m - {k}, j);
      assert m - {j} - {k} == m - {k} - {j};
    }
  }

  /** Setting one entry changes the total by the difference at that entry. */
  lemma TotalUpdate<K>(m: map<K, nat>, k: K, x: nat)
    ensures Total(m[k := x]) + (if k in m then m[k] else 0) == Total(m) + x
  {
    var m' := m[k := x];
    TotalRemove(m', k);
    assert m' - {k} == m - {k};
    if k in m {
      TotalRemove(m, k);
    } else {
      assert m - {k} == m;
    }
  }

  /** Extends a count table with zero entries for the keys in `keys` it lacks. */
  function ZeroFill<K>(m: map<K, nat>, keys: set<K>): (r: map<K, nat>)
    requires m.Keys <= keys
    ensures r.Keys == keys
    ensures forall k | k in m :: r[k] == m[k]
    ensures forall k | k in r && k !in m :: r[k] == 0
  {
    map k | k in keys :: if k in m then m[k] else 0
  }

  /** Zero entries add nothing to a total. */
  lemma {:induction false} ZeroFillTotal<K>(m: map<K, nat>, keys: set<K>)
    requires m.Keys <= keys
    ensures Total(ZeroFill(m, keys)) == Total(m)
    decreases |keys|
  {
    var z := ZeroFill(m, keys);
    if keys != {} {
      var k :| k in keys;
      TotalRemove(z, k);
      assert z - {k} == ZeroFill(m - {k}, keys - {k});
      SetRemoveShrinks(keys, k);
      ZeroFillTotal(m - {k}, keys - {k});
      if k in m {
        TotalRemove(m, k);
      } else {
        assert m - {k} == m;
      }
    } else {
      assert z == map[];
      assert m == map[];
    }
  }

  /** Every entry of `m` divided by `t`. */
  function Scaled<K>(m: map<K, nat>, t: real): map<K, real>
    requires t > 0.0
  {
    map k | k in m :: m[k] as real / t
  }

  /** Dividing every entry of a count table by `t` divides its total by `t`. */
  lemma {:induction false} ScaledTotal<K>(m: map<K, nat>, t: real)
    requires t > 0.0
    ensures RealTotal(Scaled(m, t)) == Total(m) as real / t
    decreases |m|
  {
    var s := Scaled(m, t);
    if m != map[] {
      var k :| k in m;
      var rest := m - {k};
      RemoveShrinks(m, k);
      ScaledTotal(rest, t);
      ScaledTotalStep(m, k, t);
    } else {
      ScaledEmpty(m, t);
    }
  }

  /** One key's share added to the scaled total of the others gives the scaled total. */
  lemma ScaledTotalStep<K>(m: map<K, nat>, k: K, t: real)
    requires t > 0.0 && k in m
    requires RealTotal(Scaled(m - {k}, t)) == Total(m - {k}) as real / t
    ensures RealTotal(Scaled(m, t)) == Total(m) as real / t
  {
    ScaledTotalRemove(m, k, t);
    TotalRemove(m, k);
    DivideSum(m[k] as real, Total(m - {k}) as real, Total(m) as real, t);
  }

  lemma ScaledEmpty<K>(m: map<K, nat>, t: real)
    requires t > 0.0 && m == map[]
    ensures RealTotal(Scaled(m, t)) == Total(m) as real / t
  {
    assert Scaled(m, t) == map[];
  }

  /** Removing a key from a scaled table removes its scaled entry from the total. */
  lemma ScaledTotalRemove<K>(m: map<K, nat>, k: K, t: real)
    requires t > 0.0 && k in m
    ensures RealTotal(Scaled(m, t)) == m[k] as real / t + RealTotal(Scaled(m - {k}, t))
  {
    RealTotalRemove(Scaled(m, t), k);
    ScaledRemove(m, k, t);
  }

  /** Removing a key commutes with dividing every entry by `t`. */
  lemma ScaledRemove<K>(m: map<K, nat>, k: K, t: real)
    requires t > 0.0
    ensures Scaled(m, t) - {k} == Scaled(m - {k}, t)
  {
  }

  lemma DivideSum(a: real, b: real, c: real, t: real)
    requires t > 0.0 && c == a + b
    ensures a / t + b / t == c / t
  {
    var x, y := a / t, b / t;
    assert x * t == a && y * t == b;
    assert (x + y) * t == c;
  }
}
