/** The sum of the values of a map, for balances and for list lengths. */
module Sums {

  ghost function SomeKey(m: map<nat, nat>): (k: nat)
    requires m != map[]
    ensures k in m
  {
    var k :| k in m; k
  }

  ghost function Sum(m: map<nat, nat>): nat
    decreases |m.Keys|
  {
    if m == map[] then 0
    else
      var k := SomeKey(m);
      assert (m - {k}).Keys == m.Keys - {k};
      m[k] + Sum(m - {k})
  }

  lemma {:induction false} SumWithout(m: map<nat, nat>, k: nat)
    requires k in m
    ensures Sum(m) == m[k] + Sum(m - {k})
    decreases |m.Keys|
  {
    var x := SomeKey(m);
    if x != k {
      assert (m - {k}).Keys == m.Keys - {k} && (m - {x}).Keys == m.Keys - {x};
      SumWithout(m - {x}, k);
      SumWithout(m - {k}, x);
      assert m - {k} - {x} == m - {x} - {k};
    }
  }

  lemma SumUpdate(m: map<nat, nat>, k: nat, v: nat)
    ensures Sum(m[k := v]) == Sum(m) - (if k in m then m[k] else 0) + v
  {
    SumWithout(m[k := v], k);
    assert m[k := v] - {k} == m - {k};
    if k in m {
      SumWithout(m, k);
    } else {
      assert m - {k} == m;
    }
  }

  lemma {:induction false} SumGrows(x: map<nat, nat>, y: map<nat, nat>)
    requires x.Keys == y.Keys && forall k :: k in x ==> x[k] <= y[k]
    ensures Sum(x) <= Sum(y)
    decreases |x.Keys|
  {
    if x != map[] {
      var k :| k in x;
      SumWithout(x, k);
      SumWithout(y, k);
      assert (x - {k}).Keys == x.Keys - {k} == (y - {k}).Keys;
      SumGrows(x - {k}, y - {k});
    }
  }
}
