/** Totals over the values of a map.
    A total is defined by taking the keys in some order, and any key can be taken first, so the
    order in which a loop over a dictionary adds the values up does not matter.
    The other lemmas compare and combine totals value by value. */
module MapSums {

  import opened RealArithmetic

  ghost function Pick<K(!new)>(m: map<K, real>): K
    requires m != map[]
  {
    var k :| k in m;
    k
  }

  ghost function Total<K(!new)>(m: map<K, real>): real
    decreases |m|
  {
    if m == map[] then 0.0
    else
      var k := Pick(m);
      m[k] + Total(m - {k})
  }

  /** Any key can be taken first, so the order in which values are added does not matter. */
  lemma {:induction false} TotalWithout<K(!new)>(m: map<K, real>, k: K)
    requires k in m
    ensures Total(m) == m[k] + Total(m - {k})
    decreases |m|
  {
    var j := Pick(m);
    if j != k {
      TotalWithout(m - {j}, k);
      TotalWithout(m - {k}, j);
      assert m - {j} - {k} == m - {k} - {j};
    }
  }

  lemma TotalWith<K(!new)>(m: map<K, real>, k: K, v: real)
    requires k !in m
    ensures Total(m[k := v]) == Total(m) + v
  {
    TotalWithout(m[k := v], k);
    assert m[k := v] - {k} == m;
  }

  lemma TotalReplace<K(!new)>(m: map<K, real>, k: K, v: real)
    requires k in m
    ensures Total(m[k := v]) == Total(m) - m[k] + v
  {
    TotalWithout(m, k);
    TotalWithout(m[k := v], k);
    assert m[k := v] - {k} == m - {k};
  }

  ghost predicate NonNegative<K(!new)>(m: map<K, real>) {
    forall k | k in m :: m[k] >= 0.0
  }

  lemma {:induction false} TotalNonNegative<K(!new)>(m: map<K, real>)
    requires NonNegative(m)
    ensures Total(m) >= 0.0
    ensures Total(m) == 0.0 <==> forall k | k in m :: m[k] == 0.0
    decreases |m|
  {
    if m != map[] {
      var k := Pick(m);
      var rest := m - {k};
      TotalNonNegative(rest);
      if Total(m) == 0.0 {
        forall j | j in m ensures m[j] == 0.0 {
          if j != k {
            assert rest[j] == 0.0;
          }
        }
      }
    }
  }

  lemma ValueBelowTotal<K(!new)>(m: map<K, real>, k: K)
    requires NonNegative(m) && k in m
    ensures m[k] <= Total(m)
  {
    TotalWithout(m, k);
    TotalNonNegative(m - {k});
  }

  /** `a` is at most the sum of `b` and `c`, value by value. */
  lemma {:induction false} TotalBelowSum<K(!new)>(a: map<K, real>, b: map<K, real>, c: map<K, real>)
    requires a.Keys == b.Keys == c.Keys && forall k | k in a :: a[k] <= b[k] + c[k]
    ensures Total(a) <= Total(b) + Total(c)
    decreases |a|
  {
    if a == map[] {
      assert b == map[] && c == map[];
    } else {
      var k := Pick(a);
      TotalBelowSum(a - {k}, b - {k}, c - {k});
      TotalWithout(b, k);
      TotalWithout(c, k);
    }
  }

  /** Keys with the value zero add nothing. */
  lemma {:induction false} TotalIgnoresZeros<K(!new)>(a: map<K, real>, b: map<K, real>)
    requires a.Keys <= b.Keys
    requires forall k | k in b :: b[k] == if k in a then a[k] else 0.0
    ensures Total(a) == Total(b)
    decreases |b|
  {
    if b == map[] {
      assert a == map[];
    } else {
      var k := Pick(b);
      if k in a {
        TotalIgnoresZeros(a - {k}, b - {k});
        TotalWithout(a, k);
      } else {
        TotalIgnoresZeros(a, b - {k});
      }
    }
  }

  predicate AddsAt(f: real -> real, x: real, y: real) {
    f(x + y) == f(x) + f(y)
  }

  ghost predicate Additive(f: real -> real) {
    f(0.0) == 0.0 && forall x, y {:trigger AddsAt(f, x, y)} :: AddsAt(f, x, y)
  }

  lemma {:induction false} TotalMapped<K(!new)>(a: map<K, real>, b: map<K, real>, f: real -> real)
    requires Additive(f) && a.Keys == b.Keys && forall k | k in a :: a[k] == f(b[k])
    ensures Total(a) == f(Total(b))
    decreases |a|
  {
    if a == map[] {
      assert b == map[];
    } else {
      var k := Pick(a);
      TotalMapped(a - {k}, b - {k}, f);
      TotalWithout(b, k);
      assert AddsAt(f, b[k], Total(b - {k}));
    }
  }

  function Repeated(count: nat, v: real): real {
    if count == 0 then 0.0 else Repeated(count - 1, v) + v
  }

  lemma {:induction false} RepeatedIsProduct(count: nat, v: real)
    ensures Repeated(count, v) == count as real * v
  {
    if count > 0 {
      RepeatedIsProduct(count - 1, v);
      Distribute(v, (count - 1) as real, 1.0);
    }
  }

  lemma {:induction false} TotalConstant<K(!new)>(m: map<K, real>, v: real)
    requires forall k | k in m :: m[k] == v
    ensures Total(m) == Repeated(|m|, v)
    decreases |m|
  {
    if m != map[] {
      var k := Pick(m);
      var rest := m - {k};
      TotalConstant(rest, v);
      assert |m| == |rest| + 1 by {
        assert m.Keys == rest.Keys + {k};
      }
    }
  }

  /** Values that are all at most `top` add up to at most `top` times their number. */
  lemma {:induction false} TotalAtMost<K(!new)>(m: map<K, real>, top: real)
    requires forall k | k in m :: m[k] <= top
    ensures Total(m) <= Repeated(|m|, top)
    decreases |m|
  {
    if m != map[] {
      var k := Pick(m);
      var rest := m - {k};
      TotalAtMost(rest, top);
      assert |m| == |rest| + 1 by {
        assert m.Keys == rest.Keys + {k};
      }
    }
  }
}
