/** Sums of squares, over the reals.
    The Pearson coefficient, and the variance behind the consistency score.
    Both are given by their loops and by the usual formulas in sums and sums of products.
    Square roots are taken by any function that takes them. */
module Correlation {

  import opened RealArithmetic

  /** Some function takes square roots of what is not negative. */
  type Root = real -> real

  ghost predicate TakesRoots(root: Root) {
    forall v: real {:trigger root(v)} :: v >= 0.0 ==> root(v) >= 0.0 && root(v) * root(v) == v
  }

  lemma RootOf(root: Root, v: real)
    requires TakesRoots(root) && v >= 0.0
    ensures root(v) >= 0.0 && root(v) * root(v) == v
  {
  }

  function Sum(x: seq<real>): real {
    if x == [] then 0.0 else Sum(x[..|x| - 1]) + x[|x| - 1]
  }

  function Dot(u: seq<real>, v: seq<real>): real
    requires |u| == |v|
  {
    if u == [] then 0.0 else Dot(u[..|u| - 1], v[..|v| - 1]) + u[|u| - 1] * v[|v| - 1]
  }

  function Mean(x: seq<real>): real
    requires x != []
  {
    Sum(x) / |x| as real
  }

  /** Deviations from `m`. */
  function Deviations(x: seq<real>, m: real): (d: seq<real>)
    ensures |d| == |x|
  {
    seq(|x|, i requires 0 <= i < |x| => x[i] - m)
  }

  function Pearson(x: seq<real>, y: seq<real>, root: Root): real {
    if |x| < 2 || |y| < 2 || |x| != |y| then 0.0
    else
      var u, v := Deviations(x, Mean(x)), Deviations(y, Mean(y));
      Coefficient(Dot(u, v), root(Dot(u, u)), root(Dot(v, v)))
  }

  function Coefficient(c: real, dx: real, dy: real): real {
    if dx == 0.0 || dy == 0.0 then 0.0
    else
      var m := dx * dy;
      c / m
  }

  /** `_calculate_correlation` */
  method CalculateCorrelation(x: seq<real>, y: seq<real>, root: Root) returns (r: real)
    ensures r == Pearson(x, y, root)
  {
    if |x| < 2 || |y| < 2 || |x| != |y| {
      return 0.0;
    }
    var sumX := Total(x);
    var sumY := Total(y);
    var meanX, meanY := sumX / |x| as real, sumY / |y| as real;
    assert meanX == Mean(x) && meanY == Mean(y);
    var numerator := SumOfProducts(x, meanX, y, meanY);
    var squareX := SumOfProducts(x, meanX, x, meanX);
    var squareY := SumOfProducts(y, meanY, y, meanY);
    var denomX, denomY := root(squareX), root(squareY);
    if denomX == 0.0 || denomY == 0.0 {
      return 0.0;
    }
    var denominator := denomX * denomY;
    r := numerator / denominator;
  }

  method Total(x: seq<real>) returns (sum: real)
    ensures sum == Sum(x)
  {
    sum := 0.0;
    for i := 0 to |x|
      invariant sum == Sum(x[..i])
    {
      assert x[..i + 1][..i] == x[..i];
      sum := sum + x[i];
    }
    assert x[..|x|] == x;
  }

  method SumOfProducts(x: seq<real>, meanX: real, y: seq<real>, meanY: real) returns (sum: real)
    requires |x| == |y|
    ensures sum == Dot(Deviations(x, meanX), Deviations(y, meanY))
  {
    ghost var u, v := Deviations(x, meanX), Deviations(y, meanY);
    sum := 0.0;
    for i := 0 to |x|
      invariant sum == Dot(u[..i], v[..i])
    {
      assert u[..i + 1][..i] == u[..i] && v[..i + 1][..i] == v[..i];
      assert u[..i + 1][i] == x[i] - meanX && v[..i + 1][i] == y[i] - meanY;
      sum := sum + (x[i] - meanX) * (y[i] - meanY);
    }
    assert u[..|x|] == u && v[..|x|] == v;
  }

  // ----- the inequality of Cauchy and Schwarz -----

  lemma {:induction false} DotSelf(u: seq<real>)
    ensures Dot(u, u) >= 0.0
  {
    if u != [] {
      DotSelf(u[..|u| - 1]);
      Square(u[|u| - 1]);
    }
  }

  lemma {:induction false} DotCommutes(u: seq<real>, v: seq<real>)
    requires |u| == |v|
    ensures Dot(u, v) == Dot(v, u)
  {
    if u != [] {
      DotCommutes(u[..|u| - 1], v[..|v| - 1]);
    }
  }

  /** `s * u - t * v`, squared and summed. */
  function Spread(u: seq<real>, v: seq<real>, s: real, t: real): real
    requires |u| == |v|
  {
    if u == [] then 0.0
    else
      var e := s * u[|u| - 1] - t * v[|v| - 1];
      Spread(u[..|u| - 1], v[..|v| - 1], s, t) + e * e
  }

  lemma SquareOfDifference(a: real, b: real, s: real, t: real)
    ensures (s * a - t * b) * (s * a - t * b) == s * s * (a * a) - 2.0 * (s * t) * (a * b) + t * t * (b * b)
  {
    var p, q := s * a, t * b;
    assert (p - q) * (p - q) == p * p - 2.0 * (p * q) + q * q;
    assert p * p == s * s * (a * a);
    assert q * q == t * t * (b * b);
    assert p * q == (s * t) * (a * b);
  }

  lemma {:induction false} SpreadExpands(u: seq<real>, v: seq<real>, s: real, t: real)
    requires |u| == |v|
    ensures Spread(u, v, s, t) == s * s * Dot(u, u) - 2.0 * (s * t) * Dot(u, v) + t * t * Dot(v, v)
    ensures Spread(u, v, s, t) >= 0.0
  {
    if u != [] {
      var a, b, u0, v0 := u[|u| - 1], v[|v| - 1], u[..|u| - 1], v[..|v| - 1];
      SpreadExpands(u0, v0, s, t);
      SquareOfDifference(a, b, s, t);
      Square(s * a - t * b);
      Distribute(s * s, Dot(u0, u0), a * a);
      Distribute(2.0 * (s * t), Dot(u0, v0), a * b);
      Distribute(t * t, Dot(v0, v0), b * b);
    }
  }

  lemma {:induction false} DotWithZeros(u: seq<real>, v: seq<real>)
    requires |u| == |v| && Constant(v, 0.0)
    ensures Dot(u, v) == 0.0
  {
    if u != [] {
      DotWithZeros(u[..|u| - 1], v[..|v| - 1]);
    }
  }

  lemma CauchySchwarz(u: seq<real>, v: seq<real>)
    requires |u| == |v|
    ensures Dot(u, v) * Dot(u, v) <= Dot(u, u) * Dot(v, v)
  {
    DotSelf(v);
    ZeroDot(v);
    if Dot(v, v) > 0.0 {
      CauchySchwarzPositive(u, v);
    } else {
      DotWithZeros(u, v);
    }
  }

  lemma CauchySchwarzPositive(u: seq<real>, v: seq<real>)
    requires |u| == |v| && Dot(v, v) > 0.0
    ensures Dot(u, v) * Dot(u, v) <= Dot(u, u) * Dot(v, v)
  {
    SpreadExpands(u, v, Dot(v, v), Dot(u, v));
  }

  lemma QuotientInUnit(q: real, c: real, m: real)
    requires m > 0.0 && c == q * m && -m <= c <= m
    ensures -1.0 <= q <= 1.0
  {
    if q > 1.0 {
      MulMonotone(1.0, q, m);
    }
    if q < -1.0 {
      MulMonotone(q, -1.0, m);
    }
  }

  lemma CoefficientInUnit(a: real, b: real, c: real, dx: real, dy: real)
    requires dx >= 0.0 && dy >= 0.0 && dx * dx == a && dy * dy == b
    requires dx != 0.0 && dy != 0.0 ==> c * c <= a * b
    ensures -1.0 <= Coefficient(c, dx, dy) <= 1.0
  {
    if dx != 0.0 && dy != 0.0 {
      var m := dx * dy;
      PositiveProduct(dx, dy, m);
      SquareOfProduct(dx, dy, m);
      SquaresOrder(c, m, c * c, a * b);
      QuotientInUnit(c / m, c, m);
    }
  }

  lemma DotCoefficientInUnit(u: seq<real>, v: seq<real>, dx: real, dy: real)
    requires |u| == |v| && dx >= 0.0 && dy >= 0.0 && dx * dx == Dot(u, u) && dy * dy == Dot(v, v)
    ensures -1.0 <= Coefficient(Dot(u, v), dx, dy) <= 1.0
  {
    if dy != 0.0 {
      PositiveSquare(dy, Dot(v, v));
      CauchySchwarz(u, v);
    }
    CoefficientInUnit(Dot(u, u), Dot(v, v), Dot(u, v), dx, dy);
  }

  /** The coefficient lies in [-1, 1]. */
  lemma PearsonInUnit(x: seq<real>, y: seq<real>, root: Root)
    requires TakesRoots(root)
    ensures -1.0 <= Pearson(x, y, root) <= 1.0
  {
    if |x| >= 2 && |y| >= 2 && |x| == |y| {
      var u, v := Deviations(x, Mean(x)), Deviations(y, Mean(y));
      DotSelf(u);
      DotSelf(v);
      RootOf(root, Dot(u, u));
      RootOf(root, Dot(v, v));
      DotCoefficientInUnit(u, v, root(Dot(u, u)), root(Dot(v, v)));
    }
  }

  /** The coefficient does not depend on the order of its arguments. */
  lemma PearsonSymmetric(x: seq<real>, y: seq<real>, root: Root)
    ensures Pearson(x, y, root) == Pearson(y, x, root)
  {
    if |x| >= 2 && |y| >= 2 && |x| == |y| {
      DotCommutes(Deviations(x, Mean(x)), Deviations(y, Mean(y)));
    }
  }

  predicate Constant(x: seq<real>, c: real) {
    forall i | 0 <= i < |x| :: x[i] == c
  }

  lemma {:induction false} ZeroDot(u: seq<real>)
    ensures Dot(u, u) == 0.0 <==> Constant(u, 0.0)
  {
    if u != [] {
      var u0, e := u[..|u| - 1], u[|u| - 1];
      ZeroDot(u0);
      DotSelf(u0);
      if e != 0.0 {
        PositiveSquare(e, e * e);
      } else {
        assert Constant(u, 0.0) <==> Constant(u0, 0.0);
      }
    }
  }

  lemma {:induction false} ConstantSum(x: seq<real>, c: real)
    requires Constant(x, c)
    ensures Sum(x) == |x| as real * c
  {
    if x != [] {
      ConstantSum(x[..|x| - 1], c);
      Distribute(c, (|x| - 1) as real, 1.0);
    }
  }

  lemma ConstantMean(x: seq<real>, c: real)
    requires x != [] && Constant(x, c)
    ensures Mean(x) == c
  {
    ConstantSum(x, c);
    QuotientOfProduct(|x| as real, c, Sum(x));
  }

  /** Against itself a series has coefficient 1, unless all its values are the same. */
  lemma PearsonOfItself(x: seq<real>, root: Root)
    requires TakesRoots(root) && |x| >= 2
    ensures Pearson(x, x, root) == if Constant(x, x[0]) then 0.0 else 1.0
  {
    var u := Deviations(x, Mean(x));
    DotSelf(u);
    RootOf(root, Dot(u, u));
    OverItself(Dot(u, u), root(Dot(u, u)));
    ZeroDot(u);
    if Constant(x, x[0]) {
      ConstantMean(x, x[0]);
    } else if Constant(u, 0.0) {
      forall i | 0 <= i < |x| ensures x[i] == x[0] {
        assert u[i] == 0.0 && u[0] == 0.0;
      }
    }
  }

  lemma OverItself(a: real, d: real)
    requires d * d == a
    ensures Coefficient(a, d, d) == if a == 0.0 then 0.0 else 1.0
  {
    if d != 0.0 {
      PositiveSquare(d, a);
      QuotientOfProduct(a, 1.0, a);
    }
  }

  /** `c` is `products - sumX * sumY / n`. */
  ghost predicate BySums(c: real, products: real, sumX: real, sumY: real, n: real) {
    n * c == n * products - sumX * sumY
  }

  /** Deviations from the means, multiplied and summed: in terms of the sums and the sum of products. */
  lemma CovarianceBySums(x: seq<real>, y: seq<real>)
    requires |x| == |y| > 0
    ensures BySums(Dot(Deviations(x, Mean(x)), Deviations(y, Mean(y))), Dot(x, y), Sum(x), Sum(y), |x| as real)
  {
    ProductsExpand(x, Mean(x), y, Mean(y));
    ScaledUp(|x| as real, Mean(x), Mean(y), Sum(x), Sum(y), Dot(x, y),
             Dot(Deviations(x, Mean(x)), Deviations(y, Mean(y))));
  }

  /** The products of the deviations from `p` and `q`, multiplied out. */
  ghost predicate Expanded(c: real, products: real, p: real, sumY: real, q: real, sumX: real, n: real) {
    c == products - p * sumY - q * sumX + n * (p * q)
  }

  lemma ProductsExpand(x: seq<real>, p: real, y: seq<real>, q: real)
    requires |x| == |y|
    ensures Expanded(Dot(Deviations(x, p), Deviations(y, q)), Dot(x, y), p, Sum(y), q, Sum(x), |x| as real)
  {
    var d, e := Deviations(x, p), Deviations(y, q);
    DotShifted(x, p, e);
    SumShifted(y, q);
    DotCommutes(x, e);
    DotShifted(y, q, x);
    DotCommutes(y, x);
    MultipliedOut(Dot(d, e), Dot(x, e), Dot(x, y), p, Sum(e), Sum(y), q, Sum(x), |x| as real);
  }

  /** `c` is `a - p * b`. */
  ghost predicate Shifted(c: real, a: real, p: real, b: real) {
    c == a - p * b
  }

  lemma MultipliedOut(c: real, half: real, products: real, p: real, left: real, sumY: real, q: real, sumX: real,
                      n: real)
    requires Shifted(c, half, p, left) && Shifted(half, products, q, sumX) && Shifted(left, sumY, q, n)
    ensures Expanded(c, products, p, sumY, q, sumX, n)
  {
    Distribute(p, sumY, -(q * n));
    assert p * (q * n) == n * (p * q);
  }

  lemma {:induction false} DotShifted(x: seq<real>, p: real, v: seq<real>)
    requires |x| == |v|
    ensures Shifted(Dot(Deviations(x, p), v), Dot(x, v), p, Sum(v))
  {
    if x != [] {
      var x0, a, v0, b, d := x[..|x| - 1], x[|x| - 1], v[..|v| - 1], v[|v| - 1], Deviations(x, p);
      DotShifted(x0, p, v0);
      assert d[..|d| - 1] == Deviations(x0, p);
      assert (a - p) * b == a * b - p * b;
      Distribute(p, Sum(v0), b);
    }
  }

  lemma {:induction false} SumShifted(y: seq<real>, q: real)
    ensures Shifted(Sum(Deviations(y, q)), Sum(y), q, |y| as real)
  {
    if y != [] {
      var y0, e := y[..|y| - 1], Deviations(y, q);
      SumShifted(y0, q);
      assert e[..|e| - 1] == Deviations(y0, q);
      Distribute(q, |y0| as real, 1.0);
    }
  }

  lemma ScaledUp(n: real, p: real, q: real, sumX: real, sumY: real, products: real, cov: real)
    requires n > 0.0 && p == sumX / n && q == sumY / n && Expanded(cov, products, p, sumY, q, sumX, n)
    ensures BySums(cov, products, sumX, sumY, n)
  {
    assert n * p == sumX && n * q == sumY;
    var a, b, c := p * sumY, q * sumX, n * (p * q);
    Regroup(n, p, sumY, sumX);
    Regroup(n, q, sumX, sumY);
    Regroup(n, p, q, sumX);
    assert c == sumX * q;
    Distribute(n, products - a - b, c);
    Distribute(n, products - a, -b);
    Distribute(n, products, -a);
  }

  lemma Regroup(n: real, p: real, y: real, np: real)
    requires n * p == np
    ensures n * (p * y) == np * y
  {
  }

  /** The coefficient has the sign of the covariance, and its square is the covariance squared over the product
      of the variances. */
  lemma PearsonExactly(x: seq<real>, y: seq<real>, root: Root)
    requires TakesRoots(root) && |x| == |y| >= 2
    ensures var u, v, r := Deviations(x, Mean(x)), Deviations(y, Mean(y)), Pearson(x, y, root);
            if Dot(u, u) == 0.0 || Dot(v, v) == 0.0 then r == 0.0
            else
              && r * r * (Dot(u, u) * Dot(v, v)) == Dot(u, v) * Dot(u, v)
              && (r > 0.0 <==> Dot(u, v) > 0.0) && (r == 0.0 <==> Dot(u, v) == 0.0)
  {
    var u, v := Deviations(x, Mean(x)), Deviations(y, Mean(y));
    DotSelf(u);
    DotSelf(v);
    RootOf(root, Dot(u, u));
    RootOf(root, Dot(v, v));
    CoefficientExactly(Dot(u, u), Dot(v, v), Dot(u, v), root(Dot(u, u)), root(Dot(v, v)));
  }

  lemma CoefficientExactly(a: real, b: real, c: real, dx: real, dy: real)
    requires dx >= 0.0 && dy >= 0.0 && dx * dx == a && dy * dy == b
    ensures var r := Coefficient(c, dx, dy);
            if a == 0.0 || b == 0.0 then r == 0.0
            else r * r * (a * b) == c * c && (r > 0.0 <==> c > 0.0) && (r == 0.0 <==> c == 0.0)
  {
    if dx != 0.0 && dy != 0.0 {
      PositiveSquare(dx, a);
      PositiveSquare(dy, b);
      var m := dx * dy;
      PositiveProduct(dx, dy, m);
      SquareOfProduct(dx, dy, m);
      QuotientExactly(c / m, c, m, a * b);
    }
  }

  lemma QuotientExactly(r: real, c: real, m: real, mm: real)
    requires m > 0.0 && r * m == c && m * m == mm
    ensures r * r * mm == c * c && (r > 0.0 <==> c > 0.0) && (r == 0.0 <==> c == 0.0)
  {
    assert r * r * (m * m) == (r * m) * (r * m);
    PositiveProduct(r, m, c);
    PositiveProduct(-r, m, -c);
  }

  // ----- variance -----

  function Variance(x: seq<real>): real
    requires x != []
  {
    Dot(Deviations(x, Mean(x)), Deviations(x, Mean(x))) / |x| as real
  }

  /** The variance, in terms of the sum and the sum of squares. */
  lemma VarianceBySums(x: seq<real>, spread: real)
    requires x != [] && Variance(x) == spread / |x| as real
    ensures BySums(spread, Dot(x, x), Sum(x), Sum(x), |x| as real)
  {
    CovarianceBySums(x, x);
    var d := Dot(Deviations(x, Mean(x)), Deviations(x, Mean(x)));
    SameQuotient(spread, d, |x| as real);
  }

  lemma SameQuotient(a: real, b: real, n: real)
    requires n > 0.0 && a / n == b / n
    ensures a == b
  {
    assert (a / n) * n == a && (b / n) * n == b;
  }

  lemma {:induction false} SquaresBelow(x: seq<real>, top: real)
    requires forall i | 0 <= i < |x| :: 0.0 <= x[i] <= top
    ensures Dot(x, x) <= top * Sum(x)
  {
    if x != [] {
      var x0, a := x[..|x| - 1], x[|x| - 1];
      SquaresBelow(x0, top);
      SquareBelow(a, top);
      AddBelow(Dot(x0, x0), Sum(x0), a, top);
    }
  }

  lemma AddBelow(squares: real, sum: real, a: real, top: real)
    requires squares <= top * sum && a * a <= top * a
    ensures squares + a * a <= top * (sum + a)
  {
    Distribute(top, sum, a);
  }

  lemma SquareBelow(a: real, top: real)
    requires 0.0 <= a <= top
    ensures a * a <= top * a
  {
    if 0.0 < a < top {
      MulMonotone(a, top, a);
    }
  }

  /** Values in [0, top] have a variance of at most a quarter of `top` squared. */
  lemma VarianceBound(x: seq<real>, top: real)
    requires x != [] && forall i | 0 <= i < |x| :: 0.0 <= x[i] <= top
    ensures 0.0 <= Variance(x) <= top * top / 4.0
  {
    var m := Mean(x);
    DotSelf(Deviations(x, m));
    ProductsExpand(x, m, x, m);
    SquaresBelow(x, top);
    SpreadBound(|x| as real, m, top, Sum(x), Dot(x, x), Dot(Deviations(x, m), Deviations(x, m)));
  }

  lemma SpreadBound(n: real, m: real, top: real, sum: real, squares: real, spread: real)
    requires n > 0.0 && m == sum / n && squares <= top * sum && spread >= 0.0
    requires Expanded(spread, squares, m, sum, m, sum, n)
    ensures 0.0 <= spread / n <= top * top / 4.0
  {
    assert sum == m * n;
    assert top * sum == n * (m * top);
    assert 2.0 * m * sum == 2.0 * (n * (m * m));
    assert spread <= n * (m * top) - n * (m * m);
    assert n * (m * (top - m)) == n * (m * top) - n * (m * m) by {
      assert m * (top - m) == m * top - m * m;
    }
    Parabola(m, top);
    ScaleOrder(n, m * (top - m), top * top / 4.0);
    DivideOrder(spread, n, top * top / 4.0);
  }

  lemma Parabola(m: real, top: real)
    ensures m * (top - m) <= top * top / 4.0
  {
    var e := m - top / 2.0;
    Square(e);
    assert e * e == m * m - m * top + top * top / 4.0;
    assert m * (top - m) == m * top - m * m;
  }

}
