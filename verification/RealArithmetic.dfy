/** Facts about products and quotients of reals.
    Each is one step, so that larger proofs can call for it where they need it and multiply
    nothing themselves.
    They are stated for all reals, with their conditions in front. */
module RealArithmetic {

  /** `max(0.0, min(1.0, x))` */
  function Clamp(x: real): real {
    var low := if x < 1.0 then x else 1.0;
    if low > 0.0 then low else 0.0
  }

  ghost predicate IsShare(share: real, part: real, whole: real) {
    share * whole == part
  }

  lemma ShareOf(part: real, whole: real)
    requires whole > 0.0
    ensures IsShare(part / whole, part, whole)
  {
  }

  lemma Square(a: real)
    ensures a * a >= 0.0
  {
  }

  lemma Distribute(k: real, a: real, b: real)
    ensures k * (a + b) == k * a + k * b
  {
  }

  lemma PositiveProduct(a: real, b: real, m: real)
    ensures a > 0.0 && b > 0.0 && m == a * b ==> m > 0.0
  {
  }

  lemma MulMonotone(a: real, b: real, c: real)
    ensures a < b && c > 0.0 ==> a * c < b * c
  {
    PositiveProduct(b - a, c, (b - a) * c);
  }

  lemma ScaleOrder(n: real, a: real, b: real)
    ensures n > 0.0 && a <= b ==> n * a <= n * b
  {
    MulMonotone(a, b, n);
  }

  lemma OppositeSquare(c: real, n: real, square: real)
    ensures n == -c && square == c * c ==> square == n * n
  {
  }

  lemma SquareOfProduct(a: real, b: real, m: real)
    ensures m == a * b ==> m * m == (a * a) * (b * b)
  {
  }

  lemma PositiveSquare(d: real, a: real)
    ensures d != 0.0 && a == d * d ==> a > 0.0
  {
    PositiveProduct(d, d, a);
    OppositeSquare(d, -d, a);
    PositiveProduct(-d, -d, a);
  }

  lemma LargerSquare(c: real, m: real, cc: real, mm: real)
    ensures c > m > 0.0 && cc == c * c && mm == m * m ==> cc > mm
  {
    if c > m > 0.0 && cc == c * c && mm == m * m {
      assert cc - mm == (c - m) * (c + m);
      PositiveProduct(c - m, c + m, cc - mm);
    }
  }

  lemma SquaresOrder(c: real, m: real, cc: real, mm: real)
    ensures m > 0.0 && cc == c * c && mm == m * m && cc <= mm ==> -m <= c <= m
  {
    LargerSquare(c, m, cc, mm);
    OppositeSquare(c, -c, cc);
    LargerSquare(-c, m, cc, mm);
  }

  lemma QuotientOfProduct(n: real, c: real, p: real)
    ensures n > 0.0 && p == n * c ==> p / n == c
  {
  }

  lemma PositiveQuotient(a: real, n: real)
    ensures a > 0.0 && n > 0.0 ==> a / n > 0.0
  {
  }

  lemma AddQuotients(x: real, y: real, n: real)
    ensures n != 0.0 ==> (x + y) / n == x / n + y / n
  {
  }

  lemma OrderedQuotients(a: real, b: real, n: real)
    ensures a <= b && n > 0.0 ==> a / n <= b / n
  {
    if a <= b && n > 0.0 {
      var p, q := a / n, b / n;
      assert p * n == a && q * n == b;
      MulMonotone(q, p, n);
    }
  }

  lemma DivideOrder(a: real, n: real, b: real)
    ensures n > 0.0 && 0.0 <= a <= n * b ==> 0.0 <= a / n <= b
  {
    if n > 0.0 && 0.0 <= a <= n * b {
      var q := a / n;
      assert q * n == a;
      MulMonotone(b, q, n);
      MulMonotone(q, 0.0, n);
    }
  }
}
