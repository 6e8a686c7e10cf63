/** Non-linear facts shared by the other modules, each small enough for the solver. */
module Arithmetic {

  lemma MulAtLeast(d: int, k: int)
    requires d >= 0 && k >= 1
    ensures d * k >= d
  {}

  lemma MulSub(d: int, a: int, b: int)
    ensures d * (a - b) == d * a - d * b
  {}

  lemma DivisionUnique(d: int, q: int, r: int, q': int, r': int)
    requires d > 0 && 0 <= r < d && 0 <= r' < d && d * q + r == d * q' + r'
    ensures q == q' && r == r'
  {
    if q > q' {
      MulSub(d, q, q');
      MulAtLeast(d, q - q');
    } else if q < q' {
      MulSub(d, q', q);
      MulAtLeast(d, q' - q);
    }
  }

  lemma DivMod(a: int, d: int, q: int, r: int)
    requires d > 0 && 0 <= r < d && a == d * q + r
    ensures a / d == q && a % d == r
  {
    DivisionUnique(d, q, r, a / d, a % d);
  }

  lemma MultipleInGap(d: int, k: int)
    requires d > 0
    ensures !(0 < d * k < d)
  {
    if k >= 1 {
      MulAtLeast(d, k);
    } else {
      MulAtLeast(d, 1 - k);
      MulSub(d, 1, k);
    }
  }

  /** Numbers less than `d` apart have different remainders modulo `d`. */
  lemma RemaindersDiffer(i: int, j: int, d: int)
    requires d > 0 && i < j < i + d
    ensures i % d != j % d
  {
    if i % d == j % d {
      GapOfEqualRemainders(i, j, d, i / d, j / d, i % d);
      MultipleInGap(d, j / d - i / d);
    }
  }

  lemma GapOfEqualRemainders(i: int, j: int, d: int, qi: int, qj: int, r: int)
    requires i == d * qi + r && j == d * qj + r
    ensures j - i == d * (qj - qi)
  {
    MulSub(d, qj, qi);
  }

  function Pow2(n: nat): (p: nat)
    ensures p >= 1
  {
    if n == 0 then 1 else 2 * Pow2(n - 1)
  }

  lemma {:induction false} Pow2Adds(a: nat, b: nat)
    ensures Pow2(a + b) == Pow2(a) * Pow2(b)
  {
    if a > 0 {
      Pow2Adds(a - 1, b);
      MulAssociates(2, Pow2(a - 1), Pow2(b));
    }
  }

  lemma MulAssociates(a: int, b: int, c: int)
    ensures (a * b) * c == a * (b * c)
  {}

  lemma {:induction false} Pow2Grows(a: nat, b: nat)
    requires a <= b
    ensures Pow2(a) <= Pow2(b)
  {
    if a < b { Pow2Grows(a, b - 1); }
  }

  lemma HalfRemainder(i: nat, d: nat)
    requires d >= 1
    ensures i % (2 * d) == i % 2 + 2 * ((i / 2) % d)
  {
    var j := i / 2;
    assert j == d * (j / d) + j % d;
    assert (2 * d) * (j / d) == 2 * (d * (j / d));
    DivMod(i, 2 * d, j / d, 2 * (j % d) + i % 2);
  }

  lemma MulAtLeastProduct(d: int, a: int, b: int)
    requires d >= 0 && a <= b
    ensures d * a <= d * b
  {}
}
