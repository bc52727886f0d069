/** Facts about products and quotients of unknowns that have to be pointed out. */
module Products {
  lemma MulSwap(a: int, b: int, c: int)
    ensures a * (b * c) == b * (a * c)
  {
  }

  lemma MulSum(a: int, b: int, c: int)
    ensures (a + b) * c == a * c + b * c
  {
  }

  lemma MulAssoc(a: int, b: int, c: int)
    ensures (a * b) * c == a * (b * c)
  {
  }

  lemma MulLess(a: nat, b: nat, c: nat)
    requires a < b && c > 0
    ensures a * c + c <= b * c
  {
    MulSum(a, 1, c);
    assert (a + 1) * c <= b * c;
  }

  lemma MulMono(a: nat, b: nat, c: nat)
    requires a <= b
    ensures a * c <= b * c
  {
  }

  lemma MulNonNegative(a: nat, b: nat)
    ensures a * b >= 0
  {
  }

  lemma DivMod(x: int, m: nat)
    requires m > 0
    ensures x == m * (x / m) + x % m && 0 <= x % m < m
  {
  }

  lemma SmallMultiple(m: int, k: int)
    requires -m < m * k < m
    ensures k == 0
  {
    assert k >= 1 ==> m * k >= m * 1;
    assert k <= -1 ==> m * k <= m * (-1);
  }

  /** A number below the modulus is the remainder of everything it differs from by a multiple. */
  lemma RemainderUnique(v: nat, k: int, m: nat, x: int)
    requires v < m && x == v + m * k
    ensures x % m == v && x / m == k
  {
    DivMod(x, m);
    var q := x / m;
    assert m * (k - q) == m * k - m * q;
    SmallMultiple(m, k - q);
  }

  lemma QuotientLess(a: nat, q: nat, r: nat)
    requires q > 0 && a < q * r
    ensures a / q < r
  {
    DivMod(a, q);
    var k := a / q;
    assert k >= r ==> q * k >= q * r;
  }
}
