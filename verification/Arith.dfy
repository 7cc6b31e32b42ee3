/** Products and quotients of integers, isolated from the proofs that need them. */
module Arith {
  function Min(a: int, b: int): int { if a <= b then a else b }

  function Max(a: int, b: int): int { if a >= b then a else b }

  lemma MulMono(a: int, b: int, c: nat)
    ensures a <= b ==> a * c <= b * c
    ensures b * c == a * c + (b - a) * c
  {
  }

  /** Quotient and remainder are determined by the usual equation. */
  lemma DivModUnique(a: int, b: int, c: nat)
    requires c > 0 && 0 <= a < c
    ensures (a + b * c) / c == b && (a + b * c) % c == a
  {
    var x := a + b * c;
    var q := x / c;
    assert x == q * c + x % c;
    MulMono(q + 1, b, c);
    MulMono(b + 1, q, c);
    MulMono(q, q + 1, c);
    MulMono(b, b + 1, c);
  }

  lemma QuotientOf(x: int, c: int)
    requires c > 0
    ensures x / c * c <= x < x / c * c + c
  {
    assert x == x / c * c + x % c;
  }

  /** x lies between the multiple its quotient names and the next. */
  lemma FloorBounds(x: nat, c: nat)
    requires c > 0
    ensures 0 <= x / c * c <= x < x / c * c + c
    ensures (x / c * c) / c == x / c
  {
    QuotientOf(x, c);
    MulMono(0, x / c, c);
    DivModUnique(0, x / c, c);
  }

  /** Lying in the block of size c that begins at a multiple b of c is having b as floor multiple. */
  lemma BlockOf(y: nat, c: nat, b: nat)
    requires c > 0 && b / c * c == b
    ensures b <= y < b + c <==> y / c * c == b
  {
    FloorBounds(y, c);
    if b <= y < b + c {
      DivModUnique(y - b, b / c, c);
    }
  }

  lemma NonnegativeQuotient(x: nat, c: nat)
    requires c > 0
    ensures x / c >= 0
  {
  }

  lemma QuotientMono(x: nat, y: nat, c: nat)
    requires c > 0 && x <= y
    ensures 0 <= x / c <= y / c
    ensures x / c == y / c ==> y - x < c
  {
    QuotientOf(x, c);
    QuotientOf(y, c);
    MulMono(y / c + 1, x / c, c);
    MulMono(y / c, y / c + 1, c);
    NonnegativeQuotient(x, c);
  }
}
