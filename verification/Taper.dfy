/** The Gaspari-Cohn localisation weight: the two implementations and its shape. */
module Taper {

  /** The polynomial used below radius one. */
  function Near(r: real): real { (((-0.25 * r + 0.5) * r + 0.625) * r - 5.0 / 3.0) * (r * r) + 1.0 }

  /** The rational function used from one to two. */
  function Far(r: real): real
    requires r != 0.0
  {
    ((((1.0 / 12.0 * r - 0.5) * r + 0.625) * r + 5.0 / 3.0) * r - 5.0) * r + 4.0 - 2.0 / (3.0 * r)
  }

  /** gaspari_cohn_v0 at one normalised distance: masks for [0, 1) and [1, 2), zero elsewhere. */
  function GaspariCohnV0(r: real): real
  {
    if 0.0 <= r < 1.0 then Near(r) else if 1.0 <= r < 2.0 then Far(r) else 0.0
  }

  /** The weight the two masks leave: no lower bound on the first. */
  function Masked(r: real): real { if r < 1.0 then Near(r) else if r < 2.0 then Far(r) else 0.0 }

  /** _localization_matrix on a flattened distance matrix: compute both branches everywhere, assign through masks. */
  method LocalizationMatrix(distance: seq<real>, localizationRadius: real) returns (loc: array<real>)
    requires localizationRadius != 0.0
    ensures fresh(loc) && loc.Length == |distance|
    ensures forall i :: 0 <= i < |distance| ==> loc[i] == Masked(distance[i] / (0.5 * localizationRadius))
  {
    var radius := seq(|distance|, i requires 0 <= i < |distance| => distance[i] / (0.5 * localizationRadius));
    loc := new real[|distance|](_ => 0.0);
    forall i | 0 <= i < |distance| && radius[i] < 1.0 {
      loc[i] := Near(radius[i]);
    }
    forall i | 0 <= i < |distance| && radius[i] >= 1.0 && radius[i] < 2.0 {
      loc[i] := Far(radius[i]);
    }
  }

  lemma DivideMono(a: real, b: real, h: real)
    requires 0.0 <= a <= b && h > 0.0
    ensures 0.0 <= a / h <= b / h
    ensures a == 2.0 * h ==> a / h == 2.0
  {
    var p, q := a / h, b / h;
    assert a == p * h && b == q * h;
    assert (q - p) * h >= 0.0;
  }

  /**
   * The masked form is the other implementation exactly where the argument is no negative non-root of the near
   * polynomial.
   */
  lemma FormsAgreeIff(r: real)
    ensures Masked(r) == GaspariCohnV0(r) <==> r >= 0.0 || Near(r) == 0.0
    ensures Masked(-0.5) != GaspariCohnV0(-0.5)
  {
  }

  // ---- shape ----

  lemma MulLe(x: real, y: real, c: real)
    requires x <= y && c >= 0.0
    ensures x * c <= y * c
  {
  }

  lemma NearExpanded(r: real)
    ensures Near(r) ==
      -0.25 * (r * r * r * r * r) + 0.5 * (r * r * r * r) + 0.625 * (r * r * r) - 5.0 / 3.0 * (r * r) + 1.0
  {
    var p := r * r;
    var t := ((-0.25 * r + 0.5) * r + 0.625) * r;
    assert (-0.25 * r + 0.5) * r == -0.25 * p + 0.5 * r;
    assert t == -0.25 * (p * r) + 0.5 * p + 0.625 * r;
    assert t * p == -0.25 * (p * r * p) + 0.5 * (p * p) + 0.625 * (r * p);
    assert p * r * p == r * r * r * r * r && p * p == r * r * r * r;
  }

  lemma SquareLe(x: real)
    requires 0.0 <= x <= 1.0
    ensures x * x <= x
  {
    MulLe(x, 1.0, x);
  }

  lemma TwiceProduct(a: real, b: real)
    ensures 2.0 * (a * b) <= a * a + b * b
  {
    assert (b - a) * (b - a) >= 0.0;
  }

  /** The quotient of the cube difference, and its bound on the unit interval. */
  lemma CubeQuotient(a: real, b: real) returns (q: real)
    requires 0.0 <= a <= b <= 1.0
    ensures b * b * b - a * a * a == (b - a) * q && 0.0 <= q <= 1.5 * (a + b)
  {
    SquareLe(a);
    SquareLe(b);
    TwiceProduct(a, b);
    MulNonneg(a, a);
    MulNonneg(a, b);
    MulNonneg(b, b);
    q := a * a + a * b + b * b;
    ThreeHalves(a * a, a * b, b * b, a, b);
    CubeDifference(a, b);
  }

  lemma ThreeHalves(p: real, m: real, r: real, a: real, b: real)
    requires p <= a && r <= b && 2.0 * m <= p + r
    ensures p + m + r <= 1.5 * (a + b)
  {
  }

  lemma CubeDifference(a: real, b: real)
    ensures b * b * b - a * a * a == (b - a) * (a * a + a * b + b * b)
  {
  }

  lemma BelowOne(b: real, z: real)
    requires 0.0 <= b <= 1.0 && b * z <= 1.0
    ensures b * b * z <= 1.0
  {
    var t := b * z;
    MulLe(t, 1.0, b);
    assert t * b <= 1.0 * b;
    assert t * b <= 1.0;
    Rotate(b, z);
    assert b * b * z == t * b;
  }

  lemma HalfBound(b: real)
    requires 0.0 <= b <= 1.0
    ensures b * b * (2.0 - b) <= 1.0
  {
    assert (1.0 - b) * (1.0 - b) >= 0.0;
    BelowOne(b, 2.0 - b);
  }

  lemma Rotate(x: real, y: real)
    ensures x * x * y == (x * y) * x
  {
  }

  lemma MulNonneg(x: real, y: real)
    requires x >= 0.0 && y >= 0.0
    ensures x * y >= 0.0
  {
  }

  lemma SquaresBound(a: real, b: real)
    requires 0.0 <= a <= b
    ensures 0.0 <= a * a + b * b <= 2.0 * (b * b)
  {
    MulLe(a, b, a);
    MulLe(a, b, b);
    MulNonneg(a, a);
    MulNonneg(b, b);
  }

  lemma FourthDifference(a: real, b: real, w: real)
    requires w == a * a + b * b
    ensures b * b * b * b - a * a * a * a == (b - a) * ((a + b) * w)
  {
    var p, q := a * a, b * b;
    assert q - p == (b - a) * (a + b);
    assert q * q - p * p == (q - p) * (q + p);
    assert q * q == b * b * b * b && p * p == a * a * a * a;
    Associate(b - a, a + b, w);
  }

  lemma Associate(x: real, y: real, z: real)
    ensures x * y * z == x * (y * z)
  {
  }

  /** The quotient of the fourth-power difference, and its bound on the unit interval. */
  lemma FourthQuotient(a: real, b: real) returns (c: real)
    requires 0.0 <= a <= b <= 1.0
    ensures b * b * b * b - a * a * a * a == (b - a) * c && 0.0 <= c && c * (2.0 - b) <= 2.0 * (a + b)
  {
    var w := a * a + b * b;
    SquaresBound(a, b);
    FourthDifference(a, b, w);
    c := (a + b) * w;
    MulNonneg(a + b, w);
    FourthBound(w, b, a + b, c);
    HalfOfQuartic(a, b, c);
  }

  lemma FourthBound(w: real, b: real, s: real, c: real)
    requires w <= 2.0 * (b * b) && s >= 0.0 && c == s * w
    ensures c <= 2.0 * (b * b) * s
  {
    MulLe(w, 2.0 * (b * b), s);
  }

  lemma FifthQuotient(a: real, b: real, c: real) returns (f: real)
    requires b * b * b * b - a * a * a * a == (b - a) * c
    ensures b * b * b * b * b - a * a * a * a * a == (b - a) * (f + b * c) && f == a * a * a * a
  {
    f := a * a * a * a;
    FifthStep(f, b * b * b * b, a, b, c);
  }

  lemma FifthStep(e: real, g: real, a: real, b: real, c: real)
    requires g - e == (b - a) * c
    ensures g * b - e * a == (b - a) * (e + b * c)
  {
    assert g * b - e * a == (g - e) * b + e * (b - a);
    assert (b - a) * c * b == (b - a) * (b * c);
  }

  lemma Regroup(y: real, s: real, z: real)
    ensures 2.0 * y * s * z == 2.0 * (y * z * s)
  {
  }

  lemma ScaledBound(c: real, y: real, s: real, z: real)
    requires c <= 2.0 * y * s && s >= 0.0 && z >= 0.0 && y * z <= 1.0
    ensures c * z <= 2.0 * s
  {
    MulLe(c, 2.0 * y * s, z);
    MulLe(y * z, 1.0, s);
    Regroup(y, s, z);
  }

  lemma HalfOfQuartic(a: real, b: real, c: real)
    requires 0.0 <= a <= b <= 1.0 && c <= 2.0 * (b * b) * (a + b)
    ensures c * (2.0 - b) <= 2.0 * (a + b)
  {
    HalfBound(b);
    ScaledBound(c, b * b, a + b, 2.0 - b);
  }

  lemma UnitProduct(x: real, y: real)
    requires 0.0 <= x <= 1.0 && 0.0 <= y <= 1.0
    ensures 0.0 <= x * y <= 1.0
  {
    MulNonneg(x, y);
    MulNonneg(1.0 - x, y);
    assert (1.0 - x) * y == y - x * y;
  }

  lemma FourthPower(a: real)
    requires 0.0 <= a <= 1.0
    ensures 0.0 <= a * a * a * a <= 1.0
  {
    UnitProduct(a, a);
    UnitProduct(a * a, a);
    UnitProduct(a * a * a, a);
  }

  lemma SlopeBound(q: real, c: real, f: real, b: real, s: real)
    requires q <= 1.5 * s && c * (2.0 - b) <= 2.0 * s && f >= 0.0 && s >= 0.0
    ensures -0.25 * (f + b * c) + 0.5 * c + 0.625 * q - 5.0 / 3.0 * s <= 0.0
  {
    Expand(c, 2.0, b);
  }

  lemma NonPositive(x: real, y: real)
    requires x >= 0.0 && y <= 0.0
    ensures x * y <= 0.0
  {
  }

  lemma Distribute(d: real, p: real, q: real, r: real, t: real)
    ensures d * (-0.25 * p + 0.5 * q + 0.625 * r - 5.0 / 3.0 * t) ==
      -0.25 * (d * p) + 0.5 * (d * q) + 0.625 * (d * r) - 5.0 / 3.0 * (d * t)
  {
  }

  /** The terms of the near polynomial at both ends of a chord, and the quotients of their differences. */
  lemma ChordTerms(a: real, b: real)
      returns (a5: real, b5: real, a4: real, b4: real, a3: real, b3: real, a2: real, b2: real,
                                              f: real, c: real, q: real)
    requires 0.0 <= a <= b <= 1.0
    ensures Near(a) == -0.25 * a5 + 0.5 * a4 + 0.625 * a3 - 5.0 / 3.0 * a2 + 1.0
    ensures Near(b) == -0.25 * b5 + 0.5 * b4 + 0.625 * b3 - 5.0 / 3.0 * b2 + 1.0
    ensures b5 - a5 == (b - a) * (f + b * c) && b4 - a4 == (b - a) * c && b3 - a3 == (b - a) * q
    ensures b2 - a2 == (b - a) * (a + b)
    ensures 0.0 <= q <= 1.5 * (a + b) && 0.0 <= c && c * (2.0 - b) <= 2.0 * (a + b) && 0.0 <= f <= 1.0
  {
    NearExpanded(a);
    NearExpanded(b);
    SquareDifference(a, b);
    q := CubeQuotient(a, b);
    c := FourthQuotient(a, b);
    f := FifthQuotient(a, b, c);
    FourthPower(a);
    a5, a4, a3, a2 := a * a * a * a * a, a * a * a * a, a * a * a, a * a;
    b5, b4, b3, b2 := b * b * b * b * b, b * b * b * b, b * b * b, b * b;
  }

  /** The near polynomial falls: every chord of it has a slope of at most zero. */
  lemma NearNonIncreasing(a: real, b: real)
    requires 0.0 <= a <= b <= 1.0
    ensures Near(b) <= Near(a)
  {
    var a5, b5, a4, b4, a3, b3, a2, b2, f, c, q := ChordTerms(a, b);
    ChordFalls(Near(a), Near(b), a5, b5, a4, b4, a3, b3, a2, b2, a, b, f, c, q);
  }

  lemma SquareDifference(a: real, b: real)
    ensures b * b - a * a == (b - a) * (a + b)
  {
  }

  lemma ChordFalls(na: real, nb: real, a5: real, b5: real, a4: real, b4: real, a3: real, b3: real, a2: real, b2: real,
                   a: real, b: real, f: real, c: real, q: real)
    requires na == -0.25 * a5 + 0.5 * a4 + 0.625 * a3 - 5.0 / 3.0 * a2 + 1.0
    requires nb == -0.25 * b5 + 0.5 * b4 + 0.625 * b3 - 5.0 / 3.0 * b2 + 1.0
    requires b5 - a5 == (b - a) * (f + b * c) && b4 - a4 == (b - a) * c && b3 - a3 == (b - a) * q
    requires b2 - a2 == (b - a) * (a + b)
    requires 0.0 <= a <= b && q <= 1.5 * (a + b) && c * (2.0 - b) <= 2.0 * (a + b) && f >= 0.0
    ensures nb <= na
  {
    SlopeBound(q, c, f, b, a + b);
    SlopeTimesStep(b - a, f + b * c, c, q, a + b);
  }

  lemma SlopeTimesStep(d: real, p: real, q: real, r: real, t: real)
    requires d >= 0.0 && -0.25 * p + 0.5 * q + 0.625 * r - 5.0 / 3.0 * t <= 0.0
    ensures -0.25 * (d * p) + 0.5 * (d * q) + 0.625 * (d * r) - 5.0 / 3.0 * (d * t) <= 0.0
  {
    NonPositive(d, -0.25 * p + 0.5 * q + 0.625 * r - 5.0 / 3.0 * t);
    Distribute(d, p, q, r, t);
  }

  /** The far function as a cube times a positive decreasing factor. */
  function FarFactor(r: real): real
    requires r != 0.0
  {
    9.0 - 2.0 * (r * r) - 2.0 / r
  }

  lemma FarFactored(r: real)
    requires 1.0 <= r <= 2.0
    ensures 24.0 * Far(r) == (2.0 - r) * (2.0 - r) * (2.0 - r) * FarFactor(r)
    ensures 24.0 * r * Far(r) == (2.0 - r) * (2.0 - r) * (2.0 - r) * (2.0 - r) * (2.0 * r * r + 4.0 * r - 1.0)
  {
    var v := 1.0 / r;
    assert v * r == 1.0;
    assert 2.0 / r == 2.0 * v;
    assert 2.0 / (3.0 * r) == 2.0 / 3.0 * v;
  }

  lemma FarFactorDecreases(a: real, b: real)
    requires 1.0 <= a <= b <= 2.0
    ensures FarFactor(b) <= FarFactor(a)
  {
    var u, v := 1.0 / a, 1.0 / b;
    assert u * a == 1.0 && v * b == 1.0;
    assert 2.0 / a == 2.0 * u && 2.0 / b == 2.0 * v;
    assert u <= 1.0 by { assert u * (a - 1.0) >= 0.0; }
    assert v <= 1.0 by { assert v * (b - 1.0) >= 0.0; }
    MulLe(u, 1.0, v);
    assert u - v == (b - a) * (u * v) by { assert (b - a) * (u * v) == u * (v * b) - v * (u * a); }
    assert b * b - a * a == (b - a) * (a + b);
    MulNonneg(b - a, a + b - u * v);
    Expand(b - a, a + b, u * v);
  }

  lemma Expand(x: real, y: real, z: real)
    ensures x * (y - z) == x * y - x * z
  {
  }

  /** The factored form, ready to be compared: a cube x times a factor z, both nonnegative. */
  lemma FarProduct(r: real) returns (x: real, z: real)
    requires 1.0 <= r <= 2.0
    ensures 24.0 * Far(r) == x * z && x == (2.0 - r) * (2.0 - r) * (2.0 - r) && z == FarFactor(r)
    ensures x >= 0.0 && z >= 0.0
  {
    x, z := (2.0 - r) * (2.0 - r) * (2.0 - r), FarFactor(r);
    FarFactored(r);
    FarFactorDecreases(r, 2.0);
    Cubes(0.0, 2.0 - r);
  }

  /** Both factors fall together. */
  lemma FarFactors(a: real, b: real) returns (y: real, w: real, x: real, z: real)
    requires 1.0 <= a <= b <= 2.0
    ensures 24.0 * Far(a) == y * w && 24.0 * Far(b) == x * z
    ensures 0.0 <= x <= y && 0.0 <= z <= w
  {
    y, w := FarProduct(a);
    x, z := FarProduct(b);
    FarFactorDecreases(a, b);
    Cubes(2.0 - b, 2.0 - a);
  }

  lemma FarNonIncreasing(a: real, b: real)
    requires 1.0 <= a <= b <= 2.0
    ensures 0.0 <= Far(b) <= Far(a)
  {
    var y, w, x, z := FarFactors(a, b);
    Products(x, y, z, w);
  }

  lemma Products(x: real, y: real, z: real, w: real)
    requires 0.0 <= x <= y && 0.0 <= z <= w
    ensures 0.0 <= x * z <= y * w
  {
    MulNonneg(x, z);
    MulLe(x, y, z);
    MulLe(z, w, y);
  }

  lemma Cubes(q: real, p: real)
    requires 0.0 <= q <= p
    ensures 0.0 <= q * q * q <= p * p * p
  {
    MulLe(q, p, q);
    MulLe(q, p, p);
    MulLe(q * q, p * p, q);
    MulLe(q, p, p * p);
  }

  /** One at distance zero, and continuous where the pieces meet. */
  lemma Junctions()
    ensures GaspariCohnV0(0.0) == 1.0
    ensures Near(1.0) == Far(1.0) == 5.0 / 24.0
    ensures Far(2.0) == 0.0
  {
  }

  /** The weight never grows with distance. */
  lemma NonIncreasing(a: real, b: real)
    requires 0.0 <= a <= b
    ensures GaspariCohnV0(b) <= GaspariCohnV0(a)
  {
    Junctions();
    if b < 1.0 {
      NearNonIncreasing(a, b);
    } else if a < 1.0 {
      NearNonIncreasing(a, 1.0);
      if b < 2.0 { FarNonIncreasing(1.0, b); } else { FarNonIncreasing(1.0, 1.0); }
    } else if a < 2.0 {
      FarNonIncreasing(a, if b < 2.0 then b else 2.0);
    }
  }

  // ---- continuity ----

  /** The slope of a chord of the near polynomial, from its quotients, is at least -5. */
  lemma NearSlope(p: real, b: real, f: real, c: real, q: real, s: real)
    requires 0.0 <= b <= 1.0 && 0.0 <= f <= 1.0 && 0.0 <= c && c * (2.0 - b) <= 2.0 * s && 0.0 <= q && 0.0 <= s <= 2.0
    requires p == f + b * c
    ensures 0.25 * p - 0.5 * c - 0.625 * q + 5.0 / 3.0 * s <= 5.0
  {
    MulLe(1.0, 2.0 - b, c);
    MulLe(b, 1.0, c);
    assert c <= 4.0 && b * c <= 4.0;
  }

  lemma ChordBound(na: real, nb: real, d: real, p: real, c: real, q: real, s: real)
    requires na - nb == 0.25 * (d * p) - 0.5 * (d * c) - 0.625 * (d * q) + 5.0 / 3.0 * (d * s)
    requires d >= 0.0 && 0.25 * p - 0.5 * c - 0.625 * q + 5.0 / 3.0 * s <= 5.0
    ensures na - nb <= 5.0 * d
  {
    var slope := 0.25 * p - 0.5 * c - 0.625 * q + 5.0 / 3.0 * s;
    MulLe(slope, 5.0, d);
    assert slope * d == 0.25 * (d * p) - 0.5 * (d * c) - 0.625 * (d * q) + 5.0 / 3.0 * (d * s);
  }

  lemma NearLipschitz(a: real, b: real)
    requires 0.0 <= a <= b <= 1.0
    ensures Near(a) - Near(b) <= 5.0 * (b - a)
  {
    var a5, b5, a4, b4, a3, b3, a2, b2, f, c, q := ChordTerms(a, b);
    NearChordBound(Near(a), Near(b), a5, b5, a4, b4, a3, b3, a2, b2, a, b, f, c, q);
  }

  lemma NearChordBound(na: real, nb: real, a5: real, b5: real, a4: real, b4: real, a3: real, b3: real, a2: real,
                       b2: real, a: real, b: real, f: real, c: real, q: real)
    requires na == -0.25 * a5 + 0.5 * a4 + 0.625 * a3 - 5.0 / 3.0 * a2 + 1.0
    requires nb == -0.25 * b5 + 0.5 * b4 + 0.625 * b3 - 5.0 / 3.0 * b2 + 1.0
    requires b5 - a5 == (b - a) * (f + b * c) && b4 - a4 == (b - a) * c && b3 - a3 == (b - a) * q
    requires b2 - a2 == (b - a) * (a + b)
    requires 0.0 <= a <= b <= 1.0 && 0.0 <= q && 0.0 <= c && c * (2.0 - b) <= 2.0 * (a + b) && 0.0 <= f <= 1.0
    ensures na - nb <= 5.0 * (b - a)
  {
    NearSlope(f + b * c, b, f, c, q, a + b);
    ChordBound(na, nb, b - a, f + b * c, c, q, a + b);
  }

  lemma ReciprocalOrder(a: real, b: real)
    requires 1.0 <= a <= b
    ensures 0.0 <= 1.0 / b <= 1.0 / a
  {
    var u, v := 1.0 / a, 1.0 / b;
    assert u * a == 1.0 && v * b == 1.0;
    DivideMono(1.0, 1.0, a);
    DivideMono(1.0, 1.0, b);
    assert u - v == (b - a) * (u * v) by { assert (b - a) * (u * v) == u * (v * b) - v * (u * a); }
    MulNonneg(u, v);
    MulNonneg(b - a, u * v);
  }

  lemma SquareRate(a: real, b: real)
    requires 0.0 <= a <= b <= 2.0
    ensures b * b - a * a <= 4.0 * (b - a)
  {
    SquareDifference(a, b);
    MulLe(a + b, 4.0, b - a);
  }

  lemma FactorPiece(a: real, b: real) returns (w: real, z: real)
    requires 1.0 <= a <= b <= 2.0
    ensures w == FarFactor(a) && z == FarFactor(b) && 0.0 <= z <= w && z <= 9.0 && w - z <= 8.0 * (b - a)
  {
    w, z := FarFactor(a), FarFactor(b);
    FarFactorDecreases(a, b);
    FarFactorDecreases(b, 2.0);
    ReciprocalOrder(a, b);
    TwiceReciprocal(a);
    TwiceReciprocal(b);
    SquareRate(a, b);
    MulNonneg(b, b);
  }

  lemma TwiceReciprocal(a: real)
    requires a != 0.0
    ensures 2.0 / a == 2.0 * (1.0 / a)
  {
  }

  lemma CubePiece(q: real, p: real) returns (x: real, y: real)
    requires 0.0 <= q <= p <= 1.0
    ensures x == q * q * q && y == p * p * p && 0.0 <= x <= y <= 1.0 && y - x <= 3.0 * (p - q)
  {
    UnitProduct(q, q);
    UnitProduct(q, p);
    UnitProduct(p, p);
    UnitProduct(p * p, p);
    CubeDifference(q, p);
    Cubes(q, p);
    x, y := q * q * q, p * p * p;
    CubeBound(y - x, p - q, q * q, q * p, p * p);
  }

  lemma CubeBound(e: real, d: real, k: real, l: real, m: real)
    requires e == d * (k + l + m) && d >= 0.0 && k <= 1.0 && l <= 1.0 && m <= 1.0
    ensures e <= 3.0 * d
  {
    MulLe(k + l + m, 3.0, d);
  }

  lemma ProductRate(x: real, y: real, z: real, w: real, d: real)
    requires 0.0 <= x <= y <= 1.0 && 0.0 <= z <= w && z <= 9.0
    requires y - x <= 3.0 * d && w - z <= 8.0 * d && d >= 0.0
    ensures y * w - x * z <= 35.0 * d
  {
    assert y * w - x * z == y * (w - z) + z * (y - x);
    RateSum(y, w - z, z, y - x, d);
  }

  lemma RateSum(y: real, e: real, z: real, g: real, d: real)
    requires 0.0 <= y <= 1.0 && 0.0 <= z <= 9.0 && 0.0 <= e <= 8.0 * d && 0.0 <= g <= 3.0 * d
    ensures y * e + z * g <= 35.0 * d
  {
    MulBound(y, e, 1.0, 8.0 * d);
    MulBound(z, g, 9.0, 3.0 * d);
  }

  lemma MulBound(x: real, y: real, p: real, q: real)
    requires 0.0 <= x <= p && 0.0 <= y <= q
    ensures x * y <= p * q
  {
    MulLe(x, p, y);
    MulLe(y, q, p);
  }

  lemma FarValue(r: real, p: real, x: real, z: real)
    requires 1.0 <= r <= 2.0 && p == 2.0 - r && x == p * p * p && z == FarFactor(r)
    ensures 24.0 * Far(r) == x * z
  {
    FarFactored(r);
  }

  lemma FarLipschitz(a: real, b: real)
    requires 1.0 <= a <= b <= 2.0
    ensures Far(a) - Far(b) <= 5.0 * (b - a)
  {
    FarRates(a, b, 2.0 - a, 2.0 - b);
  }

  lemma FarRates(a: real, b: real, p: real, q: real)
    requires 1.0 <= a <= b <= 2.0 && p == 2.0 - a && q == 2.0 - b
    ensures Far(a) - Far(b) <= 5.0 * (b - a)
  {
    var x, y := CubePiece(q, p);
    var w, z := FactorPiece(a, b);
    FarValue(a, p, y, w);
    FarValue(b, q, x, z);
    FarBound(Far(a), Far(b), x, y, z, w, b - a);
  }

  lemma FarBound(fa: real, fb: real, x: real, y: real, z: real, w: real, d: real)
    requires 24.0 * fa == y * w && 24.0 * fb == x * z
    requires 0.0 <= x <= y <= 1.0 && 0.0 <= z <= w && z <= 9.0
    requires y - x <= 3.0 * d && w - z <= 8.0 * d && d >= 0.0
    ensures fa - fb <= 5.0 * d
  {
    ProductRate(x, y, z, w, d);
  }

  /** The weight falls, and by no more than five times the distance: it is continuous, at the junctions too. */
  lemma Lipschitz(a: real, b: real)
    requires 0.0 <= a <= b
    ensures 0.0 <= GaspariCohnV0(a) - GaspariCohnV0(b) <= 5.0 * (b - a)
  {
    NonIncreasing(a, b);
    Junctions();
    if a < 1.0 {
      NearLipschitz(a, if b < 1.0 then b else 1.0);
      if b >= 1.0 { FarLipschitz(1.0, if b < 2.0 then b else 2.0); }
    } else if a < 2.0 {
      FarLipschitz(a, if b < 2.0 then b else 2.0);
    }
  }

  /** The weight is between zero and one, and zero from radius two on. */
  lemma WithinUnit(r: real)
    requires r >= 0.0
    ensures 0.0 <= GaspariCohnV0(r) <= 1.0
    ensures r >= 2.0 ==> GaspariCohnV0(r) == 0.0
  {
    Junctions();
    NonIncreasing(0.0, r);
    if r < 2.0 { NonIncreasing(r, 2.0); }
  }

  /** The localisation of two distances: weights in [0, 1], never growing with distance, zero from the radius on. */
  lemma LocalizationShape(d: real, e: real, radius: real)
    requires 0.0 <= d <= e && radius > 0.0
    ensures var h := 0.5 * radius;
            && Masked(d / h) == GaspariCohnV0(d / h) && Masked(e / h) == GaspariCohnV0(e / h)
            && 0.0 <= Masked(e / h) <= Masked(d / h) <= 1.0
            && (d == 0.0 ==> Masked(d / h) == 1.0)
            && (e >= radius ==> Masked(e / h) == 0.0)
  {
    var h := 0.5 * radius;
    DivideMono(d, e, h);
    NonIncreasing(d / h, e / h);
    WithinUnit(d / h);
    WithinUnit(e / h);
    if e >= radius { DivideMono(radius, e, h); }
    if d == 0.0 { Junctions(); }
  }
}
