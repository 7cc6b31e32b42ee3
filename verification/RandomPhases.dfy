/** Random phases of the pseudo-random fields, and why the inverse transform of their spectrum is real. */
module RandomPhases {
  import opened Arith
  import opened Sums

  /** x % 1 on reals, as numpy takes it. */
  function Mod1(x: real): (r: real)
    ensures 0.0 <= r < 1.0
  {
    x - x.Floor as real
  }

  /** numpy.mod(-i, n). */
  function Conj(n: nat, i: int): int
    requires n > 0
  {
    (-i) % n
  }

  lemma ConjLaw(n: nat, i: int)
    requires 0 <= i < n
    ensures Conj(n, i) == if i == 0 then 0 else n - i
    ensures 0 <= Conj(n, i) < n && Conj(n, Conj(n, i)) == i
  {
    if i > 0 {
      DivModUnique(n - i, -1, n);
      DivModUnique(i, -1, n);
    } else {
      DivModUnique(0, 0, n);
    }
  }

  // ---- one dimension ----

  /** The phase at index i: zero if self-conjugate, drawn on one half, negated modulo one on the other. */
  function Phase1D(n: nat, draw: int -> real, i: int): real
    requires n > 0
  {
    var c := Conj(n, i);
    if i == c then 0.0 else if i < c then draw(i) else Mod1(-draw(c))
  }

  function PhaseMap1D(n: nat, draw: int -> real): int -> real
    requires n > 0
  {
    i => Phase1D(n, draw, i)
  }

  /** Every index of the lower half has its own draw, its mirror image the opposite one, the middle indices none. */
  lemma DrawsOf1D(n: nat, draw: int -> real, i: int)
    requires 0 <= i < n
    ensures i == 0 || 2 * i == n ==> Phase1D(n, draw, i) == 0.0
    ensures 0 < 2 * i < n ==> Phase1D(n, draw, i) == draw(i)
    ensures 2 * i > n ==> Phase1D(n, draw, i) == Mod1(-draw(n - i))
  {
    ConjLaw(n, i);
  }

  /** The masked assignments of generate_pseudo_random_field_1d. */
  method Phases1D(n: nat, draw: int -> real) returns (phi: array<real>)
    requires n > 0
    ensures fresh(phi) && phi.Length == n && forall i :: 0 <= i < n ==> phi[i] == Phase1D(n, draw, i)
  {
    phi := new real[n](_ => 0.0);
    var conj := seq(n, i => Conj(n, i));
    forall i | 0 <= i < n && i <= conj[i] && i != conj[i] {
      phi[i] := draw(i);
    }
    forall i | 0 <= i < n ensures 0 <= conj[i] < n && (i > conj[i] ==> conj[i] < conj[conj[i]]) { ConjLaw(n, i); }
    forall i | 0 <= i < n && !(i <= conj[i]) {
      phi[i] := Mod1(-phi[conj[i]]);
    }
    forall i | 0 <= i < n ensures phi[i] == Phase1D(n, draw, i) { ConjLaw(n, i); }
  }

  predicate IsWhole(x: real) { x == x.Floor as real }

  lemma WholeIsInt(x: real, w: int)
    ensures x == w as real ==> IsWhole(x)
  {
  }

  /** Phases of conjugate indices are opposite modulo a whole turn. */
  predicate Opposite(p: real, q: real) { IsWhole(p + q) }

  lemma Mod1Opposite(r: real)
    ensures Opposite(r, Mod1(-r)) && Opposite(Mod1(-r), r)
  {
    WholeIsInt(r + Mod1(-r), -((-r).Floor));
  }

  lemma Hermitian1D(n: nat, draw: int -> real, i: int)
    requires 0 <= i < n
    ensures Opposite(Phase1D(n, draw, i), Phase1D(n, draw, Conj(n, i)))
  {
    ConjLaw(n, i);
    Mod1Opposite(draw(i));
    Mod1Opposite(draw(Conj(n, i)));
  }

  // ---- two dimensions ----

  /** Row-major order of grid points. */
  predicate Before(j: int, i: int, k: int, l: int) { j < k || (j == k && i < l) }

  function Phase2D(ny: nat, nx: nat, draw: (int, int) -> real, j: int, i: int): real
    requires ny > 0 && nx > 0
  {
    var jc, ic := Conj(ny, j), Conj(nx, i);
    if j == jc && i == ic then 0.0 else if Before(j, i, jc, ic) then draw(j, i) else Mod1(-draw(jc, ic))
  }

  /** The middle of an axis: index zero, and half the length if that is even. */
  predicate Middle(n: nat, i: int) { i == 0 || 2 * i == n }

  /** The index read backwards around zero. */
  function Mirror(n: nat, i: int): int { if i == 0 then 0 else n - i }

  /**
   * Points of the lower half plane, and of the lower half of its two middle rows, have their own draws; their mirror
   * images have the opposite ones; the points in the middle of both axes have none.
   */
  lemma DrawsOf2D(ny: nat, nx: nat, draw: (int, int) -> real, j: int, i: int)
    requires 0 <= j < ny && 0 <= i < nx
    ensures Middle(ny, j) && Middle(nx, i) ==> Phase2D(ny, nx, draw, j, i) == 0.0
    ensures 0 < 2 * j < ny ==> Phase2D(ny, nx, draw, j, i) == draw(j, i)
    ensures Middle(ny, j) && 0 < 2 * i < nx ==> Phase2D(ny, nx, draw, j, i) == draw(j, i)
    ensures 2 * j > ny ==> Phase2D(ny, nx, draw, j, i) == Mod1(-draw(ny - j, Mirror(nx, i)))
    ensures Middle(ny, j) && 2 * i > nx ==> Phase2D(ny, nx, draw, j, i) == Mod1(-draw(j, nx - i))
  {
    ConjLaw(ny, j);
    ConjLaw(nx, i);
  }

  /** A point is settled once the sweep has passed it or its conjugate. */
  predicate Settled(ny: nat, nx: nat, j: int, i: int, k: int, l: int)
    requires ny > 0 && nx > 0
  {
    Before(k, l, j, i) || Before(Conj(ny, k), Conj(nx, l), j, i)
  }

  ghost predicate Swept(ny: nat, nx: nat, draw: (int, int) -> real, phi: array2<real>, done: array2<bool>, j: int,
                        i: int)
    requires ny > 0 && nx > 0 && phi.Length0 == done.Length0 == ny && phi.Length1 == done.Length1 == nx
    reads phi, done
  {
    forall k, l :: 0 <= k < ny && 0 <= l < nx ==>
      done[k, l] == Settled(ny, nx, j, i, k, l) && (done[k, l] ==> phi[k, l] == Phase2D(ny, nx, draw, k, l))
  }

  /** One visit of the double loop. */
  method Visit(ny: nat, nx: nat, draw: (int, int) -> real, phi: array2<real>, done: array2<bool>, j: int, i: int)
    requires 0 <= j < ny && 0 <= i < nx && phi.Length0 == done.Length0 == ny && phi.Length1 == done.Length1 == nx
    requires Swept(ny, nx, draw, phi, done, j, i)
    modifies phi, done
    ensures Swept(ny, nx, draw, phi, done, j, i + 1)
  {
    var jc, ic := Conj(ny, j), Conj(nx, i);
    ConjLaw(ny, j);
    ConjLaw(nx, i);
    forall k, l | 0 <= k < ny && 0 <= l < nx
      ensures Settled(ny, nx, j, i + 1, k, l) ==
        (Settled(ny, nx, j, i, k, l) || (k == j && l == i) || (k == jc && l == ic))
    {
      ConjLaw(ny, k);
      ConjLaw(nx, l);
    }
    if done[j, i] { return; }
    if j == jc && i == ic {
      phi[j, i] := 0.0;
      done[j, i] := true;
    } else {
      var r := draw(j, i);
      phi[j, i] := r;
      phi[jc, ic] := Mod1(-r);
      done[j, i] := true;
      done[jc, ic] := true;
    }
  }

  /** The double loop of generate_pseudo_random_field_2D: each conjugate pair is drawn for once. */
  method Phases2D(ny: nat, nx: nat, draw: (int, int) -> real) returns (phi: array2<real>)
    requires ny > 0 && nx > 0
    ensures fresh(phi) && phi.Length0 == ny && phi.Length1 == nx
    ensures forall k, l :: 0 <= k < ny && 0 <= l < nx ==> phi[k, l] == Phase2D(ny, nx, draw, k, l)
  {
    phi := new real[ny, nx]((_, _) => 0.0);
    var done := new bool[ny, nx]((_, _) => false);
    forall k, l | 0 <= k < ny && 0 <= l < nx ensures !Settled(ny, nx, 0, 0, k, l) { ConjLaw(ny, k); ConjLaw(nx, l); }
    for j := 0 to ny
      invariant Swept(ny, nx, draw, phi, done, j, 0)
    {
      for i := 0 to nx
        invariant Swept(ny, nx, draw, phi, done, j, i)
      {
        Visit(ny, nx, draw, phi, done, j, i);
      }
      forall k, l | 0 <= k < ny && 0 <= l < nx ensures Settled(ny, nx, j + 1, 0, k, l) == Settled(ny, nx, j, nx, k, l) {
        ConjLaw(ny, k);
        ConjLaw(nx, l);
      }
    }
    forall k, l | 0 <= k < ny && 0 <= l < nx ensures Settled(ny, nx, ny, 0, k, l) {}
  }

  lemma Hermitian2D(ny: nat, nx: nat, draw: (int, int) -> real, j: int, i: int)
    requires 0 <= j < ny && 0 <= i < nx
    ensures Opposite(Phase2D(ny, nx, draw, j, i), Phase2D(ny, nx, draw, Conj(ny, j), Conj(nx, i)))
  {
    ConjLaw(ny, j);
    ConjLaw(nx, i);
    Mod1Opposite(draw(j, i));
    Mod1Opposite(draw(Conj(ny, j), Conj(nx, i)));
  }

  // ---- the inverse transform ----

  /** All that is used of the sine of a full turn: odd, and of period one. */
  ghost predicate IsSine(s: real -> real)
  {
    (forall x: real :: s(-x) == -s(x)) && (forall x: real :: s(x + 1.0) == s(x))
  }

  lemma {:induction false} WholeTurns(s: real -> real, x: real, w: int)
    requires IsSine(s)
    ensures s(x + w as real) == s(x)
    decreases if w < 0 then -w else w
  {
    if w > 0 {
      WholeTurns(s, x, w - 1);
      assert x + w as real == (x + (w - 1) as real) + 1.0;
    } else if w < 0 {
      WholeTurns(s, x, w + 1);
      assert x + (w + 1) as real == (x + w as real) + 1.0;
    }
  }

  /** Angles that add up to whole turns have opposite sines. */
  lemma OppositeSines(s: real -> real, x: real, y: real)
    requires IsSine(s) && IsWhole(x + y)
    ensures s(y) == -s(x)
  {
    var w := (x + y).Floor;
    WholeTurns(s, -x, w);
    assert y == -x + w as real;
    assert s(-x) == -s(x);
  }

  /** A function that changes sign under index negation sums to zero. */
  lemma AntisymmetricSum(f: int -> real, n: nat)
    requires n > 0 && forall k :: 0 <= k < n ==> f(Conj(n, k)) == -f(k)
    ensures Sum(f, 0, n) == 0.0
  {
    ConjLaw(n, 0);
    SumFirst(f, 0, n);
    var g := (k: int) => -f(k);
    forall k | 1 <= k < n ensures g(n - k) == f(k) {
      ConjLaw(n, k);
      assert f(Conj(n, k)) == -f(k);
    }
    SumReverse(f, g, 1, n, n);
    SumScale(g, -1.0, f, 1, n);
  }

  /** Summing over negated indices is summing over the indices. */
  lemma ConjSum(f: int -> real, g: int -> real, n: nat)
    requires n > 0 && forall k :: 0 <= k < n ==> g(k) == f(Conj(n, k))
    ensures Sum(g, 0, n) == Sum(f, 0, n)
  {
    ConjLaw(n, 0);
    SumFirst(f, 0, n);
    SumFirst(g, 0, n);
    forall k | 1 <= k < n ensures g(n - k) == f(k) { ConjLaw(n, n - k); }
    SumReverse(f, g, 1, n, n);
  }

  /** The wave number index of numpy.fft.fftfreq: 0, 1, .., then negative. */
  function FreqIndex(n: nat, k: int): int { if k <= (n - 1) / 2 then k else k - n }

  /** The wave number index is the representative of k modulo n in the half-open interval around zero. */
  lemma FreqLaw(n: nat, k: int)
    requires 0 <= k < n
    ensures FreqIndex(n, k) == k || FreqIndex(n, k) == k - n
    ensures 0 <= 2 * FreqIndex(n, k) + n && 2 * FreqIndex(n, k) < n
  {
  }

  lemma FreqIsEven(n: nat, k: int)
    requires 0 <= k < n
    ensures FreqIndex(n, Conj(n, k)) * FreqIndex(n, Conj(n, k)) == FreqIndex(n, k) * FreqIndex(n, k)
  {
    ConjLaw(n, k);
    var a, b := FreqIndex(n, Conj(n, k)), FreqIndex(n, k);
    assert a == -b || a == b;
  }

  /** Amplitude at index k: some function of the squared wave number. */
  function Amplitude1D(n: nat, amp: int -> real, k: int): real { amp(FreqIndex(n, k) * FreqIndex(n, k)) }

  /** The part of a full turn that index k contributes at grid point x. */
  function Angle(n: nat, k: int, x: int): real
    requires n > 0
  {
    (k * x) as real / n as real
  }

  /** The angle is zero at the origin and grows by k / n of a turn per grid point. */
  lemma AngleLaw(n: nat, k: int, x: int)
    requires n > 0
    ensures Angle(n, k, 0) == 0.0 && (Angle(n, k, x + 1) - Angle(n, k, x)) * n as real == k as real
  {
    assert k * (x + 1) == k * x + k;
    Quotients((k * (x + 1)) as real, (k * x) as real, n as real);
  }

  lemma Quotients(a: real, b: real, n: real)
    requires n != 0.0
    ensures (a / n - b / n) * n == a - b
  {
    assert a / n * n == a && b / n * n == b;
  }

  /** Imaginary part of term k of the inverse transform at grid point x. */
  function ImagTerm1D(n: nat, amp: int -> real, s: real -> real, phi: int -> real, x: int): int -> real
    requires n > 0
  {
    k => Amplitude1D(n, amp, k) * s(phi(k) + Angle(n, k, x))
  }

  lemma TurnsBetween(n: nat, k: int, x: int)
    requires 0 <= k < n
    ensures IsWhole(Angle(n, k, x) + Angle(n, Conj(n, k), x))
  {
    ConjLaw(n, k);
    if k == 0 {
      assert Angle(n, 0, x) == 0.0;
    } else {
      assert k * x + (n - k) * x == n * x;
      SplitTurn((k * x) as real, ((n - k) * x) as real, n as real, x as real);
      WholeIsInt(Angle(n, k, x) + Angle(n, Conj(n, k), x), x);
    }
  }

  lemma WholesAddUp(a: real, b: real, c: real)
    requires IsWhole(a) && IsWhole(b) && IsWhole(c)
    ensures IsWhole(a + b + c)
  {
    WholeIsInt(a + b + c, a.Floor + b.Floor + c.Floor);
  }

  lemma SplitTurn(a: real, b: real, n: real, x: real)
    requires n > 0.0 && a + b == n * x
    ensures a / n + b / n == x
  {
    assert a / n + b / n == (a + b) / n;
    assert (n * x) / n == x;
  }

  lemma Antisymmetric1D(n: nat, draw: int -> real, amp: int -> real, s: real -> real, x: int, k: int)
    requires 0 <= k < n && IsSine(s)
    ensures var f := ImagTerm1D(n, amp, s, PhaseMap1D(n, draw), x); f(Conj(n, k)) == -f(k)
  {
    ConjLaw(n, k);
    var c, phi := Conj(n, k), PhaseMap1D(n, draw);
    Hermitian1D(n, draw, k);
    TurnsBetween(n, k, x);
    WholesAddUp(phi(k) + phi(c), Angle(n, k, x) + Angle(n, c, x), 0.0);
    OppositeSines(s, phi(k) + Angle(n, k, x), phi(c) + Angle(n, c, x));
    FreqIsEven(n, k);
  }

  /**
   * Main result, one dimension: for every size, odd or even, every draw and every amplitude that depends on the squared
   * wave number only, the imaginary part of the inverse transform vanishes at every grid point.
   */
  lemma InverseTransformIsReal1D(n: nat, draw: int -> real, amp: int -> real, s: real -> real, x: int)
    requires n > 0 && IsSine(s)
    ensures Sum(ImagTerm1D(n, amp, s, PhaseMap1D(n, draw), x), 0, n) == 0.0
  {
    var f := ImagTerm1D(n, amp, s, PhaseMap1D(n, draw), x);
    forall k | 0 <= k < n ensures f(Conj(n, k)) == -f(k) { Antisymmetric1D(n, draw, amp, s, x, k); }
    AntisymmetricSum(f, n);
  }

  function ImagTerm2D(ny: nat, nx: nat, amp: (int, int) -> real, s: real -> real, phi: (int, int) -> real, y: int,
                      x: int): (int, int) -> real
    requires ny > 0 && nx > 0
  {
    (j, i) => amp(FreqIndex(ny, j) * FreqIndex(ny, j), FreqIndex(nx, i) * FreqIndex(nx, i))
      * s(phi(j, i) + (Angle(ny, j, y) + Angle(nx, i, x)))
  }

  lemma Antisymmetric2D(ny: nat, nx: nat, draw: (int, int) -> real, amp: (int, int) -> real, s: real -> real,
                        phi: (int, int) -> real, y: int, x: int, j: int, i: int)
    requires 0 <= j < ny && 0 <= i < nx && IsSine(s)
    requires forall k, l :: phi(k, l) == Phase2D(ny, nx, draw, k, l)
    ensures var f := ImagTerm2D(ny, nx, amp, s, phi, y, x); f(Conj(ny, j), Conj(nx, i)) == -f(j, i)
  {
    ConjLaw(ny, j);
    ConjLaw(nx, i);
    var jc, ic := Conj(ny, j), Conj(nx, i);
    Hermitian2D(ny, nx, draw, j, i);
    TurnsBetween(ny, j, y);
    TurnsBetween(nx, i, x);
    WholesAddUp(phi(j, i) + phi(jc, ic), Angle(ny, j, y) + Angle(ny, jc, y), Angle(nx, i, x) + Angle(nx, ic, x));
    OppositeSines(s, phi(j, i) + (Angle(ny, j, y) + Angle(nx, i, x)),
                  phi(jc, ic) + (Angle(ny, jc, y) + Angle(nx, ic, x)));
    FreqIsEven(ny, j);
    FreqIsEven(nx, i);
  }

  /** Rows with opposite indices have opposite sums. */
  lemma OppositeRows(f: (int, int) -> real, ny: nat, nx: nat, j: int)
    requires 0 <= j < ny && nx > 0
    requires forall i :: 0 <= i < nx ==> f(Conj(ny, j), Conj(nx, i)) == -f(j, i)
    ensures RowSums(f, nx)(Conj(ny, j)) == -RowSums(f, nx)(j)
  {
    var jc := Conj(ny, j);
    var mirrored := (i: int) => f(jc, Conj(nx, i));
    ConjSum(RowOf(f, jc), mirrored, nx);
    SumScale(mirrored, -1.0, RowOf(f, j), 0, nx);
  }

  function Phases(ny: nat, nx: nat, draw: (int, int) -> real): (int, int) -> real
    requires ny > 0 && nx > 0
  {
    (j, i) => Phase2D(ny, nx, draw, j, i)
  }

  /** Main result, two dimensions. */
  lemma InverseTransformIsReal2D(ny: nat, nx: nat, draw: (int, int) -> real, amp: (int, int) -> real, s: real -> real,
                                 y: int, x: int)
    requires ny > 0 && nx > 0 && IsSine(s)
    ensures Sum(RowSums(ImagTerm2D(ny, nx, amp, s, Phases(ny, nx, draw), y, x), nx), 0, ny) == 0.0
  {
    var f := ImagTerm2D(ny, nx, amp, s, Phases(ny, nx, draw), y, x);
    forall j | 0 <= j < ny ensures RowSums(f, nx)(Conj(ny, j)) == -RowSums(f, nx)(j) {
      forall i | 0 <= i < nx ensures f(Conj(ny, j), Conj(nx, i)) == -f(j, i) {
        Antisymmetric2D(ny, nx, draw, amp, s, Phases(ny, nx, draw), y, x, j, i);
      }
      OppositeRows(f, ny, nx, j);
    }
    AntisymmetricSum(RowSums(f, nx), ny);
  }
}
