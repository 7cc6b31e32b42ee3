/** The round-robin ensemble schedule, the gather that follows it, and the member-wise inversion. */
module Rounds {
  import opened Arith
  import opened Sums

  // ---- the communicator split of the default run ----

  /** Number of rounds: members over ranks, rounded up. */
  function RoundCount(nens: nat, size: nat): nat
    requires size > 0
  {
    (nens + size - 1) / size
  }

  /** The member a rank forecasts in a round; skipped when not below nens. */
  function MemberOf(size: nat, rank: nat, round: nat): nat
    requires size > 0
  {
    rank % size + round * size
  }

  predicate Forecasts(nens: nat, size: nat, rank: int, round: int, e: int)
    requires 0 < size <= nens
  {
    0 <= rank < size && 0 <= round < RoundCount(nens, size) && MemberOf(size, rank, round) == e && e < nens
  }

  /** Every member is forecast by exactly one rank in exactly one round, for every Nens >= size. */
  lemma EachMemberForecastOnce(nens: nat, size: nat, e: nat)
    requires 0 < size <= nens && e < nens
    ensures Forecasts(nens, size, e % size, e / size, e)
    ensures forall rank, round :: Forecasts(nens, size, rank, round, e) ==> rank == e % size && round == e / size
  {
    RoundsSuffice(nens, size, e);
    forall rank, round | Forecasts(nens, size, rank, round, e) ensures rank == e % size && round == e / size {
      MemberAddress(size, rank, round);
    }
    AddressMember(size, e);
  }

  lemma MemberAddress(size: nat, rank: nat, round: nat)
    requires rank < size
    ensures MemberOf(size, rank, round) % size == rank && MemberOf(size, rank, round) / size == round
  {
    DivModUnique(rank, 0, size);
    DivModUnique(rank, round, size);
  }

  lemma AddressMember(size: nat, e: nat)
    requires size > 0
    ensures MemberOf(size, e % size, e / size) == e
  {
    DivModUnique(e % size, 0, size);
  }

  lemma RoundsSuffice(nens: nat, size: nat, e: nat)
    requires 0 < size && e < nens
    ensures e / size < RoundCount(nens, size)
  {
    var q, r := e / size, RoundCount(nens, size);
    assert e == q * size + e % size;
    assert nens + size - 1 == r * size + (nens + size - 1) % size;
    MulMono(r, q, size);
  }

  // ---- the gather ----

  /** The member that ends up in column c: rank-major order of a round-robin schedule. */
  function Gathered(size: nat, rounds: nat, c: int): int
    requires rounds > 0
  {
    c / rounds + c % rounds * size
  }

  /** The column member e ends up in. */
  function ColumnOf(size: nat, rounds: nat, e: int): int
    requires size > 0
  {
    e % size * rounds + e / size
  }

  lemma GatheredIsPermutation(size: nat, rounds: nat, c: nat)
    requires c < size * rounds
    ensures size > 0 && rounds > 0
    ensures 0 <= Gathered(size, rounds, c) < size * rounds && ColumnOf(size, rounds, Gathered(size, rounds, c)) == c
    ensures 0 <= ColumnOf(size, rounds, c) < size * rounds && Gathered(size, rounds, ColumnOf(size, rounds, c)) == c
  {
    Positive(size, rounds, c);
    GatherInverts(size, rounds, c);
    assert rounds * size == size * rounds;
    GatherInverts(rounds, size, c);
  }

  lemma GatherInverts(size: nat, rounds: nat, c: nat)
    requires size > 0 && rounds > 0 && c < size * rounds
    ensures var e := c / rounds + c % rounds * size;
            0 <= e < size * rounds && e % size * rounds + e / size == c
  {
    Transposes(size, rounds, c);
    assert c == c / rounds * rounds + c % rounds;
  }

  lemma Positive(a: nat, b: nat, c: nat)
    requires c < a * b
    ensures a > 0 && b > 0
  {
  }

  lemma Transposes(size: nat, rounds: nat, c: nat)
    requires size > 0 && rounds > 0 && c < size * rounds
    ensures var e := c / rounds + c % rounds * size;
            0 <= e < size * rounds && e / size == c % rounds && e % size == c / rounds
  {
    var q, r := c / rounds, c % rounds;
    assert c == q * rounds + r;
    MulMono(size, q, rounds);
    DivModUnique(q, r, size);
    MulMono(r + 1, rounds, size);
    MulMono(r, r + 1, size);
  }

  lemma OneRowOrColumn(size: nat, rounds: nat, c: nat)
    requires size == 1 || rounds == 1
    requires rounds > 0 && c < size * rounds
    ensures Gathered(size, rounds, c) == c
  {
    if rounds == 1 { assert c / 1 == c && c % 1 == 0; } else { assert c / rounds == 0 && c % rounds == c; }
  }

  /** The gather leaves the member order alone only with one round or one rank. */
  lemma GatherIsIdentityIff(size: nat, rounds: nat)
    requires size > 0 && rounds > 0
    ensures (forall c :: 0 <= c < size * rounds ==> Gathered(size, rounds, c) == c) <==> rounds == 1 || size == 1
  {
    if rounds > 1 && size > 1 {
      MulMono(2, size, rounds);
      assert 1 / rounds == 0 && 1 % rounds == 1;
      assert Gathered(size, rounds, 1) == size;
    } else {
      forall c | 0 <= c < size * rounds ensures Gathered(size, rounds, c) == c { OneRowOrColumn(size, rounds, c); }
    }
  }

  lemma MembersInRange(size: nat, rounds: nat, rank: nat)
    requires rank < size
    ensures RoundCount(size * rounds, size) == rounds
    ensures forall b :: 0 <= b < rounds ==> 0 <= MemberOf(size, rank, b) < size * rounds
  {
    DivModUnique(size - 1, rounds, size);
    DivModUnique(rank, 0, size);
    forall b | 0 <= b < rounds ensures 0 <= MemberOf(size, rank, b) < size * rounds {
      MulMono(b + 1, rounds, size);
      MulMono(b, b + 1, size);
      MulMono(0, b, size);
    }
  }

  /** One rank's round loop: forecast the members of each round and append the results. */
  method ForecastRank<S>(ens: seq<S>, size: nat, rounds: nat, rank: nat, f: (int, S) -> S) returns (ensList: seq<S>)
    requires rank < size
    requires forall b :: 0 <= b < rounds ==> 0 <= MemberOf(size, rank, b) < |ens|
    ensures |ensList| == rounds
    ensures forall b :: 0 <= b < rounds ==> ensList[b] == f(MemberOf(size, rank, b), ens[MemberOf(size, rank, b)])
  {
    ensList := [];
    for round := 0 to rounds
      invariant |ensList| == round
      invariant forall b :: 0 <= b < round ==> ensList[b] == f(MemberOf(size, rank, b), ens[MemberOf(size, rank, b)])
    {
      var id := MemberOf(size, rank, round);
      if id < |ens| {
        ensList := ensList + [f(id, ens[id])];
      }
    }
  }

  /** The next ensemble as the root assembles it. */
  function NextEnsemble<S>(ens: seq<S>, size: nat, rounds: nat, f: (int, S) -> S): (next: seq<S>)
    requires |ens| == size * rounds
    ensures |next| == |ens|
  {
    seq(size * rounds, c requires 0 <= c < size * rounds =>
      GatheredIsPermutation(size, rounds, c);
      f(Gathered(size, rounds, c), ens[Gathered(size, rounds, c)]))
  }

  lemma GatheredBlockOf(size: nat, rounds: nat, rank: nat, b: nat)
    requires rank < size && b < rounds
    ensures 0 <= rank * rounds <= rank * rounds + b < (rank + 1) * rounds <= size * rounds
    ensures Gathered(size, rounds, rank * rounds + b) == MemberOf(size, rank, b)
  {
    DivModUnique(b, rank, rounds);
    DivModUnique(rank, 0, size);
    MulMono(rank + 1, size, rounds);
    MulMono(rank, rank + 1, rounds);
    MulMono(0, rank, rounds);
  }

  /** Appending one rank's list extends the prefix of the next ensemble that is in place. */
  lemma AppendRank<S>(ens: seq<S>, size: nat, rounds: nat, f: (int, S) -> S, rank: nat, next: seq<S>, ensList: seq<S>)
    requires rank < size && |ens| == size * rounds && |next| == rank * rounds && |ensList| == rounds
    requires next <= NextEnsemble(ens, size, rounds, f)
    requires forall b :: 0 <= b < rounds ==>
      0 <= MemberOf(size, rank, b) < |ens| && ensList[b] == f(MemberOf(size, rank, b), ens[MemberOf(size, rank, b)])
    ensures |next + ensList| == (rank + 1) * rounds
    ensures next + ensList <= NextEnsemble(ens, size, rounds, f)
  {
    var all := NextEnsemble(ens, size, rounds, f);
    MulMono(rank, rank + 1, rounds);
    MulMono(rank + 1, size, rounds);
    forall b | 0 <= b < rounds ensures ensList[b] == all[|next| + b] { GatheredBlockOf(size, rounds, rank, b); }
    assert all[|next|..|next| + rounds] == ensList;
    assert next + ensList == all[..|next| + rounds];
  }

  /** The default forecast step with Nens a multiple of the rank count: all round loops, then gather and flatten. */
  method ForecastStep<S>(ens: seq<S>, size: nat, ghost multiple: nat, f: (int, S) -> S) returns (next: seq<S>)
    requires 0 < size && |ens| == size * multiple
    ensures next == NextEnsemble(ens, size, multiple, f)
  {
    var rounds := RoundCount(|ens|, size);
    MembersInRange(size, multiple, 0);
    next := [];
    for rank := 0 to size
      invariant |next| == rank * rounds && next <= NextEnsemble(ens, size, rounds, f)
    {
      MembersInRange(size, rounds, rank);
      var ensList := ForecastRank(ens, size, rounds, rank, f);
      AppendRank(ens, size, rounds, f, rank, next, ensList);
      next := next + ensList;
    }
  }

  // ---- many steps ----

  /** n forecast steps through the scheduled gather; step t applies f(t, id) to the member it numbers id. */
  function Run<S>(ens: seq<S>, size: nat, rounds: nat, f: (nat, int, S) -> S, n: nat): (r: seq<S>)
    requires |ens| == size * rounds
    ensures |r| == |ens|
  {
    if n == 0 then ens else NextEnsemble(Run(ens, size, rounds, f, n - 1), size, rounds, (id, s) => f(n - 1, id, s))
  }

  /** The program's forecasts over n steps: at step t every rank passes t and the member's number to the model. */
  method RunSteps<S>(ens: seq<S>, size: nat, ghost multiple: nat, f: (nat, int, S) -> S, n: nat) returns (r: seq<S>)
    requires 0 < size && |ens| == size * multiple
    ensures r == Run(ens, size, multiple, f, n)
  {
    r := ens;
    for t := 0 to n
      invariant r == Run(ens, size, multiple, f, t)
    {
      ghost var before := r;
      var step := (id: int, s: S) => f(t, id, s);
      r := ForecastStep(r, size, multiple, step);
      SameStep(before, size, multiple, step, (id, s) => f(t, id, s));
    }
  }

  lemma SameStep<S>(ens: seq<S>, size: nat, rounds: nat, f: (int, S) -> S, g: (int, S) -> S)
    requires |ens| == size * rounds && forall id, s :: f(id, s) == g(id, s)
    ensures NextEnsemble(ens, size, rounds, f) == NextEnsemble(ens, size, rounds, g)
  {
    var a, b := NextEnsemble(ens, size, rounds, f), NextEnsemble(ens, size, rounds, g);
    forall c | 0 <= c < size * rounds ensures a[c] == b[c] { GatheredIsPermutation(size, rounds, c); }
  }

  /** The column, and so the number, of original member e after n gathers. */
  function ColumnAt(size: nat, rounds: nat, n: nat, e: int): int
    requires size > 0
  {
    if n == 0 then e else ColumnOf(size, rounds, ColumnAt(size, rounds, n - 1, e))
  }

  /** The trajectory of original member e, forecast at each step under the number it then has. */
  function Trajectory<S>(s: S, size: nat, rounds: nat, e: int, f: (nat, int, S) -> S, n: nat): S
    requires size > 0
  {
    if n == 0 then s
    else f(n - 1, ColumnAt(size, rounds, n - 1, e), Trajectory(s, size, rounds, e, f, n - 1))
  }

  /** The trajectory of a member with no schedule at all, under its own number. */
  function Undisturbed<S>(s: S, e: int, f: (nat, int, S) -> S, n: nat): S
  {
    if n == 0 then s else f(n - 1, e, Undisturbed(s, e, f, n - 1))
  }

  /** Which original member is in column c after n gathers. */
  function Origin(size: nat, rounds: nat, n: nat, c: int): int
    requires rounds > 0
  {
    if n == 0 then c else Origin(size, rounds, n - 1, Gathered(size, rounds, c))
  }

  lemma {:induction false} OriginInRange(size: nat, rounds: nat, n: nat, c: nat)
    requires c < size * rounds
    ensures rounds > 0 && 0 <= Origin(size, rounds, n, c) < size * rounds
    decreases n
  {
    GatheredIsPermutation(size, rounds, c);
    if n > 0 { OriginInRange(size, rounds, n - 1, Gathered(size, rounds, c)); }
  }

  lemma {:induction false} ColumnOfOrigin(size: nat, rounds: nat, n: nat, c: nat)
    requires c < size * rounds
    ensures size > 0 && rounds > 0 && ColumnAt(size, rounds, n, Origin(size, rounds, n, c)) == c
    decreases n
  {
    GatheredIsPermutation(size, rounds, c);
    if n > 0 { ColumnOfOrigin(size, rounds, n - 1, Gathered(size, rounds, c)); }
  }

  /** After any number of steps column c holds the trajectory of exactly one original member. */
  lemma {:induction false} RunPermutesTrajectories<S>(ens: seq<S>, size: nat, rounds: nat, f: (nat, int, S) -> S,
                                                      n: nat, c: nat)
    requires |ens| == size * rounds && c < |ens|
    ensures size > 0 && rounds > 0 && 0 <= Origin(size, rounds, n, c) < |ens|
    ensures var e := Origin(size, rounds, n, c);
            Run(ens, size, rounds, f, n)[c] == Trajectory(ens[e], size, rounds, e, f, n)
    decreases n
  {
    GatheredIsPermutation(size, rounds, c);
    OriginInRange(size, rounds, n, c);
    if n > 0 {
      var g := Gathered(size, rounds, c);
      RunPermutesTrajectories(ens, size, rounds, f, n - 1, g);
      ColumnOfOrigin(size, rounds, n - 1, g);
    }
  }

  /** A forecast that ignores the member number gives every member its undisturbed trajectory. */
  lemma {:induction false} NumberIgnored<S>(s: S, size: nat, rounds: nat, e: int, f: (nat, int, S) -> S, n: nat)
    requires size > 0 && forall t, i, j, x :: f(t, i, x) == f(t, j, x)
    ensures Trajectory(s, size, rounds, e, f, n) == Undisturbed(s, e, f, n)
    decreases n
  {
    if n > 0 { NumberIgnored(s, size, rounds, e, f, n - 1); }
  }

  lemma {:induction false} OriginInjective(size: nat, rounds: nat, n: nat, c: nat, d: nat)
    requires c < size * rounds && d < size * rounds
    requires rounds > 0 && Origin(size, rounds, n, c) == Origin(size, rounds, n, d)
    ensures c == d
    decreases n
  {
    GatheredIsPermutation(size, rounds, c);
    GatheredIsPermutation(size, rounds, d);
    if n > 0 { OriginInjective(size, rounds, n - 1, Gathered(size, rounds, c), Gathered(size, rounds, d)); }
  }

  // ---- the mean does not see the gather ----

  function InBlock(f: int -> real, a: int, width: int): int -> real { b => f(a * width + b) }

  function BlockTotals(f: int -> real, width: int): int -> real { a => Sum(InBlock(f, a, width), 0, width) }

  function Multiples(width: int): int -> int { r => r * width }

  lemma MultiplesAscend(width: nat, p: nat)
    ensures Ascending(Multiples(width), p)
  {
    forall r, s | 0 <= r <= s <= p ensures Multiples(width)(r) <= Multiples(width)(s) { MulMono(r, s, width); }
  }

  lemma BlockTotal(f: int -> real, width: nat, a: int)
    ensures BlockTotals(f, width)(a) == Sum(f, Multiples(width)(a), Multiples(width)(a + 1))
  {
    SumShift(f, InBlock(f, a, width), 0, width, a * width);
    MulMono(a, a + 1, width);
  }

  /** A sum over p * width indices, taken in p blocks. */
  lemma SumFlatten(f: int -> real, p: nat, width: nat)
    ensures Sum(f, 0, p * width) == Sum(BlockTotals(f, width), 0, p)
  {
    var b := Multiples(width);
    MultiplesAscend(width, p);
    forall a | 0 <= a < p ensures BlockTotals(f, width)(a) == Sum(f, b(a), b(a + 1)) { BlockTotal(f, width, a); }
    SumBlocks(f, BlockTotals(f, width), b, p);
  }

  function Grid(f: int -> real, size: int): (int, int) -> real { (a, b) => f(a + b * size) }

  lemma GatheredBlock(f: int -> real, g: int -> real, size: nat, rounds: nat, a: nat)
    requires a < size && rounds > 0
    requires forall c :: 0 <= c < size * rounds ==> g(c) == f(Gathered(size, rounds, c))
    ensures BlockTotals(g, rounds)(a) == RowSums(Grid(f, size), rounds)(a)
  {
    forall b | 0 <= b < rounds ensures InBlock(g, a, rounds)(b) == RowOf(Grid(f, size), a)(b) {
      DivModUnique(b, a, rounds);
      MulMono(a + 1, size, rounds);
      MulMono(a, a + 1, rounds);
      MulMono(0, a, rounds);
    }
    SumEq(InBlock(g, a, rounds), RowOf(Grid(f, size), a), 0, rounds);
  }

  /** Reordering the members as the gather does leaves every sum over members alone. */
  lemma GatherKeepsSum(f: int -> real, g: int -> real, size: nat, rounds: nat)
    requires rounds > 0
    requires forall c :: 0 <= c < size * rounds ==> g(c) == f(Gathered(size, rounds, c))
    ensures Sum(g, 0, size * rounds) == Sum(f, 0, size * rounds)
  {
    SumFlatten(g, size, rounds);
    forall a | 0 <= a < size ensures BlockTotals(g, rounds)(a) == RowSums(Grid(f, size), rounds)(a) {
      GatheredBlock(f, g, size, rounds, a);
    }
    SumEq(BlockTotals(g, rounds), RowSums(Grid(f, size), rounds), 0, size);
    SumSwap(Grid(f, size), size, rounds);
    forall b | 0 <= b < rounds ensures ColSums(Grid(f, size), size)(b) == BlockTotals(f, size)(b) {
      SumEq(ColOf(Grid(f, size), b), InBlock(f, b, size), 0, size);
    }
    SumEq(ColSums(Grid(f, size), size), BlockTotals(f, size), 0, rounds);
    SumFlatten(f, rounds, size);
    assert rounds * size == size * rounds;
  }

  function Along(f: int -> real, size: nat, rounds: nat, n: nat): int -> real
    requires rounds > 0
  {
    c => f(Origin(size, rounds, n, c))
  }

  lemma {:induction false} OriginKeepsSum(f: int -> real, size: nat, rounds: nat, n: nat)
    requires rounds > 0
    ensures Sum(Along(f, size, rounds, n), 0, size * rounds) == Sum(f, 0, size * rounds)
    decreases n
  {
    if n == 0 {
      forall c ensures Along(f, size, rounds, n)(c) == f(c) { assert Origin(size, rounds, n, c) == c; }
      SumEq(Along(f, size, rounds, n), f, 0, size * rounds);
    } else {
      OriginKeepsSum(f, size, rounds, n - 1);
      forall c ensures Along(f, size, rounds, n)(c) == Along(f, size, rounds, n - 1)(Gathered(size, rounds, c)) {
        assert Origin(size, rounds, n, c) == Origin(size, rounds, n - 1, Gathered(size, rounds, c));
      }
      GatherKeepsSum(Along(f, size, rounds, n - 1), Along(f, size, rounds, n), size, rounds);
    }
  }

  /** Observable g of column c of an ensemble. */
  function Observed<S>(ens: seq<S>, g: S -> real): int -> real { c => if 0 <= c < |ens| then g(ens[c]) else 0.0 }

  function Trajectories<S>(ens: seq<S>, size: nat, rounds: nat, f: (nat, int, S) -> S, n: nat): seq<S>
    requires size > 0
  {
    seq(|ens|, e requires 0 <= e < |ens| => Trajectory(ens[e], size, rounds, e, f, n))
  }

  function UndisturbedRun<S>(ens: seq<S>, f: (nat, int, S) -> S, n: nat): seq<S>
  {
    seq(|ens|, e requires 0 <= e < |ens| => Undisturbed(ens[e], e, f, n))
  }

  /** Over any number of steps, every sum over columns is the sum over the members' trajectories. */
  lemma RunKeepsSum<S>(ens: seq<S>, size: nat, rounds: nat, f: (nat, int, S) -> S, n: nat, g: S -> real)
    requires |ens| == size * rounds && |ens| > 0
    ensures size > 0
    ensures Sum(Observed(Run(ens, size, rounds, f, n), g), 0, |ens|)
         == Sum(Observed(Trajectories(ens, size, rounds, f, n), g), 0, |ens|)
  {
    Positive(size, rounds, 0);
    var ran := Observed(Run(ens, size, rounds, f, n), g);
    var kept := Observed(Trajectories(ens, size, rounds, f, n), g);
    forall c | 0 <= c < |ens| ensures ran(c) == Along(kept, size, rounds, n)(c) {
      RunPermutesTrajectories(ens, size, rounds, f, n, c);
    }
    SumEq(ran, Along(kept, size, rounds, n), 0, |ens|);
    OriginKeepsSum(kept, size, rounds, n);
  }

  /** Hence a forecast that ignores member numbers gives the ensemble mean of the unscheduled run, of any component. */
  lemma RunKeepsMean<S>(ens: seq<S>, size: nat, rounds: nat, f: (nat, int, S) -> S, n: nat, g: S -> real)
    requires |ens| == size * rounds && |ens| > 0 && forall t, i, j, x :: f(t, i, x) == f(t, j, x)
    ensures Sum(Observed(Run(ens, size, rounds, f, n), g), 0, |ens|) / |ens| as real
         == Sum(Observed(UndisturbedRun(ens, f, n), g), 0, |ens|) / |ens| as real
  {
    Positive(size, rounds, 0);
    RunKeepsSum(ens, size, rounds, f, n, g);
    forall e | 0 <= e < |ens| ensures Trajectories(ens, size, rounds, f, n)[e] == UndisturbedRun(ens, f, n)[e] {
      NumberIgnored(ens[e], size, rounds, e, f, n);
    }
    assert Trajectories(ens, size, rounds, f, n) == UndisturbedRun(ens, f, n);
  }

  // ---- forecasts that use the member number ----

  /** No forecast whatever, over any number of steps, has another ensemble total than without the schedule. */
  ghost predicate NumbersHarmless(size: nat, rounds: nat)
  {
    forall ens: seq<real>, f: (nat, int, real) -> real, n: nat :: |ens| == size * rounds ==>
      Total(Run(ens, size, rounds, f, n)) == Total(UndisturbedRun(ens, f, n))
  }

  lemma {:induction false} UnmovedTrajectory<S>(ens: seq<S>, size: nat, rounds: nat, f: (nat, int, S) -> S, n: nat)
    requires |ens| == size * rounds && size > 0 && rounds > 0 && (rounds == 1 || size == 1)
    ensures Run(ens, size, rounds, f, n) == UndisturbedRun(ens, f, n)
    decreases n
  {
    if n > 0 {
      UnmovedTrajectory(ens, size, rounds, f, n - 1);
      forall c | 0 <= c < |ens| ensures Run(ens, size, rounds, f, n)[c] == UndisturbedRun(ens, f, n)[c] {
        OneRowOrColumn(size, rounds, c);
        GatheredIsPermutation(size, rounds, c);
      }
    } else {
      assert UndisturbedRun(ens, f, 0) == ens;
    }
  }

  lemma TwoSteps<S>(ens: seq<S>, size: nat, rounds: nat, f: (nat, int, S) -> S, c: nat)
    requires |ens| == size * rounds && c < |ens|
    ensures rounds > 0 && 0 <= Gathered(size, rounds, c) < |ens|
    ensures 0 <= Gathered(size, rounds, Gathered(size, rounds, c)) < |ens|
    ensures var g := Gathered(size, rounds, c);
            Run(ens, size, rounds, f, 2)[c] == f(1, g, f(0, Gathered(size, rounds, g), ens[Gathered(size, rounds, g)]))
    ensures Undisturbed(ens[c], c, f, 2) == f(1, c, f(0, c, ens[c]))
  {
    GatheredIsPermutation(size, rounds, c);
    GatheredIsPermutation(size, rounds, Gathered(size, rounds, c));
    assert Run(ens, size, rounds, f, 1)[Gathered(size, rounds, c)] ==
      f(0, Gathered(size, rounds, Gathered(size, rounds, c)), ens[Gathered(size, rounds, Gathered(size, rounds, c))]);
    assert Undisturbed(ens[c], c, f, 1) == f(0, c, ens[c]);
  }

  /** Column 1 takes member size. */
  lemma SecondColumn(size: nat, rounds: nat)
    requires size > 1 && rounds > 1
    ensures Gathered(size, rounds, 1) == size < size * rounds
  {
    MulMono(2, rounds, size);
    assert 1 / rounds == 0 && 1 % rounds == 1;
  }

  function Spike(n: nat): seq<real> { seq(n, e => if e == 1 then 1.0 else 0.0) }

  function KeepFirst(): (nat, int, real) -> real { (t, id, s) => if t == 0 || id == 1 then s else 0.0 }

  /** Two steps; only member 1 has a value, and the second step keeps only what is then numbered 1. */
  lemma NumbersMatter(size: nat, rounds: nat)
    requires size > 1 && rounds > 1
    ensures Total(Run(Spike(size * rounds), size, rounds, KeepFirst(), 2)) == 0.0
    ensures Total(UndisturbedRun(Spike(size * rounds), KeepFirst(), 2)) == 1.0
  {
    var ens, f := Spike(size * rounds), KeepFirst();
    SecondColumn(size, rounds);
    var twice, own := Run(ens, size, rounds, f, 2), UndisturbedRun(ens, f, 2);
    forall c | 0 <= c < size * rounds ensures twice[c] == 0.0 && own[c] == ens[c] { TwoSteps(ens, size, rounds, f, c); }
    SumConst(Entries(twice), 0.0, 0, |twice|);
    SumSingle(Entries(own), 1, 0, |own|);
  }

  /** A forecast may rely on its member number exactly when the gather is the identity. */
  lemma NumbersHarmlessIff(size: nat, rounds: nat)
    requires size > 0 && rounds > 0
    ensures NumbersHarmless(size, rounds) <==> rounds == 1 || size == 1
  {
    if rounds == 1 || size == 1 {
      forall ens: seq<real>, f: (nat, int, real) -> real, n: nat | |ens| == size * rounds
        ensures Total(Run(ens, size, rounds, f, n)) == Total(UndisturbedRun(ens, f, n))
      {
        UnmovedTrajectory(ens, size, rounds, f, n);
      }
    } else {
      NumbersMatter(size, rounds);
    }
  }

  // ---- member-wise inversion ----

  /** The members a rank visits in range(rank, n, size), in order. */
  function Strided(n: nat, size: nat, e: nat): (ids: seq<nat>)
    requires size > 0
    ensures forall k :: 0 <= k < |ids| ==> e <= ids[k] < n && ids[k] % size == e % size
    ensures forall k, l :: 0 <= k < l < |ids| ==> ids[k] < ids[l]
    decreases n - e
  {
    if e >= n then []
    else
      SameResidue(e, size);
      [e] + Strided(n, size, e + size)
  }

  lemma SameResidue(e: nat, size: nat)
    requires size > 0
    ensures (e + size) % size == e % size && (e + size) / size == e / size + 1
  {
    DivModUnique(e % size, e / size + 1, size);
    MulMono(e / size, e / size + 1, size);
  }

  lemma StrideStep(e: nat, m: nat, size: nat)
    requires size > 0 && e < m && m % size == e % size
    ensures e + size <= m
  {
    assert m == m / size * size + m % size && e == e / size * size + e % size;
    MulMono(m / size, e / size, size);
    MulMono(e / size + 1, m / size, size);
    MulMono(e / size, e / size + 1, size);
  }

  /** The stride misses no member of its residue class. */
  lemma {:induction false} StridedCovers(n: nat, size: nat, e: nat, m: nat)
    requires size > 0 && e <= m < n && m % size == e % size
    ensures m in Strided(n, size, e)
    decreases n - e
  {
    if m != e {
      SameResidue(e, size);
      StrideStep(e, m, size);
      StridedCovers(n, size, e + size, m);
    }
  }

  /** One rank's strided loop: (member, inverted value) pairs. */
  method LocalInversions<S, V>(members: seq<S>, size: nat, rank: nat, inverse: S -> V) returns (updates: seq<(nat, V)>)
    requires rank < size
    ensures var ids := Strided(|members|, size, rank);
            |updates| == |ids| && forall k :: 0 <= k < |ids| ==> updates[k] == (ids[k], inverse(members[ids[k]]))
  {
    ghost var ids := Strided(|members|, size, rank);
    updates := [];
    var e := rank;
    while e < |members|
      invariant |updates| <= |ids| && ids[|updates|..] == Strided(|members|, size, e)
      invariant forall k :: 0 <= k < |updates| ==> updates[k] == (ids[k], inverse(members[ids[k]]))
      decreases |members| - e
    {
      assert ids[|updates|..] == [e] + Strided(|members|, size, e + size);
      updates := updates + [(e, inverse(members[e]))];
      e := e + size;
    }
  }

  /** The root's loop over one rank's updates. */
  method ApplyUpdates<S, V>(members: array<S>, updates: seq<(nat, V)>, ghost ids: seq<nat>, ghost value: int -> V,
                            apply: (S, V) -> S)
    requires |updates| == |ids|
    requires forall k :: 0 <= k < |ids| ==> ids[k] < members.Length && updates[k] == (ids[k], value(ids[k]))
    requires forall k, l :: 0 <= k < l < |ids| ==> ids[k] != ids[l]
    modifies members
    ensures forall e :: 0 <= e < members.Length ==>
      members[e] == if e in ids then apply(old(members[e]), value(e)) else old(members[e])
  {
    for k := 0 to |updates|
      invariant forall e :: 0 <= e < members.Length ==>
        members[e] == if e in ids[..k] then apply(old(members[e]), value(e)) else old(members[e])
    {
      var (e, v) := updates[k];
      assert ids[..k + 1] == ids[..k] + [e];
      members[e] := apply(members[e], v);
    }
    assert ids[..|updates|] == ids;
  }

  lemma StridedIsResidueClass(n: nat, size: nat, rank: nat)
    requires rank < size
    ensures forall e :: 0 <= e < n ==> (e in Strided(n, size, rank) <==> e % size == rank)
  {
    DivModUnique(rank, 0, size);
    forall e | 0 <= e < n && e % size == rank ensures e in Strided(n, size, rank) {
      assert e == e / size * size + rank;
      MulMono(0, e / size, size);
      StridedCovers(n, size, rank, e);
    }
  }

  /** One rank's share: its members inverted, then applied by the root. */
  method InvertRank<S, V>(members: array<S>, before: seq<S>, size: nat, rank: nat, inverse: S -> V, apply: (S, V) -> S)
    requires rank < size && |before| == members.Length > 0
    modifies members
    ensures forall e :: 0 <= e < members.Length ==>
      members[e] == if e % size == rank then apply(old(members[e]), inverse(before[e])) else old(members[e])
  {
    ghost var value := (e: int) => inverse(before[if 0 <= e < |before| then e else 0]);
    var updates := LocalInversions(before, size, rank, inverse);
    StridedIsResidueClass(|before|, size, rank);
    ApplyUpdates(members, updates, Strided(|before|, size, rank), value, apply);
  }

  /**
   * Every rank inverts its members, the root applies all updates in place: each member exactly once, for any rank
   * count.
   */
  method InvertMembers<S, V>(members: array<S>, size: nat, inverse: S -> V, apply: (S, V) -> S)
    requires size > 0
    modifies members
    ensures forall e :: 0 <= e < members.Length ==> members[e] == apply(old(members[e]), inverse(old(members[e])))
  {
    var before := members[..];
    if |before| == 0 { return; }
    for rank := 0 to size
      invariant forall e :: 0 <= e < members.Length ==>
        members[e] == if e % size < rank then apply(before[e], inverse(before[e])) else before[e]
    {
      InvertRank(members, before, size, rank, inverse, apply);
    }
  }
}
