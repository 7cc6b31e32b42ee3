/** Rows located inside a rank's own rows, as the analysis update does, against rows located in the whole vector. */
module RankRows {
  import opened Arith
  import opened Partition
  import opened Matrices
  import opened Collectives
  import opened AnalysisUpdate

  /** Row c of the global vector is inflated when every rank counts parameters in its own rows. */
  predicate InflatedLocally(n: nat, size: nat, totalVars: nat, stateVars: nat, c: int)
    requires size > 0 && totalVars > 0
  {
    exists r :: 0 <= r < size && In(Blocks(n, size)[r], c) &&
      c >= Start(n, size, r) + Count(n, size, r) / totalVars * stateVars
  }

  predicate InflatedGlobally(n: nat, totalVars: nat, stateVars: nat, c: int)
    requires totalVars > 0
  {
    0 <= c < n && c >= ParameterStart(n, totalVars, stateVars)
  }

  /** Rows of each variable among the rows of rank r. */
  function RowsPerVariable(n: nat, size: nat, totalVars: nat, r: nat): nat
    requires size > 0 && totalVars > 0
  {
    CountIsNonnegative(n, size, r);
    NonnegativeQuotient(Count(n, size, r), totalVars);
    Count(n, size, r) / totalVars
  }

  /** Row c of the global vector is clamped when every rank looks for thickness blocks in its own rows. */
  predicate ClampedLocally(n: nat, size: nat, vecInputs: seq<string>, c: int)
    requires size > 0 && |vecInputs| > 0
  {
    exists r :: 0 <= r < size && In(Blocks(n, size)[r], c) &&
      IsThicknessRow(vecInputs, RowsPerVariable(n, size, |vecInputs|, r), c - Start(n, size, r))
  }

  predicate ClampedGlobally(n: nat, vecInputs: seq<string>, c: int)
    requires |vecInputs| > 0
  {
    0 <= c < n && IsThicknessRow(vecInputs, n / |vecInputs|, c)
  }

  /** When the ranks find in their own rows the variables one process would find. */
  predicate LocatedAlike(n: nat, size: nat, totalVars: nat)
  {
    size == 1 || n < totalVars || (size == 2 && n == 2 * totalVars - 1)
  }

  lemma BlockPlaces(n: nat, size: nat, r: nat)
    requires r < size
    ensures 0 <= Count(n, size, 0) <= n
    ensures 0 <= Start(n, size, r) <= Start(n, size, r) + Count(n, size, r) <= n
    ensures r > 0 ==> Count(n, size, 0) <= Start(n, size, r)
    ensures n > 0 ==> Count(n, size, 0) > 0
  {
    StartSteps(n, size, 0);
    StartSteps(n, size, r);
    StartEnds(n, size);
    StartAscends(n, size, r, r + 1);
    StartAscends(n, size, 1, if r > 0 then r else 1);
    StartAscends(n, size, 0, 1);
    if n > 0 { FirstBlockNonempty(n, size); }
  }

  lemma FirstBlockNonempty(n: nat, size: nat)
    requires size > 0 && n > 0
    ensures Count(n, size, 0) > 0
  {
    assert n == size * (n / size) + n % size;
  }

  /** Block arithmetic: what the first rank's blocks of rows say about all others. */
  lemma BlocksOnRanks(n: nat, size: nat, totalVars: nat, r: nat)
    requires r < size && totalVars > 0
    ensures Count(n, size, 0) <= n && Count(n, size, 0) / totalVars <= n / totalVars
    ensures 0 <= Start(n, size, r) <= Start(n, size, r) + Count(n, size, r) <= n
    ensures r > 0 ==> Count(n, size, 0) <= Start(n, size, r)
    ensures r > 0 && n / totalVars == Count(n, size, 0) / totalVars ==> Count(n, size, r) < totalVars
    ensures n / totalVars * totalVars <= n < n / totalVars * totalVars + totalVars
    ensures n > 0 ==> Count(n, size, 0) > 0
  {
    BlockPlaces(n, size, r);
    QuotientOf(n, totalVars);
    QuotientMono(Count(n, size, 0), n, totalVars);
  }

  /** The first rank's rows hold as many rows of each variable as the whole vector only in the cases of LocatedAlike. */
  lemma FirstRankHoldsAllIff(n: nat, size: nat, totalVars: nat)
    requires size > 0 && totalVars > 1
    ensures n / totalVars == Count(n, size, 0) / totalVars <==> LocatedAlike(n, size, totalVars)
  {
    var q, m := n / totalVars, Count(n, size, 0);
    StartEnds(n, size);
    StartSteps(n, size, 0);
    if size == 1 {
      assert m == n;
    } else if n < totalVars {
      BlocksOnRanks(n, size, totalVars, 0);
      SmallQuotient(n, totalVars, 0, n);
      SmallQuotient(m, totalVars, 0, m);
    } else {
      BlocksOnRanks(n, size, totalVars, 1);
      StartSteps(n, size, 1);
      var m1 := Count(n, size, 1);
      assert m - 1 <= m1 <= m;
      if size == 2 && n == 2 * totalVars - 1 {
        assert m + m1 == n;
        SmallQuotient(n, totalVars, 1, totalVars - 1);
        SmallQuotient(m, totalVars, 1, 0);
      } else if q == m / totalVars {
        OneMoreThanLast(n, size, totalVars, m, q);
        assert false;
      }
    }
  }

  lemma SmallQuotient(x: nat, c: nat, q: nat, rest: nat)
    requires rest < c && q <= 1 && x == rest + q * c
    ensures x / c == q
  {
    DivModUnique(rest, q, c);
  }

  /** With at least two ranks and one row per variable, equal block sizes leave one case only. */
  lemma OneMoreThanLast(n: nat, size: nat, totalVars: nat, m: nat, q: nat)
    requires size > 1 && totalVars > 1 && n >= totalVars && m == Count(n, size, 0)
    requires q == n / totalVars == m / totalVars
    ensures size == 2 && n == 2 * totalVars - 1
  {
    BlocksOnRanks(n, size, totalVars, 1);
    QuotientOf(m, totalVars);
    QuotientOf(n, totalVars);
    SmallIfZero(n, totalVars);
    MulMono(1, q, totalVars);
    StartSteps(n, size, 0);
    StartSteps(n, size, 1);
    StartEnds(n, size);
    assert Count(n, size, 1) == totalVars - 1 && m == totalVars;
    SmallIfTwice(n, totalVars);
    if size > 2 {
      StartSteps(n, size, 2);
      StartAscends(n, size, 3, size);
    }
  }

  lemma SmallIfZero(n: nat, c: nat)
    requires 0 < c <= n
    ensures n / c >= 1
  {
    QuotientOf(n, c);
  }

  lemma SmallIfTwice(n: nat, c: nat)
    requires c > 0 && n / c == c / c
    ensures n < 2 * c
  {
    QuotientOf(n, c);
    SmallQuotient(c, c, 1, 0);
  }

  lemma ProductBelow(p: nat, c: nat, d: nat, m: nat)
    requires 0 < c < d && p * d <= m && m > 0
    ensures p * c < m
  {
    MulMono(c + 1, d, p);
    MulMono(c, c + 1, p);
  }

  /** The first parameter row by the first rank's blocks is one of its rows, and never after the true one. */
  lemma FirstParameterRow(n: nat, size: nat, totalVars: nat, stateVars: nat)
    requires size > 0 && 0 < stateVars < totalVars
    ensures var q, p := n / totalVars, Count(n, size, 0) / totalVars;
            && (n > 0 ==> p * stateVars < Count(n, size, 0))
            && (p < q ==> p * stateVars < q * stateVars)
  {
    var q, p, m := n / totalVars, Count(n, size, 0) / totalVars, Count(n, size, 0);
    BlocksOnRanks(n, size, totalVars, 0);
    QuotientOf(m, totalVars);
    if n > 0 { ProductBelow(p, stateVars, totalVars, m); }
    MulMono(p + 1, q, stateVars);
    MulMono(p, p + 1, stateVars);
  }

  /** The ranks inflate the rows one process would inflate, row by row of the global vector. */
  ghost predicate SameInflation(n: nat, size: nat, totalVars: nat, stateVars: nat)
    requires size > 0 && totalVars > 0
  {
    forall c :: InflatedLocally(n, size, totalVars, stateVars, c) <==> InflatedGlobally(n, totalVars, stateVars, c)
  }

  /** When the ranks' left-over rows, beyond whole blocks per variable, are those of one process. */
  predicate LeftOversAlike(n: nat, size: nat, totalVars: nat)
    requires size > 0 && totalVars > 0
  {
    || size == 1 || n < totalVars || totalVars == 1
    || (n % size == 0 && n / size % totalVars == 0)
    || (n % size == size - 1 && (n / size + 1) % totalVars == 0)
  }

  predicate InflationAlike(n: nat, size: nat, totalVars: nat, stateVars: nat)
    requires size > 0 && totalVars > 0
  {
    if stateVars == 0 then true
    else if stateVars < totalVars then LocatedAlike(n, size, totalVars) else LeftOversAlike(n, size, totalVars)
  }

  /**
   * The ranks inflate the rows one process would inflate exactly: always without state variables; with state and
   * parameter variables, with one rank, with fewer rows than variables, or with two ranks and one row short of two per
   * variable; without parameter variables, when nothing should be inflated but left-over rows are, if those agree.
   */
  lemma LocalInflationAgrees(n: nat, size: nat, totalVars: nat, stateVars: nat)
    requires size > 0 && totalVars > 0 && stateVars <= totalVars
    ensures SameInflation(n, size, totalVars, stateVars) <==> InflationAlike(n, size, totalVars, stateVars)
  {
    if stateVars == 0 {
      forall c ensures InflatedLocally(n, size, totalVars, 0, c) <==> InflatedGlobally(n, totalVars, 0, c) {
        AllInflated(n, size, totalVars, c);
      }
    } else if stateVars < totalVars {
      MixedInflationAgrees(n, size, totalVars, stateVars);
    } else {
      LeftOverInflationAgrees(n, size, totalVars);
    }
  }

  lemma AllInflated(n: nat, size: nat, totalVars: nat, c: int)
    requires size > 0 && totalVars > 0
    ensures InflatedLocally(n, size, totalVars, 0, c) <==> 0 <= c < n
    ensures InflatedGlobally(n, totalVars, 0, c) <==> 0 <= c < n
  {
    BlocksTile(n, size);
    if 0 <= c < n {
      var r := OwnerOf(n, size, c);
      OwnerInflates(n, size, totalVars, 0, c, r);
    }
  }

  // ---- no parameter variables: left-over rows ----

  /** Every rank but the last holds whole blocks. */
  predicate WholeBlocks(n: nat, size: nat, totalVars: nat)
    requires size > 0 && totalVars > 0
  {
    forall r :: 0 <= r < size - 1 ==> Count(n, size, r) % totalVars == 0
  }

  lemma WholeBlocksIff(n: nat, size: nat, totalVars: nat)
    requires size > 0 && totalVars > 0
    ensures n < totalVars || WholeBlocks(n, size, totalVars) <==> LeftOversAlike(n, size, totalVars)
  {
    var q, rest := n / size, n % size;
    assert q >= 0;
    if size > 1 && WholeBlocks(n, size, totalVars) {
      assert Count(n, size, 0) % totalVars == 0;
      if 0 < rest < size - 1 {
        assert Count(n, size, size - 2) % totalVars == 0;
        ConsecutiveMultiples(q, totalVars);
      }
    }
    if totalVars == 1 {
      forall r | 0 <= r < size - 1 ensures Count(n, size, r) % totalVars == 0 { assert Count(n, size, r) % 1 == 0; }
    }
  }

  lemma ConsecutiveMultiples(q: nat, c: nat)
    requires c > 0 && q % c == 0 && (q + 1) % c == 0
    ensures c == 1
  {
    if c > 1 { DivModUnique(1, q / c, c); }
  }

  /** The left-over rows of the whole vector are those of the last rank, given whole blocks before it. */
  lemma LeftOversAtEnd(n: nat, size: nat, totalVars: nat)
    requires size > 0 && totalVars > 0 && WholeBlocks(n, size, totalVars)
    ensures var lo := Start(n, size, size - 1);
            0 <= lo <= n / totalVars * totalVars == lo + Count(n, size, size - 1) / totalVars * totalVars
  {
    StartEnds(n, size);
    StartSteps(n, size, size - 1);
    StartWhole(n, size, totalVars, size - 1);
    CountIsNonnegative(n, size, size - 1);
    WholePart(Start(n, size, size - 1), Count(n, size, size - 1), totalVars);
  }

  /** A row is left over on its rank exactly when it is left over in the whole vector, given whole blocks before. */
  lemma LeftOverRow(n: nat, size: nat, totalVars: nat, c: nat)
    requires size > 0 && totalVars > 0 && c < n && WholeBlocks(n, size, totalVars)
    ensures InflatedLocally(n, size, totalVars, totalVars, c) <==> InflatedGlobally(n, totalVars, totalVars, c)
  {
    var r := OwnerOf(n, size, c);
    OwnerInflates(n, size, totalVars, totalVars, c, r);
    LeftOversAtEnd(n, size, totalVars);
    if r < size - 1 { NoneLeftOver(n, size, totalVars, r); }
  }

  lemma NoneLeftOver(n: nat, size: nat, totalVars: nat, r: nat)
    requires totalVars > 0 && r < size - 1 && WholeBlocks(n, size, totalVars)
    ensures Start(n, size, r) + Count(n, size, r) / totalVars * totalVars == Start(n, size, r) + Count(n, size, r)
    ensures Start(n, size, r) + Count(n, size, r) <= Start(n, size, size - 1)
  {
    assert Count(n, size, r) == Count(n, size, r) / totalVars * totalVars + Count(n, size, r) % totalVars;
    StartSteps(n, size, r);
    StartAscends(n, size, r + 1, size - 1);
  }

  /** Adding a multiple of c shifts the largest multiple below. */
  lemma WholePart(a: nat, b: nat, c: nat)
    requires c > 0 && a % c == 0
    ensures (a + b) / c * c == a + b / c * c >= a
  {
    var p, q, rest := a / c, b / c, b % c;
    assert a == p * c && b == rest + q * c;
    MulMono(q, p + q, c);
    DivModUnique(rest, p + q, c);
    NonnegativeQuotient(b, c);
    MulMono(0, q, c);
  }

  lemma {:induction false} StartWhole(n: nat, size: nat, totalVars: nat, r: nat)
    requires size > 0 && totalVars > 0 && r <= size - 1 && WholeBlocks(n, size, totalVars)
    ensures Start(n, size, r) >= 0 && Start(n, size, r) % totalVars == 0
    decreases r
  {
    StartEnds(n, size);
    if r == 0 {
      DivModUnique(0, 0, totalVars);
    } else {
      StartWhole(n, size, totalVars, r - 1);
      StartSteps(n, size, r - 1);
      CountIsNonnegative(n, size, r - 1);
      SumOfMultiples(Start(n, size, r - 1), Count(n, size, r - 1), totalVars);
    }
  }

  lemma SumOfMultiples(a: nat, b: nat, c: nat)
    requires c > 0 && a % c == 0 && b % c == 0
    ensures (a + b) % c == 0
  {
    assert a == a / c * c && b == b / c * c;
    assert (a / c + b / c) * c == a / c * c + b / c * c;
    DivModUnique(0, a / c + b / c, c);
  }

  /** A rank before the last with left-over rows: its last row, or else row 0, has different status. */
  lemma LeftOversApart(n: nat, size: nat, totalVars: nat, r: nat)
    requires totalVars <= n && r < size - 1 && totalVars > 0 && Count(n, size, r) % totalVars != 0
    ensures !SameInflation(n, size, totalVars, totalVars)
  {
    var c, count := Start(n, size, r) + Count(n, size, r) - 1, Count(n, size, r);
    BlockPlaces(n, size, r);
    StartSteps(n, size, r);
    BelowMultiple(count, totalVars);
    assert In(Blocks(n, size)[r], c);
    OwnerInflates(n, size, totalVars, totalVars, c, r);
    if InflatedGlobally(n, totalVars, totalVars, c) {
      ShortTail(n, size, totalVars, r);
      FirstRowApart(n, size, totalVars, r + 1);
    }
  }

  /** A last row of rank r that is left over in the whole vector leaves few rows to the next rank. */
  lemma ShortTail(n: nat, size: nat, totalVars: nat, r: nat)
    requires totalVars > 0 && r + 1 < size && Start(n, size, r + 1) - 1 >= n / totalVars * totalVars
    ensures Count(n, size, r + 1) < totalVars - 1
  {
    BlockPlaces(n, size, r + 1);
    QuotientOf(n, totalVars);
  }

  lemma BelowMultiple(x: nat, c: nat)
    requires c > 0 && x % c != 0
    ensures x / c * c < x
  {
    assert x == x / c * c + x % c;
  }

  /** If some rank has less than a row per variable less one, all have less than one, and row 0 is left over there. */
  lemma FirstRowApart(n: nat, size: nat, totalVars: nat, s: nat)
    requires 0 < totalVars <= n && s < size && Count(n, size, s) < totalVars - 1
    ensures InflatedLocally(n, size, totalVars, totalVars, 0) && !InflatedGlobally(n, totalVars, totalVars, 0)
  {
    BlockPlaces(n, size, 0);
    StartEnds(n, size);
    SmallQuotient(Count(n, size, 0), totalVars, 0, Count(n, size, 0));
    assert In(Blocks(n, size)[0], 0);
    OwnerInflates(n, size, totalVars, totalVars, 0, 0);
    SmallIfZero(n, totalVars);
    MulMono(1, n / totalVars, totalVars);
  }

  lemma LeftOverInflationAgrees(n: nat, size: nat, totalVars: nat)
    requires size > 0 && totalVars > 0
    ensures SameInflation(n, size, totalVars, totalVars) <==> LeftOversAlike(n, size, totalVars)
  {
    WholeBlocksIff(n, size, totalVars);
    BlocksTile(n, size);
    if n < totalVars {
      forall c
        ensures InflatedLocally(n, size, totalVars, totalVars, c) <==> InflatedGlobally(n, totalVars, totalVars, c)
      {
        if 0 <= c < n { FewRowsInflated(n, size, totalVars, c); }
      }
    } else if WholeBlocks(n, size, totalVars) {
      forall c
        ensures InflatedLocally(n, size, totalVars, totalVars, c) <==> InflatedGlobally(n, totalVars, totalVars, c)
      {
        if 0 <= c < n { LeftOverRow(n, size, totalVars, c); }
      }
    } else {
      var r :| 0 <= r < size - 1 && Count(n, size, r) % totalVars != 0;
      LeftOversApart(n, size, totalVars, r);
    }
  }

  lemma FewRowsInflated(n: nat, size: nat, totalVars: nat, c: nat)
    requires size > 0 && c < n < totalVars
    ensures InflatedLocally(n, size, totalVars, totalVars, c) && InflatedGlobally(n, totalVars, totalVars, c)
  {
    var r := OwnerOf(n, size, c);
    BlockPlaces(n, size, r);
    OwnerInflates(n, size, totalVars, totalVars, c, r);
    SmallQuotient(Count(n, size, r), totalVars, 0, Count(n, size, r));
    SmallQuotient(n, totalVars, 0, n);
  }

  // ---- state and parameter variables ----

  lemma MixedInflationAgrees(n: nat, size: nat, totalVars: nat, stateVars: nat)
    requires size > 0 && 0 < stateVars < totalVars
    ensures SameInflation(n, size, totalVars, stateVars) <==> LocatedAlike(n, size, totalVars)
  {
    FirstRankHoldsAllIff(n, size, totalVars);
    if n / totalVars == Count(n, size, 0) / totalVars {
      forall c
        ensures InflatedLocally(n, size, totalVars, stateVars, c) <==> InflatedGlobally(n, totalVars, stateVars, c)
      {
        if 0 <= c < n {
          InflatedAlike(n, size, totalVars, stateVars, c);
        } else {
          BlocksTile(n, size);
        }
      }
    } else {
      InflatedApart(n, size, totalVars, stateVars);
    }
  }

  /** A row is inflated locally exactly when its owner finds it among its parameter rows. */
  lemma OwnerInflates(n: nat, size: nat, totalVars: nat, stateVars: nat, c: int, r: nat)
    requires r < size && totalVars > 0 && In(Blocks(n, size)[r], c)
    ensures InflatedLocally(n, size, totalVars, stateVars, c) <==>
      c >= Start(n, size, r) + Count(n, size, r) / totalVars * stateVars
  {
    BlocksTile(n, size);
  }

  lemma InflatedAlike(n: nat, size: nat, totalVars: nat, stateVars: nat, c: nat)
    requires size > 0 && 0 < stateVars < totalVars && c < n && n / totalVars == Count(n, size, 0) / totalVars
    ensures InflatedLocally(n, size, totalVars, stateVars, c) <==> InflatedGlobally(n, totalVars, stateVars, c)
  {
    var r := OwnerOf(n, size, c);
    OwnerInflates(n, size, totalVars, stateVars, c, r);
    FirstParameterRow(n, size, totalVars, stateVars);
    BlocksOnRanks(n, size, totalVars, r);
    if r == 0 {
      StartEnds(n, size);
    } else {
      SmallQuotient(Count(n, size, r), totalVars, 0, Count(n, size, r));
    }
  }

  lemma InflatedApart(n: nat, size: nat, totalVars: nat, stateVars: nat)
    requires size > 0 && 0 < stateVars < totalVars && n / totalVars != Count(n, size, 0) / totalVars
    ensures var local := Count(n, size, 0) / totalVars * stateVars;
            InflatedLocally(n, size, totalVars, stateVars, local) && !InflatedGlobally(n, totalVars, stateVars, local)
  {
    var m := Count(n, size, 0);
    var local := m / totalVars * stateVars;
    BlocksOnRanks(n, size, totalVars, 0);
    FirstParameterRow(n, size, totalVars, stateVars);
    StartEnds(n, size);
    QuotientMono(m, n, totalVars);
    MulMono(0, m / totalVars, stateVars);
    assert n > 0 && Blocks(n, size)[0] == (0, m) && In(Blocks(n, size)[0], local);
    OwnerInflates(n, size, totalVars, stateVars, local, 0);
  }

  // ---- the clamp ----

  /** Row c of block i is a thickness row exactly when variable i is a thickness variable. */
  lemma ThicknessOfBlock(vecInputs: seq<string>, ndim: nat, i: nat, c: int)
    requires i < |vecInputs| && i * ndim <= c < i * ndim + ndim
    ensures IsThicknessRow(vecInputs, ndim, c) <==> vecInputs[i] in THICKNESS_VARS
  {
    forall k | 0 <= k < |vecInputs| && k * ndim <= c < k * ndim + ndim ensures k == i {
      MulMono(k + 1, i, ndim);
      MulMono(i + 1, k, ndim);
      MulMono(k, k + 1, ndim);
      MulMono(i, i + 1, ndim);
    }
  }

  lemma NoThicknessBeyond(vecInputs: seq<string>, ndim: nat, c: int)
    requires c >= |vecInputs| * ndim
    ensures !IsThicknessRow(vecInputs, ndim, c)
  {
    forall k | 0 <= k < |vecInputs| ensures k * ndim + ndim <= c {
      MulMono(k + 1, |vecInputs|, ndim);
      MulMono(k, k + 1, ndim);
    }
  }

  /** With blocks as long on the first rank as in the whole vector, every row has one status. */
  lemma ClampedAlike(n: nat, size: nat, vecInputs: seq<string>, c: nat)
    requires size > 0 && |vecInputs| > 0 && c < n && n / |vecInputs| == Count(n, size, 0) / |vecInputs|
    ensures ClampedLocally(n, size, vecInputs, c) <==> ClampedGlobally(n, vecInputs, c)
  {
    var r := OwnerOf(n, size, c);
    OwnerClamps(n, size, vecInputs, c, r);
    if r == 0 {
      StartEnds(n, size);
    } else {
      BeyondFirstRank(n, size, vecInputs, r, c);
    }
  }

  /** Rows after the first rank's are left over, there and in the whole vector. */
  lemma BeyondFirstRank(n: nat, size: nat, vecInputs: seq<string>, r: nat, c: nat)
    requires 0 < r < size && |vecInputs| > 0 && n / |vecInputs| == Count(n, size, 0) / |vecInputs|
    requires In(Blocks(n, size)[r], c)
    ensures RowsPerVariable(n, size, |vecInputs|, r) == 0
    ensures !IsThicknessRow(vecInputs, RowsPerVariable(n, size, |vecInputs|, r), c - Start(n, size, r))
    ensures n / |vecInputs| >= 0 && !IsThicknessRow(vecInputs, n / |vecInputs|, c)
  {
    var totalVars := |vecInputs|;
    BlocksOnRanks(n, size, totalVars, r);
    SmallQuotient(Count(n, size, r), totalVars, 0, Count(n, size, r));
    QuotientOf(Count(n, size, 0), totalVars);
    NonnegativeQuotient(n, totalVars);
    NoThicknessBeyond(vecInputs, n / totalVars, c);
    NoThicknessInNone(vecInputs, c - Start(n, size, r));
  }

  /** A row is clamped locally exactly when its owner finds it in one of its thickness blocks. */
  lemma OwnerClamps(n: nat, size: nat, vecInputs: seq<string>, c: int, r: nat)
    requires r < size && |vecInputs| > 0 && In(Blocks(n, size)[r], c)
    ensures ClampedLocally(n, size, vecInputs, c) <==>
      IsThicknessRow(vecInputs, RowsPerVariable(n, size, |vecInputs|, r), c - Start(n, size, r))
  {
    BlocksTile(n, size);
  }

  lemma NoThicknessInNone(vecInputs: seq<string>, c: int)
    ensures !IsThicknessRow(vecInputs, 0, c)
  {
  }

  /** The first variable of another kind than the first one. */
  lemma FirstOther(vecInputs: seq<string>, thick: nat, other: nat) returns (i: nat)
    requires thick < |vecInputs| && other < |vecInputs|
    requires vecInputs[thick] in THICKNESS_VARS && vecInputs[other] !in THICKNESS_VARS
    ensures 0 < i < |vecInputs| && (vecInputs[i] in THICKNESS_VARS) != (vecInputs[0] in THICKNESS_VARS)
    ensures forall k :: 0 <= k < i ==> ((vecInputs[k] in THICKNESS_VARS) <==> (vecInputs[0] in THICKNESS_VARS))
  {
    i := 1;
    while (vecInputs[i] in THICKNESS_VARS) == (vecInputs[0] in THICKNESS_VARS)
      invariant 0 < i < |vecInputs|
      invariant forall k :: 0 <= k < i ==> ((vecInputs[k] in THICKNESS_VARS) <==> (vecInputs[0] in THICKNESS_VARS))
      decreases |vecInputs| - i
    {
      assert i < thick || i < other;
      i := i + 1;
    }
  }

  /** On the first rank's rows the local rule looks at the first rank's blocks. */
  lemma FirstRankClamps(n: nat, size: nat, vecInputs: seq<string>, c: nat)
    requires size > 0 && |vecInputs| > 0 && c < Count(n, size, 0)
    ensures ClampedLocally(n, size, vecInputs, c) <==> IsThicknessRow(vecInputs, Count(n, size, 0) / |vecInputs|, c)
  {
    BlocksTile(n, size);
    StartEnds(n, size);
    assert In(Blocks(n, size)[0], c);
  }

  /** With shorter blocks on the first rank some row is clamped by one rule and not by the other. */
  lemma ClampedApart(n: nat, size: nat, vecInputs: seq<string>, thick: nat, other: nat) returns (c: int)
    requires size > 0 && thick < |vecInputs| && other < |vecInputs|
    requires vecInputs[thick] in THICKNESS_VARS && vecInputs[other] !in THICKNESS_VARS
    requires n / |vecInputs| != Count(n, size, 0) / |vecInputs|
    ensures ClampedLocally(n, size, vecInputs, c) != ClampedGlobally(n, vecInputs, c)
  {
    BlocksOnRanks(n, size, |vecInputs|, 0);
    if Count(n, size, 0) / |vecInputs| == 0 {
      c := ClampMissed(n, size, vecInputs, thick);
    } else {
      var i := FirstOther(vecInputs, thick, other);
      c := ClampMisplaced(n, size, vecInputs, i, Count(n, size, 0) / |vecInputs|, n / |vecInputs|);
    }
  }

  /** The first row of the first other variable by the first rank's blocks still belongs to a variable before it. */
  lemma ClampMisplaced(n: nat, size: nat, vecInputs: seq<string>, i: nat, d: nat, e: nat) returns (c: int)
    requires size > 0 && 0 < i < |vecInputs| && d == Count(n, size, 0) / |vecInputs| && e == n / |vecInputs|
    requires 0 < d < e
    requires (vecInputs[i] in THICKNESS_VARS) != (vecInputs[0] in THICKNESS_VARS)
    requires forall k :: 0 <= k < i ==> ((vecInputs[k] in THICKNESS_VARS) <==> (vecInputs[0] in THICKNESS_VARS))
    ensures ClampedLocally(n, size, vecInputs, c) != ClampedGlobally(n, vecInputs, c)
  {
    BlocksOnRanks(n, size, |vecInputs|, 0);
    FirstBlockRow(d, i, |vecInputs|, Count(n, size, 0));
    EarlierBlock(i * d, d, e, i);
    ThicknessOfBlock(vecInputs, d, i, i * d);
    ThicknessOfBlock(vecInputs, e, i * d / e, i * d);
    FirstRankClamps(n, size, vecInputs, i * d);
    c := i * d;
  }

  lemma FirstBlockRow(d: nat, i: nat, totalVars: nat, m: nat)
    requires i < totalVars && d == m / totalVars
    ensures 0 <= i * d <= i * d + d <= m
  {
    QuotientOf(m, totalVars);
    MulMono(0, i, d);
    MulMono(i + 1, totalVars, d);
    MulMono(i, i + 1, d);
  }

  /** Row c = i * d, with blocks of e > d rows, lies before block i. */
  lemma EarlierBlock(c: nat, d: nat, e: nat, i: nat)
    requires 0 < d < e && 0 < i && c == i * d
    ensures 0 <= c / e < i && c / e * e <= c < c / e * e + e
  {
    var q := c / e;
    QuotientOf(c, e);
    MulMono(q + 1, 0, e);
    MulMono(q, q + 1, e);
    MulMono(i, q, e);
    MulMono(d + 1, e, i);
    MulMono(d, d + 1, i);
  }

  /** Ranks with less than one row per variable clamp nothing. */
  lemma ClampMissed(n: nat, size: nat, vecInputs: seq<string>, thick: nat) returns (c: int)
    requires size > 0 && thick < |vecInputs| && vecInputs[thick] in THICKNESS_VARS
    requires n / |vecInputs| > 0 == Count(n, size, 0) / |vecInputs|
    ensures ClampedGlobally(n, vecInputs, c) && !ClampedLocally(n, size, vecInputs, c)
  {
    var e := n / |vecInputs|;
    FirstBlockRow(e, thick, |vecInputs|, n);
    ThicknessOfBlock(vecInputs, e, thick, thick * e);
    NothingClamped(n, size, vecInputs, thick * e);
    c := thick * e;
  }

  lemma NothingClamped(n: nat, size: nat, vecInputs: seq<string>, c: int)
    requires size > 0 && |vecInputs| > 0 && Count(n, size, 0) / |vecInputs| == 0
    ensures !ClampedLocally(n, size, vecInputs, c)
  {
    QuotientOf(Count(n, size, 0), |vecInputs|);
    forall r | 0 <= r < size ensures Count(n, size, r) / |vecInputs| == 0 {
      CountIsNonnegative(n, size, r);
      SmallQuotient(Count(n, size, r), |vecInputs|, 0, Count(n, size, r));
    }
    assert forall x: int :: !IsThicknessRow(vecInputs, 0, x);
  }

  /** The ranks clamp the rows one process would clamp, row by row of the global vector. */
  ghost predicate SameClamp(n: nat, size: nat, vecInputs: seq<string>)
    requires size > 0 && |vecInputs| > 0
  {
    forall c :: ClampedLocally(n, size, vecInputs, c) <==> ClampedGlobally(n, vecInputs, c)
  }

  predicate SomeThickness(vecInputs: seq<string>) { exists v :: v in vecInputs && v in THICKNESS_VARS }

  predicate SomeOther(vecInputs: seq<string>) { exists v :: v in vecInputs && v !in THICKNESS_VARS }

  predicate ClampAlike(n: nat, size: nat, vecInputs: seq<string>)
    requires size > 0 && |vecInputs| > 0
  {
    if !SomeThickness(vecInputs) then true
    else if SomeOther(vecInputs) then LocatedAlike(n, size, |vecInputs|) else LeftOversAlike(n, size, |vecInputs|)
  }

  /**
   * The same for the clamp, with one block per variable: the ranks clamp the rows one process would clamp exactly:
   * always without thickness variables; with thickness and other variables, in the cases of LocatedAlike; otherwise
   * when the left-over rows agree. In all other cases a row of another variable is clamped or one missed.
   */
  lemma LocalClampAgrees(n: nat, size: nat, vecInputs: seq<string>)
    requires size > 0 && |vecInputs| > 0
    ensures SameClamp(n, size, vecInputs) <==> ClampAlike(n, size, vecInputs)
  {
    if !SomeThickness(vecInputs) {
      NoClamp(n, size, vecInputs);
    } else if SomeOther(vecInputs) {
      var thick :| 0 <= thick < |vecInputs| && vecInputs[thick] in THICKNESS_VARS;
      var other :| 0 <= other < |vecInputs| && vecInputs[other] !in THICKNESS_VARS;
      MixedClampAgrees(n, size, vecInputs, thick, other);
    } else {
      ThicknessClampAgrees(n, size, vecInputs);
    }
  }

  lemma NoClamp(n: nat, size: nat, vecInputs: seq<string>)
    requires size > 0 && |vecInputs| > 0 && !SomeThickness(vecInputs)
    ensures SameClamp(n, size, vecInputs)
  {
    forall ndim: nat, c: int ensures !IsThicknessRow(vecInputs, ndim, c) {
      assert forall i :: 0 <= i < |vecInputs| ==> vecInputs[i] in vecInputs;
    }
  }

  /** With thickness variables only, all rows in blocks are thickness rows and the left-over ones are not. */
  lemma AllThickness(vecInputs: seq<string>, ndim: nat, c: nat)
    requires !SomeOther(vecInputs)
    ensures IsThicknessRow(vecInputs, ndim, c) <==> c < ndim * |vecInputs|
  {
    if c < ndim * |vecInputs| {
      var i := c / ndim;
      QuotientOf(c, ndim);
      NonnegativeQuotient(c, ndim);
      MulMono(|vecInputs|, i, ndim);
      assert vecInputs[i] in vecInputs;
      ThicknessOfBlock(vecInputs, ndim, i, c);
    } else {
      NoThicknessBeyond(vecInputs, ndim, c);
    }
  }

  lemma ClampedIffNotLeftOver(n: nat, size: nat, vecInputs: seq<string>, c: nat)
    requires size > 0 && |vecInputs| > 0 && !SomeOther(vecInputs) && c < n
    ensures ClampedLocally(n, size, vecInputs, c) <==> !InflatedLocally(n, size, |vecInputs|, |vecInputs|, c)
    ensures ClampedGlobally(n, vecInputs, c) <==> !InflatedGlobally(n, |vecInputs|, |vecInputs|, c)
  {
    var r := OwnerOf(n, size, c);
    OwnerClamps(n, size, vecInputs, c, r);
    OwnerInflates(n, size, |vecInputs|, |vecInputs|, c, r);
    AllThickness(vecInputs, RowsPerVariable(n, size, |vecInputs|, r), c - Start(n, size, r));
    NonnegativeQuotient(n, |vecInputs|);
    AllThickness(vecInputs, n / |vecInputs|, c);
  }

  lemma ThicknessClampAgrees(n: nat, size: nat, vecInputs: seq<string>)
    requires size > 0 && |vecInputs| > 0 && SomeThickness(vecInputs) && !SomeOther(vecInputs)
    ensures SameClamp(n, size, vecInputs) <==> LeftOversAlike(n, size, |vecInputs|)
  {
    var t := |vecInputs|;
    LeftOverInflationAgrees(n, size, t);
    BlocksTile(n, size);
    forall c
      ensures (ClampedLocally(n, size, vecInputs, c) <==> ClampedGlobally(n, vecInputs, c))
         <==> (InflatedLocally(n, size, t, t, c) <==> InflatedGlobally(n, t, t, c))
    {
      if 0 <= c < n { ClampedIffNotLeftOver(n, size, vecInputs, c); }
    }
  }

  lemma MixedClampAgrees(n: nat, size: nat, vecInputs: seq<string>, thick: nat, other: nat)
    requires size > 0 && thick < |vecInputs| && other < |vecInputs|
    requires vecInputs[thick] in THICKNESS_VARS && vecInputs[other] !in THICKNESS_VARS
    ensures SameClamp(n, size, vecInputs) <==> LocatedAlike(n, size, |vecInputs|)
  {
    var totalVars := |vecInputs|;
    assert thick != other;
    FirstRankHoldsAllIff(n, size, totalVars);
    BlocksOnRanks(n, size, totalVars, 0);
    BlocksTile(n, size);
    var m := Count(n, size, 0);
    if n / totalVars == m / totalVars {
      forall c ensures ClampedLocally(n, size, vecInputs, c) <==> ClampedGlobally(n, vecInputs, c) {
        if 0 <= c < n { ClampedAlike(n, size, vecInputs, c); }
      }
    } else {
      var c := ClampedApart(n, size, vecInputs, thick, other);
    }
  }

  // ---- the whole update ----

  lemma InflatedInSlice(raw: Matrix, n: nat, nens: nat, lo: nat, hi: nat, factor: real, c: nat, j: int)
    requires Shape(raw, n, nens) && nens > 0 && lo <= c < hi <= n
    ensures At(raw[lo..hi], c - lo, j) == At(raw, c, j)
    ensures Inflated(raw[lo..hi], nens, factor, c - lo, j) == Inflated(raw, nens, factor, c, j)
  {
    LocalMeansAgree(raw, n, nens, lo, hi);
  }

  /** A row's owner treats it as one process would, in the agreeing cases. */
  lemma OwnerAgrees(n: nat, size: nat, r: nat, stateVars: nat, vecInputs: seq<string>, c: nat)
    requires r < size && |vecInputs| > 0 && stateVars <= |vecInputs| && In(Blocks(n, size)[r], c)
    requires InflationAlike(n, size, |vecInputs|, stateVars) && ClampAlike(n, size, vecInputs)
    ensures var lo, rows := Start(n, size, r), Count(n, size, r);
            && 0 <= lo <= c < lo + rows <= n
            && (c - lo >= ParameterStart(rows, |vecInputs|, stateVars) <==>
                 c >= ParameterStart(n, |vecInputs|, stateVars))
            && (IsThicknessRow(vecInputs, RowsPerVariable(n, size, |vecInputs|, r), c - lo) <==>
                 IsThicknessRow(vecInputs, RowsPerVariable(n, 1, |vecInputs|, 0), c))
  {
    BlockPlaces(n, size, r);
    LocalInflationAgrees(n, size, |vecInputs|, stateVars);
    LocalClampAgrees(n, size, vecInputs);
    OwnerInflates(n, size, |vecInputs|, stateVars, c, r);
    OwnerClamps(n, size, vecInputs, c, r);
    OneRank(n, |vecInputs|);
    assert ClampedLocally(n, size, vecInputs, c) <==> ClampedGlobally(n, vecInputs, c);
  }

  lemma OneRank(n: nat, totalVars: nat)
    requires totalVars > 0
    ensures RowsPerVariable(n, 1, totalVars, 0) == n / totalVars
  {
    StartEnds(n, 1);
    StartSteps(n, 1, 0);
  }

  /** In the agreeing cases the updates of the ranks put together are the update of one process, on every ensemble. */
  lemma UpdateOnRanksIsUpdate(raw: Matrix, n: nat, nens: nat, size: nat, r: nat, stateVars: nat, factor: real,
                              vecInputs: seq<string>, c: nat, j: int)
    requires r < size && |vecInputs| > 0 && stateVars <= |vecInputs| && In(Blocks(n, size)[r], c)
    requires InflationAlike(n, size, |vecInputs|, stateVars) && ClampAlike(n, size, vecInputs)
    requires Shape(raw, n, nens) && nens > 0
    ensures var lo, rows := Start(n, size, r), Count(n, size, r);
            && 0 <= lo <= lo + rows <= n
            && Updated(raw[lo..lo + rows], rows, nens, |vecInputs|, stateVars, factor, vecInputs, c - lo, j)
            == Updated(raw, n, nens, |vecInputs|, stateVars, factor, vecInputs, c, j)
  {
    var lo, rows := Start(n, size, r), Count(n, size, r);
    OwnerAgrees(n, size, r, stateVars, vecInputs, c);
    OneRank(n, |vecInputs|);
    InflatedInSlice(raw, n, nens, lo, lo + rows, factor, c, j);
  }
}
