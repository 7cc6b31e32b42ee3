/** The block decompositions that hand out rows and members to ranks. */
module Partition {
  import opened Arith
  import opened Outcomes

  // ---- the closed form ----

  /** First index of rank's block of n items over size ranks. */
  function Start(n: nat, size: int, rank: int): int
    requires size > 0
  {
    rank * (n / size) + Min(rank, n % size)
  }

  function Count(n: nat, size: int, rank: int): int
    requires size > 0
  {
    n / size + if rank < n % size then 1 else 0
  }

  /** partition_1d: the half-open block [start, stop) of a rank. */
  function Partition1d(n: nat, size: int, rank: int): (int, int)
    requires size > 0
  {
    var start := Start(n, size, rank);
    (start, start + n / size + if rank < n % size then 1 else 0)
  }

  lemma StartSteps(n: nat, size: int, rank: int)
    requires size > 0
    ensures Start(n, size, rank + 1) == Start(n, size, rank) + Count(n, size, rank)
  {
    assert (rank + 1) * (n / size) == rank * (n / size) + n / size;
  }

  lemma StartEnds(n: nat, size: int)
    requires size > 0
    ensures Start(n, size, 0) == 0 && Start(n, size, size) == n
  {
    assert n == size * (n / size) + n % size;
  }

  lemma StartAscends(n: nat, size: int, r: int, s: int)
    requires size > 0 && 0 <= r <= s <= size
    ensures 0 <= Start(n, size, r) <= Start(n, size, s) <= n
    decreases s - r, size - s, r
  {
    StartEnds(n, size);
    StartMonotone(n, size, 0, r);
    StartMonotone(n, size, r, s);
    StartMonotone(n, size, s, size);
  }

  lemma {:induction false} StartMonotone(n: nat, size: int, r: int, s: int)
    requires size > 0 && 0 <= r <= s
    ensures Start(n, size, r) <= Start(n, size, s)
    decreases s - r
  {
    if r < s {
      StartMonotone(n, size, r, s - 1);
      StartSteps(n, size, s - 1);
      CountIsNonnegative(n, size, s - 1);
    }
  }

  lemma CountIsNonnegative(n: nat, size: int, rank: int)
    requires size > 0
    ensures Count(n, size, rank) >= 0
  {
  }

  // ---- what a decomposition has to do ----

  predicate In(block: (int, int), g: int) { block.0 <= g < block.1 }

  predicate Covered(blocks: seq<(int, int)>, g: int) { exists r :: 0 <= r < |blocks| && In(blocks[r], g) }

  /** Every index of [0, n) lies in exactly one block, and no block reaches outside. */
  ghost predicate Tiles(n: nat, blocks: seq<(int, int)>)
  {
    && (forall r, g :: 0 <= r < |blocks| && In(blocks[r], g) ==> 0 <= g < n)
    && (forall g :: 0 <= g < n ==> Covered(blocks, g))
    && (forall g, r, s :: 0 <= r < |blocks| && 0 <= s < |blocks| && In(blocks[r], g) && In(blocks[s], g) ==> r == s)
  }

  function Blocks(n: nat, size: int): seq<(int, int)>
    requires size > 0
  {
    seq(size, r => Partition1d(n, size, r))
  }

  /** The rank whose block holds g, found by walking the starts down from rank p. */
  lemma {:induction false} FindOwner(n: nat, size: int, g: int, p: nat) returns (r: nat)
    requires size > 0 && 0 <= g < Start(n, size, p)
    ensures r < p && Start(n, size, r) <= g < Start(n, size, r + 1)
    decreases p
  {
    StartEnds(n, size);
    if Start(n, size, p - 1) <= g {
      r := p - 1;
    } else {
      r := FindOwner(n, size, g, p - 1);
    }
  }

  lemma BlocksTile(n: nat, size: int)
    requires size > 0
    ensures Tiles(n, Blocks(n, size))
  {
    var b := Blocks(n, size);
    StartEnds(n, size);
    forall r | 0 <= r < size
      ensures b[r] == (Start(n, size, r), Start(n, size, r + 1)) && 0 <= b[r].0 <= b[r].1 <= n
    {
      StartSteps(n, size, r);
      StartAscends(n, size, r, r + 1);
    }
    forall g | 0 <= g < n ensures Covered(b, g) {
      var r := FindOwner(n, size, g, size);
      assert In(b[r], g);
    }
    forall g, r, s | 0 <= r < size && 0 <= s < size && In(b[r], g) && In(b[s], g) ensures r == s {
      if r < s { StartAscends(n, size, r + 1, s); }
      if s < r { StartAscends(n, size, s + 1, r); }
    }
    assert |b| == size;
  }

  /** Block sizes differ by at most one, the larger blocks coming first. */
  lemma BlocksBalanced(n: nat, size: int, r: int, s: int)
    requires size > 0 && 0 <= r <= s < size
    ensures var b := Blocks(n, size);
            b[s].1 - b[s].0 <= b[r].1 - b[r].0 <= b[s].1 - b[s].0 + 1
  {
    StartSteps(n, size, r);
    StartSteps(n, size, s);
  }

  // ---- the other decompositions of the program ----

  /** block_decomp: (start, count), branching on the remainder. */
  function BlockDecomp(n: nat, p: int, r: int): (int, int)
    requires p > 0
  {
    var q, rem := n / p, n % p;
    if r < rem then (r * (q + 1), q + 1) else (rem * (q + 1) + (r - rem) * q, q)
  }

  /** The member range of the even distribution; with fewer members than ranks the program raises. */
  function EnsembleRange(nens: nat, size: int, rank: int): Result<(int, int)>
    requires size > 0
  {
    if nens > size then
      var each, rem := nens / size, nens % size;
      if rank < rem then Ok((rank * (each + 1), rank * (each + 1) + (each + 1)))
      else Ok((rank * each + rem, rank * each + rem + each))
    else if nens == size then
      if rank < nens then Ok((rank, rank + 1)) else Ok((0, 0))
    else Err("fewer members than processes")
  }

  /** icesee_mpi_row_distribution; rows_per_rank is unbound unless there are more rows than ranks. */
  function RowDistribution(rows: nat, size: int, rank: int): Result<(int, int)>
    requires size > 0
  {
    if rows > size then
      var each, extra := rows / size, rows % size;
      if rank < extra then Ok((rank * (each + 1), rank * (each + 1) + (each + 1)))
      else Ok((rank * each + extra, rank * each + extra + each))
    else Err("rows_per_rank is not assigned")
  }

  /** All formulas are the one function wherever they return a block at all. */
  lemma DecompositionsAgree(n: nat, size: int, rank: int)
    requires 0 <= rank < size
    ensures var (start, count) := BlockDecomp(n, size, rank); Partition1d(n, size, rank) == (start, start + count)
    ensures EnsembleRange(n, size, rank) ==
      if n >= size then Ok(Partition1d(n, size, rank)) else Err("fewer members than processes")
    ensures RowDistribution(n, size, rank) ==
      if n > size then Ok(Partition1d(n, size, rank)) else Err("rows_per_rank is not assigned")
  {
    BlockDecompAgrees(n, size, rank);
    EnsembleRangeAgrees(n, size, rank);
    RowDistributionAgrees(n, size, rank);
  }

  lemma BlockDecompAgrees(n: nat, size: int, rank: int)
    requires 0 <= rank < size
    ensures var (start, count) := BlockDecomp(n, size, rank); Partition1d(n, size, rank) == (start, start + count)
  {
    BranchForms(rank, n / size, n % size);
  }

  lemma EnsembleRangeAgrees(n: nat, size: int, rank: int)
    requires 0 <= rank < size
    ensures EnsembleRange(n, size, rank) ==
      if n >= size then Ok(Partition1d(n, size, rank)) else Err("fewer members than processes")
  {
    BranchForms(rank, n / size, n % size);
    if n == size { SelfQuotient(size); }
  }

  lemma RowDistributionAgrees(n: nat, size: int, rank: int)
    requires 0 <= rank < size
    ensures RowDistribution(n, size, rank) ==
      if n > size then Ok(Partition1d(n, size, rank)) else Err("rows_per_rank is not assigned")
  {
    BranchForms(rank, n / size, n % size);
  }

  lemma SelfQuotient(size: int)
    requires size > 0
    ensures size / size == 1 && size % size == 0
  {
    DivModUnique(0, 1, size);
  }

  lemma BranchForms(rank: int, q: int, rem: int)
    ensures rank * (q + 1) == rank * q + rank
    ensures rem * (q + 1) + (rank - rem) * q == rem + rank * q
  {
  }

  /** What state_vector_load_distribution returns for a communicator of size ranks inside a world of sizeWorld. */
  function LoadBlock(n: nat, sizeWorld: int, size: int, rank: int): (int, int)
    requires size > 0
  {
    if n > sizeWorld then Partition1d(n, size, rank)
    else if rank < n then (rank, rank + 1)
    else (0, 0)
  }

  /** state_vector_load_distribution: a workload per rank, then a running prefix sum. */
  method LoadDistribution(n: nat, sizeWorld: int, size: int, rank: nat) returns (start: int, stop: int)
    requires rank < size
    ensures (start, stop) == LoadBlock(n, sizeWorld, size, rank)
  {
    if n > sizeWorld {
      var workloads := new int[size](_ => n / size);
      for i := 0 to n % size
        invariant forall r :: 0 <= r < size ==> workloads[r] == n / size + if r < i then 1 else 0
      {
        workloads[i] := workloads[i] + 1;
      }
      start := 0;
      StartEnds(n, size);
      for i := 0 to rank
        modifies {}
        invariant start == Start(n, size, i)
      {
        StartSteps(n, size, i);
        start := start + workloads[i];
      }
      StartSteps(n, size, rank);
      stop := start + workloads[rank];
    } else {
      if rank < n {
        start, stop := rank, rank + 1;
      } else {
        start, stop := 0, 0;
      }
    }
  }

  function LoadBlocks(n: nat, sizeWorld: int, size: int): seq<(int, int)>
    requires size > 0
  {
    seq(size, r => LoadBlock(n, sizeWorld, size, r))
  }

  /** The branch tests the world size but hands rows to the communicator: rows are lost exactly in between. */
  lemma LoadDistributionTiles(n: nat, sizeWorld: int, size: int)
    requires size > 0
    ensures Tiles(n, LoadBlocks(n, sizeWorld, size)) <==> n > sizeWorld || n <= size
  {
    var b := LoadBlocks(n, sizeWorld, size);
    if n > sizeWorld {
      BlocksTile(n, size);
      assert b == Blocks(n, size);
    } else if n <= size {
      forall g | 0 <= g < n ensures Covered(b, g) {
        assert In(b[g], g);
      }
    } else {
      assert forall r :: 0 <= r < size ==> !In(b[r], size);
      assert !Covered(b, size);
    }
  }

  // ---- index maps over several variables ----

  /** Where variable i starts in the concatenated state vector. */
  function Offset(nd: seq<nat>, i: nat): nat
    requires i <= |nd|
  {
    if i == 0 then 0 else Offset(nd, i - 1) + nd[i - 1]
  }

  /** The global indices of variable i that a rank owns. */
  function VarBlock(nd: seq<nat>, size: int, rank: int, i: nat): (int, int)
    requires size > 0 && i < |nd|
  {
    (Offset(nd, i) + Start(nd[i], size, rank), Offset(nd, i) + Start(nd[i], size, rank) + Count(nd[i], size, rank))
  }

  function Range(lo: int, hi: int): seq<int> { if lo < hi then seq(hi - lo, k => lo + k) else [] }

  /** Number of state entries a rank owns over the first i variables. */
  function LocalSize(nd: seq<nat>, size: int, rank: int, i: nat): int
    requires size > 0 && i <= |nd|
  {
    if i == 0 then 0 else LocalSize(nd, size, rank, i - 1) + Count(nd[i - 1], size, rank)
  }

  /** The dictionary after the first i variables: a repeated name keeps its last block. */
  function IndexMap(nd: seq<nat>, vecInputs: seq<string>, size: int, rank: int, i: nat): map<string, seq<int>>
    requires size > 0 && i <= |nd| == |vecInputs|
  {
    if i == 0 then map[]
    else
      var b := VarBlock(nd, size, rank, i - 1);
      IndexMap(nd, vecInputs, size, rank, i - 1)[vecInputs[i - 1] := Range(b.0, b.1)]
  }

  /** Looking a name up gives the block of its last occurrence, and only known names are keys. */
  lemma {:induction false} IndexMapLookup(nd: seq<nat>, vecInputs: seq<string>, size: int, rank: int, i: nat, k: nat)
    requires size > 0 && k < i <= |nd| == |vecInputs|
    requires forall j :: k < j < i ==> vecInputs[j] != vecInputs[k]
    ensures var m := IndexMap(nd, vecInputs, size, rank, i);
            var b := VarBlock(nd, size, rank, k);
            vecInputs[k] in m && m[vecInputs[k]] == Range(b.0, b.1)
    decreases i
  {
    if k < i - 1 { IndexMapLookup(nd, vecInputs, size, rank, i - 1, k); }
  }

  /** The entry of a name's last occurrence holds exactly the indices of its block, in increasing order. */
  lemma IndexMapHolds(nd: seq<nat>, vecInputs: seq<string>, size: int, rank: int, k: nat, g: int)
    requires 0 <= rank < size && k < |nd| == |vecInputs|
    requires forall j :: k < j < |nd| ==> vecInputs[j] != vecInputs[k]
    ensures var m := IndexMap(nd, vecInputs, size, rank, |nd|);
            && vecInputs[k] in m
            && (g in m[vecInputs[k]] <==> In(VarBlock(nd, size, rank, k), g))
            && |m[vecInputs[k]]| == Count(nd[k], size, rank)
            && forall a, b :: 0 <= a < b < |m[vecInputs[k]]| ==> m[vecInputs[k]][a] < m[vecInputs[k]][b]
  {
    IndexMapLookup(nd, vecInputs, size, rank, |nd|, k);
    var block := VarBlock(nd, size, rank, k);
    CountIsNonnegative(nd[k], size, rank);
    if In(block, g) { assert Range(block.0, block.1)[g - block.0] == g; }
  }

  lemma {:induction false} IndexMapKeys(nd: seq<nat>, vecInputs: seq<string>, size: int, rank: int, i: nat, v: string)
    requires size > 0 && i <= |nd| == |vecInputs|
    ensures v in IndexMap(nd, vecInputs, size, rank, i) <==> v in vecInputs[..i]
    decreases i
  {
    if i > 0 {
      IndexMapKeys(nd, vecInputs, size, rank, i - 1, v);
      assert vecInputs[..i] == vecInputs[..i - 1] + [vecInputs[i - 1]];
    }
  }

  /** icesee_get_index, var_nd branch: a dictionary from variable name to owned global indices. */
  method GetIndex(varNd: seq<int>, vecInputs: seq<string>, nranks: int, rank: nat)
    returns (r: Result<(map<string, seq<int>>, int)>)
    requires rank < nranks
    ensures r.Err? <==> |varNd| != |vecInputs| || exists i :: 0 <= i < |varNd| && varNd[i] < 0
    ensures r.Ok? ==>
      && r.value.0 == IndexMap(varNd, vecInputs, nranks, rank, |varNd|)
      && r.value.1 == LocalSize(varNd, nranks, rank, |varNd|)
  {
    if |varNd| != |vecInputs| { return Err("var_nd and vec_inputs differ in length"); }
    for i := 0 to |varNd|
      invariant forall j :: 0 <= j < i ==> varNd[j] >= 0
    {
      if varNd[i] < 0 { return Err("var_nd contains negative sizes"); }
    }
    var nd: seq<nat> := varNd;
    var indexMap: map<string, seq<int>> := map[];
    var local, offset := 0, 0;
    for i := 0 to |nd|
      invariant offset == Offset(nd, i)
      invariant indexMap == IndexMap(nd, vecInputs, nranks, rank, i)
      invariant local == LocalSize(nd, nranks, rank, i)
    {
      DecompositionsAgree(nd[i], nranks, rank);
      var (start, count) := BlockDecomp(nd[i], nranks, rank);
      assert (start, count) == (Start(nd[i], nranks, rank), Count(nd[i], nranks, rank));
      var g0 := offset + start;
      indexMap := indexMap[vecInputs[i] := Range(g0, g0 + count)];
      local := local + count;
      offset := offset + nd[i];
    }
    return Ok((indexMap, local));
  }

  lemma {:induction false} OffsetAscends(nd: seq<nat>, i: nat, j: nat)
    requires i <= j <= |nd|
    ensures Offset(nd, i) <= Offset(nd, j)
    decreases j - i
  {
    if i < j { OffsetAscends(nd, i, j - 1); }
  }

  lemma {:induction false} FindVariable(nd: seq<nat>, g: int, k: nat) returns (i: nat)
    requires k <= |nd| && 0 <= g < Offset(nd, k)
    ensures i < k && Offset(nd, i) <= g < Offset(nd, i + 1)
    decreases k
  {
    if Offset(nd, k - 1) <= g { i := k - 1; } else { i := FindVariable(nd, g, k - 1); }
  }

  /** Over all variables and ranks, the index maps partition the whole state vector. */
  lemma IndexMapsPartition(nd: seq<nat>, size: int, g: int)
    requires size > 0 && 0 <= g < Offset(nd, |nd|)
    ensures exists i, r :: 0 <= i < |nd| && 0 <= r < size && In(VarBlock(nd, size, r, i), g)
    ensures forall i, r, j, s | 0 <= i < |nd| && 0 <= r < size && 0 <= j < |nd| && 0 <= s < size ::
      In(VarBlock(nd, size, r, i), g) && In(VarBlock(nd, size, s, j), g) ==> i == j && r == s
  {
    var i := FindVariable(nd, g, |nd|);
    StartEnds(nd[i], size);
    var r := FindOwner(nd[i], size, g - Offset(nd, i), size);
    StartSteps(nd[i], size, r);
    assert In(VarBlock(nd, size, r, i), g);
    forall j, s | 0 <= j < |nd| && 0 <= s < size && In(VarBlock(nd, size, s, j), g) ensures j == i && s == r {
      StartSteps(nd[j], size, s);
      StartAscends(nd[j], size, s, s + 1);
      if j < i { OffsetAscends(nd, j + 1, i); }
      if i < j { OffsetAscends(nd, i + 1, j); }
      if s < r { StartAscends(nd[i], size, s + 1, r); }
      if r < s { StartAscends(nd[i], size, r + 1, s); }
    }
  }

  /** Index g is in the entry of name v in the dictionary of a rank. */
  predicate Owns(nd: seq<nat>, vecInputs: seq<string>, size: int, rank: int, v: string, g: int)
    requires size > 0 && |nd| == |vecInputs|
  {
    var m := IndexMap(nd, vecInputs, size, rank, |nd|);
    v in m && g in m[v]
  }

  ghost predicate Distinct(vecInputs: seq<string>)
  {
    forall i, j :: 0 <= i < j < |vecInputs| ==> vecInputs[i] != vecInputs[j]
  }

  /**
   * Main result: with distinct names, every global index is in exactly one entry of the dictionary of exactly one rank,
   * and no other index is in any.
   */
  lemma DictionariesPartition(nd: seq<nat>, vecInputs: seq<string>, size: int, g: int)
    requires size > 0 && |nd| == |vecInputs| && Distinct(vecInputs)
    ensures 0 <= g < Offset(nd, |nd|) <==> exists r, v :: 0 <= r < size && Owns(nd, vecInputs, size, r, v, g)
    ensures forall r, v, t, w ::
      0 <= r < size && Owns(nd, vecInputs, size, r, v, g) && 0 <= t < size && Owns(nd, vecInputs, size, t, w, g) ==>
        r == t && v == w
  {
    if 0 <= g < Offset(nd, |nd|) {
      IndexMapsPartition(nd, size, g);
      var i, r :| 0 <= i < |nd| && 0 <= r < size && In(VarBlock(nd, size, r, i), g);
      IndexMapHolds(nd, vecInputs, size, r, i, g);
      assert Owns(nd, vecInputs, size, r, vecInputs[i], g);
    }
    forall r, v, t, w | 0 <= r < size && 0 <= t < size &&
      Owns(nd, vecInputs, size, r, v, g) && Owns(nd, vecInputs, size, t, w, g)
      ensures r == t && v == w
    {
      var i := OwnBlock(nd, vecInputs, size, r, v, g);
      var j := OwnBlock(nd, vecInputs, size, t, w, g);
      IndexMapsPartition(nd, size, g);
    }
    forall r, v | 0 <= r < size && Owns(nd, vecInputs, size, r, v, g) ensures 0 <= g < Offset(nd, |nd|) {
      var i := OwnBlock(nd, vecInputs, size, r, v, g);
    }
  }

  /** An index in the entry of a name lies in the block of that name's variable, inside the state vector. */
  lemma OwnBlock(nd: seq<nat>, vecInputs: seq<string>, size: int, r: int, v: string, g: int) returns (i: nat)
    requires 0 <= r < size && |nd| == |vecInputs| && Distinct(vecInputs) && Owns(nd, vecInputs, size, r, v, g)
    ensures i < |nd| && vecInputs[i] == v && In(VarBlock(nd, size, r, i), g) && 0 <= g < Offset(nd, |nd|)
  {
    IndexMapKeys(nd, vecInputs, size, r, |nd|, v);
    assert vecInputs[..|nd|] == vecInputs;
    i :| 0 <= i < |nd| && vecInputs[i] == v;
    IndexMapHolds(nd, vecInputs, size, r, i, g);
    StartSteps(nd[i], size, r);
    StartAscends(nd[i], size, r, r + 1);
    OffsetAscends(nd, i + 1, |nd|);
  }

  /** Sum of the lengths of the entries of the first i names. */
  function EntryLengths(m: map<string, seq<int>>, vecInputs: seq<string>, i: nat): nat
    requires i <= |vecInputs| && forall k :: 0 <= k < i ==> vecInputs[k] in m
  {
    if i == 0 then 0 else EntryLengths(m, vecInputs, i - 1) + |m[vecInputs[i - 1]]|
  }

  /** The local size is the number of indices in the dictionary. */
  lemma {:induction false} LocalSizeCounts(nd: seq<nat>, vecInputs: seq<string>, size: int, rank: int, i: nat)
    requires 0 <= rank < size && i <= |nd| == |vecInputs| && Distinct(vecInputs)
    ensures var m := IndexMap(nd, vecInputs, size, rank, |nd|);
            && (forall k :: 0 <= k < i ==> vecInputs[k] in m)
            && LocalSize(nd, size, rank, i) == EntryLengths(m, vecInputs, i)
    decreases i
  {
    if i > 0 {
      LocalSizeCounts(nd, vecInputs, size, rank, i - 1);
      IndexMapHolds(nd, vecInputs, size, rank, i - 1, 0);
    }
  }
}
