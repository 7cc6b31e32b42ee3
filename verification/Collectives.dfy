/** Collective operations as functions of the per-rank data, and the distributed means and products built on them. */
module Collectives {
  import opened Arith
  import opened Sums
  import opened Matrices
  import opened Partition

  // ---- row-major buffers ----

  function Flatten(x: Matrix): seq<real>
  {
    if x == [] then [] else Flatten(x[..|x| - 1]) + x[|x| - 1]
  }

  function Reshape(s: seq<real>, r: nat, c: nat): Matrix
    requires |s| == r * c
  {
    seq(r, i requires 0 <= i < r => (RowInside(i, r, c); s[i * c..(i + 1) * c]))
  }

  lemma RowInside(i: int, r: nat, c: nat)
    requires 0 <= i < r
    ensures 0 <= i * c <= (i + 1) * c <= r * c
  {
    MulMono(i, i + 1, c);
    MulMono(i + 1, r, c);
    MulMono(0, i, c);
  }

  lemma {:induction false} FlattenLength(x: Matrix, r: nat, c: nat)
    requires Shape(x, r, c)
    ensures |Flatten(x)| == r * c
    decreases r
  {
    if r > 0 {
      FlattenLength(x[..r - 1], r - 1, c);
      assert r * c == (r - 1) * c + c;
    }
  }

  lemma {:induction false} FlattenConcat(x: Matrix, y: Matrix)
    ensures Flatten(x + y) == Flatten(x) + Flatten(y)
    decreases |y|
  {
    if y == [] {
      assert x + y == x;
    } else {
      var k := |y| - 1;
      assert (x + y)[..|x + y| - 1] == x + y[..k];
      assert (x + y)[|x + y| - 1] == y[k];
      FlattenConcat(x, y[..k]);
      assert Flatten(x + y) == Flatten(x + y[..k]) + y[k];
    }
  }

  /** Whole rows are contiguous in the buffer: rows a..b are elements a*c..b*c. */
  lemma FlattenSlice(x: Matrix, r: nat, c: nat, a: nat, b: nat)
    requires Shape(x, r, c) && a <= b <= r
    ensures |Flatten(x)| == r * c && a * c <= b * c <= r * c
    ensures Flatten(x)[a * c..b * c] == Flatten(x[a..b])
  {
    FlattenLength(x, r, c);
    FlattenLength(x[..a], a, c);
    FlattenLength(x[a..b], b - a, c);
    MulMono(a, b, c);
    MulMono(b, r, c);
    FlattenParts(x, a, b);
    MiddlePart(Flatten(x[..a]), Flatten(x[a..b]), Flatten(x[b..]), a * c, b * c);
  }

  lemma FlattenParts(x: Matrix, a: nat, b: nat)
    requires a <= b <= |x|
    ensures Flatten(x) == Flatten(x[..a]) + Flatten(x[a..b]) + Flatten(x[b..])
  {
    ThreeParts(x, a, b);
    FlattenThree(x[..a], x[a..b], x[b..]);
  }

  lemma ThreeParts(x: Matrix, a: nat, b: nat)
    requires a <= b <= |x|
    ensures x == x[..a] + x[a..b] + x[b..]
  {
  }

  lemma FlattenThree(x: Matrix, y: Matrix, z: Matrix)
    ensures Flatten(x + y + z) == Flatten(x) + Flatten(y) + Flatten(z)
  {
    FlattenConcat(x + y, z);
    FlattenConcat(x, y);
  }

  lemma MiddlePart(s: seq<real>, t: seq<real>, u: seq<real>, lo: nat, hi: nat)
    requires |s| == lo && |t| == hi - lo
    ensures (s + t + u)[lo..hi] == t
  {
  }

  /** Reshaping a flattened matrix gives the matrix back. */
  lemma ReshapeFlatten(x: Matrix, r: nat, c: nat)
    requires Shape(x, r, c)
    ensures |Flatten(x)| == r * c && Reshape(Flatten(x), r, c) == x
  {
    FlattenLength(x, r, c);
    var y := Reshape(Flatten(x), r, c);
    forall i | 0 <= i < r ensures y[i] == x[i] {
      FlattenSlice(x, r, c, i, i + 1);
      assert x[i..i + 1] == [x[i]];
      assert Flatten([x[i]]) == Flatten([]) + x[i];
    }
  }

  // ---- counts and displacements ----

  function PrefixSum(counts: seq<nat>, r: nat): nat
    requires r <= |counts|
  {
    if r == 0 then 0 else PrefixSum(counts, r - 1) + counts[r - 1]
  }

  /** Elements per rank: rows per rank times the row width. */
  function Counts(n: nat, size: nat, width: nat): (counts: seq<nat>)
    requires size > 0
    ensures |counts| == size
  {
    seq(size, r => Count(n, size, r) * width)
  }

  function Displs(counts: seq<nat>): seq<nat>
  {
    seq(|counts|, r requires 0 <= r < |counts| => PrefixSum(counts, r))
  }

  lemma {:induction false} DisplsAreStarts(n: nat, size: nat, width: nat, r: nat)
    requires size > 0 && r <= size
    ensures PrefixSum(Counts(n, size, width), r) == Start(n, size, r) * width
  {
    if r == 0 {
      StartEnds(n, size);
    } else {
      DisplsAreStarts(n, size, width, r - 1);
      StartSteps(n, size, r - 1);
      MulMono(Start(n, size, r - 1), Start(n, size, r), width);
    }
  }

  /** What Scatterv sends and Gatherv receives, one interval per rank. */
  function Intervals(counts: seq<nat>): seq<(int, int)>
  {
    seq(|counts|, r requires 0 <= r < |counts| => (Displs(counts)[r], Displs(counts)[r] + counts[r]))
  }

  lemma RowOfElement(a: int, b: int, c: int, g: int)
    requires c > 0
    ensures a * c <= g < b * c <==> a <= g / c < b
  {
    var q := g / c;
    QuotientOf(g, c);
    MulMono(a, q, c);
    MulMono(q + 1, a, c);
    MulMono(q + 1, b, c);
    MulMono(b, q, c);
    MulMono(q, q + 1, c);
  }

  lemma IntervalsAreBlocks(n: nat, size: nat, width: nat, r: nat)
    requires size > 0 && r < size
    ensures Intervals(Counts(n, size, width))[r] == (Blocks(n, size)[r].0 * width, Blocks(n, size)[r].1 * width)
  {
    DisplsAreStarts(n, size, width, r);
    StartSteps(n, size, r);
    var a, b := Start(n, size, r), Start(n, size, r + 1);
    var counts := Counts(n, size, width);
    MulMono(a, b, width);
    assert Blocks(n, size)[r] == (a, b);
    assert counts[r] == (b - a) * width;
    assert Displs(counts)[r] == a * width;
    assert Intervals(counts)[r] == (Displs(counts)[r], Displs(counts)[r] + counts[r]);
  }

  /** Counts and displacements cover the n x width row-major buffer without gap or overlap. */
  lemma IntervalsTile(n: nat, size: nat, width: nat)
    requires size > 0 && width > 0
    ensures Tiles(n * width, Intervals(Counts(n, size, width)))
  {
    var iv := Intervals(Counts(n, size, width));
    var b := Blocks(n, size);
    BlocksTile(n, size);
    forall r, g | 0 <= r < size ensures In(iv[r], g) <==> In(b[r], g / width) {
      IntervalsAreBlocks(n, size, width, r);
      RowOfElement(b[r].0, b[r].1, width, g);
    }
    forall g ensures 0 <= g < n * width <==> 0 <= g / width < n {
      RowOfElement(0, n, width, g);
    }
    forall g | 0 <= g < n * width ensures Covered(iv, g) {
      assert Covered(b, g / width);
      var r :| 0 <= r < size && In(b[r], g / width);
      assert In(iv[r], g);
    }
  }

  // ---- the row mean through Scatterv and Gatherv ----

  /** Scatterv: rank r receives counts[r] elements from displacement displs[r] of the root buffer. */
  function Scatterv(buffer: seq<real>, counts: seq<nat>, r: nat): seq<real>
    requires r < |counts| && Displs(counts)[r] + counts[r] <= |buffer|
  {
    buffer[Displs(counts)[r]..Displs(counts)[r] + counts[r]]
  }

  /** Rank r's part of the row mean: receive rows, reshape, average along the members. */
  function LocalMeans(x: Matrix, nd: nat, nens: nat, size: nat, r: nat): (v: Matrix)
    requires Shape(x, nd, nens) && nens > 0 && r < size
    ensures var b := Blocks(nd, size)[r];
            && 0 <= b.0 <= b.1 <= nd && Shape(v, b.1 - b.0, 1)
            && forall i :: b.0 <= i < b.1 ==> At(v, i - b.0, 0) == RowMean(x, nens, i)
  {
    var rows := Counts(nd, size, 1)[r];
    LocalRows(x, nd, nens, size, r);
    var localX := Reshape(Scatterv(Flatten(x), Counts(nd, size, nens), r), rows, nens);
    LocalMeansAgree(x, nd, nens, Blocks(nd, size)[r].0, Blocks(nd, size)[r].1);
    Means(localX, rows, nens)
  }

  lemma LocalRows(x: Matrix, nd: nat, nens: nat, size: nat, r: nat)
    requires Shape(x, nd, nens) && r < size
    ensures var b := Blocks(nd, size)[r];
            var counts := Counts(nd, size, nens);
            && 0 <= b.0 <= b.1 <= nd && Counts(nd, size, 1)[r] == b.1 - b.0
            && Displs(counts)[r] + counts[r] <= |Flatten(x)|
            && |Scatterv(Flatten(x), counts, r)| == (b.1 - b.0) * nens
            && Reshape(Scatterv(Flatten(x), counts, r), b.1 - b.0, nens) == x[b.0..b.1]
  {
    var lo, hi := Start(nd, size, r), Start(nd, size, r + 1);
    StartAscends(nd, size, r, r + 1);
    StartSteps(nd, size, r);
    IntervalsAreBlocks(nd, size, nens, r);
    FlattenSlice(x, nd, nens, lo, hi);
    ReshapeFlatten(x[lo..hi], hi - lo, nens);
  }

  lemma LocalMeansAgree(x: Matrix, nd: nat, nens: nat, lo: nat, hi: nat)
    requires Shape(x, nd, nens) && nens > 0 && lo <= hi <= nd
    ensures forall i :: lo <= i < hi ==> RowMean(x[lo..hi], nens, i - lo) == RowMean(x, nens, i)
  {
    forall i | lo <= i < hi ensures RowMean(x[lo..hi], nens, i - lo) == RowMean(x, nens, i) {
      SumEq(RowEntries(x[lo..hi], i - lo), RowEntries(x, i), 0, nens);
    }
  }

  /** Gatherv: the root stores what rank r sent from displacement displs[r] on. */
  method Gatherv(parts: seq<seq<real>>, displs: seq<nat>, into: array<real>)
    requires |parts| == |displs|
    requires forall r :: 0 <= r < |parts| ==> displs[r] + |parts[r]| <= into.Length
    requires forall r, s :: 0 <= r < s < |parts| ==> displs[r] + |parts[r]| <= displs[s]
    modifies into
    ensures forall r, k :: 0 <= r < |parts| && 0 <= k < |parts[r]| ==> into[displs[r] + k] == parts[r][k]
  {
    for r := 0 to |parts|
      invariant forall s, k :: 0 <= s < r && 0 <= k < |parts[s]| ==> into[displs[s] + k] == parts[s][k]
    {
      forall k | 0 <= k < |parts[r]| {
        into[displs[r] + k] := parts[r][k];
      }
    }
  }

  /** compute_mean_matrix_from_root over all ranks: scatter the rows, average locally, gather the averages. */
  method MeanFromRoot(x: Matrix, nd: nat, nens: nat, size: nat) returns (allMeans: array<real>)
    requires Shape(x, nd, nens) && nens > 0 && size > 0
    ensures fresh(allMeans) && allMeans.Length == nd
    ensures forall i :: 0 <= i < nd ==> allMeans[i] == RowMean(x, nens, i)
  {
    var displsRows := Displs(Counts(nd, size, 1));
    var parts := seq(size, r requires 0 <= r < size => Column(LocalMeans(x, nd, nens, size, r)));
    allMeans := new real[nd];
    PartsFit(x, nd, nens, size, parts, displsRows);
    Gatherv(parts, displsRows, allMeans);
    forall i | 0 <= i < nd ensures allMeans[i] == RowMean(x, nens, i) {
      var r, k := GatheredAt(x, nd, nens, size, parts, displsRows, i);
      assert allMeans[displsRows[r] + k] == parts[r][k];
    }
  }

  ghost predicate AreLocalMeans(x: Matrix, nd: nat, nens: nat, size: nat, parts: seq<seq<real>>)
    requires Shape(x, nd, nens) && nens > 0
  {
    |parts| == size && forall r :: 0 <= r < size ==> parts[r] == Column(LocalMeans(x, nd, nens, size, r))
  }

  /** The contributions lie one after the other in the gathered buffer. */
  lemma PartsFit(x: Matrix, nd: nat, nens: nat, size: nat, parts: seq<seq<real>>, displs: seq<nat>)
    requires Shape(x, nd, nens) && nens > 0 && size > 0
    requires AreLocalMeans(x, nd, nens, size, parts) && displs == Displs(Counts(nd, size, 1))
    ensures |displs| == size && forall r :: 0 <= r < size ==> displs[r] + |parts[r]| <= nd
    ensures forall r, s :: 0 <= r < s < size ==> displs[r] + |parts[r]| <= displs[s]
  {
    forall r | 0 <= r < size ensures displs[r] + |parts[r]| <= nd { PartEnds(x, nd, nens, size, parts, displs, r); }
    forall r, s | 0 <= r < s < size ensures displs[r] + |parts[r]| <= displs[s] {
      PartEnds(x, nd, nens, size, parts, displs, r);
      PartEnds(x, nd, nens, size, parts, displs, s);
      StartAscends(nd, size, r + 1, s);
    }
  }

  lemma PartEnds(x: Matrix, nd: nat, nens: nat, size: nat, parts: seq<seq<real>>, displs: seq<nat>, r: nat)
    requires Shape(x, nd, nens) && nens > 0 && r < size
    requires AreLocalMeans(x, nd, nens, size, parts) && displs == Displs(Counts(nd, size, 1))
    ensures |displs| == size && displs[r] == Start(nd, size, r)
    ensures displs[r] + |parts[r]| == Start(nd, size, r + 1) <= nd
  {
    GatherPlace(nd, size, r);
    StartSteps(nd, size, r);
    StartAscends(nd, size, r, r + 1);
  }

  /** Where the mean of row i is among the contributions. */
  lemma GatheredAt(x: Matrix, nd: nat, nens: nat, size: nat, parts: seq<seq<real>>, displs: seq<nat>, i: nat)
    returns (r: nat, k: nat)
    requires Shape(x, nd, nens) && nens > 0 && size > 0 && i < nd
    requires AreLocalMeans(x, nd, nens, size, parts) && displs == Displs(Counts(nd, size, 1))
    ensures |displs| == size && r < size && k < |parts[r]| && displs[r] + k == i && parts[r][k] == RowMean(x, nens, i)
  {
    r := OwnerOf(nd, size, i);
    GatherPlace(nd, size, r);
    k := i - displs[r];
    var v := LocalMeans(x, nd, nens, size, r);
    assert At(v, i - Blocks(nd, size)[r].0, 0) == RowMean(x, nens, i);
  }

  function Column(v: Matrix): seq<real> { seq(|v|, k => At(v, k, 0)) }

  lemma GatherPlace(nd: nat, size: nat, r: nat)
    requires r < size
    ensures Displs(Counts(nd, size, 1))[r] == Blocks(nd, size)[r].0
    ensures 0 <= Blocks(nd, size)[r].0 <= Blocks(nd, size)[r].1 <= nd
  {
    IntervalsAreBlocks(nd, size, 1, r);
    StartAscends(nd, size, r, r + 1);
    StartSteps(nd, size, r);
  }

  lemma OwnerOf(nd: nat, size: nat, i: nat) returns (r: nat)
    requires i < nd && size > 0
    ensures r < size && In(Blocks(nd, size)[r], i)
  {
    BlocksTile(nd, size);
    assert Covered(Blocks(nd, size), i);
    r :| 0 <= r < size && In(Blocks(nd, size)[r], i);
  }

  // ---- Allreduce of column-block products ----

  function ColSlice(h: Matrix, m: nat, lo: nat, hi: nat): Matrix
    requires lo <= hi
  {
    Build(m, hi - lo, (i, j) => At(h, i, lo + j))
  }

  /** A rank's share of h * x: its columns of h times its rows of x. */
  function LocalProduct(h: Matrix, x: Matrix, m: nat, n: nat, c: nat, size: nat, r: nat): Matrix
    requires size > 0 && r < size && |x| == n
  {
    StartAscends(n, size, r, r + 1);
    var lo, hi := Start(n, size, r), Start(n, size, r + 1);
    Mul(ColSlice(h, m, lo, hi), x[lo..hi], m, hi - lo, c)
  }

  function RankEntries(parts: seq<Matrix>, i: int, j: int): int -> real
  {
    r => if 0 <= r < |parts| then At(parts[r], i, j) else 0.0
  }

  /** Allreduce with MPI.SUM: every rank receives the entrywise sum. */
  function AllreduceSum(parts: seq<Matrix>, m: nat, c: nat): Matrix
  {
    Build(m, c, (i, j) => Sum(RankEntries(parts, i, j), 0, |parts|))
  }

  function DistributedProduct(h: Matrix, x: Matrix, m: nat, n: nat, c: nat, size: nat): Matrix
    requires size > 0 && |x| == n
  {
    AllreduceSum(seq(size, r requires 0 <= r < size => LocalProduct(h, x, m, n, c, size, r)), m, c)
  }

  lemma LocalEntry(h: Matrix, x: Matrix, m: nat, n: nat, c: nat, size: nat, r: nat, i: nat, j: nat)
    requires size > 0 && r < size && Shape(x, n, c) && i < m && j < c
    ensures At(LocalProduct(h, x, m, n, c, size, r), i, j)
         == Sum(ProdTerm(h, x, i, j), Start(n, size, r), Start(n, size, r + 1))
  {
    StartAscends(n, size, r, r + 1);
    var lo, hi := Start(n, size, r), Start(n, size, r + 1);
    var f, g := ProdTerm(h, x, i, j), ProdTerm(ColSlice(h, m, lo, hi), x[lo..hi], i, j);
    forall k | 0 <= k < hi - lo ensures g(k) == f(k + lo) { SlicedTerm(h, x, m, lo, hi, i, j, k); }
    SumShift(f, g, 0, hi - lo, lo);
  }

  lemma SlicedTerm(h: Matrix, x: Matrix, m: nat, lo: nat, hi: nat, i: nat, j: int, k: nat)
    requires lo <= hi <= |x| && i < m && k < hi - lo
    ensures ProdTerm(ColSlice(h, m, lo, hi), x[lo..hi], i, j)(k) == ProdTerm(h, x, i, j)(k + lo)
  {
    assert At(ColSlice(h, m, lo, hi), i, k) == At(h, i, lo + k);
    assert At(x[lo..hi], k, j) == At(x, lo + k, j);
  }

  function Starts(n: nat, size: nat): int -> int
    requires size > 0
  {
    r => Start(n, size, r)
  }

  /** For every rank count, idle ranks included, the Allreduce gives the undistributed product. */
  lemma DistributedProductIsProduct(h: Matrix, x: Matrix, m: nat, n: nat, c: nat, size: nat)
    requires size > 0 && Shape(x, n, c)
    ensures DistributedProduct(h, x, m, n, c, size) == Mul(h, x, m, n, c)
  {
    var parts := seq(size, r requires 0 <= r < size => LocalProduct(h, x, m, n, c, size, r));
    var b := Starts(n, size);
    StartEnds(n, size);
    forall r, s | 0 <= r <= s <= size ensures b(r) <= b(s) { StartAscends(n, size, r, s); }
    forall i, j | 0 <= i < m && 0 <= j < c
      ensures At(AllreduceSum(parts, m, c), i, j) == At(Mul(h, x, m, n, c), i, j)
    {
      forall r | 0 <= r < size ensures RankEntries(parts, i, j)(r) == Sum(ProdTerm(h, x, i, j), b(r), b(r + 1)) {
        LocalEntry(h, x, m, n, c, size, r, i, j);
      }
      SumBlocks(ProdTerm(h, x, i, j), RankEntries(parts, i, j), b, size);
    }
    MatrixExt(AllreduceSum(parts, m, c), Mul(h, x, m, n, c), m, c);
  }

  // ---- row blocks times a small matrix ----

  function Concat(blocks: seq<Matrix>): Matrix
  {
    if blocks == [] then [] else Concat(blocks[..|blocks| - 1]) + blocks[|blocks| - 1]
  }

  function RowBlockProduct(x: Matrix, w: Matrix, n: nat, c: nat, size: nat, r: nat): Matrix
    requires size > 0 && r < size && |x| == n
  {
    StartAscends(n, size, r, r + 1);
    var lo, hi := Start(n, size, r), Start(n, size, r + 1);
    Mul(x[lo..hi], w, hi - lo, c, c)
  }

  lemma MulRows(x: Matrix, w: Matrix, n: nat, c: nat, lo: nat, hi: nat)
    requires Shape(x, n, c) && lo <= hi <= n
    ensures Mul(x[lo..hi], w, hi - lo, c, c) == Mul(x, w, n, c, c)[lo..hi]
  {
    var a, b := Mul(x[lo..hi], w, hi - lo, c, c), Mul(x, w, n, c, c)[lo..hi];
    forall i, j | 0 <= i < hi - lo && 0 <= j < c ensures At(a, i, j) == At(b, i, j) {
      SumEq(ProdTerm(x[lo..hi], w, i, j), ProdTerm(x, w, lo + i, j), 0, c);
      assert At(b, i, j) == At(Mul(x, w, n, c, c), lo + i, j);
    }
    MatrixExt(a, b, hi - lo, c);
  }

  ghost predicate IsSlice(block: Matrix, whole: Matrix, n: nat, size: nat, r: nat)
    requires size > 0
  {
    && 0 <= Start(n, size, r) <= Start(n, size, r + 1) <= |whole|
    && block == whole[Start(n, size, r)..Start(n, size, r + 1)]
  }

  /** Blocks that are a matrix's rows rank by rank make up the matrix. */
  lemma {:induction false} ConcatSlices(whole: Matrix, n: nat, size: nat, p: nat, blocks: seq<Matrix>)
    requires size > 0 && p <= size && |whole| == n && |blocks| == p
    requires forall r: nat :: r < p ==> IsSlice(blocks[r], whole, n, size, r)
    ensures 0 <= Start(n, size, p) <= n && Concat(blocks) == whole[..Start(n, size, p)]
    decreases p
  {
    StartEnds(n, size);
    if p > 0 {
      ConcatSlices(whole, n, size, p - 1, blocks[..p - 1]);
      assert IsSlice(blocks[p - 1], whole, n, size, p - 1);
    }
  }

  /** Stacking each rank's row block times w gives the whole matrix times w, for every rank count. */
  lemma RowBlocksAreProduct(x: Matrix, w: Matrix, n: nat, c: nat, size: nat)
    requires size > 0 && Shape(x, n, c)
    ensures Concat(seq(size, r requires 0 <= r < size => RowBlockProduct(x, w, n, c, size, r))) == Mul(x, w, n, c, c)
  {
    StartEnds(n, size);
    var blocks := seq(size, r requires 0 <= r < size => RowBlockProduct(x, w, n, c, size, r));
    forall r: nat | r < size ensures IsSlice(blocks[r], Mul(x, w, n, c, c), n, size, r) {
      StartAscends(n, size, r, r + 1);
      MulRows(x, w, n, c, Start(n, size, r), Start(n, size, r + 1));
    }
    ConcatSlices(Mul(x, w, n, c, c), n, size, size, blocks);
  }
}
