/** The one-hot observation operator: the plain form and the blocked writer that streams it to a file. */
module ObservationOperator {
  import opened Arith
  import opened Outcomes
  import opened Sums
  import opened Matrices

  function UnitRow(o: int, nd: nat): seq<real> { seq(nd, j => if j == o then 1.0 else 0.0) }

  /** Row i observes state entry obs[i]. */
  function OneHot(obs: seq<int>, nd: nat): (h: Matrix)
    ensures Shape(h, |obs|, nd)
  {
    seq(|obs|, i requires 0 <= i < |obs| => UnitRow(obs[i], nd))
  }

  /** The rows of [r0, r1) whose one lands in column chunk cid, in order. */
  function RowsOfChunk(ids: seq<int>, r0: nat, r1: nat, cid: int): (rows: seq<nat>)
    requires r0 <= r1 <= |ids|
    ensures forall r :: r in rows <==> r0 <= r < r1 && ids[r] == cid
    ensures forall k, l :: 0 <= k < l < |rows| ==> rows[k] < rows[l]
    decreases r1
  {
    if r0 == r1 then []
    else
      var rows := RowsOfChunk(ids, r0, r1 - 1, cid);
      assert forall k :: 0 <= k < |rows| ==> rows[k] in rows;
      if ids[r1 - 1] == cid then rows + [r1 - 1] else rows
  }

  lemma PatchedUnit(nd: nat, c0: nat, c1: nat, o: int)
    requires c0 <= o < c1 <= nd
    ensures Patched(Zeros(nd), c0, UnitRow(o - c0, c1 - c0)) == UnitRow(o, nd)
  {
  }

  /** Write the dense block for columns c0..c1 into the given rows, one row at a time. */
  method WriteRows(dset: array<seq<real>>, obs: seq<int>, nd: nat, rows: seq<nat>, c0: nat, c1: nat)
    requires |obs| == dset.Length && c0 <= c1 <= nd
    requires forall k, l :: 0 <= k < l < |rows| ==> rows[k] < rows[l]
    requires forall r :: r in rows ==> r < |obs| && c0 <= obs[r] < c1 && dset[r] == Zeros(nd)
    modifies dset
    ensures forall r :: 0 <= r < dset.Length ==> dset[r] == if r in rows then UnitRow(obs[r], nd) else old(dset[r])
  {
    assert forall k :: 0 <= k < |rows| ==> rows[k] in rows;
    var buf := seq(|rows|, k requires 0 <= k < |rows| => UnitRow(obs[rows[k]] - c0, c1 - c0));
    for k := 0 to |rows|
      invariant forall r :: 0 <= r < dset.Length ==>
        dset[r] == if r in rows[..k] then UnitRow(obs[r], nd) else old(dset[r])
    {
      var rr := rows[k];
      assert rr in rows && rr !in rows[..k];
      assert rows[..k + 1] == rows[..k] + [rr];
      var row := Patched(dset[rr], c0, buf[k]);
      assert row == UnitRow(obs[rr], nd) by { PatchedUnit(nd, c0, c1, obs[rr]); }
      dset[rr] := row;
    }
    assert rows[..|rows|] == rows;
  }

  /** Column chunk cid holds state index o. */
  predicate Holds(cid: int, colChunk: nat, o: int) { 0 <= cid * colChunk <= o < cid * colChunk + colChunk }

  lemma QuotientHolds(o: int, colChunk: nat)
    requires colChunk > 0 && o >= 0
    ensures Holds(o / colChunk, colChunk, o)
  {
    FloorBounds(o, colChunk);
  }

  function ChunkOf(o: int, colChunk: nat): (cid: int)
    requires colChunk > 0 && o >= 0
    ensures Holds(cid, colChunk, o)
  {
    QuotientHolds(o, colChunk);
    o / colChunk
  }

  /** The column chunk each row's one lands in. */
  function ChunkIds(obs: seq<int>, colChunk: nat): (ids: seq<int>)
    requires colChunk > 0 && forall r :: 0 <= r < |obs| ==> 0 <= obs[r]
    ensures |ids| == |obs| && forall r :: 0 <= r < |obs| ==> Holds(ids[r], colChunk, obs[r])
  {
    seq(|obs|, r requires 0 <= r < |obs| => ChunkOf(obs[r], colChunk))
  }

  /** Write the rows of [r0, r1) whose one lies in column chunk cid. */
  method WriteChunk(dset: array<seq<real>>, obs: seq<int>, nd: nat, r0: nat, r1: nat, ids: seq<int>, colChunk: nat,
                    cid: int)
    requires r0 <= r1 <= |obs| == dset.Length == |ids|
    requires exists r :: r0 <= r < r1 && ids[r] == cid
    requires forall r :: r0 <= r < r1 && ids[r] == cid ==>
      Holds(cid, colChunk, obs[r]) && obs[r] < nd && dset[r] == Zeros(nd)
    modifies dset
    ensures forall r :: 0 <= r < dset.Length ==>
      dset[r] == if r0 <= r < r1 && ids[r] == cid then UnitRow(obs[r], nd) else old(dset[r])
  {
    var rows := RowsOfChunk(ids, r0, r1, cid);
    var c0 := cid * colChunk;
    WriteRows(dset, obs, nd, rows, c0, Min(nd, c0 + colChunk));
  }

  /** Write one block of rows: one dense block per column chunk that occurs in it. */
  method WriteBlock(dset: array<seq<real>>, obs: seq<int>, nd: nat, r0: nat, r1: nat, ids: seq<int>, colChunk: nat)
    requires r0 <= r1 <= |obs| == dset.Length == |ids|
    requires forall r :: r0 <= r < r1 ==> Holds(ids[r], colChunk, obs[r]) && obs[r] < nd && dset[r] == Zeros(nd)
    modifies dset
    ensures forall r :: 0 <= r < dset.Length ==> dset[r] == if r0 <= r < r1 then UnitRow(obs[r], nd) else old(dset[r])
  {
    var unique := set r | r0 <= r < r1 :: ids[r];
    while unique != {}
      invariant forall cid :: cid in unique ==> exists r :: r0 <= r < r1 && ids[r] == cid
      invariant forall r :: 0 <= r < dset.Length ==>
        dset[r] == if r0 <= r < r1 && ids[r] !in unique then UnitRow(obs[r], nd) else old(dset[r])
      decreases unique
    {
      var cid :| cid in unique;
      WriteChunk(dset, obs, nd, r0, r1, ids, colChunk, cid);
      unique := unique - {cid};
    }
  }

  /** H_matrix of the parallel writer: the rows are streamed in blocks. */
  method WriteH(obs: seq<int>, nd: nat, colChunkArg: int, blockRowsArg: int) returns (r: Result<array<seq<real>>>)
    requires forall i :: 0 <= i < |obs| ==> 0 <= obs[i]
    ensures r.Err? <==> obs == [] || exists i :: 0 <= i < |obs| && obs[i] >= nd
    ensures r.Ok? ==> fresh(r.value) && r.value[..] == OneHot(obs, nd)
  {
    if obs == [] { return Err("No observation indices found"); }
    for i := 0 to |obs|
      invariant forall k :: 0 <= k < i ==> obs[k] < nd
    {
      if obs[i] >= nd { return Err("obs index >= state size"); }
    }
    var m := |obs|;
    var colChunk := Max(1, Min(colChunkArg, nd));
    var blockRows := Max(1, Min(blockRowsArg, m));
    var ids := ChunkIds(obs, colChunk);
    var dset := new seq<real>[m](_ => Zeros(nd));
    var r0 := 0;
    while r0 < m
      invariant 0 <= r0 <= m
      invariant forall r :: 0 <= r < m ==> dset[r] == if r < r0 then UnitRow(obs[r], nd) else Zeros(nd)
      decreases m - r0
    {
      var r1 := Min(m, r0 + blockRows);
      WriteBlock(dset, obs, nd, r0, r1, ids, colChunk);
      r0 := r1;
    }
    return Ok(dset);
  }

  /** H_matrix of the plain form: zeros, then one assignment per row; no observations give no rows. */
  method PlainH(obs: seq<int>, nModel: nat) returns (r: Result<array2<real>>)
    requires forall i :: 0 <= i < |obs| ==> 0 <= obs[i]
    ensures r.Err? <==> exists i :: 0 <= i < |obs| && obs[i] >= nModel
    ensures r.Ok? ==> fresh(r.value) && r.value.Length0 == |obs| && r.value.Length1 == nModel
    ensures r.Ok? ==> forall i, j :: 0 <= i < |obs| && 0 <= j < nModel ==> r.value[i, j] == OneHot(obs, nModel)[i][j]
  {
    for i := 0 to |obs|
      invariant forall k :: 0 <= k < i ==> obs[k] < nModel
    {
      if obs[i] >= nModel { return Err("obs index >= state size"); }
    }
    var h := new real[|obs|, nModel]((_, _) => 0.0);
    forall i | 0 <= i < |obs| {
      h[i, obs[i]] := 1.0;
    }
    return Ok(h);
  }

  /** Applying the operator reads the state at the observation indices, for any number of columns. */
  lemma ObservationReads(obs: seq<int>, x: Matrix, nd: nat, c: nat)
    requires Shape(x, nd, c)
    requires forall i :: 0 <= i < |obs| ==> 0 <= obs[i] < nd
    ensures Mul(OneHot(obs, nd), x, |obs|, nd, c) == seq(|obs|, i requires 0 <= i < |obs| => x[obs[i]])
  {
    var h := OneHot(obs, nd);
    var y := seq(|obs|, i requires 0 <= i < |obs| => x[obs[i]]);
    forall i, j | 0 <= i < |obs| && 0 <= j < c ensures Entry(h, x, nd, i, j) == At(y, i, j) {
      assert h[i] == UnitRow(obs[i], nd);
      SumSingle(ProdTerm(h, x, i, j), obs[i], 0, nd);
    }
    MatrixExt(Mul(h, x, |obs|, nd, c), y, |obs|, c);
  }
}
