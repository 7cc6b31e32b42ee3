/** The ISSM geometry repair: thickness, surface and bed made consistent before an ensemble is written. */
module Geometry {

  /** The ocean level set, with the density ratio 0.8930 of the flotation test. */
  function LevelSet(thickness: real, bed: real): real { thickness + bed / 0.8930 }

  /** Height of floating ice above the water, from the densities 917 of ice and 1028 of sea water. */
  function Freeboard(thickness: real): real { thickness * ((1028.0 - 917.0) / 1028.0) }

  /** Thickness and surface of one point after the repair. */
  function Repaired(thickness: real, surface: real, bed: real): (real, real)
  {
    var h := if thickness < 1.0 then 1.0 else thickness;
    var ols := LevelSet(h, bed);
    var s := if ols < 0.0 then Freeboard(h) else surface;
    var base := if ols > 0.0 then bed else s - h;
    (h, base + h)
  }

  ghost predicate RowsOf(rows: seq<nat>, n: nat)
  {
    (forall p :: 0 <= p < |rows| ==> rows[p] < n) && forall p, q :: 0 <= p < q < |rows| ==> rows[p] != rows[q]
  }

  ghost predicate Apart(a: seq<nat>, b: seq<nat>) { forall p, q :: 0 <= p < |a| && 0 <= q < |b| ==> a[p] != b[q] }

  /** buf[rows, :] with a list of row numbers is a copy. */
  method Gather(buf: array2<real>, rows: seq<nat>) returns (out: array2<real>)
    requires RowsOf(rows, buf.Length0)
    ensures fresh(out) && out.Length0 == |rows| && out.Length1 == buf.Length1
    ensures forall p, e :: 0 <= p < |rows| && 0 <= e < buf.Length1 ==> out[p, e] == buf[rows[p], e]
  {
    out := new real[|rows|, buf.Length1](
      (p, e) requires 0 <= p < |rows| && 0 <= e < buf.Length1 && rows[p] < buf.Length0 reads buf => buf[rows[p], e]);
  }

  /** buf[rows, :] = values. */
  method Scatter(buf: array2<real>, rows: seq<nat>, values: array2<real>)
    requires RowsOf(rows, buf.Length0) && values != buf && values.Length0 == |rows| && values.Length1 == buf.Length1
    modifies buf
    ensures forall p, e :: 0 <= p < |rows| && 0 <= e < buf.Length1 ==> buf[rows[p], e] == values[p, e]
    ensures forall r, e :: 0 <= r < buf.Length0 && 0 <= e < buf.Length1 && r !in rows ==> buf[r, e] == old(buf[r, e])
  {
    forall p, e | 0 <= p < |rows| && 0 <= e < buf.Length1 {
      buf[rows[p], e] := values[p, e];
    }
  }

  ghost predicate SameShape(a: array2<real>, b: array2<real>) { a.Length0 == b.Length0 && a.Length1 == b.Length1 }

  /** thickness[thickness < 1] = 1, then the ocean level set. */
  method ThickenAndLevel(thickness: array2<real>, bed: array2<real>) returns (ols: array2<real>)
    requires thickness != bed && SameShape(thickness, bed)
    modifies thickness
    ensures fresh(ols) && SameShape(ols, bed)
    ensures forall p, e :: 0 <= p < bed.Length0 && 0 <= e < bed.Length1 ==>
      thickness[p, e] == (if old(thickness[p, e]) < 1.0 then 1.0 else old(thickness[p, e]))
    ensures forall p, e :: 0 <= p < bed.Length0 && 0 <= e < bed.Length1 ==>
      ols[p, e] == LevelSet(thickness[p, e], bed[p, e])
  {
    forall p, e | 0 <= p < bed.Length0 && 0 <= e < bed.Length1 && thickness[p, e] < 1.0 {
      thickness[p, e] := 1.0;
    }
    ols := new real[bed.Length0, bed.Length1]((p, e) => 0.0);
    forall p, e | 0 <= p < bed.Length0 && 0 <= e < bed.Length1 {
      ols[p, e] := LevelSet(thickness[p, e], bed[p, e]);
    }
  }

  /** Floating surface, base below the surface, grounded base on the bed. */
  method FloatAndGround(thickness: array2<real>, surface: array2<real>, bed: array2<real>, ols: array2<real>)
      returns (base: array2<real>)
    requires surface != thickness && surface != bed && surface != ols
    requires SameShape(thickness, bed) && SameShape(surface, bed) && SameShape(ols, bed)
    modifies surface
    ensures fresh(base) && SameShape(base, bed)
    ensures forall p, e :: 0 <= p < bed.Length0 && 0 <= e < bed.Length1 ==>
      base[p, e] == if ols[p, e] > 0.0 then bed[p, e]
                    else if ols[p, e] < 0.0 then Freeboard(thickness[p, e]) - thickness[p, e]
                    else old(surface[p, e]) - thickness[p, e]
  {
    forall p, e | 0 <= p < bed.Length0 && 0 <= e < bed.Length1 && ols[p, e] < 0.0 {
      surface[p, e] := Freeboard(thickness[p, e]);
    }
    base := new real[bed.Length0, bed.Length1]((p, e) => 0.0);
    forall p, e | 0 <= p < bed.Length0 && 0 <= e < bed.Length1 {
      base[p, e] := surface[p, e] - thickness[p, e];
    }
    forall p, e | 0 <= p < bed.Length0 && 0 <= e < bed.Length1 && ols[p, e] > 0.0 {
      base[p, e] := bed[p, e];
    }
  }

  /** The masked steps of the repair, on copies of the thickness and surface rows and on the bed rows. */
  method RepairCopies(thickness: array2<real>, surface: array2<real>, bed: array2<real>)
    requires thickness != surface && thickness != bed && surface != bed
    requires SameShape(thickness, bed) && SameShape(surface, bed)
    modifies thickness, surface
    ensures forall p, e :: 0 <= p < bed.Length0 && 0 <= e < bed.Length1 ==>
      (thickness[p, e], surface[p, e]) == Repaired(old(thickness[p, e]), old(surface[p, e]), bed[p, e])
  {
    var ols := ThickenAndLevel(thickness, bed);
    var base := FloatAndGround(thickness, surface, bed, ols);
    forall p, e | 0 <= p < bed.Length0 && 0 <= e < bed.Length1 {
      surface[p, e] := base[p, e] + thickness[p, e];
    }
  }

  /** The repair of the gathered ensemble in place; only thickness and surface rows change. */
  method RepairGeometry(recvbuf: array2<real>, thicknessIdx: seq<nat>, surfaceIdx: seq<nat>, bedIdx: seq<nat>)
    requires |thicknessIdx| == |surfaceIdx| == |bedIdx|
    requires RowsOf(thicknessIdx, recvbuf.Length0) && RowsOf(surfaceIdx, recvbuf.Length0)
    requires RowsOf(bedIdx, recvbuf.Length0)
    requires Apart(thicknessIdx, surfaceIdx)
    modifies recvbuf
    ensures forall p, e :: 0 <= p < |bedIdx| && 0 <= e < recvbuf.Length1 ==>
      (recvbuf[thicknessIdx[p], e], recvbuf[surfaceIdx[p], e])
        == Repaired(old(recvbuf[thicknessIdx[p], e]), old(recvbuf[surfaceIdx[p], e]), old(recvbuf[bedIdx[p], e]))
    ensures forall r, e ::
      0 <= r < recvbuf.Length0 && 0 <= e < recvbuf.Length1 && r !in thicknessIdx && r !in surfaceIdx ==>
      recvbuf[r, e] == old(recvbuf[r, e])
  {
    var thickness := Gather(recvbuf, thicknessIdx);
    var surface := Gather(recvbuf, surfaceIdx);
    var bed := Gather(recvbuf, bedIdx);
    RepairCopies(thickness, surface, bed);
    Scatter(recvbuf, surfaceIdx, surface);
    Scatter(recvbuf, thicknessIdx, thickness);
  }

  /** The repaired thickness is at least one, and repairing again changes nothing. */
  lemma RepairIsIdempotent(thickness: real, surface: real, bed: real)
    ensures var (h, s) := Repaired(thickness, surface, bed);
            h >= 1.0 && Repaired(h, s, bed) == (h, s)
  {
  }

  /** Grounded ice rests on the bed and floating ice stays strictly above it, because 917 / 1028 < 0.8930. */
  lemma BaseRespectsBed(thickness: real, surface: real, bed: real)
    ensures var (h, s) := Repaired(thickness, surface, bed);
            var ols := LevelSet(h, bed);
            && (ols > 0.0 ==> s - h == bed)
            && (ols < 0.0 ==> s - h > bed)
            && (s - h >= bed <==> ols != 0.0 || surface - h >= bed)
  {
    var (h, s) := Repaired(thickness, surface, bed);
    if LevelSet(h, bed) < 0.0 {
      assert bed < -(0.8930 * h);
      assert s - h == -(h * (917.0 / 1028.0));
    }
  }

  /**
   * Thin ice is thickened to one and other ice keeps its thickness; ice too heavy to float, by the ratio 0.8930, stands
   * on the bed; floating ice displaces its own weight of sea water; on the flotation line the surface stays.
   */
  lemma RepairedPoint(thickness: real, surface: real, bed: real)
    ensures var (h, s) := Repaired(thickness, surface, bed);
            && (thickness < 1.0 ==> h == 1.0) && (thickness >= 1.0 ==> h == thickness)
            && (0.8930 * h + bed > 0.0 ==> s == bed + h)
            && (0.8930 * h + bed < 0.0 ==> 1028.0 * (h - s) == 917.0 * h)
            && (0.8930 * h + bed == 0.0 ==> s == surface)
  {
    var h := if thickness < 1.0 then 1.0 else thickness;
    assert LevelSet(h, bed) * 0.8930 == 0.8930 * h + bed;
    assert Freeboard(h) * 1028.0 == h * 111.0;
  }

  /** On the flotation line itself nothing is enforced: the base can end below the bed. */
  lemma FlotationLineIsUnchecked()
    ensures var (h, s) := Repaired(1.0, -1.0, -0.8930); LevelSet(h, -0.8930) == 0.0 && s - h < -0.8930
  {
  }
}
