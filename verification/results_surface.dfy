/** prepare_surface_data of the second 3D surface plot: the results are read as a two-dimensional
    array and its top-left 81 x 81 block is copied onto a grid whose axes are the phase durations
    10..90. */
module ResultsSurface {
  import SurfaceData

  /** The number of phase durations on each axis, 10 to 90. */
  const Side: nat := 81
  const FirstPhase: int := 10

  /** prepare_surface_data: both axes are the durations 10..90 and cell (i, j) of the 81 x 81 grid
      is data[i][j]; the data needs 81 rows of at least 81 values, and whatever lies outside that
      block is not read. */
  method PrepareSurfaceData(data: seq<seq<real>>) returns (phase1: seq<int>, phase3: seq<int>, z: array2<real>)
    requires |data| >= Side && forall r | 0 <= r < Side :: |data[r]| >= Side
    ensures |phase1| == Side && |phase3| == Side
    ensures forall k | 0 <= k < Side :: phase1[k] == FirstPhase + k && phase3[k] == FirstPhase + k
    ensures fresh(z) && z.Length0 == Side && z.Length1 == Side
    ensures forall i, j | 0 <= i < Side && 0 <= j < Side :: z[i, j] == data[i][j]
  {
    phase1 := seq(Side, k => FirstPhase + k);
    phase3 := seq(Side, k => FirstPhase + k);
    z := new real[Side, Side]((i, j) => 0.0);
    var i := 0;
    while i < |phase1|
      invariant 0 <= i <= Side
      invariant forall r, c | 0 <= r < i && 0 <= c < Side :: z[r, c] == data[r][c]
    {
      CopyRow(z, data, i);
      i := i + 1;
    }
  }

  /** The inner loop of prepare_surface_data for row i. */
  method CopyRow(z: array2<real>, data: seq<seq<real>>, i: nat)
    requires z.Length0 == Side && z.Length1 == Side && i < Side
    requires |data| > i && |data[i]| >= Side
    modifies z
    ensures forall c | 0 <= c < Side :: z[i, c] == data[i][c]
    ensures forall r, c | 0 <= r < Side && 0 <= c < Side && r != i :: z[r, c] == old(z[r, c])
  {
    var j := 0;
    while j < Side
      invariant 0 <= j <= Side
      invariant forall c | 0 <= c < j :: z[i, c] == data[i][c]
      invariant forall r, c | 0 <= r < Side && 0 <= c < Side && r != i :: z[r, c] == old(z[r, c])
    {
      z[i, j] := data[i][j];
      j := j + 1;
    }
  }

  /** On results of 82 durations per row and at least 81 rows, this grid is the top-left corner
      of the 82 x 82 grid the flattening variant builds. */
  lemma CornerOfFlattenedGrid(data: seq<seq<real>>, i: nat, j: nat)
    requires |data| >= Side && forall r | 0 <= r < |data| :: |data[r]| == SurfaceData.Side
    requires i < Side && j < Side
    ensures data[i][j] == SurfaceData.SurfaceCell(SurfaceData.Flatten(data), i, j)
  {
    SurfaceData.SurfaceOfFullRows(data, i, j);
  }
}
