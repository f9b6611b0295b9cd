/** prepare_surface_data of the 3D surface plot over the grid search results: the fitness values
    read from the results file, flattened row by row, laid out on an 82 x 82 grid whose axes are
    the phase durations 10..91. */
module SurfaceData {
  /** The number of phase durations on each axis, 10 to 91. */
  const Side: nat := 82
  const FirstPhase: int := 10

  /** numpy's flatten of the rows read from the file: their values, row after row. */
  function Flatten(rows: seq<seq<real>>): (flat: seq<real>)
  {
    if rows == [] then [] else Flatten(rows[..|rows| - 1]) + rows[|rows| - 1]
  }

  /** When every row has w values, the flattened data has |rows| * w values and value j of row i
      sits at i * w + j. */
  lemma {:induction false} FlattenIndex(rows: seq<seq<real>>, w: nat, i: nat, j: nat)
    requires forall r | 0 <= r < |rows| :: |rows[r]| == w
    requires i < |rows| && j < w
    ensures |Flatten(rows)| == |rows| * w
    ensures i * w + j < |Flatten(rows)| && Flatten(rows)[i * w + j] == rows[i][j]
  {
    var n := |rows| - 1;
    FlattenLength(rows[..n], w);
    assert |Flatten(rows)| == n * w + w;
    if i < n {
      FlattenIndex(rows[..n], w, i, j);
      RowBefore(i, n, w);
    }
  }

  /** A row that comes before row n ends no later than where row n starts. */
  lemma {:induction false} RowBefore(i: nat, n: nat, w: nat)
    requires i < n
    ensures i * w + w <= n * w
    decreases n - i
  {
    assert n * w == (n - 1) * w + w;
    if i + 1 < n {
      RowBefore(i, n - 1, w);
    }
  }

  /** When every row has w values, the flattened data has |rows| * w values. */
  lemma {:induction false} FlattenLength(rows: seq<seq<real>>, w: nat)
    requires forall r | 0 <= r < |rows| :: |rows[r]| == w
    ensures |Flatten(rows)| == |rows| * w
  {
    if rows != [] {
      FlattenLength(rows[..|rows| - 1], w);
      assert |rows| * w == (|rows| - 1) * w + w;
    }
  }

  /** The value prepare_surface_data puts in cell (i, j): flat value i * 82 + j where there is
      one, otherwise the 0 the grid starts with. */
  function SurfaceCell(flat: seq<real>, i: nat, j: nat): real
  {
    var index := i * Side + j;
    if index < |flat| then flat[index] else 0.0
  }

  /** prepare_surface_data: both axes are the durations 10..91, and the 82 x 82 grid, zero at
      first, receives flat value i * 82 + j in cell (i, j) wherever the data has that many
      values; no value is read out of range. */
  method PrepareSurfaceData(data: seq<seq<real>>) returns (phase1: seq<int>, phase3: seq<int>, z: array2<real>)
    ensures |phase1| == Side && |phase3| == Side
    ensures forall k | 0 <= k < Side :: phase1[k] == FirstPhase + k && phase3[k] == FirstPhase + k
    ensures fresh(z) && z.Length0 == Side && z.Length1 == Side
    ensures forall i, j | 0 <= i < Side && 0 <= j < Side :: z[i, j] == SurfaceCell(Flatten(data), i, j)
  {
    phase1 := seq(Side, k => FirstPhase + k);
    phase3 := seq(Side, k => FirstPhase + k);
    z := new real[Side, Side]((i, j) => 0.0);
    var flat := Flatten(data);
    var i := 0;
    while i < |phase1|
      invariant 0 <= i <= Side
      invariant forall r, c | 0 <= r < i && 0 <= c < Side :: z[r, c] == SurfaceCell(flat, r, c)
      invariant forall r, c | i <= r < Side && 0 <= c < Side :: z[r, c] == 0.0
    {
      FillRow(z, flat, i);
      i := i + 1;
    }
  }

  /** The inner loop of prepare_surface_data for row i. */
  method FillRow(z: array2<real>, flat: seq<real>, i: nat)
    requires z.Length0 == Side && z.Length1 == Side && i < Side
    requires forall c | 0 <= c < Side :: z[i, c] == 0.0
    modifies z
    ensures forall c | 0 <= c < Side :: z[i, c] == SurfaceCell(flat, i, c)
    ensures forall r, c | 0 <= r < Side && 0 <= c < Side && r != i :: z[r, c] == old(z[r, c])
  {
    var j := 0;
    while j < Side
      invariant 0 <= j <= Side
      invariant forall c | 0 <= c < j :: z[i, c] == SurfaceCell(flat, i, c)
      invariant forall c | j <= c < Side :: z[i, c] == 0.0
      invariant forall r, c | 0 <= r < Side && 0 <= c < Side && r != i :: z[r, c] == old(z[r, c])
    {
      var index := i * Side + j;
      if index < |flat| {
        z[i, j] := flat[index];
      }
      j := j + 1;
    }
  }

  /** On results of 82 durations per row the grid is the data itself: cell (i, j) holds value j
      of row i for every row the data has, and the rows beyond it stay 0. */
  lemma SurfaceOfFullRows(data: seq<seq<real>>, i: nat, j: nat)
    requires forall r | 0 <= r < |data| :: |data[r]| == Side
    requires i < Side && j < Side
    ensures i < |data| ==> SurfaceCell(Flatten(data), i, j) == data[i][j]
    ensures |data| <= i ==> SurfaceCell(Flatten(data), i, j) == 0.0
  {
    FlattenLength(data, Side);
    if i < |data| {
      FlattenIndex(data, Side, i, j);
    }
  }
}
