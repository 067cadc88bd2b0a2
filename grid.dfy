/** The uniform grid of bins (GridBins.h): a box cut into density parts per
    axis, with one initially empty collection of items per cell. */
module Grid {
  import opened Geometry

  /** Largest value of the C++ `int` in which the bin count is computed. */
  const IntMax: int := 0x7fff_ffff

  /** Number of bins of a grid with `density` cells per axis: one per
      innermost iteration of the constructor's triple loop, so with
      `density > 0` the last iteration, (i, j, k) = (d-1, d-1, d-1), lays
      down bin number (d-1)·d² + (d-1)·d + (d-1), the last one. */
  function BinCount(density: nat): (n: nat)
    ensures n == 0 <==> density == 0
    ensures density > 0 ==>
      n - 1 == (density - 1) * density * density + (density - 1) * density + (density - 1)
  {
    density * density * density
  }

  /** The bin collection right after construction: `n` empty bins. */
  function EmptyBins<T>(n: nat): (bins: seq<seq<T>>)
    ensures |bins| == n
    ensures forall k :: 0 <= k < n ==> bins[k] == []
  {
    seq(n, _ => [])
  }

  /** The cell size of a grid of `density` cells per axis over `bounds`:
      the stored size cut into `density` equal parts. */
  function CellSize(bounds: Bounds, density: int): (cell: Vector3)
    requires density > 0
    ensures cell.Scale(density as real) == bounds.Size()
  {
    var d := density as real;
    Vector3(bounds.Size().x / d, bounds.Size().y / d, bounds.Size().z / d)
  }

  class GridBins<T> {
    /** One collection of items per cell; the constructor fills it. */
    var bins: seq<seq<T>>
    const bounds: Bounds
    const binSize: Vector3
    const binDensity: int

    /** Builds density³ empty bins with a triple nested loop, appending one
        bin per innermost iteration. */
    constructor (bounds: Bounds, density: int)
      requires density > 0
      requires density * density * density <= IntMax
      ensures this.bounds == bounds
      ensures binDensity == density
      ensures binSize == CellSize(bounds, density)
      ensures bins == EmptyBins(BinCount(density))
    {
      this.bounds := bounds;
      binSize := CellSize(bounds, density);
      binDensity := density;
      bins := [];
      new;
      ghost var square := density * density;
      var i := 0;
      while i < density
        invariant 0 <= i <= density
        invariant |bins| == i * square
        invariant forall m :: 0 <= m < |bins| ==> bins[m] == []
      {
        var j := 0;
        while j < density
          invariant 0 <= j <= density
          invariant |bins| == i * square + j * density
          invariant forall m :: 0 <= m < |bins| ==> bins[m] == []
        {
          var k := 0;
          while k < density
            invariant 0 <= k <= density
            invariant |bins| == i * square + j * density + k
            invariant forall m :: 0 <= m < |bins| ==> bins[m] == []
          {
            bins := bins + [[]];
            k := k + 1;
          }
          assert |bins| == i * square + (j + 1) * density;
          j := j + 1;
        }
        assert |bins| == (i + 1) * square;
        i := i + 1;
      }
      assert |bins| == density * square == BinCount(density);
    }
  }

  /** The driver's grid: the 200-wide volume with 16 cells per axis gives
      4096 bins of side 12.5. */
  lemma DriverGrid()
    ensures
      var b := Bounds(Vector3(0.0, 0.0, 0.0), Vector3(200.0, 200.0, 200.0));
      CellSize(b, 16) == Vector3(12.5, 12.5, 12.5) && BinCount(16) == 4096
  {
  }
}
