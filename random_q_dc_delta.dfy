/** A callback that adds a random delta in [-64, 64] to the DC delta of one
    randomly chosen macroblock of one randomly chosen plane. The results of
    `Math.random()` are injected: each is a real number in [0, 1). */
module RandomQDcDelta {
  import opened Wrappers
  import opened Host

  /** Selects the quantized DC delta feature. */
  method Setup(args: Args)
    modifies args
    ensures args.features == ["q_dc_delta"]
  {
    args.features := ["q_dc_delta"];
  }

  /** `floor(u * n)` lies in [0, n) for a positive span n, and in [n, 0]
      otherwise. */
  lemma ScaledFloorBounds(u: real, n: int)
    requires 0.0 <= u < 1.0
    ensures n >= 1 ==> 0 <= (u * n as real).Floor < n
    ensures n <= 0 ==> n <= (u * n as real).Floor <= 0
  {
    var x := u * n as real;
    if n >= 1 {
      ScaledBelow(u, n as real, x);
      FloorWithin(x, 0, n);
    } else {
      ScaledAbove(u, n as real, x);
      FloorWithin(x, n, 1);
    }
  }

  /** A real in [lo, hi) has its floor in [lo, hi). */
  lemma FloorWithin(x: real, lo: int, hi: int)
    requires lo as real <= x < hi as real
    ensures lo <= x.Floor < hi
  {
    assert x.Floor as real <= x < x.Floor as real + 1.0;
  }

  /** Scaling a positive m by a draw in [0, 1) lands in [0, m). */
  lemma ScaledBelow(u: real, m: real, x: real)
    requires 0.0 <= u < 1.0 && 0.0 < m && x == u * m
    ensures 0.0 <= x < m
  {
    MulNonNeg(u, m);
    MulPos(1.0 - u, m);
    assert (1.0 - u) * m == m - x;
  }

  /** Scaling a non-positive m by a draw in [0, 1) lands in [m, 0]. */
  lemma ScaledAbove(u: real, m: real, x: real)
    requires 0.0 <= u < 1.0 && m <= 0.0 && x == u * m
    ensures m <= x <= 0.0
  {
    var p := -m;
    MulNonNeg(u, p);
    MulNonNeg(1.0 - u, p);
    assert u * p == -x;
    assert (1.0 - u) * p == x - m;
  }

  /** The product of two non-negative reals is non-negative. */
  lemma MulNonNeg(a: real, b: real)
    requires 0.0 <= a && 0.0 <= b
    ensures 0.0 <= a * b
  {
  }

  /** The product of two positive reals is positive. */
  lemma MulPos(a: real, b: real)
    requires 0.0 < a && 0.0 < b
    ensures 0.0 < a * b
  {
  }

  /** `randomInt(min, max)` given the draw `u` of `Math.random()`:
      `floor(u * (max - min + 1)) + min`. For `min <= max` it lies in
      [min, max]; for an empty range it lies in (max, min], so
      `randomInt(0, -1)` is 0. */
  function RandomInt(min: int, max: int, u: real): (r: int)
    requires 0.0 <= u < 1.0
    ensures min <= max ==> min <= r <= max
    ensures max < min ==> max < r <= min
  {
    ScaledFloorBounds(u, max - min + 1);
    (u * (max - min + 1) as real).Floor + min
  }

  /** Each value k of [min, max] is returned exactly when the draw lies in
      [(k - min) / n, (k - min + 1) / n), an interval of width 1/n, where n
      is the number of values in the range: the choice is uniform. */
  lemma RandomIntPreimage(min: int, max: int, u: real, k: int)
    requires 0.0 <= u < 1.0
    requires min <= max
    ensures var n := (max - min + 1) as real;
      RandomInt(min, max, u) == k <==> (k - min) as real / n <= u < (k - min + 1) as real / n
  {
  }

  /** The DC-delta grid as a value: plane, row, column. */
  type Grid = seq<seq<seq<int>>>

  /** Every row of a plane is as long as its row 0. */
  predicate Rectangular(g: Grid)
  {
    forall p, x :: 0 <= p < |g| && 0 <= x < |g[p]| ==> |g[p][x]| == |g[p][0]|
  }

  /** The grid with `d` added to the single cell `g[p][x][y]`. */
  function AddAt(g: Grid, p: int, x: int, y: int, d: int): (r: Grid)
    requires 0 <= p < |g| && 0 <= x < |g[p]| && 0 <= y < |g[p][x]|
    ensures |r| == |g|
    ensures forall q :: 0 <= q < |g| ==> |r[q]| == |g[q]|
    ensures forall q, a :: 0 <= q < |g| && 0 <= a < |g[q]| ==> |r[q][a]| == |g[q][a]|
    ensures forall q, a, b :: 0 <= q < |g| && 0 <= a < |g[q]| && 0 <= b < |g[q][a]| ==>
      r[q][a][b] == if q == p && a == x && b == y then g[q][a][b] + d else g[q][a][b]
  {
    g[p := g[p][x := g[p][x][y := g[p][x][y] + d]]]
  }

  /** How one invocation ended, with what the log line reports. */
  datatype Status =
    | Skipped                              // no `q_dc_delta` data on this frame
    | Threw                                // a TypeError: `data[plane]` or its row 0 is undefined
    | NoValidMacroblocks(plane: int)       // the chosen plane has fewer than 2 rows or columns
    | Glitched(plane: int, mbX: int, mbY: int, delta: int)

  /** The injected results of the four `Math.random()` calls, in call order:
      plane, `mb_x`, `mb_y`, delta. */
  predicate Draws(rand: seq<real>)
  {
    |rand| >= 4 && forall k :: 0 <= k < |rand| ==> 0.0 <= rand[k] < 1.0
  }

  /** The plane `randomInt(0, planes - 1)` picks. */
  function ChosenPlane(g: Grid, rand: seq<real>): (p: int)
    requires Draws(rand)
    ensures |g| > 0 ==> 0 <= p < |g|
    ensures |g| == 0 ==> p == 0
  {
    RandomInt(0, |g| - 1, rand[0])
  }

  /** What one invocation does to present data, as a value. */
  function Glitch(g: Grid, rand: seq<real>): (r: (Status, Grid))
    requires Draws(rand) && Rectangular(g)
    ensures r.0.Threw? <==> |g| == 0 || |g[ChosenPlane(g, rand)]| == 0
    ensures r.0.Glitched? <==>
      |g| > 0 && |g[ChosenPlane(g, rand)]| >= 2 && |g[ChosenPlane(g, rand)][0]| >= 2
    ensures r.0.NoValidMacroblocks? ==> r.0.plane == ChosenPlane(g, rand)
    ensures !r.0.Skipped?
    ensures r.0.Glitched? ==>
      var Glitched(p, x, y, d) := r.0;
      && p == ChosenPlane(g, rand)
      && 0 <= x < |g[p]| && 0 <= y < |g[p][0]| && -64 <= d <= 64
      && r.1 == AddAt(g, p, x, y, d)
    ensures !r.0.Glitched? ==> r.1 == g
  {
    var plane := ChosenPlane(g, rand);
    if |g| == 0 || |g[plane]| == 0 then
      (Threw, g)
    else
      var mbXMax := |g[plane]| - 1;
      var mbYMax := |g[plane][0]| - 1;
      if mbXMax > 0 && mbYMax > 0 then
        var mbX := RandomInt(0, mbXMax, rand[1]);
        var mbY := RandomInt(0, mbYMax, rand[2]);
        var delta := RandomInt(-64, 64, rand[3]);
        (Glitched(plane, mbX, mbY, delta), AddAt(g, plane, mbX, mbY, delta))
      else
        (NoValidMacroblocks(plane), g)
  }

  /** When every plane has at least two rows and two columns, every
      invocation glitches exactly one cell, whatever the draws. */
  lemma GlitchOnLargeGrid(g: Grid, rand: seq<real>)
    requires Draws(rand) && Rectangular(g) && |g| > 0
    requires forall p :: 0 <= p < |g| ==> |g[p]| >= 2 && |g[p][0]| >= 2
    ensures Glitch(g, rand).0.Glitched?
  {
  }

  /** `frame.q_dc_delta.data`, if both are present. */
  function DcData(frame: Frame): Option<DcDeltaGrid>
  {
    if frame.qDcDelta.Some? then frame.qDcDelta.value.data else None
  }

  /** The plane arrays of a grid. */
  ghost function Planes(d: DcDeltaGrid): set<array<array<int>>>
    reads d
  {
    set p | 0 <= p < d.Length :: d[p]
  }

  /** The row arrays of a grid: what an invocation may write. */
  ghost function Rows(d: DcDeltaGrid): set<array<int>>
    reads d, Planes(d)
  {
    set p, x | 0 <= p < d.Length && 0 <= x < d[p].Length :: d[p][x]
  }

  /** No two macroblock rows of the grid share storage. */
  ghost predicate Disjoint(d: DcDeltaGrid)
    reads d, Planes(d)
  {
    forall p, x, q, z ::
      0 <= p < d.Length && 0 <= x < d[p].Length && 0 <= q < d.Length && 0 <= z < d[q].Length && (p != q || x != z)
      ==> d[p][x] != d[q][z]
  }

  /** The contents of one plane. */
  ghost function PlaneCells(pl: array<array<int>>): (s: seq<seq<int>>)
    reads pl, set x | 0 <= x < pl.Length :: pl[x]
    ensures |s| == pl.Length && forall x :: 0 <= x < pl.Length ==> s[x] == pl[x][..]
  {
    seq(pl.Length, x requires 0 <= x < pl.Length reads pl, set z | 0 <= z < pl.Length :: pl[z] => pl[x][..])
  }

  /** The contents of a grid. */
  ghost function Cells(d: DcDeltaGrid): (s: Grid)
    reads d, Planes(d), Rows(d)
    ensures |s| == d.Length && forall p :: 0 <= p < d.Length ==> s[p] == PlaneCells(d[p])
  {
    seq(d.Length, p requires 0 <= p < d.Length reads d, Planes(d), Rows(d) => PlaneCells(d[p]))
  }

  /** `data[p][x][y] += d`: exactly that cell changes. */
  method AddToCell(data: DcDeltaGrid, p: int, x: int, y: int, d: int)
    requires 0 <= p < data.Length && 0 <= x < data[p].Length && 0 <= y < data[p][x].Length
    requires Disjoint(data)
    modifies data[p][x]
    ensures Cells(data) == AddAt(old(Cells(data)), p, x, y, d)
  {
    ghost var before := Cells(data);
    var row := data[p][x];
    row[y] := row[y] + d;
    ghost var after := AddAt(before, p, x, y, d);
    forall q | 0 <= q < data.Length
      ensures PlaneCells(data[q]) == after[q]
    {
      forall z | 0 <= z < data[q].Length
        ensures data[q][z][..] == after[q][z]
      {
        if q != p || z != x {
          assert data[q][z] != row;
        }
      }
    }
  }

  /** Runs the callback on a frame. Without data it changes nothing; with
      data it does to the grid what `Glitch` says. The rows must be distinct
      arrays and each plane rectangular. */
  method GlitchFrame(frame: Frame, rand: seq<real>) returns (status: Status)
    requires Draws(rand)
    requires DcData(frame).Some? ==> Disjoint(DcData(frame).value) && Rectangular(Cells(DcData(frame).value))
    modifies if DcData(frame).Some? then Rows(DcData(frame).value) else {}
    ensures DcData(frame).None? ==> status == Skipped
    ensures DcData(frame).Some? ==>
      (status, Cells(DcData(frame).value)) == Glitch(old(Cells(DcData(frame).value)), rand)
  {
    if DcData(frame).None? {
      return Skipped;
    }
    var data := DcData(frame).value;
    ghost var before := Cells(data);
    var planes := data.Length;
    var plane := RandomInt(0, planes - 1, rand[0]);
    if planes == 0 {
      return Threw;
    }
    var pl := data[plane];
    if pl.Length == 0 {
      return Threw;
    }
    var mbXMax := pl.Length - 1;
    var mbYMax := pl[0].Length - 1;
    if mbXMax > 0 && mbYMax > 0 {
      var mbX := RandomInt(0, mbXMax, rand[1]);
      var mbY := RandomInt(0, mbYMax, rand[2]);
      var delta := RandomInt(-64, 64, rand[3]);
      assert pl[mbX].Length == |before[plane][mbX]| == |before[plane][0]|;
      AddToCell(data, plane, mbX, mbY, delta);
      status := Glitched(plane, mbX, mbY, delta);
    } else {
      status := NoValidMacroblocks(plane);
    }
  }
}
