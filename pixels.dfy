/**
 * From samples to the integers written for each pixel: every pixel sums
 * the colours of its camera rays, divides by the sample count, takes the
 * square root of each channel and truncates `255.99` times it to an `i32`.
 * The image is emitted row by row from the top, each row left to right.
 */
module Pixels {
  import opened Vector
  import opened Rays
  import opened Materials
  import opened HittableLists
  import opened Cameras
  import opened Estimator

  const I32Min: int := -0x8000_0000
  const I32Max: int := 0x7fff_ffff

  /** Truncation toward zero. */
  function Truncate(x: real): (n: int)
    ensures x >= 0.0 ==> n >= 0 && n as real <= x < n as real + 1.0
    ensures x < 0.0 ==> n <= 0 && n as real - 1.0 < x <= n as real
  {
    if x >= 0.0 then x.Floor else -((-x).Floor)
  }

  /** The cast `x as i32`: truncation toward zero, saturating at the ends of the `i32` range. */
  function ToI32(x: real): (n: int)
    ensures I32Min <= n <= I32Max
    ensures I32Min as real <= x < I32Max as real + 1.0 ==> n == Truncate(x)
  {
    var t := Truncate(x);
    if t < I32Min then I32Min else if t > I32Max then I32Max else t
  }

  /** `(255.99 * c) as i32`. */
  function Quantize(c: real): int {
    ToI32(255.99 * c)
  }

  /** A channel in `[0, 1]` quantises into `[0, 255]`. */
  lemma QuantizeRange(c: real)
    requires 0.0 <= c <= 1.0
    ensures 0 <= Quantize(c) <= 255
  {
  }

  /** The cast truncates: a channel of 0.5 gives 127, where rounding would give 128. */
  lemma QuantizeTruncates()
    ensures Quantize(0.5) == 127
  {
    assert 255.99 * 0.5 == 127.995;
  }

  /** The camera of a rendered scene faces some direction `w` (one built by `NewCamera` does). */
  ghost predicate ForwardCamera(c: Camera) {
    exists w :: Facing(c, w)
  }

  datatype Scene = Scene(cam: Camera, world: HittableList)

  ghost predicate ValidScene(sc: Scene) {
    ForwardCamera(sc.cam) && ValidWorld(sc.world) && WellFormedWorld(sc.world)
  }

  /** The draws one sample consumes: two jitters inside the pixel and the draws of its path. */
  datatype PixelSample = PixelSample(du: real, dv: real, path: seq<PathDraw>)

  predicate ValidSamples(samples: seq<PixelSample>) {
    |samples| > 0 && forall k :: 0 <= k < |samples| ==> Drawable(samples[k].path)
  }

  /** The horizontal image coordinate `(i + du) / nx`. */
  function ColumnCoordinate(i: int, nx: nat, du: real): real
    requires nx > 0
  {
    (i as real + du) / nx as real
  }

  /** The vertical image coordinate `((ny - j) + dv) / ny`. */
  function RowCoordinate(j: int, ny: nat, dv: real): real
    requires ny > 0
  {
    ((ny - j) as real + dv) / ny as real
  }

  /**
   * With a jitter in `[0, 1)`, row `j` samples the band
   * `[(ny - j) / ny, (ny - j + 1) / ny)`; so row 0 is at the top and every
   * later row lies strictly lower.
   */
  lemma RowsRunTopDown(j: int, j': int, ny: nat, dv: real, dv': real)
    requires ny > 0 && 0.0 <= dv < 1.0 && 0.0 <= dv' < 1.0 && j < j'
    ensures (ny - j) as real / ny as real <= RowCoordinate(j, ny, dv) < (ny - j + 1) as real / ny as real
    ensures RowCoordinate(j', ny, dv') < RowCoordinate(j, ny, dv)
  {
    var n := ny as real;
    DivStrict((ny - j') as real + dv', (ny - j) as real + dv, n);
    DivStrict((ny - j) as real + dv, (ny - j + 1) as real, n);
    DivWeak((ny - j) as real, (ny - j) as real + dv, n);
  }

  lemma DivStrict(a: real, b: real, n: real)
    requires n > 0.0 && a < b
    ensures a / n < b / n
  {
  }

  lemma DivWeak(a: real, b: real, n: real)
    requires n > 0.0 && a <= b
    ensures a / n <= b / n
  {
  }

  lemma ForwardRaysNonzero(c: Camera, s: real, t: real)
    requires ForwardCamera(c)
    ensures SquaredLength(Direction(GetRay(c, s, t))) > 0.0
  {
    var w :| Facing(c, w);
    RaysPointForward(c, w, s, t);
  }

  /** The colour one sample of pixel `(i, j)` contributes. */
  function SampleColor(sc: Scene, i: int, j: int, nx: nat, ny: nat, sample: PixelSample, sqrt: real -> real): (c: Vec3)
    requires IsSqrt(sqrt) && ValidScene(sc) && nx > 0 && ny > 0 && Drawable(sample.path)
    ensures AttenuatingWorld(sc.world) ==> InUnitCube(c)
  {
    var s := ColumnCoordinate(i, nx, sample.du);
    var t := RowCoordinate(j, ny, sample.dv);
    ForwardRaysNonzero(sc.cam, s, t);
    Color(GetRay(sc.cam, s, t), sc.world, 0, sample.path, sqrt)
  }

  /** Every component lies in `[0, k]`. */
  predicate InBox(v: Vec3, k: real) {
    0.0 <= v.x <= k && 0.0 <= v.y <= k && 0.0 <= v.z <= k
  }

  /** The sum of the first `k` samples' colours: at most `k` per channel when every material attenuates. */
  function SampleSum(sc: Scene, i: int, j: int, nx: nat, ny: nat, samples: seq<PixelSample>, k: nat, sqrt: real -> real): (sum: Vec3)
    requires IsSqrt(sqrt) && ValidScene(sc) && nx > 0 && ny > 0 && ValidSamples(samples) && k <= |samples|
    ensures AttenuatingWorld(sc.world) ==> InBox(sum, k as real)
  {
    if k == 0 then Zero()
    else Add(SampleSum(sc, i, j, nx, ny, samples, k - 1, sqrt), SampleColor(sc, i, j, nx, ny, samples[k - 1], sqrt))
  }

  /** Gamma 2: the square root of each channel. */
  function Gamma(col: Vec3, sqrt: real -> real): Vec3 {
    Vec3(Root(sqrt, col.x), Root(sqrt, col.y), Root(sqrt, col.z))
  }

  datatype Pixel = Pixel(ir: int, ig: int, ib: int)

  /**
   * The integers written for pixel `(i, j)`: average, square root,
   * truncation. Each lies in `[0, 255]` when every material attenuates.
   */
  function PixelValue(sc: Scene, i: int, j: int, nx: nat, ny: nat, samples: seq<PixelSample>, sqrt: real -> real): (p: Pixel)
    requires IsSqrt(sqrt) && ValidScene(sc) && nx > 0 && ny > 0 && ValidSamples(samples)
    ensures AttenuatingWorld(sc.world) ==> 0 <= p.ir <= 255 && 0 <= p.ig <= 255 && 0 <= p.ib <= 255
  {
    var ns := |samples|;
    var average := DivScalar(SampleSum(sc, i, j, nx, ny, samples, ns, sqrt), ns as real);
    var col := Gamma(average, sqrt);
    QuantizedAverageInRange(SampleSum(sc, i, j, nx, ny, samples, ns, sqrt), ns as real, sqrt);
    Pixel(Quantize(Index(col, 0)), Quantize(Index(col, 1)), Quantize(Index(col, 2)))
  }

  /** An average of colours in `[0, 1]^3`, gamma-corrected, quantises into `[0, 255]`. */
  lemma QuantizedAverageInRange(sum: Vec3, n: real, sqrt: real -> real)
    requires IsSqrt(sqrt) && n > 0.0
    ensures InBox(sum, n) ==>
      var col := Gamma(DivScalar(sum, n), sqrt);
      0 <= Quantize(col.x) <= 255 && 0 <= Quantize(col.y) <= 255 && 0 <= Quantize(col.z) <= 255
  {
    if InBox(sum, n) {
      var average := DivScalar(sum, n);
      AverageInUnitCube(sum, n);
      RootInUnitInterval(average.x, sqrt);
      RootInUnitInterval(average.y, sqrt);
      RootInUnitInterval(average.z, sqrt);
      var col := Gamma(average, sqrt);
      QuantizeRange(col.x);
      QuantizeRange(col.y);
      QuantizeRange(col.z);
    }
  }

  lemma AverageInUnitCube(sum: Vec3, n: real)
    requires n > 0.0 && InBox(sum, n)
    ensures InUnitCube(DivScalar(sum, n))
  {
    DivWeak(sum.x, n, n);
    DivWeak(sum.y, n, n);
    DivWeak(sum.z, n, n);
  }

  lemma RootInUnitInterval(x: real, sqrt: real -> real)
    requires IsSqrt(sqrt) && 0.0 <= x <= 1.0
    ensures 0.0 <= Root(sqrt, x) <= 1.0
  {
    assert Sq(Root(sqrt, x)) == x;
    SquareAtMostOne(Root(sqrt, x));
  }

  /**
   * The per-pixel closure: a loop accumulates `col += color(...)` over the
   * samples, then `col` is divided, gamma-corrected and truncated.
   */
  method ShadePixel(sc: Scene, i: int, j: int, nx: nat, ny: nat, samples: seq<PixelSample>, sqrt: real -> real)
    returns (p: Pixel)
    requires IsSqrt(sqrt) && ValidScene(sc) && nx > 0 && ny > 0 && ValidSamples(samples)
    ensures p == PixelValue(sc, i, j, nx, ny, samples, sqrt)
  {
    var col := AccumulateSamples(sc, i, j, nx, ny, samples, sqrt);
    col := DivScalarAssign(col, |samples| as real);
    col := Vec3(Root(sqrt, col.x), Root(sqrt, col.y), Root(sqrt, col.z));
    p := Pixel(Quantize(Index(col, 0)), Quantize(Index(col, 1)), Quantize(Index(col, 2)));
  }

  /** The sampling loop of the per-pixel closure. */
  method AccumulateSamples(sc: Scene, i: int, j: int, nx: nat, ny: nat, samples: seq<PixelSample>, sqrt: real -> real)
    returns (col: Vec3)
    requires IsSqrt(sqrt) && ValidScene(sc) && nx > 0 && ny > 0 && ValidSamples(samples)
    ensures col == SampleSum(sc, i, j, nx, ny, samples, |samples|, sqrt)
  {
    col := Zero();
    for k := 0 to |samples|
      invariant col == SampleSum(sc, i, j, nx, ny, samples, k, sqrt)
    {
      var c := TraceSample(sc, i, j, nx, ny, samples[k], sqrt);
      col := AddAssign(col, c);
    }
  }

  /** One iteration of the sampling loop: jitter the pixel, cast the ray, trace it. */
  method TraceSample(sc: Scene, i: int, j: int, nx: nat, ny: nat, sample: PixelSample, sqrt: real -> real)
    returns (c: Vec3)
    requires IsSqrt(sqrt) && ValidScene(sc) && nx > 0 && ny > 0 && Drawable(sample.path)
    ensures c == SampleColor(sc, i, j, nx, ny, sample, sqrt)
  {
    var u := ColumnCoordinate(i, nx, sample.du);
    var v := RowCoordinate(j, ny, sample.dv);
    ForwardRaysNonzero(sc.cam, u, v);
    var r := GetRay(sc.cam, u, v);
    c := Color(r, sc.world, 0, sample.path, sqrt);
  }

  /** Every pixel of an `nx` by `ny` image has its samples. */
  predicate ValidSampling(samples: (nat, nat) -> seq<PixelSample>, nx: nat, ny: nat) {
    forall j: nat, i: nat :: j < ny && i < nx ==> ValidSamples(samples(j, i))
  }

  /** Pixel `(i, j)` of the grid `f` is `f(j, i)`: the value `PixelValue` gives it. */
  ghost predicate PixelGrid(f: (nat, nat) -> Pixel, sc: Scene, nx: nat, ny: nat, samples: (nat, nat) -> seq<PixelSample>, sqrt: real -> real)
    requires IsSqrt(sqrt) && ValidScene(sc) && nx > 0 && ny > 0 && ValidSampling(samples, nx, ny)
  {
    forall j: nat, i: nat :: j < ny && i < nx ==> f(j, i) == PixelValue(sc, i, j, nx, ny, samples(j, i), sqrt)
  }

  /** Pixels `0 .. cols` of row `j` of the grid `f`, left to right. */
  function RowOf<T>(f: (nat, nat) -> T, j: nat, cols: nat): (row: seq<T>)
    ensures |row| == cols
    ensures forall i :: 0 <= i < cols ==> row[i] == f(j, i)
  {
    if cols == 0 then [] else RowOf(f, j, cols - 1) + [f(j, cols - 1)]
  }

  /** Rows `0 .. rows` of the grid `f`, each `w` wide, top to bottom. */
  function RowsOf<T>(f: (nat, nat) -> T, w: nat, rows: nat): (img: seq<seq<T>>)
    ensures |img| == rows
    ensures forall j :: 0 <= j < rows ==> img[j] == RowOf(f, j, w)
  {
    if rows == 0 then [] else RowsOf(f, w, rows - 1) + [RowOf(f, rows - 1, w)]
  }

  /** The rows written one after the other. */
  function Flatten<T>(rows: seq<seq<T>>): seq<T> {
    if |rows| == 0 then [] else Flatten(rows[..|rows| - 1]) + rows[|rows| - 1]
  }

  lemma {:induction false} FlattenLength<T>(rows: seq<seq<T>>, w: nat)
    requires forall k :: 0 <= k < |rows| ==> |rows[k]| == w
    ensures |Flatten(rows)| == |rows| * w
  {
    if |rows| > 0 {
      var n := |rows| - 1;
      FlattenLength(rows[..n], w);
      assert |Flatten(rows)| == n * w + w;
      assert n * w + w == (n + 1) * w;
    }
  }

  /** In rows of width `w`, element `i` of row `j` lands at position `j * w + i`. */
  lemma {:induction false} FlattenIndex<T>(rows: seq<seq<T>>, w: nat, j: nat, i: nat)
    requires forall k :: 0 <= k < |rows| ==> |rows[k]| == w
    requires j < |rows| && i < w
    ensures j * w + i < |Flatten(rows)| && Flatten(rows)[j * w + i] == rows[j][i]
  {
    var n := |rows| - 1;
    var prefix := rows[..n];
    FlattenLength(prefix, w);
    assert Flatten(rows) == Flatten(prefix) + rows[n];
    if j < n {
      RowStartBound(j, n, w);
      FlattenIndex(prefix, w, j, i);
      assert prefix[j] == rows[j];
    } else {
      assert j * w + i == |Flatten(prefix)| + i;
    }
  }

  lemma FlattenSnoc<T>(rows: seq<seq<T>>, last: seq<T>)
    ensures Flatten(rows + [last]) == Flatten(rows) + last
  {
    assert (rows + [last])[..|rows|] == rows;
  }

  lemma RowStartBound(j: nat, rows: nat, w: nat)
    requires j < rows
    ensures j * w + w <= rows * w
  {
    assert j * w + w == (j + 1) * w;
  }

  /** In the written image, pixel `(i, j)` of the grid `f` is at position `j * w + i`. */
  lemma PixelPosition<T>(f: (nat, nat) -> T, w: nat, rows: nat, j: nat, i: nat)
    requires j < rows && i < w
    ensures |Flatten(RowsOf(f, w, rows))| == rows * w
    ensures j * w + i < rows * w && Flatten(RowsOf(f, w, rows))[j * w + i] == f(j, i)
  {
    FlattenLength(RowsOf(f, w, rows), w);
    FlattenIndex(RowsOf(f, w, rows), w, j, i);
  }

  /**
   * The whole image: the source computes the pixels in parallel and
   * collects them in order, row `j` after row `j - 1` and column `i` after
   * column `i - 1`; the model computes them in that order. The ghost `grid`
   * names the value of every pixel.
   */
  method Render(sc: Scene, nx: nat, ny: nat, samples: (nat, nat) -> seq<PixelSample>, sqrt: real -> real,
                ghost grid: (nat, nat) -> Pixel)
    returns (img: seq<Pixel>)
    requires IsSqrt(sqrt) && ValidScene(sc) && nx > 0 && ny > 0 && ValidSampling(samples, nx, ny)
    requires PixelGrid(grid, sc, nx, ny, samples, sqrt)
    ensures img == Flatten(RowsOf(grid, nx, ny))
  {
    img := [];
    for j := 0 to ny
      invariant img == Flatten(RowsOf(grid, nx, j))
    {
      var row := RenderRow(sc, j, nx, ny, samples, sqrt, grid);
      FlattenSnoc(RowsOf(grid, nx, j), row);
      img := img + row;
    }
  }

  /** One row of the image, left to right. */
  method RenderRow(sc: Scene, j: nat, nx: nat, ny: nat, samples: (nat, nat) -> seq<PixelSample>, sqrt: real -> real,
                   ghost grid: (nat, nat) -> Pixel)
    returns (row: seq<Pixel>)
    requires IsSqrt(sqrt) && ValidScene(sc) && nx > 0 && ny > 0 && ValidSampling(samples, nx, ny) && j < ny
    requires PixelGrid(grid, sc, nx, ny, samples, sqrt)
    ensures row == RowOf(grid, j, nx)
  {
    row := [];
    for i := 0 to nx
      invariant row == RowOf(grid, j, i)
    {
      var p := ShadePixel(sc, i, j, nx, ny, samples(j, i), sqrt);
      row := row + [p];
    }
  }
}
