/** The nested-loop point generators: two integer point grids, the voxel
    grid and the offset point cube.  Each writes its points row by row and
    numbers them with a running counter. */
module Grids {
  import opened Base

  lemma MulAtLeast(a: int, w: int)
    requires a >= 1 && w > 0
    ensures a * w >= w
  {
  }

  lemma PositiveFactor(x: int, n: int)
    requires n > 0 && x * n > 0
    ensures x > 0
  {
  }

  /** Division with remainder is unique. */
  lemma DivUnique(k: int, w: int, q: int, m: int)
    requires w > 0 && 0 <= m < w && k == q * w + m
    ensures k / w == q && k % w == m
  {
    var q', m' := k / w, k % w;
    assert k == q' * w + m';
    assert (q - q') * w == m' - m;
    if q > q' {
      MulAtLeast(q - q', w);
    } else if q < q' {
      MulAtLeast(q' - q, w);
    }
  }

  /** Row-major numbering: cell `(r, c)` of rows of width `w` is `r * w + c`,
      and division and remainder recover it. */
  lemma RowMajor(r: nat, c: nat, w: nat)
    requires c < w
    ensures (r * w + c) / w == r && (r * w + c) % w == c
  {
    DivUnique(r * w + c, w, r, c);
  }

  /** The point of cell `(c, l)` in a grid of `columns` by `lines` cells,
      spread over `scale` with Rust's truncating integer division. */
  function GridPoint(c: int, l: int, lines: int, columns: int, scale: int): (int, int)
    requires lines > 0 && columns > 0
  {
    (TruncDiv(c * scale, columns), TruncDiv(l * scale, lines))
  }

  /** `point_grid::new_point_grid`: columns outer, lines inner; point
      `c * lines + l` is cell `(c, l)` and the counter numbers the points.
      A non-positive count gives empty lists. */
  method PointGridI32(lines: int, columns: int, scale: int) returns (v: seq<(int, int)>, e: seq<nat>)
    ensures lines <= 0 || columns <= 0 ==> v == [] && e == []
    ensures lines > 0 && columns > 0 ==> |v| == columns * lines
    ensures |e| == |v| && forall k :: 0 <= k < |e| ==> e[k] == k
    ensures lines > 0 && columns > 0 ==>
      forall k :: 0 <= k < |v| ==> v[k] == GridPoint(k / lines, k % lines, lines, columns, scale)
  {
    v, e := [], [];
    if lines <= 0 || columns <= 0 {
      return;
    }
    var i := 0;
    for c := 0 to columns
      invariant |v| == c * lines && i == |v| && |e| == |v|
      invariant forall k :: 0 <= k < |e| ==> e[k] == k
      invariant forall k :: 0 <= k < |v| ==> v[k] == GridPoint(k / lines, k % lines, lines, columns, scale)
    {
      for l := 0 to lines
        invariant |v| == c * lines + l && i == |v| && |e| == |v|
        invariant forall k :: 0 <= k < |e| ==> e[k] == k
        invariant forall k :: 0 <= k < |v| ==> v[k] == GridPoint(k / lines, k % lines, lines, columns, scale)
      {
        RowMajor(c, l, lines);
        v := v + [(TruncDiv(c * scale, columns), TruncDiv(l * scale, lines))];
        e := e + [i];
        i := i + 1;
      }
    }
  }

  /** With a positive scale every coordinate of a grid cell lies in
      `[0, scale)`. */
  lemma GridPointInRange(c: nat, l: nat, lines: int, columns: int, scale: int)
    requires 0 < lines && 0 < columns && 0 < scale && c < columns && l < lines
    ensures 0 <= GridPoint(c, l, lines, columns, scale).0 < scale
    ensures 0 <= GridPoint(c, l, lines, columns, scale).1 < scale
  {
    QuotientBelow(c, columns, scale);
    QuotientBelow(l, lines, scale);
  }

  lemma QuotientBelow(c: nat, n: int, scale: int)
    requires 0 < n && 0 < scale && c < n
    ensures (c * scale) / n < scale
  {
    var q := (c * scale) / n;
    assert q * n <= c * scale;
    assert c * scale < n * scale;
    assert (scale - q) * n > 0;
    PositiveFactor(scale - q, n);
  }

  /** The `as f32` casts of both coordinates. */
  function CastPoint(p: (int, int)): Vec2 {
    Vec2(p.0 as real, p.1 as real)
  }

  /** `generators::point_grid::new_point_grid`: the same cells, each
      coordinate divided as integers first and cast to `f32` after. */
  method PointGridF32(lines: int, columns: int, scale: int) returns (v: seq<Vec2>, e: seq<nat>)
    ensures lines <= 0 || columns <= 0 ==> v == [] && e == []
    ensures lines > 0 && columns > 0 ==> |v| == columns * lines
    ensures |e| == |v| && forall k :: 0 <= k < |e| ==> e[k] == k
    ensures lines > 0 && columns > 0 ==> forall k :: 0 <= k < |v| ==>
      v[k] == CastPoint(GridPoint(k / lines, k % lines, lines, columns, scale))
  {
    v, e := [], [];
    if lines <= 0 || columns <= 0 {
      return;
    }
    var i := 0;
    for c := 0 to columns
      invariant |v| == c * lines && i == |v| && |e| == |v|
      invariant forall k :: 0 <= k < |e| ==> e[k] == k
      invariant forall k :: 0 <= k < |v| ==>
        v[k] == CastPoint(GridPoint(k / lines, k % lines, lines, columns, scale))
    {
      for l := 0 to lines
        invariant |v| == c * lines + l && i == |v| && |e| == |v|
        invariant forall k :: 0 <= k < |e| ==> e[k] == k
        invariant forall k :: 0 <= k < |v| ==>
          v[k] == CastPoint(GridPoint(k / lines, k % lines, lines, columns, scale))
      {
        RowMajor(c, l, lines);
        v := v + [CastPoint(GridPoint(c, l, lines, columns, scale))];
        e := e + [i];
        i := i + 1;
      }
    }
  }

  // ---------------------------------------------------------------------
  // Voxels
  // ---------------------------------------------------------------------

  /** The voxel of cell `(w, h, d)`. */
  function Voxel(w: nat, h: nat, d: nat, space: real): Vec3 {
    Vec3(space * w as real, space * h as real, space * d as real)
  }

  /** Voxel `k` of a grid of `height` by `debth` columns. */
  function VoxelAt(k: nat, height: nat, debth: nat, space: real): Vec3
    requires height > 0 && debth > 0
  {
    Voxel(k / debth / height, (k / debth) % height, k % debth, space)
  }

  predicate VoxelsOk(voxels: seq<Vec3>, height: nat, debth: nat, space: real) {
    |voxels| == 0 || (height > 0 && debth > 0 && forall k :: 0 <= k < |voxels| ==> voxels[k] == VoxelAt(k, height, debth, space))
  }

  /** A counter that starts at 0 numbers the entries. */
  predicate Counting(elements: seq<nat>) {
    forall k :: 0 <= k < |elements| ==> elements[k] == k
  }

  /** The innermost loop: the `debth` voxels of column `(w, h)`. */
  method VoxelColumn(voxels: seq<Vec3>, elements: seq<nat>, w: nat, h: nat, height: nat, debth: nat, space: real)
    returns (voxels': seq<Vec3>, elements': seq<nat>)
    requires h < height && |voxels| == (w * height + h) * debth && |elements| == |voxels|
    requires VoxelsOk(voxels, height, debth, space) && Counting(elements)
    ensures |voxels'| == (w * height + h + 1) * debth && |elements'| == |voxels'|
    ensures VoxelsOk(voxels', height, debth, space) && Counting(elements')
  {
    voxels', elements' := voxels, elements;
    var i := |voxels|;
    for d := 0 to debth
      invariant |voxels'| == (w * height + h) * debth + d && i == |voxels'| && |elements'| == |voxels'|
      invariant VoxelsOk(voxels', height, debth, space) && Counting(elements')
    {
      RowMajor(w * height + h, d, debth);
      RowMajor(w, h, height);
      assert VoxelAt(i, height, debth, space) == Voxel(w, h, d, space);
      voxels' := voxels' + [Voxel(w, h, d, space)];
      elements' := elements' + [i];
      i := i + 1;
    }
    assert (w * height + h) * debth + debth == (w * height + h + 1) * debth;
  }

  /** Voxel `(w * height + h) * debth + d` is cell `(w, h, d)`. */
  lemma VoxelAtCell(w: nat, h: nat, d: nat, height: nat, debth: nat, space: real)
    requires h < height && d < debth
    ensures VoxelAt((w * height + h) * debth + d, height, debth, space) == Voxel(w, h, d, space)
  {
    RowMajor(w * height + h, d, debth);
    RowMajor(w, h, height);
  }

  /** `voxel_grid`: width outer, height, depth inner; voxel
      `(w * height + h) * debth + d` is cell `(w, h, d)`, and the counter
      numbers the voxels. */
  method VoxelGrid(width: nat, height: nat, debth: nat, space: real) returns (voxels: seq<Vec3>, elements: seq<nat>)
    ensures |voxels| == width * height * debth && |elements| == |voxels|
    ensures forall k :: 0 <= k < |elements| ==> elements[k] == k
    ensures height > 0 && debth > 0 ==> forall k :: 0 <= k < |voxels| ==> voxels[k] == VoxelAt(k, height, debth, space)
  {
    voxels, elements := [], [];
    for w := 0 to width
      invariant |voxels| == w * height * debth && |elements| == |voxels|
      invariant VoxelsOk(voxels, height, debth, space) && Counting(elements)
    {
      for h := 0 to height
        invariant |voxels| == (w * height + h) * debth && |elements| == |voxels|
        invariant VoxelsOk(voxels, height, debth, space) && Counting(elements)
      {
        voxels, elements := VoxelColumn(voxels, elements, w, h, height, debth, space);
      }
      assert (w * height + height) * debth == (w + 1) * height * debth;
    }
    assert VoxelsOk(voxels, height, debth, space);
  }

  // ---------------------------------------------------------------------
  // Point cube
  // ---------------------------------------------------------------------

  /** The unscaled point of cell `(x, y, z)`: rows along z are staggered
      by half a unit in x when z is even, layers by `a` in z when y is
      even; `a`, `b` and `h` stand for the square roots of 1/3, 3/4 and
      2/3. */
  function CubeCell(x: nat, y: nat, z: nat, a: real, b: real, h: real): Vec3 {
    var xOffset := if z % 2 == 0 then 0.5 else 0.0;
    var zOffset := if y % 2 == 0 then a else 0.0;
    Vec3(x as real + xOffset, y as real * h, z as real * b + zOffset)
  }

  /** Point `k` of the cube and its colour. */
  function CubeAt(k: nat, size: int, a: real, b: real, h: real, normalize: Vec3 -> Vec3): (Vec3, Vec4)
    requires size > 0
  {
    var t := CubeCell(k / size / size, (k / size) % size, k % size, a, b, h);
    var n := normalize(t);
    (Scale3(1.0 / size as real, t), Vec4(n.x, n.y, n.z, 1.0))
  }

  predicate CubeOk(v: seq<Vec3>, c: seq<Vec4>, size: int, a: real, b: real, h: real, normalize: Vec3 -> Vec3)
    requires size > 0 && |c| == |v|
  {
    forall k :: 0 <= k < |v| ==> (v[k], c[k]) == CubeAt(k, size, a, b, h, normalize)
  }

  /** The innermost loop: the `size` points of row `(x, y)`. */
  method CubeRow(v: seq<Vec3>, c: seq<Vec4>, e: seq<nat>, x: nat, y: nat, size: int,
                 a: real, b: real, h: real, normalize: Vec3 -> Vec3)
    returns (v': seq<Vec3>, c': seq<Vec4>, e': seq<nat>)
    requires 0 < size && y < size && |v| == (x * size + y) * size && |c| == |v| && |e| == |v|
    requires CubeOk(v, c, size, a, b, h, normalize) && Counting(e)
    ensures |v'| == (x * size + y + 1) * size && |c'| == |v'| && |e'| == |v'|
    ensures CubeOk(v', c', size, a, b, h, normalize) && Counting(e')
  {
    v', c', e' := v, c, e;
    var s := size as real;
    var i := |v|;
    for z := 0 to size
      invariant |v'| == (x * size + y) * size + z && i == |v'| && |c'| == |v'| && |e'| == |v'|
      invariant CubeOk(v', c', size, a, b, h, normalize) && Counting(e')
    {
      RowMajor(x * size + y, z, size);
      RowMajor(x, y, size);
      var t := CubeCell(x, y, z, a, b, h);
      var n := normalize(t);
      assert (Scale3(1.0 / s, t), Vec4(n.x, n.y, n.z, 1.0)) == CubeAt(i, size, a, b, h, normalize);
      v' := v' + [Scale3(1.0 / s, t)];
      c' := c' + [Vec4(n.x, n.y, n.z, 1.0)];
      e' := e' + [i];
      i := i + 1;
    }
    assert (x * size + y) * size + size == (x * size + y + 1) * size;
  }

  /** `point_cube(size)`: x outer, y, z inner; point `(x * size + y) * size + z`
      is cell `(x, y, z)` divided by `size`, its colour is the normalised
      cell extended by 1, and the counter numbers the points.
      `normalize` stands for the fast inverse-square-root normalisation. */
  method PointCube(size: int, a: real, b: real, h: real, normalize: Vec3 -> Vec3)
    returns (v: seq<Vec3>, c: seq<Vec4>, e: seq<nat>)
    ensures size <= 0 ==> v == [] && c == [] && e == []
    ensures size > 0 ==> |v| == size * size * size
    ensures |c| == |v| && |e| == |v|
    ensures forall k :: 0 <= k < |e| ==> e[k] == k
    ensures size > 0 ==> forall k :: 0 <= k < |v| ==> (v[k], c[k]) == CubeAt(k, size, a, b, h, normalize)
  {
    v, c, e := [], [], [];
    if size <= 0 {
      return;
    }
    for x := 0 to size
      invariant |v| == x * size * size && |c| == |v| && |e| == |v|
      invariant CubeOk(v, c, size, a, b, h, normalize) && Counting(e)
    {
      for y := 0 to size
        invariant |v| == (x * size + y) * size && |c| == |v| && |e| == |v|
        invariant CubeOk(v, c, size, a, b, h, normalize) && Counting(e)
      {
        v, c, e := CubeRow(v, c, e, x, y, size, a, b, h, normalize);
      }
      assert (x * size + size) * size == (x + 1) * size * size;
    }
    assert CubeOk(v, c, size, a, b, h, normalize);
  }

  /** Point `(x * size + y) * size + z` of the cube is cell `(x, y, z)`. */
  lemma CubeAtCell(x: nat, y: nat, z: nat, size: int, a: real, b: real, h: real, normalize: Vec3 -> Vec3)
    requires 0 <= x < size && y < size && z < size
    ensures CubeAt((x * size + y) * size + z, size, a, b, h, normalize).0
      == Scale3(1.0 / size as real, CubeCell(x, y, z, a, b, h))
  {
    RowMajor(x * size + y, z, size);
    RowMajor(x, y, size);
  }

  /** The offsets of the cube follow the parity rule: the x offset is
      there iff z is even, the z offset iff y is even. */
  lemma CubeOffsets(x: nat, y: nat, z: nat, a: real, b: real, h: real)
    ensures CubeCell(x, y, z, a, b, h).x - x as real == (if z % 2 == 0 then 0.5 else 0.0)
    ensures CubeCell(x, y, z, a, b, h).z - z as real * b == (if y % 2 == 0 then a else 0.0)
    ensures CubeCell(x, y, z, a, b, h).y == y as real * h
  {
  }
}
