/** Vertex and index generators for coloured quads and the circle line
    loop. */
module Generators {
  import opened Base

  // ---------------------------------------------------------------------
  // Coloured squares
  // ---------------------------------------------------------------------

  datatype Square = Square(topLeft: Vec2, dimension: Vec2, color: Vec3)

  datatype SquareComposition = SquareComposition(squares: seq<Square>)

  function NewComposition(): (c: SquareComposition)
    ensures |c.squares| == 0
  {
    SquareComposition([])
  }

  /** `add_square` keeps the squares in insertion order. */
  function AddSquare(c: SquareComposition, s: Square): (r: SquareComposition)
    ensures |r.squares| == |c.squares| + 1
    ensures r.squares[..|c.squares|] == c.squares && r.squares[|c.squares|] == s
  {
    SquareComposition(c.squares + [s])
  }

  /** The four corners of a square, in the order
      top-left, top-right, bottom-left, bottom-right. */
  predicate QuadAt(positions: seq<Vec2>, colors: seq<Vec3>, k: nat, s: Square)
    requires 4 * k + 4 <= |positions| && 4 * k + 4 <= |colors|
  {
    && positions[4 * k] == s.topLeft
    && positions[4 * k + 1] == Vec2(s.topLeft.x + s.dimension.x, s.topLeft.y)
    && positions[4 * k + 2] == Vec2(s.topLeft.x, s.topLeft.y + s.dimension.y)
    && positions[4 * k + 3] == Add2(s.topLeft, s.dimension)
    && colors[4 * k] == colors[4 * k + 1] == colors[4 * k + 2] == colors[4 * k + 3] == s.color
  }

  /** The two triangles of quad `k`: (p1, p2, p4) and (p1, p4, p3). */
  predicate BlockAt(elements: seq<int>, k: nat)
    requires 6 * k + 6 <= |elements|
  {
    elements[6 * k .. 6 * k + 6] == [4 * k, 4 * k + 1, 4 * k + 3, 4 * k, 4 * k + 3, 4 * k + 2]
  }

  /** `generate_colored_triangles`: four vertices, four colours and six
      indices per square, square by square. */
  method GenerateColoredTriangles(c: SquareComposition) returns (positions: seq<Vec2>, colors: seq<Vec3>, elements: seq<int>)
    ensures |positions| == 4 * |c.squares| && |colors| == 4 * |c.squares| && |elements| == 6 * |c.squares|
    ensures forall k :: 0 <= k < |c.squares| ==> QuadAt(positions, colors, k, c.squares[k]) && BlockAt(elements, k)
    ensures forall j :: 0 <= j < |elements| ==> 0 <= elements[j] < |positions|
  {
    positions, colors, elements := [], [], [];
    var i := 0;
    for n := 0 to |c.squares|
      invariant i == 4 * n
      invariant |positions| == 4 * n && |colors| == 4 * n && |elements| == 6 * n
      invariant forall k :: 0 <= k < n ==> QuadAt(positions, colors, k, c.squares[k]) && BlockAt(elements, k)
      invariant forall j :: 0 <= j < |elements| ==> 0 <= elements[j] < |positions|
    {
      var s := c.squares[n];
      var p1 := s.topLeft;
      var p2 := s.topLeft.(x := s.topLeft.x + s.dimension.x);
      var p3 := s.topLeft.(y := s.topLeft.y + s.dimension.y);
      var p4 := Add2(s.topLeft, s.dimension);
      ghost var (oldP, oldC, oldE) := (positions, colors, elements);
      positions := positions + [p1, p2, p3, p4];
      colors := colors + [s.color, s.color, s.color, s.color];
      elements := elements + [i, i + 1, i + 3, i, i + 3, i + 2];
      i := i + 4;
      forall k | 0 <= k < n
        ensures QuadAt(positions, colors, k, c.squares[k]) && BlockAt(elements, k)
      {
        assert QuadAt(oldP, oldC, k, c.squares[k]) && BlockAt(oldE, k);
        assert positions[..4 * n] == oldP && colors[..4 * n] == oldC && elements[..6 * n] == oldE;
        assert elements[6 * k .. 6 * k + 6] == oldE[6 * k .. 6 * k + 6];
      }
      assert elements[6 * n .. 6 * n + 6] == [4 * n, 4 * n + 1, 4 * n + 3, 4 * n, 4 * n + 3, 4 * n + 2];
    }
  }

  // ---------------------------------------------------------------------
  // Circle line loop
  // ---------------------------------------------------------------------

  /** `circel(pont_c, rad)`.  `sinCos(i)` stands for the sine and cosine of
      the i-th angle step `i * TAU / pont_c`; the points lie in the plane
      y = 0 and each segment joins point `i` to the next, the last one
      closing back to point 0. */
  method Circle(pontC: nat, rad: real, sinCos: nat -> (real, real)) returns (points: seq<Vec3>, elements: seq<nat>)
    ensures |points| == pontC && |elements| == 2 * pontC
    ensures forall i :: 0 <= i < pontC ==> points[i] == Vec3(sinCos(i).0 * rad, 0.0, sinCos(i).1 * rad)
    ensures forall i :: 0 <= i < pontC ==> elements[2 * i] == i && elements[2 * i + 1] == (i + 1) % pontC
    ensures forall j :: 0 <= j < |elements| ==> elements[j] < pontC
  {
    points, elements := [], [];
    for i := 0 to pontC
      invariant |points| == i && |elements| == 2 * i
      invariant forall k :: 0 <= k < i ==> points[k] == Vec3(sinCos(k).0 * rad, 0.0, sinCos(k).1 * rad)
      invariant forall k :: 0 <= k < i ==> elements[2 * k] == k && elements[2 * k + 1] == (k + 1) % pontC
      invariant forall j :: 0 <= j < |elements| ==> elements[j] < pontC
    {
      var (s, c) := sinCos(i);
      points := points + [Vec3(s * rad, 0.0, c * rad)];
      elements := elements + [i, (i + 1) % pontC];
    }
  }

  /** The point before `j` on a loop of `n` points. */
  function Pred(j: nat, n: nat): (p: nat)
    requires j < n
    ensures p < n && (p + 1) % n == j
  {
    if j == 0 then
      assert (n - 1 + 1) % n == 0;
      n - 1
    else
      assert j % n == j;
      j - 1
  }

  /** The end point of segment `i`. */
  function SegmentEnd(elements: seq<nat>, i: nat): nat
    requires 2 * i + 1 < |elements|
  {
    elements[2 * i + 1]
  }

  /** In the circle's index list every point starts exactly one segment
      and ends exactly one: the segment ending at `j` is the one that
      starts at its predecessor, and no two segments end at the same point. */
  lemma CircleEndsArePermutation(pontC: nat, elements: seq<nat>)
    requires |elements| == 2 * pontC
    requires forall i :: 0 <= i < pontC ==> elements[2 * i] == i && elements[2 * i + 1] == (i + 1) % pontC
    ensures forall j :: 0 <= j < pontC ==> SegmentEnd(elements, Pred(j, pontC)) == j
    ensures forall i, i' :: 0 <= i < i' < pontC ==> SegmentEnd(elements, i) != SegmentEnd(elements, i')
  {
    forall j | 0 <= j < pontC
      ensures SegmentEnd(elements, Pred(j, pontC)) == j
    {
      var p := Pred(j, pontC);
      assert elements[2 * p + 1] == (p + 1) % pontC;
    }
    forall i, i' | 0 <= i < i' < pontC
      ensures SegmentEnd(elements, i) != SegmentEnd(elements, i')
    {
      EndsDistinct(pontC, elements, i, i');
    }
  }

  lemma EndsDistinct(pontC: nat, elements: seq<nat>, i: nat, i': nat)
    requires |elements| == 2 * pontC && i < i' < pontC
    requires elements[2 * i + 1] == (i + 1) % pontC && elements[2 * i' + 1] == (i' + 1) % pontC
    ensures SegmentEnd(elements, i) != SegmentEnd(elements, i')
  {
    assert (i + 1) % pontC == i + 1;
    if i' + 1 < pontC {
      assert (i' + 1) % pontC == i' + 1;
    } else {
      assert (i' + 1) % pontC == 0;
    }
  }
}
