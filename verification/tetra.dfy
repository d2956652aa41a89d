/** The tetrahedron helper: a regular-looking tetrahedron of a given
    radius, the zero tetrahedron, the four constraint vectors and the
    signed volume.  All identities are exact over the reals. */
module Tetra {
  import opened Base

  /** Four vertices and a rest length. */
  datatype Tetrahedral = Tetrahedral(v1: Vec3, v2: Vec3, v3: Vec3, v4: Vec3, rest: real)

  /** The scalar triple product `(a × b) · c`. */
  function Triple(a: Vec3, b: Vec3, c: Vec3): real {
    Dot3(Cross(a, b), c)
  }

  /** `get_volume`: a sixth of the triple product of the edges from `v1`. */
  function Volume(t: Tetrahedral): real {
    (1.0 / 6.0) * Triple(Sub3(t.v2, t.v1), Sub3(t.v3, t.v1), Sub3(t.v4, t.v1))
  }

  /** `get_constraints`: one vector per vertex, in vertex order. */
  function Constraints(t: Tetrahedral): (c: seq<Vec3>)
    ensures |c| == 4
    ensures c[3] == Cross(Sub3(t.v2, t.v1), Sub3(t.v3, t.v1))
  {
    [ Cross(Sub3(t.v4, t.v2), Sub3(t.v3, t.v2)),
      Cross(Sub3(t.v3, t.v1), Sub3(t.v4, t.v1)),
      Cross(Sub3(t.v4, t.v1), Sub3(t.v2, t.v1)),
      Cross(Sub3(t.v2, t.v1), Sub3(t.v3, t.v1)) ]
  }

  /** `Tetrahedral::new(r)`; `sqrt3` stands for the square root of 3. */
  function New(r: real, sqrt3: real): (t: Tetrahedral)
    ensures t.v1.y == 0.0 && t.v2.y == 0.0 && t.v3.y == 0.0
    ensures t.v4 == Vec3(0.0, sqrt3 * (sqrt3 * r), 0.0)
    ensures t.rest == 2.0 * (sqrt3 * r)
  {
    var x := sqrt3 * r;
    var h := sqrt3 * x;
    Tetrahedral(Vec3(-x, 0.0, -r), Vec3(x, 0.0, -r), Vec3(0.0, 0.0, 2.0 * r), Vec3(0.0, h, 0.0), 2.0 * x)
  }

  /** `Tetrahedral::zero()`. */
  function Zero(): (t: Tetrahedral)
    ensures Volume(t) == 0.0 && t.rest == 0.0
    ensures Constraints(t) == [Zero3, Zero3, Zero3, Zero3]
  {
    var t := Tetrahedral(Zero3, Zero3, Zero3, Zero3, 0.0);
    assert Sub3(Zero3, Zero3) == Zero3 && Cross(Zero3, Zero3) == Zero3;
    t
  }

  /** The volume of `new(r)` is `-x r h`; with this vertex order it is
      negative for every positive radius. */
  lemma NewVolume(r: real, sqrt3: real)
    ensures Volume(New(r, sqrt3)) == -(sqrt3 * r) * r * (sqrt3 * (sqrt3 * r))
    ensures sqrt3 > 0.0 && r > 0.0 ==> Volume(New(r, sqrt3)) < 0.0
  {
    var x := sqrt3 * r;
    var h := sqrt3 * x;
    var t := New(r, sqrt3);
    assert Sub3(t.v2, t.v1) == Vec3(2.0 * x, 0.0, 0.0);
    assert Sub3(t.v3, t.v1) == Vec3(x, 0.0, 3.0 * r);
    assert Cross(Sub3(t.v2, t.v1), Sub3(t.v3, t.v1)) == Vec3(0.0, -6.0 * x * r, 0.0);
    assert Sub3(t.v4, t.v1) == Vec3(x, h, r);
    if sqrt3 > 0.0 && r > 0.0 {
      assert x > 0.0 && h > 0.0;
      assert x * r > 0.0;
      assert x * r * h > 0.0;
    }
  }

  /** The volume is `c4 · (v4 - v1) / 6`. */
  lemma VolumeFromC4(t: Tetrahedral)
    ensures 6.0 * Volume(t) == Dot3(Constraints(t)[3], Sub3(t.v4, t.v1))
  {
  }

  /** Each constraint vector is the gradient of six times the volume with
      respect to its vertex: moving that vertex onto a neighbour along its
      constraint sweeps out the whole volume. */
  lemma ConstraintsGiveVolume(t: Tetrahedral)
    ensures Dot3(Constraints(t)[0], Sub3(t.v1, t.v2)) == 6.0 * Volume(t)
    ensures Dot3(Constraints(t)[1], Sub3(t.v2, t.v1)) == 6.0 * Volume(t)
    ensures Dot3(Constraints(t)[2], Sub3(t.v3, t.v1)) == 6.0 * Volume(t)
    ensures Dot3(Constraints(t)[3], Sub3(t.v4, t.v1)) == 6.0 * Volume(t)
  {
    var a, b, c := Sub3(t.v2, t.v1), Sub3(t.v3, t.v1), Sub3(t.v4, t.v1);
    var cs := Constraints(t);
    assert Sub3(t.v4, t.v2) == Sub3(c, a) && Sub3(t.v3, t.v2) == Sub3(b, a) && Sub3(t.v1, t.v2) == Scale3(-1.0, a);
    TripleExpand(a, b, c);
    assert cs[0] == Cross(Sub3(c, a), Sub3(b, a));
    C1Identity(a, b, c);
    assert cs[2] == Cross(c, a);
    TripleExpand(c, a, b);
    assert Triple(c, a, b) == Triple(a, b, c);
  }

  lemma TripleExpand(a: Vec3, b: Vec3, c: Vec3)
    ensures Triple(a, b, c) == a.x * (b.y * c.z - b.z * c.y) + a.y * (b.z * c.x - b.x * c.z) + a.z * (b.x * c.y - b.y * c.x)
  {
  }

  lemma C1Identity(a: Vec3, b: Vec3, c: Vec3)
    ensures Dot3(Cross(Sub3(c, a), Sub3(b, a)), Scale3(-1.0, a)) == Triple(a, b, c)
  {
    TripleExpand(a, b, c);
  }

  /** The four constraint vectors sum to zero, as the volume does not
      change when all vertices move together. */
  lemma ConstraintsSumToZero(t: Tetrahedral)
    ensures Add3(Add3(Constraints(t)[0], Constraints(t)[1]), Add3(Constraints(t)[2], Constraints(t)[3])) == Zero3
  {
    var c := Constraints(t);
    ConstraintsSumX(t.v1, t.v2, t.v3, t.v4);
    ConstraintsSumY(t.v1, t.v2, t.v3, t.v4);
    ConstraintsSumZ(t.v1, t.v2, t.v3, t.v4);
  }

  lemma ConstraintsSumX(p: Vec3, q: Vec3, r: Vec3, s: Vec3)
    ensures Cross(Sub3(s, q), Sub3(r, q)).x + Cross(Sub3(r, p), Sub3(s, p)).x
          + (Cross(Sub3(s, p), Sub3(q, p)).x + Cross(Sub3(q, p), Sub3(r, p)).x) == 0.0
  {
  }

  lemma ConstraintsSumY(p: Vec3, q: Vec3, r: Vec3, s: Vec3)
    ensures Cross(Sub3(s, q), Sub3(r, q)).y + Cross(Sub3(r, p), Sub3(s, p)).y
          + (Cross(Sub3(s, p), Sub3(q, p)).y + Cross(Sub3(q, p), Sub3(r, p)).y) == 0.0
  {
  }

  lemma ConstraintsSumZ(p: Vec3, q: Vec3, r: Vec3, s: Vec3)
    ensures Cross(Sub3(s, q), Sub3(r, q)).z + Cross(Sub3(r, p), Sub3(s, p)).z
          + (Cross(Sub3(s, p), Sub3(q, p)).z + Cross(Sub3(q, p), Sub3(r, p)).z) == 0.0
  {
  }

  function Translate(t: Tetrahedral, d: Vec3): Tetrahedral {
    Tetrahedral(Add3(t.v1, d), Add3(t.v2, d), Add3(t.v3, d), Add3(t.v4, d), t.rest)
  }

  /** Moving all four vertices by the same vector keeps the volume. */
  lemma VolumeTranslationInvariant(t: Tetrahedral, d: Vec3)
    ensures Volume(Translate(t, d)) == Volume(t)
  {
    var u := Translate(t, d);
    assert Sub3(u.v2, u.v1) == Sub3(t.v2, t.v1);
    assert Sub3(u.v3, u.v1) == Sub3(t.v3, t.v1);
    assert Sub3(u.v4, u.v1) == Sub3(t.v4, t.v1);
  }

  /** Swapping any two vertices negates the volume. */
  lemma SwapNegatesVolume(t: Tetrahedral)
    ensures Volume(t.(v1 := t.v2, v2 := t.v1)) == -Volume(t)
    ensures Volume(t.(v1 := t.v3, v3 := t.v1)) == -Volume(t)
    ensures Volume(t.(v1 := t.v4, v4 := t.v1)) == -Volume(t)
    ensures Volume(t.(v2 := t.v3, v3 := t.v2)) == -Volume(t)
    ensures Volume(t.(v2 := t.v4, v4 := t.v2)) == -Volume(t)
    ensures Volume(t.(v3 := t.v4, v4 := t.v3)) == -Volume(t)
  {
    var a, b, c := Sub3(t.v2, t.v1), Sub3(t.v3, t.v1), Sub3(t.v4, t.v1);
    var m := Scale3(-1.0, a);
    assert Sub3(t.v1, t.v2) == m && Sub3(t.v3, t.v2) == Sub3(b, a) && Sub3(t.v4, t.v2) == Sub3(c, a);
    TripleRebase(a, b, c);
    assert Sub3(t.v2, t.v3) == Sub3(a, b) && Sub3(t.v1, t.v3) == Scale3(-1.0, b) && Sub3(t.v4, t.v3) == Sub3(c, b);
    TripleRebase(b, a, c);
    TripleSwaps(a, b, c);
    assert Sub3(t.v2, t.v4) == Sub3(a, c) && Sub3(t.v3, t.v4) == Sub3(b, c) && Sub3(t.v1, t.v4) == Scale3(-1.0, c);
    TripleRebase(c, b, a);
    TripleSwaps(c, b, a);
    TripleSwaps(a, c, b);
  }

  /** Re-basing the edges at the first of them. */
  lemma TripleRebase(a: Vec3, b: Vec3, c: Vec3)
    ensures Triple(Scale3(-1.0, a), Sub3(b, a), Sub3(c, a)) == -Triple(a, b, c)
    ensures Triple(Sub3(b, a), Scale3(-1.0, a), Sub3(c, a)) == Triple(a, b, c)
    ensures Triple(Sub3(c, a), Sub3(b, a), Scale3(-1.0, a)) == Triple(a, b, c)
  {
    TripleExpand(a, b, c);
  }

  /** The triple product is alternating. */
  lemma TripleSwaps(a: Vec3, b: Vec3, c: Vec3)
    ensures Triple(b, a, c) == -Triple(a, b, c)
    ensures Triple(c, b, a) == -Triple(a, b, c)
    ensures Triple(a, c, b) == -Triple(a, b, c)
  {
    TripleExpand(a, b, c);
    TripleExpand(b, a, c);
    TripleExpand(c, b, a);
    TripleExpand(a, c, b);
  }
}
