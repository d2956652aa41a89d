/** The tetrahedral soft body: lattice construction, the edge list between
    near particles, and one simulation step as four stages run in a fixed
    order (integrate, relax edges, clamp to the floor, recover velocities). */
module Softbody {
  import opened Base

  /** A soft body.  `temp` holds the positions before integration, `vel`
      the velocities; `edges` is a flat list read two entries at a time.
      The source also carries a `tetras` list that nothing fills. */
  datatype Softbody = Softbody(
    particles: seq<Vec3>,
    colors: seq<Vec3>,
    temp: seq<Vec3>,
    vel: seq<Vec3>,
    edges: seq<nat>,
    a: real)

  // ---------------------------------------------------------------------
  // The lattice
  // ---------------------------------------------------------------------

  /** Rows with even z are shifted by half a spacing along x. */
  function XOff(z: nat, a: real): real { if z % 2 == 0 then a / 2.0 else 0.0 }

  /** Layers with even y are shifted by two thirds of a row height along z. */
  function ZOff(y: nat, ha: real): real { if y % 2 == 0 then ha * 2.0 / 3.0 else 0.0 }

  /** The particle at lattice coordinates `(x, y, z)`, for spacing `a`,
      row height `ha` and layer height `h`. */
  function LatticePoint(a: real, ha: real, h: real, x: nat, y: nat, z: nat): Vec3 {
    Vec3(x as real * a + XOff(z, a), y as real * h, z as real * ha + ZOff(y, ha))
  }

  lemma RowMajorBound(z: nat, x: nat, l: nat, n: nat)
    requires z < n && x < l
    ensures z * l + x < n * l
  {
    MulLe(z + 1, n, l);
    assert (z + 1) * l == z * l + l;
  }

  lemma MulLe(a: nat, b: nat, c: nat)
    requires a <= b
    ensures a * c <= b * c
  {
    var d: nat := b - a;
    assert b * c == a * c + d * c;
  }

  /** The innermost loop: `x` from 0 below `n` at fixed `y` and `z`. */
  function XRun(a: real, ha: real, h: real, y: nat, z: nat, n: nat): (r: seq<Vec3>)
    ensures |r| == n
    ensures forall x :: 0 <= x < n ==> r[x] == LatticePoint(a, ha, h, x, y, z)
  {
    if n == 0 then [] else XRun(a, ha, h, y, z, n - 1) + [LatticePoint(a, ha, h, n - 1, y, z)]
  }

  /** The middle loop: `z` from 0 below `n`, each a full run of `l`. */
  function ZRun(a: real, ha: real, h: real, l: nat, y: nat, n: nat): (r: seq<Vec3>)
    ensures |r| == n * l
  {
    if n == 0 then [] else ZRun(a, ha, h, l, y, n - 1) + XRun(a, ha, h, y, n - 1, l)
  }

  /** The outer loop: `y` from 0 below `n`, each a full layer of `l * l`. */
  function YRun(a: real, ha: real, h: real, l: nat, n: nat): (r: seq<Vec3>)
    ensures |r| == n * (l * l)
  {
    if n == 0 then [] else YRun(a, ha, h, l, n - 1) + ZRun(a, ha, h, l, n - 1, l)
  }

  /** Within a layer, the particle of row `z`, column `x` sits at `z l + x`. */
  lemma {:induction false} ZRunAt(a: real, ha: real, h: real, l: nat, y: nat, n: nat, z: nat, x: nat)
    requires z < n && x < l
    ensures z * l + x < n * l
    ensures ZRun(a, ha, h, l, y, n)[z * l + x] == LatticePoint(a, ha, h, x, y, z)
  {
    RowMajorBound(z, x, l, n);
    var prev := ZRun(a, ha, h, l, y, n - 1);
    if z < n - 1 {
      RowMajorBound(z, x, l, n - 1);
      ZRunAt(a, ha, h, l, y, n - 1, z, x);
    } else {
      assert z * l + x == |prev| + x;
    }
  }

  /** In the lattice, the particle at `(x, y, z)` sits at `y l² + z l + x`. */
  lemma {:induction false} YRunAt(a: real, ha: real, h: real, l: nat, n: nat, y: nat, z: nat, x: nat)
    requires y < n && z < l && x < l
    ensures y * (l * l) + (z * l + x) < n * (l * l)
    ensures YRun(a, ha, h, l, n)[y * (l * l) + (z * l + x)] == LatticePoint(a, ha, h, x, y, z)
  {
    ZRunAt(a, ha, h, l, y, l, z, x);
    RowMajorBound(y, z * l + x, l * l, n);
    var prev := YRun(a, ha, h, l, n - 1);
    if y < n - 1 {
      YRunAt(a, ha, h, l, n - 1, y, z, x);
    } else {
      assert y * (l * l) + (z * l + x) == |prev| + (z * l + x);
    }
  }

  /** `build_tetragrid(a, l)`.  `root32` and `root23` stand for the square
      roots `sqrt(3)/2` and `sqrt(2/3)` the source computes. */
  function BuildTetragrid(a: real, l: nat, root32: real, root23: real): (s: Softbody)
    ensures |s.particles| == |s.colors| == |s.temp| == |s.vel| == l * l * l
    ensures forall k :: 0 <= k < |s.colors| ==> s.colors[k] == UnitX3
    ensures forall k :: 0 <= k < |s.temp| ==> s.temp[k] == Zero3 && s.vel[k] == Zero3
    ensures s.edges == BuildEdges(s.particles, a) && s.a == a
  {
    var ps := YRun(a, root32 * a, root23 * a, l, l);
    assert l * (l * l) == l * l * l;
    Softbody(ps, seq(|ps|, _ => UnitX3), seq(|ps|, _ => Zero3), seq(|ps|, _ => Zero3), BuildEdges(ps, a), a)
  }

  /** The lattice is y-major, then z, then x. */
  lemma TetragridLayout(a: real, l: nat, root32: real, root23: real, y: nat, z: nat, x: nat)
    requires y < l && z < l && x < l
    ensures y * (l * l) + (z * l + x) < |BuildTetragrid(a, l, root32, root23).particles|
    ensures BuildTetragrid(a, l, root32, root23).particles[y * (l * l) + (z * l + x)]
      == LatticePoint(a, root32 * a, root23 * a, x, y, z)
  {
    YRunAt(a, root32 * a, root23 * a, l, l, y, z, x);
  }

  /** Offsets follow the parity rule: the x offset is present exactly on
      even rows, the z offset exactly on even layers. */
  lemma LatticeOffsets(a: real, ha: real, h: real, x: nat, y: nat, z: nat)
    requires a > 0.0 && ha > 0.0
    ensures LatticePoint(a, ha, h, x, y, z).x > x as real * a <==> z % 2 == 0
    ensures LatticePoint(a, ha, h, x, y, z).z > z as real * ha <==> y % 2 == 0
    ensures LatticePoint(a, ha, h, x, y, z).y == y as real * h
  {
  }

  // ---------------------------------------------------------------------
  // The edge list
  // ---------------------------------------------------------------------

  /** The distance test of `build_edges`: `|ps[i] - ps[j]| < a + 0.01`. */
  predicate Near(ps: seq<Vec3>, a: real, i: nat, j: nat)
    requires i < |ps| && j < |ps|
  {
    ShorterThan3(Sub3(ps[i], ps[j]), a + 0.01)
  }

  /** The inner loop of `build_edges`: partners `y` of particle `i`, from
      `from` up to the last particle. */
  function EdgesFrom(ps: seq<Vec3>, a: real, i: nat, from: nat): (r: seq<Pair>)
    requires i < |ps|
    ensures forall p :: p in r <==> p.0 == i && from <= p.1 < |ps| && Near(ps, a, i, p.1)
    ensures forall k, m :: 0 <= k < m < |r| ==> r[k].1 < r[m].1
    decreases |ps| - from
  {
    if from >= |ps| then []
    else (if Near(ps, a, i, from) then [(i, from)] else []) + EdgesFrom(ps, a, i, from + 1)
  }

  /** The outer loop of `build_edges`, from particle `i` on. */
  function EdgePairs(ps: seq<Vec3>, a: real, i: nat): (r: seq<Pair>)
    requires i <= |ps|
    ensures forall p :: p in r <==> i <= p.0 < p.1 < |ps| && Near(ps, a, p.0, p.1)
    ensures LexIncreasing(r)
    decreases |ps| - i
  {
    if i == |ps| then []
    else
      var head := EdgesFrom(ps, a, i, i + 1);
      var rest := EdgePairs(ps, a, i + 1);
      assert LexIncreasing(head);
      ConcatLex(head, rest);
      head + rest
  }

  /** Pairs written out flat, as `build_edges` pushes them. */
  function Flatten(pairs: seq<Pair>): (r: seq<nat>)
    ensures |r| == 2 * |pairs|
  {
    if |pairs| == 0 then [] else [pairs[0].0, pairs[0].1] + Flatten(pairs[1..])
  }

  /** A flat list read two entries at a time, as `edge` reads it. */
  function Strided(e: seq<nat>): (r: seq<Pair>)
    requires |e| % 2 == 0
    ensures |r| == |e| / 2
  {
    if |e| == 0 then [] else [(e[0], e[1])] + Strided(e[2..])
  }

  /** Reading the flat list back at stride two gives the pairs again. */
  lemma {:induction false} StridedFlatten(pairs: seq<Pair>)
    ensures Strided(Flatten(pairs)) == pairs
  {
    if |pairs| > 0 {
      var f := Flatten(pairs);
      assert f[2..] == Flatten(pairs[1..]);
      StridedFlatten(pairs[1..]);
    }
  }

  /** And flattening the stride-two reading gives the list again. */
  lemma {:induction false} FlattenStrided(e: seq<nat>)
    requires |e| % 2 == 0
    ensures Flatten(Strided(e)) == e
  {
    if |e| > 0 {
      var s := Strided(e);
      assert s[1..] == Strided(e[2..]);
      FlattenStrided(e[2..]);
    }
  }

  /** `build_edges(a)`: clears the list, then pushes `i, y` for every pair
      `i < y` of near particles. */
  function BuildEdges(ps: seq<Vec3>, a: real): (r: seq<nat>)
    ensures |r| % 2 == 0
    ensures forall p :: p in Strided(r) <==> p.0 < p.1 < |ps| && Near(ps, a, p.0, p.1)
    ensures LexIncreasing(Strided(r))
  {
    var pairs := EdgePairs(ps, a, 0);
    StridedFlatten(pairs);
    Flatten(pairs)
  }

  /** Every flat entry of the edge list names a particle. */
  lemma BuildEdgesInRange(ps: seq<Vec3>, a: real, k: nat)
    requires k < |BuildEdges(ps, a)|
    ensures BuildEdges(ps, a)[k] < |ps|
  {
    var r := BuildEdges(ps, a);
    var j := k / 2;
    StridedIndex(r, j);
    var p := Strided(r)[j];
    assert p in Strided(r);
    assert p.0 < p.1 < |ps|;
    assert k == 2 * j || k == 2 * j + 1;
  }

  /** No pair of the list joins a particle to itself. */
  predicate NoSelfLoop(edges: seq<nat>)
    requires |edges| % 2 == 0
  {
    forall p :: p in Strided(edges) ==> p.0 != p.1
  }

  lemma BuildEdgesNoSelfLoop(ps: seq<Vec3>, a: real)
    ensures NoSelfLoop(BuildEdges(ps, a))
  {
  }

  lemma {:induction false} StridedIndex(e: seq<nat>, k: nat)
    requires |e| % 2 == 0 && k < |e| / 2
    ensures Strided(e)[k] == (e[2 * k], e[2 * k + 1])
  {
    if k > 0 {
      StridedIndex(e[2..], k - 1);
    }
  }

  // ---------------------------------------------------------------------
  // The four stages of a step
  // ---------------------------------------------------------------------

  const Gravity: Vec3 := Vec3(0.0, -1.0, 0.0)

  /** The per-particle loops index `temp` and `vel` up to the particle
      count, so both must be at least that long. */
  predicate Aligned(s: Softbody) {
    |s.temp| >= |s.particles| && |s.vel| >= |s.particles|
  }

  /** `pre_solve(dt)`: per particle, add `g dt` to the velocity, save the
      position in `temp`, then move the particle by the new velocity. */
  function PreSolve(s: Softbody, dt: real): (r: Result<Softbody>)
    ensures r.Ok? <==> Aligned(s)
    ensures r.Ok? ==> r.value.(particles := s.particles, temp := s.temp, vel := s.vel) == s
    ensures r.Ok? ==> |r.value.particles| == |s.particles| && |r.value.temp| == |s.temp| && |r.value.vel| == |s.vel|
    ensures r.Ok? ==> forall k :: 0 <= k < |s.particles| ==>
      && r.value.vel[k] == Add3(s.vel[k], Scale3(dt, Gravity))
      && r.value.temp[k] == s.particles[k]
      && r.value.particles[k] == Add3(s.particles[k], Scale3(dt, r.value.vel[k]))
    ensures r.Ok? ==> forall k :: |s.particles| <= k < |s.temp| ==> r.value.temp[k] == s.temp[k]
    ensures r.Ok? ==> forall k :: |s.particles| <= k < |s.vel| ==> r.value.vel[k] == s.vel[k]
  {
    if !Aligned(s) then Panic("index out of bounds")
    else
      var n := |s.particles|;
      var vel := seq(|s.vel|, k requires 0 <= k < |s.vel| =>
        if k < n then Add3(s.vel[k], Scale3(dt, Gravity)) else s.vel[k]);
      var temp := seq(|s.temp|, k requires 0 <= k < |s.temp| =>
        if k < n then s.particles[k] else s.temp[k]);
      var ps := seq(n, k requires 0 <= k < n => Add3(s.particles[k], Scale3(dt, vel[k])));
      Ok(s.(particles := ps, temp := temp, vel := vel))
  }

  /** `post_solve(dt)`: the velocity becomes the displacement since
      `pre_solve` divided by `dt`.  Only `vel` is written. */
  function PostSolve(s: Softbody, dt: real): (r: Result<Softbody>)
    requires dt != 0.0
    ensures r.Ok? <==> Aligned(s)
    ensures r.Ok? ==> r.value.(vel := s.vel) == s && |r.value.vel| == |s.vel|
    ensures r.Ok? ==> forall k :: 0 <= k < |s.particles| ==>
      Scale3(dt, r.value.vel[k]) == Sub3(s.particles[k], s.temp[k])
    ensures r.Ok? ==> forall k :: |s.particles| <= k < |s.vel| ==> r.value.vel[k] == s.vel[k]
  {
    if !Aligned(s) then Panic("index out of bounds")
    else
      var n := |s.particles|;
      var vel := seq(|s.vel|, k requires 0 <= k < |s.vel| =>
        if k < n then Div3(Sub3(s.particles[k], s.temp[k]), dt) else s.vel[k]);
      Ok(s.(vel := vel))
  }

  /** Componentwise division by a scalar, as cgmath's `v / s`. */
  function Div3(v: Vec3, d: real): (r: Vec3)
    requires d != 0.0
    ensures Scale3(d, r) == v
  {
    Vec3(v.x / d, v.y / d, v.z / d)
  }

  /** With nothing in between, `post_solve` recovers exactly the velocity
      `pre_solve` integrated with. */
  lemma PrePostRoundTrip(s: Softbody, dt: real)
    requires dt != 0.0 && Aligned(s)
    ensures PreSolve(s, dt).Ok? && PostSolve(PreSolve(s, dt).value, dt).Ok?
    ensures PostSolve(PreSolve(s, dt).value, dt).value.vel == PreSolve(s, dt).value.vel
  {
    var s1 := PreSolve(s, dt).value;
    var s2 := PostSolve(s1, dt).value;
    forall k | 0 <= k < |s1.vel| ensures s2.vel[k] == s1.vel[k] {
      if k < |s.particles| {
        ScaleCancel(dt, s2.vel[k], s1.vel[k]);
      }
    }
  }

  lemma ScaleCancel(d: real, u: Vec3, v: Vec3)
    requires d != 0.0 && Scale3(d, u) == Scale3(d, v)
    ensures u == v
  {
    assert d * u.x == d * v.x && d * u.y == d * v.y && d * u.z == d * v.z;
  }

  /** One iteration of `edge`: pull particles `e1` and `e2` toward rest
      length `a`.  `magnitude` and `unit` stand for cgmath's `magnitude`
      and the division by it; `dt = 0` makes the f32 denominator infinite,
      so the correction is zero. */
  function Relax(ps: seq<Vec3>, e1: nat, e2: nat, a: real, dt: real,
                 magnitude: Vec3 -> real, unit: Vec3 -> Vec3): (r: seq<Vec3>)
    requires e1 < |ps| && e2 < |ps|
    ensures |r| == |ps|
    ensures forall k :: 0 <= k < |ps| && k != e1 && k != e2 ==> r[k] == ps[k]
    ensures e1 != e2 ==> Add3(r[e1], r[e2]) == Add3(ps[e1], ps[e2])
  {
    var v1, v2 := ps[e1], ps[e2];
    var d := Sub3(v1, v2);
    var g := unit(d);
    var c := magnitude(d) - a;
    var lamb := if dt == 0.0 then 0.0 else -c / (2.0 + 0.01 / (dt * dt));
    ps[e1 := Add3(v1, Scale3(lamb, g))][e2 := Sub3(v2, Scale3(lamb, g))]
  }

  /** The edge list is well formed for `edge`: an even number of entries,
      each naming a particle. */
  predicate EdgesValid(edges: seq<nat>, n: nat) {
    |edges| % 2 == 0 && forall k :: 0 <= k < |edges| ==> edges[k] < n
  }

  /** `edge(dt)`: relaxes the pairs in order.  An odd-length list panics on
      `edges[i + 1]`, an index past the particles panics on `unwrap`. */
  function Edge(ps: seq<Vec3>, edges: seq<nat>, a: real, dt: real,
                magnitude: Vec3 -> real, unit: Vec3 -> Vec3): (r: Result<seq<Vec3>>)
    ensures r.Ok? <==> EdgesValid(edges, |ps|)
    ensures r.Ok? ==> |r.value| == |ps|
    ensures r.Ok? ==> forall k :: 0 <= k < |ps| && k !in edges ==> r.value[k] == ps[k]
    decreases |edges|
  {
    if |edges| == 0 then Ok(ps)
    else if |edges| == 1 then Panic("index out of bounds")
    else if edges[0] >= |ps| || edges[1] >= |ps| then
      assert !EdgesValid(edges, |ps|) by {
        assert edges[0] >= |ps| ==> !(edges[0] < |ps|);
      }
      Panic("called `Option::unwrap()` on a `None` value")
    else
      var rest := Edge(Relax(ps, edges[0], edges[1], a, dt, magnitude, unit), edges[2..], a, dt, magnitude, unit);
      assert forall k :: k in edges[2..] ==> k in edges;
      assert EdgesValid(edges, |ps|) <==> EdgesValid(edges[2..], |ps|) by {
        if EdgesValid(edges[2..], |ps|) {
          forall k | 0 <= k < |edges| ensures edges[k] < |ps| {
            if k >= 2 { assert edges[k] == edges[2..][k - 2]; }
          }
        }
      }
      rest
  }

  /** The sum of all particle positions. */
  function Sum(ps: seq<Vec3>): Vec3 {
    if |ps| == 0 then Zero3 else Add3(ps[0], Sum(ps[1..]))
  }

  lemma {:induction false} SumUpdate(ps: seq<Vec3>, k: nat, v: Vec3)
    requires k < |ps|
    ensures Sum(ps[k := v]) == Add3(Sub3(Sum(ps), ps[k]), v)
  {
    if k == 0 {
      assert ps[k := v][1..] == ps[1..];
    } else {
      assert ps[k := v][1..] == ps[1..][k - 1 := v];
      SumUpdate(ps[1..], k - 1, v);
    }
  }

  /** Without self-loops every relaxation moves its two particles by
      opposite amounts, so `edge` keeps the centre of mass. */
  lemma {:induction false} EdgeKeepsSum(ps: seq<Vec3>, edges: seq<nat>, a: real, dt: real,
                                        magnitude: Vec3 -> real, unit: Vec3 -> Vec3)
    requires EdgesValid(edges, |ps|) && NoSelfLoop(edges)
    ensures Sum(Edge(ps, edges, a, dt, magnitude, unit).value) == Sum(ps)
    decreases |edges|
  {
    if |edges| > 0 {
      var e1, e2 := edges[0], edges[1];
      assert Strided(edges) == [(e1, e2)] + Strided(edges[2..]);
      assert (e1, e2) in Strided(edges);
      var next := Relax(ps, e1, e2, a, dt, magnitude, unit);
      var mid := ps[e1 := next[e1]];
      assert next == mid[e2 := next[e2]];
      SumUpdate(ps, e1, next[e1]);
      SumUpdate(mid, e2, next[e2]);
      assert EdgesValid(edges[2..], |ps|) by {
        forall k | 0 <= k < |edges[2..]| ensures edges[2..][k] < |ps| {
          assert edges[2..][k] == edges[k + 2];
        }
      }
      EdgeKeepsSum(next, edges[2..], a, dt, magnitude, unit);
    }
  }

  /** The floor clamp of one particle. */
  function Clamp(v: Vec3): Vec3 {
    if v.y < 0.0 then Vec3(v.x, 0.0, v.z) else v
  }

  /** `harddeck`: lifts every particle below the floor onto it. */
  function Harddeck(ps: seq<Vec3>): (r: seq<Vec3>)
    ensures |r| == |ps|
    ensures forall k :: 0 <= k < |r| ==> r[k].y >= 0.0 && r[k].x == ps[k].x && r[k].z == ps[k].z
    ensures forall k :: 0 <= k < |r| && ps[k].y >= 0.0 ==> r[k] == ps[k]
    ensures forall k :: 0 <= k < |r| && ps[k].y < 0.0 ==> r[k].y == 0.0
  {
    seq(|ps|, k requires 0 <= k < |ps| => Clamp(ps[k]))
  }

  lemma HarddeckIdempotent(ps: seq<Vec3>)
    ensures Harddeck(Harddeck(ps)) == Harddeck(ps)
  {
  }

  /** `simulate(dt)`: pre-solve, edge relaxation, floor clamp, post-solve,
      in that order.  `dt = 0` divides by zero in `post_solve`, which f32
      turns into infinities; the model leaves that case out. */
  function Simulate(s: Softbody, dt: real, magnitude: Vec3 -> real, unit: Vec3 -> Vec3): (r: Result<Softbody>)
    requires dt != 0.0
    ensures r.Ok? <==> Aligned(s) && EdgesValid(s.edges, |s.particles|)
    ensures r.Ok? ==> forall k :: 0 <= k < |r.value.particles| ==> r.value.particles[k].y >= 0.0
    ensures r.Ok? ==> && |r.value.particles| == |s.particles|
                      && |r.value.temp| == |s.temp|
                      && |r.value.vel| == |s.vel|
                      && r.value.colors == s.colors
                      && r.value.edges == s.edges
                      && r.value.a == s.a
  {
    match PreSolve(s, dt)
    case Panic(why) => Panic(why)
    case Ok(s1) =>
      match Edge(s1.particles, s1.edges, s1.a, dt, magnitude, unit)
      case Panic(why) => Panic(why)
      case Ok(ps) => PostSolve(s1.(particles := Harddeck(ps)), dt)
  }

  /** After a step the particle positions are those of `edge` followed by
      the clamp, so particles no edge names only fell under gravity. */
  lemma SimulateFreeFall(s: Softbody, dt: real, magnitude: Vec3 -> real, unit: Vec3 -> Vec3, k: nat)
    requires dt != 0.0 && Aligned(s) && EdgesValid(s.edges, |s.particles|)
    requires k < |s.particles| && k !in s.edges
    ensures Simulate(s, dt, magnitude, unit).value.particles[k]
      == Clamp(Add3(s.particles[k], Scale3(dt, Add3(s.vel[k], Scale3(dt, Gravity)))))
  {
  }
}
