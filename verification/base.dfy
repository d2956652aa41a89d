/** Shared vocabulary of the model: optional values, panicking results,
    real-valued vectors, and the integer conversions Rust performs
    implicitly (`as i32` on floats, truncating division, wrapping casts). */
module Base {

  /** Rust's `Option`. */
  datatype Option<+T> = None | Some(value: T)

  /** The outcome of an operation that may panic.  A panic aborts the
      program, so the state it would have left behind is not modelled. */
  datatype Result<+T> = Ok(value: T) | Panic(reason: string)

  // ---------------------------------------------------------------------
  // Vectors (cgmath's Vector2/3/4 over f32, read as reals)
  // ---------------------------------------------------------------------

  datatype Vec2 = Vec2(x: real, y: real)
  datatype Vec3 = Vec3(x: real, y: real, z: real)
  datatype Vec4 = Vec4(x: real, y: real, z: real, w: real)

  function Add2(a: Vec2, b: Vec2): Vec2 { Vec2(a.x + b.x, a.y + b.y) }
  function Sub2(a: Vec2, b: Vec2): Vec2 { Vec2(a.x - b.x, a.y - b.y) }
  function Scale2(k: real, a: Vec2): Vec2 { Vec2(k * a.x, k * a.y) }
  function Dot2(a: Vec2, b: Vec2): real { a.x * b.x + a.y * b.y }

  function Add3(a: Vec3, b: Vec3): Vec3 { Vec3(a.x + b.x, a.y + b.y, a.z + b.z) }
  function Sub3(a: Vec3, b: Vec3): Vec3 { Vec3(a.x - b.x, a.y - b.y, a.z - b.z) }
  function Scale3(k: real, a: Vec3): Vec3 { Vec3(k * a.x, k * a.y, k * a.z) }
  function Dot3(a: Vec3, b: Vec3): real { a.x * b.x + a.y * b.y + a.z * b.z }
  function Cross(a: Vec3, b: Vec3): Vec3 {
    Vec3(a.y * b.z - a.z * b.y, a.z * b.x - a.x * b.z, a.x * b.y - a.y * b.x)
  }

  const Zero2: Vec2 := Vec2(0.0, 0.0)
  const Zero3: Vec3 := Vec3(0.0, 0.0, 0.0)
  const UnitX2: Vec2 := Vec2(1.0, 0.0)
  const UnitX3: Vec3 := Vec3(1.0, 0.0, 0.0)
  const UnitZ3: Vec3 := Vec3(0.0, 0.0, 1.0)

  /** `v.magnitude() < s`, decided exactly: the magnitude is the
      non-negative square root of `v·v`, so it is below `s` iff `s` is
      positive and `v·v < s²`. */
  predicate ShorterThan2(v: Vec2, s: real) { s > 0.0 && Dot2(v, v) < s * s }
  predicate ShorterThan3(v: Vec3, s: real) { s > 0.0 && Dot3(v, v) < s * s }

  lemma ShorterThan2Symmetric(a: Vec2, b: Vec2, s: real)
    ensures ShorterThan2(Sub2(a, b), s) <==> ShorterThan2(Sub2(b, a), s)
  {
    assert Dot2(Sub2(a, b), Sub2(a, b)) == Dot2(Sub2(b, a), Sub2(b, a));
  }

  // ---------------------------------------------------------------------
  // Integer conversions
  // ---------------------------------------------------------------------

  const I32Min: int := -0x8000_0000
  const I32Max: int := 0x7FFF_FFFF
  const U32Limit: int := 0x1_0000_0000

  type U32 = n: nat | n < U32Limit

  /** Rounds toward zero, as Rust's `as` casts and integer division do. */
  function TruncReal(v: real): (r: int)
    ensures r as real <= v < r as real + 1.0 || r as real - 1.0 < v <= r as real
    ensures 0.0 <= v ==> 0 <= r
    ensures v <= 0.0 ==> r <= 0
  {
    if v >= 0.0 then v.Floor else -((-v).Floor)
  }

  /** Rust's `f as i32`: truncation toward zero, saturating at the i32
      bounds (NaN does not exist among reals). */
  function TruncI32(v: real): (r: int)
    ensures I32Min <= r <= I32Max
    ensures I32Min as real <= v < (I32Max + 1) as real ==> r == TruncReal(v)
  {
    var t := TruncReal(v);
    if t < I32Min then I32Min else if t > I32Max then I32Max else t
  }

  /** Rust's `/` on signed integers: the quotient is rounded toward zero,
      unlike Dafny's Euclidean `/`. */
  function TruncDiv(a: int, b: int): (q: int)
    requires b > 0
    ensures a >= 0 ==> q == a / b
    ensures a >= 0 ==> q * b <= a < (q + 1) * b
    ensures a < 0 ==> q == -((-a) / b)
  {
    if a >= 0 then a / b else -((-a) / b)
  }

  /** Rust's `n as i32` for a `usize` n: keeps the low 32 bits, read as
      two's complement. */
  function WrapI32(n: nat): (r: int)
    ensures I32Min <= r <= I32Max
    ensures n <= I32Max ==> r == n
  {
    var low := n % U32Limit;
    if low <= I32Max then low else low - U32Limit
  }

  // ---------------------------------------------------------------------
  // Sequences
  // ---------------------------------------------------------------------

  /** `0, 1, …, n-1`, the values of a counter that starts at 0. */
  function Iota(n: nat): (r: seq<nat>)
    ensures |r| == n
    ensures forall k :: 0 <= k < n ==> r[k] == k
  {
    seq(n, k => k)
  }

  predicate StrictlyIncreasing(s: seq<int>) {
    forall i, j :: 0 <= i < j < |s| ==> s[i] < s[j]
  }

  /** An ordered pair of indices. */
  type Pair = (nat, nat)

  /** Lexicographic order on pairs. */
  predicate LexLess(p: Pair, q: Pair) {
    p.0 < q.0 || (p.0 == q.0 && p.1 < q.1)
  }

  predicate LexIncreasing(s: seq<Pair>) {
    forall k, m :: 0 <= k < m < |s| ==> LexLess(s[k], s[m])
  }

  lemma ConcatLex(a: seq<Pair>, b: seq<Pair>)
    ensures LexIncreasing(a) && LexIncreasing(b) && (forall p, q :: p in a && q in b ==> LexLess(p, q))
      ==> LexIncreasing(a + b)
  {
    if LexIncreasing(a) && LexIncreasing(b) && (forall p, q :: p in a && q in b ==> LexLess(p, q)) {
      forall k, m | 0 <= k < m < |a + b| ensures LexLess((a + b)[k], (a + b)[m]) {
        if m < |a| {
          assert (a + b)[k] == a[k] && (a + b)[m] == a[m];
        } else if k >= |a| {
          assert (a + b)[k] == b[k - |a|] && (a + b)[m] == b[m - |a|];
        } else {
          assert (a + b)[k] == a[k] && (a + b)[m] == b[m - |a|];
          assert a[k] in a && b[m - |a|] in b;
        }
      }
    }
  }
}
