/** Broad-phase and narrow-phase collision of moving circles
    (`sweep_and_prune`, `brute_force_collison`, `prevent_out_of_bound`).

    A circle `i` is `positions[i]`, `dirs[i]` (the displacement it is about
    to make) and `rads[i]`.  Normalisation needs a square root, so it is a
    parameter `normalize`; every magnitude comparison is decided exactly
    through `ShorterThan2`.  Only `dirs` is ever written. */
module Collision {
  import opened Base

  /** One end of a circle's projection on an axis: the coordinate (for the
      X axis an `i32` key, embedded in the reals) and the circle index. */
  datatype Endpoint = Endpoint(key: real, idx: nat)


  // ---------------------------------------------------------------------
  // Stable sort of endpoints by key (Rust's `sort_by` is stable)
  // ---------------------------------------------------------------------

  predicate SortedByKey(s: seq<Endpoint>) {
    forall i, j :: 0 <= i < j < |s| ==> s[i].key <= s[j].key
  }

  /** How many endpoints of `s` belong to circle `i`. */
  function CountIdx(s: seq<Endpoint>, i: nat): nat {
    if |s| == 0 then 0 else (if s[0].idx == i then 1 else 0) + CountIdx(s[1..], i)
  }

  lemma {:induction false} CountIdxAppend(a: seq<Endpoint>, b: seq<Endpoint>, i: nat)
    ensures CountIdx(a + b, i) == CountIdx(a, i) + CountIdx(b, i)
  {
    if |a| == 0 {
      assert a + b == b;
    } else {
      assert (a + b)[1..] == a[1..] + b;
      CountIdxAppend(a[1..], b, i);
    }
  }

  lemma CountIdxPair(a: Endpoint, b: Endpoint)
    ensures forall i :: CountIdx([a, b], i) == (if a.idx == i then 1 else 0) + (if b.idx == i then 1 else 0)
  {
    forall i ensures CountIdx([a, b], i) == (if a.idx == i then 1 else 0) + (if b.idx == i then 1 else 0) {
      assert [a, b][1..] == [b] && [b][1..] == [];
      assert CountIdx([b], i) == (if b.idx == i then 1 else 0) + CountIdx([], i);
    }
  }

  /** Inserts `e` in front of the first element whose key is not smaller,
      so that `e` precedes every element of equal key. */
  function InsertByKey(e: Endpoint, s: seq<Endpoint>): (r: seq<Endpoint>)
    ensures |r| == |s| + 1
  {
    if |s| == 0 || e.key <= s[0].key then [e] + s
    else
      assert s == [s[0]] + s[1..];
      [s[0]] + InsertByKey(e, s[1..])
  }

  /** Insertion adds exactly `e`. */
  lemma {:induction false} InsertByKeyMultiset(e: Endpoint, s: seq<Endpoint>)
    ensures multiset(InsertByKey(e, s)) == multiset(s) + multiset{e}
  {
    if |s| > 0 && e.key > s[0].key {
      assert s == [s[0]] + s[1..];
      InsertByKeyMultiset(e, s[1..]);
    }
  }

  lemma {:induction false} InsertByKeySorted(e: Endpoint, s: seq<Endpoint>)
    requires SortedByKey(s)
    ensures SortedByKey(InsertByKey(e, s))
  {
    if |s| == 0 || e.key <= s[0].key {
      var r := [e] + s;
      forall i, j | 0 <= i < j < |r| ensures r[i].key <= r[j].key {
        if i > 0 {
          assert r[i] == s[i - 1] && r[j] == s[j - 1];
        } else {
          assert s[0].key <= s[j - 1].key;
        }
      }
    } else {
      var rest := InsertByKey(e, s[1..]);
      InsertByKeySorted(e, s[1..]);
      var r := [s[0]] + rest;
      forall i, j | 0 <= i < j < |r| ensures r[i].key <= r[j].key {
        if i == 0 {
          var x := rest[j - 1];
          InsertByKeyMultiset(e, s[1..]);
          assert x in multiset(rest);
          if x != e {
            assert x in multiset(s[1..]);
            var k :| 0 <= k < |s[1..]| && s[1..][k] == x;
            assert s[k + 1] == x;
          }
        } else {
          assert r[i] == rest[i - 1] && r[j] == rest[j - 1];
        }
      }
    }
  }

  lemma {:induction false} InsertByKeyCount(e: Endpoint, s: seq<Endpoint>, i: nat)
    ensures CountIdx(InsertByKey(e, s), i) == CountIdx(s, i) + (if e.idx == i then 1 else 0)
  {
    if |s| == 0 || e.key <= s[0].key {
      assert ([e] + s)[1..] == s;
    } else {
      var rest := InsertByKey(e, s[1..]);
      assert ([s[0]] + rest)[1..] == rest;
      InsertByKeyCount(e, s[1..], i);
    }
  }

  /** Rust's stable `sort_by` on the key, as an insertion sort. */
  function SortByKey(s: seq<Endpoint>): (r: seq<Endpoint>)
    ensures |r| == |s|
    ensures SortedByKey(r)
  {
    if |s| == 0 then []
    else
      assert s == [s[0]] + s[1..];
      InsertByKeySorted(s[0], SortByKey(s[1..]));
      InsertByKey(s[0], SortByKey(s[1..]))
  }

  /** The sort is a permutation. */
  lemma {:induction false} SortByKeyPermutation(s: seq<Endpoint>)
    ensures multiset(SortByKey(s)) == multiset(s)
  {
    if |s| > 0 {
      assert s == [s[0]] + s[1..];
      SortByKeyPermutation(s[1..]);
      InsertByKeyMultiset(s[0], SortByKey(s[1..]));
    }
  }

  lemma {:induction false} SortByKeyCount(s: seq<Endpoint>, i: nat)
    ensures CountIdx(SortByKey(s), i) == CountIdx(s, i)
  {
    if |s| > 0 {
      SortByKeyCount(s[1..], i);
      InsertByKeyCount(s[0], SortByKey(s[1..]), i);
    }
  }

  /** The endpoints of key `k`, in order. */
  function WithKey(s: seq<Endpoint>, k: real): seq<Endpoint> {
    if |s| == 0 then [] else (if s[0].key == k then [s[0]] else []) + WithKey(s[1..], k)
  }

  lemma WithKeyCons(x: Endpoint, s: seq<Endpoint>, k: real)
    ensures WithKey([x] + s, k) == (if x.key == k then [x] else []) + WithKey(s, k)
  {
    assert ([x] + s)[1..] == s;
  }

  lemma {:induction false} InsertByKeyWithKey(e: Endpoint, s: seq<Endpoint>, k: real)
    ensures WithKey(InsertByKey(e, s), k) == (if e.key == k then [e] else []) + WithKey(s, k)
  {
    if |s| == 0 || e.key <= s[0].key {
      WithKeyCons(e, s, k);
    } else {
      var rest := InsertByKey(e, s[1..]);
      assert InsertByKey(e, s) == [s[0]] + rest;
      assert s == [s[0]] + s[1..];
      InsertByKeyWithKey(e, s[1..], k);
      WithKeyCons(s[0], rest, k);
      WithKeyCons(s[0], s[1..], k);
      var mine := if e.key == k then [e] else [];
      var head := if s[0].key == k then [s[0]] else [];
      assert mine == [] || head == [];
      assert WithKey(rest, k) == mine + WithKey(s[1..], k);
      assert head + (mine + WithKey(s[1..], k)) == mine + (head + WithKey(s[1..], k));
    }
  }

  /** Stability: sorting keeps, for every key, the relative order of the
      endpoints carrying that key.  Together with `SortedByKey` and the
      multiset equality this fixes the result uniquely. */
  lemma {:induction false} SortByKeyIsStable(s: seq<Endpoint>, k: real)
    ensures WithKey(SortByKey(s), k) == WithKey(s, k)
  {
    if |s| > 0 {
      SortByKeyIsStable(s[1..], k);
      InsertByKeyWithKey(s[0], SortByKey(s[1..]), k);
    }
  }

  // ---------------------------------------------------------------------
  // The push/pop stack sweep
  // ---------------------------------------------------------------------

  predicate NoAdjacentRepeat(s: seq<nat>) {
    forall k :: 0 <= k && k + 1 < |s| ==> s[k] != s[k + 1]
  }

  /** One endpoint of the sweep: pop when the top is the same circle,
      push otherwise. */
  function SweepStep(stack: seq<nat>, i: nat): seq<nat> {
    if |stack| > 0 && stack[|stack| - 1] == i then stack[..|stack| - 1] else stack + [i]
  }

  /** The sweep over `es`, starting from `stack`. */
  function SweepFrom(stack: seq<nat>, es: seq<Endpoint>): (r: seq<nat>)
    ensures NoAdjacentRepeat(stack) ==> NoAdjacentRepeat(r)
    ensures forall x :: x in r ==> x in stack || CountIdx(es, x) > 0
    decreases |es|
  {
    if |es| == 0 then stack
    else
      var next := SweepStep(stack, es[0].idx);
      assert forall x :: x in next ==> x in stack || x == es[0].idx;
      assert NoAdjacentRepeat(stack) ==> NoAdjacentRepeat(next);
      SweepFrom(next, es[1..])
  }

  lemma {:induction false} SweepFromAppend(stack: seq<nat>, a: seq<Endpoint>, b: seq<Endpoint>)
    ensures SweepFrom(stack, a + b) == SweepFrom(SweepFrom(stack, a), b)
    decreases |a|
  {
    if |a| > 0 {
      assert (a + b)[1..] == a[1..] + b;
      SweepFromAppend(SweepStep(stack, a[0].idx), a[1..], b);
    } else {
      assert a + b == b;
    }
  }

  /** Two consecutive endpoints of a circle that is absent from the stack
      and from the rest of the input cancel: the circle is pushed and popped
      and never reappears. */
  lemma {:induction false} AdjacentEndpointsCancel(
    stack: seq<nat>, pre: seq<Endpoint>, e1: Endpoint, e2: Endpoint, post: seq<Endpoint>)
    requires e1.idx == e2.idx
    requires e1.idx !in stack && CountIdx(pre, e1.idx) == 0 && CountIdx(post, e1.idx) == 0
    ensures e1.idx !in SweepFrom(stack, pre + [e1, e2] + post)
  {
    var i := e1.idx;
    SweepFromAppend(stack, pre + [e1, e2], post);
    SweepFromAppend(stack, pre, [e1, e2]);
    var s := SweepFrom(stack, pre);
    assert i !in s;
    assert SweepStep(s, i) == s + [i];
    assert SweepStep(s + [i], i) == s;
    assert [e1, e2][1..] == [e2] && [e2][1..] == [];
    assert SweepFrom(s + [i], [e2]) == SweepFrom(s, []);
    assert SweepFrom(s, [e1, e2]) == SweepFrom(s + [i], [e2]);
  }

  // ---------------------------------------------------------------------
  // sort + dedup of the candidate list
  // ---------------------------------------------------------------------

  function InsertUnique(x: nat, s: seq<nat>): (r: seq<nat>)
    requires StrictlyIncreasing(s)
    ensures StrictlyIncreasing(r)
    ensures forall y :: y in r <==> y == x || y in s
  {
    if |s| == 0 then [x]
    else if x < s[0] then
      ConsIncreasing(x, s);
      [x] + s
    else if x == s[0] then s
    else
      var rest := InsertUnique(x, s[1..]);
      assert forall y :: y in s[1..] ==> s[0] < y;
      assert |rest| > 0 && rest[0] in rest;
      ConsIncreasing(s[0], rest);
      [s[0]] + rest
  }

  lemma ConsIncreasing(x: int, s: seq<int>)
    requires StrictlyIncreasing(s)
    requires |s| == 0 || x < s[0]
    ensures StrictlyIncreasing([x] + s)
  {
    forall i, j | 0 <= i < j < |[x] + s| ensures ([x] + s)[i] < ([x] + s)[j] {
      if i > 0 {
        assert ([x] + s)[i] == s[i - 1];
      } else if j > 1 {
        assert s[0] < s[j - 1];
      }
    }
  }

  /** Rust's `sort()` followed by `dedup()`: the distinct entries, ascending. */
  function SortDedup(s: seq<nat>): (r: seq<nat>)
    ensures StrictlyIncreasing(r)
    ensures forall y :: y in r <==> y in s
  {
    if |s| == 0 then [] else InsertUnique(s[0], SortDedup(s[1..]))
  }

  // ---------------------------------------------------------------------
  // Candidate generation
  // ---------------------------------------------------------------------

  predicate Aligned(positions: seq<Vec2>, dirs: seq<Vec2>, rads: seq<real>) {
    |dirs| >= |positions| && |rads| >= |positions|
  }

  /** X endpoints of the first `n` circles, pushed as `(hi, i), (lo, i)`;
      a key is the predicted right or left edge truncated to `i32`. */
  function XEndpoints(positions: seq<Vec2>, dirs: seq<Vec2>, rads: seq<real>, n: nat): (r: seq<Endpoint>)
    requires n <= |positions| && Aligned(positions, dirs, rads)
    ensures |r| == 2 * n
  {
    if n == 0 then []
    else XEndpoints(positions, dirs, rads, n - 1) + XPair(positions[n - 1], dirs[n - 1], rads[n - 1], n - 1)
  }

  /** The two X endpoints of circle `i`: right edge first, then left. */
  function XPair(p: Vec2, d: Vec2, r: real, i: nat): (r': seq<Endpoint>)
    ensures CountIdx(r', i) == 2
    ensures forall j :: j != i ==> CountIdx(r', j) == 0
  {
    var hi, lo := Endpoint(TruncI32(p.x + d.x + r) as real, i), Endpoint(TruncI32(p.x + d.x - r) as real, i);
    CountIdxPair(hi, lo);
    [hi, lo]
  }

  /** Every circle below `n` owns exactly two X endpoints. */
  lemma {:induction false} XEndpointsCount(positions: seq<Vec2>, dirs: seq<Vec2>, rads: seq<real>, n: nat, i: nat)
    requires n <= |positions| && Aligned(positions, dirs, rads)
    ensures CountIdx(XEndpoints(positions, dirs, rads, n), i) == if i < n then 2 else 0
  {
    if n > 0 {
      XEndpointsCount(positions, dirs, rads, n - 1, i);
      CountIdxAppend(XEndpoints(positions, dirs, rads, n - 1), XPair(positions[n - 1], dirs[n - 1], rads[n - 1], n - 1), i);
    }
  }

  /** The X endpoints in sweep order. */
  function SortedX(positions: seq<Vec2>, dirs: seq<Vec2>, rads: seq<real>): (r: seq<Endpoint>)
    requires Aligned(positions, dirs, rads)
    ensures |r| == 2 * |positions|
  {
    SortByKey(XEndpoints(positions, dirs, rads, |positions|))
  }

  /** After sorting, every circle still owns exactly two X endpoints. */
  lemma SortedXCount(positions: seq<Vec2>, dirs: seq<Vec2>, rads: seq<real>, i: nat)
    requires Aligned(positions, dirs, rads)
    ensures CountIdx(SortedX(positions, dirs, rads), i) == if i < |positions| then 2 else 0
  {
    SortByKeyCount(XEndpoints(positions, dirs, rads, |positions|), i);
    XEndpointsCount(positions, dirs, rads, |positions|, i);
  }

  /** The candidate list after the X sweep, sort and dedup. */
  function XCandidates(positions: seq<Vec2>, dirs: seq<Vec2>, rads: seq<real>): (r: seq<nat>)
    requires Aligned(positions, dirs, rads)
    ensures StrictlyIncreasing(r)
    ensures forall i :: i in r ==> i < |positions|
  {
    var xs := SortedX(positions, dirs, rads);
    var stack := SweepFrom([], xs);
    assert forall i :: i in stack ==> i < |positions| by {
      forall i | i in stack ensures i < |positions| {
        SortedXCount(positions, dirs, rads, i);
      }
    }
    SortDedup(stack)
  }

  /** Y endpoints of the candidates, pushed as `(y + r, i), (y - r, i)`
      with no displacement term. */
  function YEndpoints(positions: seq<Vec2>, rads: seq<real>, cands: seq<nat>): (r: seq<Endpoint>)
    requires forall i :: i in cands ==> i < |positions| && i < |rads|
    ensures forall x :: CountIdx(r, x) > 0 ==> x in cands
  {
    if |cands| == 0 then []
    else
      var c := cands[0];
      assert c in cands;
      assert forall i :: i in cands[1..] ==> i in cands;
      var rest := YEndpoints(positions, rads, cands[1..]);
      var head := [Endpoint(positions[c].y + rads[c], c), Endpoint(positions[c].y - rads[c], c)];
      assert forall x :: CountIdx(head + rest, x) == CountIdx(head, x) + CountIdx(rest, x) by {
        forall x { CountIdxAppend(head, rest, x); }
      }
      CountIdxPair(head[0], head[1]);
      head + rest
  }

  /** The candidate list after the Y sweep, sort and dedup. */
  function YCandidates(positions: seq<Vec2>, dirs: seq<Vec2>, rads: seq<real>): (r: seq<nat>)
    requires Aligned(positions, dirs, rads)
    ensures StrictlyIncreasing(r)
  {
    var xc := XCandidates(positions, dirs, rads);
    SortDedup(SweepFrom([], SortByKey(YEndpoints(positions, rads, xc))))
  }

  // ---------------------------------------------------------------------
  // Narrow phase: pair enumeration
  // ---------------------------------------------------------------------

  /** The predicted circles `i` and `y` overlap. */
  predicate Overlap(positions: seq<Vec2>, dirs: seq<Vec2>, rads: seq<real>, i: nat, y: nat)
    requires i < |positions| && y < |positions| && Aligned(positions, dirs, rads)
  {
    ShorterThan2(Sub2(Add2(positions[i], dirs[i]), Add2(positions[y], dirs[y])), rads[y] + rads[i])
  }

  /** The pairs `(i, y)` for `y` from `from` up to the last circle. */
  function PairsFrom(positions: seq<Vec2>, dirs: seq<Vec2>, rads: seq<real>, i: nat, from: nat): (r: seq<Pair>)
    requires i < |positions| && Aligned(positions, dirs, rads)
    ensures forall p :: p in r <==>
      p.0 == i && from <= p.1 < |positions| && Overlap(positions, dirs, rads, i, p.1)
    ensures forall k, m :: 0 <= k < m < |r| ==> r[k].1 < r[m].1
    decreases |positions| - from
  {
    if from >= |positions| then []
    else
      var rest := PairsFrom(positions, dirs, rads, i, from + 1);
      (if Overlap(positions, dirs, rads, i, from) then [(i, from)] else []) + rest
  }

  /** The overlapping pairs `(i, y)`, `i < y`, for `i` taken from `cands`
      in order. */
  function Colliders(positions: seq<Vec2>, dirs: seq<Vec2>, rads: seq<real>, cands: seq<nat>): (r: seq<Pair>)
    requires Aligned(positions, dirs, rads)
    requires forall i :: i in cands ==> i < |positions|
    ensures forall p :: p in r <==>
      p.0 in cands && p.0 < p.1 < |positions| && Overlap(positions, dirs, rads, p.0, p.1)
    ensures StrictlyIncreasing(cands) ==> LexIncreasing(r)
  {
    if |cands| == 0 then []
    else
      assert cands[0] in cands;
      assert forall i :: i in cands[1..] ==> i in cands;
      var head := PairsFrom(positions, dirs, rads, cands[0], cands[0] + 1);
      var rest := Colliders(positions, dirs, rads, cands[1..]);
      assert forall i :: i in cands <==> i == cands[0] || i in cands[1..];
      assert StrictlyIncreasing(cands) ==> StrictlyIncreasing(cands[1..]);
      assert LexIncreasing(head);
      assert StrictlyIncreasing(cands) ==> forall p, q :: p in head && q in rest ==> LexLess(p, q);
      ConcatLex(head, rest);
      head + rest
  }

  /** The pairs `brute_force_collison` examines. */
  function BrutePairs(positions: seq<Vec2>, dirs: seq<Vec2>, rads: seq<real>): (r: seq<Pair>)
    requires Aligned(positions, dirs, rads)
    ensures forall p :: p in r <==> p.0 < p.1 < |positions| && Overlap(positions, dirs, rads, p.0, p.1)
    ensures LexIncreasing(r)
  {
    var all := Iota(|positions|);
    assert forall i: nat :: i in all <==> i < |positions| by {
      forall i: nat | i < |positions| ensures i in all {
        assert all[i] == i;
      }
    }
    Colliders(positions, dirs, rads, all)
  }

  /** The pairs `sweep_and_prune` examines. */
  function SapPairs(positions: seq<Vec2>, dirs: seq<Vec2>, rads: seq<real>): (r: seq<Pair>)
    requires Aligned(positions, dirs, rads)
    ensures forall p :: p in r <==>
      p.0 in YCandidates(positions, dirs, rads) && p.0 < p.1 < |positions| && Overlap(positions, dirs, rads, p.0, p.1)
    ensures LexIncreasing(r)
  {
    var yc := YCandidates(positions, dirs, rads);
    assert forall i :: i in yc ==> i < |positions| by {
      forall i | i in yc ensures i < |positions| {
        YSubsetX(positions, dirs, rads, i);
      }
    }
    Colliders(positions, dirs, rads, yc)
  }

  // ---------------------------------------------------------------------
  // Properties of the candidate sets
  // ---------------------------------------------------------------------

  /** The Y candidates are a subset of the X candidates. */
  lemma YSubsetX(positions: seq<Vec2>, dirs: seq<Vec2>, rads: seq<real>, i: nat)
    requires Aligned(positions, dirs, rads)
    ensures i in YCandidates(positions, dirs, rads) ==> i in XCandidates(positions, dirs, rads)
  {
    var xc := XCandidates(positions, dirs, rads);
    var ys := SortByKey(YEndpoints(positions, rads, xc));
    if i in YCandidates(positions, dirs, rads) {
      assert i in SweepFrom([], ys);
      SortByKeyCount(YEndpoints(positions, rads, xc), i);
    }
  }

  /** A circle whose two X endpoints are adjacent after sorting is never
      an X candidate. */
  lemma AdjacentXEndpointsNotCandidate(positions: seq<Vec2>, dirs: seq<Vec2>, rads: seq<real>, j: nat)
    requires Aligned(positions, dirs, rads)
    requires j + 1 < 2 * |positions|
    requires SortedX(positions, dirs, rads)[j].idx == SortedX(positions, dirs, rads)[j + 1].idx
    ensures SortedX(positions, dirs, rads)[j].idx !in XCandidates(positions, dirs, rads)
  {
    var xs := SortedX(positions, dirs, rads);
    var i := xs[j].idx;
    var pre, post := xs[..j], xs[j + 2..];
    assert xs == pre + [xs[j], xs[j + 1]] + post;
    CountIdxAppend(pre + [xs[j], xs[j + 1]], post, i);
    CountIdxAppend(pre, [xs[j], xs[j + 1]], i);
    CountIdxPair(xs[j], xs[j + 1]);
    SortedXCount(positions, dirs, rads, i);
    AdjacentEndpointsCancel([], pre, xs[j], xs[j + 1], post);
  }

  /** A single circle yields no X candidate. */
  lemma SingleCircleNoCandidates(positions: seq<Vec2>, dirs: seq<Vec2>, rads: seq<real>)
    requires Aligned(positions, dirs, rads) && |positions| == 1
    ensures XCandidates(positions, dirs, rads) == []
    ensures SapPairs(positions, dirs, rads) == []
  {
    var xs := SortedX(positions, dirs, rads);
    var xc := XCandidates(positions, dirs, rads);
    assert |xc| == 0 || xc[0] in xc;
    SortedXCount(positions, dirs, rads, 0);
    assert xs == [xs[0], xs[1]];
    CountIdxPair(xs[0], xs[1]);
    AdjacentXEndpointsNotCandidate(positions, dirs, rads, 0);
  }

  /** Every pair `sweep_and_prune` examines is one `brute_force_collison`
      examines. */
  lemma SapPairsSubsetOfBrute(positions: seq<Vec2>, dirs: seq<Vec2>, rads: seq<real>, p: Pair)
    requires Aligned(positions, dirs, rads)
    ensures p in SapPairs(positions, dirs, rads) ==> p in BrutePairs(positions, dirs, rads)
  {
  }

  // ---------------------------------------------------------------------
  // Narrow phase: response
  // ---------------------------------------------------------------------

  /** `d - 2 (d·v) v`. */
  function Reflect(d: Vec2, v: Vec2): Vec2 {
    Sub2(d, Scale2(2.0 * Dot2(d, v), v))
  }

  /** Reflection along a unit normal keeps the speed. */
  lemma ReflectKeepsSpeed(d: Vec2, v: Vec2)
    requires Dot2(v, v) == 1.0
    ensures Dot2(Reflect(d, v), Reflect(d, v)) == Dot2(d, d)
  {
    var k := Dot2(d, v);
    calc {
      Dot2(Reflect(d, v), Reflect(d, v));
      Dot2(d, d) - 4.0 * k * k + 4.0 * k * k * Dot2(v, v);
      Dot2(d, d);
    }
  }

  predicate Untouched(k: nat, pairs: seq<Pair>) {
    forall p :: p in pairs ==> p.0 != k && p.1 != k
  }

  predicate PairsInRange(pairs: seq<Pair>, n: nat) {
    forall p :: p in pairs ==> p.0 < n && p.1 < n
  }

  /** The response to one pair, reading the current `dirs`. */
  function RespondPair(positions: seq<Vec2>, rads: seq<real>, dirs: seq<Vec2>, p: Pair, normalize: Vec2 -> Vec2): (r: seq<Vec2>)
    requires p.0 < |positions| && p.1 < |positions| && Aligned(positions, dirs, rads)
    ensures |r| == |dirs|
    ensures forall k :: 0 <= k < |dirs| && k != p.0 && k != p.1 ==> r[k] == dirs[k]
  {
    var (i, y) := p;
    var pi := Add2(positions[i], dirs[i]);
    var py := Add2(positions[y], dirs[y]);
    var v := normalize(Sub2(pi, py));
    if ShorterThan2(Sub2(py, pi), rads[i] + rads[y]) then
      dirs[i := Reflect(dirs[i], v)][y := Reflect(dirs[y], v)]
    else dirs
  }

  /** The response loop over the collider list, in order. */
  function Respond(positions: seq<Vec2>, rads: seq<real>, dirs: seq<Vec2>, pairs: seq<Pair>, normalize: Vec2 -> Vec2): (r: seq<Vec2>)
    requires Aligned(positions, dirs, rads) && PairsInRange(pairs, |positions|)
    ensures |r| == |dirs|
    ensures forall k :: 0 <= k < |dirs| && Untouched(k, pairs) ==> r[k] == dirs[k]
    decreases |pairs|
  {
    if |pairs| == 0 then dirs
    else
      var next := RespondPair(positions, rads, dirs, pairs[0], normalize);
      assert forall q :: q in pairs[1..] ==> q in pairs;
      Respond(positions, rads, next, pairs[1..], normalize)
  }

  // ---------------------------------------------------------------------
  // The three entry points
  // ---------------------------------------------------------------------

  /** `sweep_and_prune`: panics when `dirs` or `rads` is shorter than
      `positions`; otherwise rewrites `dirs` at the circles of the pairs
      that survive both sweeps. */
  function SweepAndPrune(positions: seq<Vec2>, dirs: seq<Vec2>, rads: seq<real>, normalize: Vec2 -> Vec2): (r: Result<seq<Vec2>>)
    ensures r.Ok? <==> Aligned(positions, dirs, rads)
    ensures r.Ok? ==> |r.value| == |dirs|
    ensures r.Ok? ==> forall k :: 0 <= k < |dirs| && Untouched(k, SapPairs(positions, dirs, rads)) ==> r.value[k] == dirs[k]
    ensures r.Ok? ==> forall k :: |positions| <= k < |dirs| ==> r.value[k] == dirs[k]
  {
    if !Aligned(positions, dirs, rads) then Panic("index out of bounds")
    else
      var pairs := SapPairs(positions, dirs, rads);
      Ok(Respond(positions, rads, dirs, pairs, normalize))
  }

  /** `brute_force_collison`: the same response over all overlapping pairs. */
  function BruteForceCollision(positions: seq<Vec2>, dirs: seq<Vec2>, rads: seq<real>, normalize: Vec2 -> Vec2): (r: Result<seq<Vec2>>)
    ensures r.Ok? <==> Aligned(positions, dirs, rads)
    ensures r.Ok? ==> |r.value| == |dirs|
    ensures r.Ok? ==> forall k :: 0 <= k < |dirs| && Untouched(k, BrutePairs(positions, dirs, rads)) ==> r.value[k] == dirs[k]
    ensures r.Ok? ==> forall k :: |positions| <= k < |dirs| ==> r.value[k] == dirs[k]
  {
    if !Aligned(positions, dirs, rads) then Panic("index out of bounds")
    else Ok(Respond(positions, rads, dirs, BrutePairs(positions, dirs, rads), normalize))
  }

  /** A single circle is left alone by `sweep_and_prune`. */
  lemma SingleCircleUnchanged(positions: seq<Vec2>, dirs: seq<Vec2>, rads: seq<real>, normalize: Vec2 -> Vec2)
    requires Aligned(positions, dirs, rads) && |positions| == 1
    ensures SweepAndPrune(positions, dirs, rads, normalize) == Ok(dirs)
  {
    SingleCircleNoCandidates(positions, dirs, rads);
  }

  /** The stack sweep misses nested intervals: a small circle inside a big
      one overlaps it, brute force reports the pair, and the sweep pushes
      and pops both circles without leaving a candidate. */
  lemma NestedIntervalsMissed()
    ensures var ps, ds, rs := [Vec2(10.0, 0.0), Vec2(10.0, 0.0)], [Zero2, Zero2], [5.0, 1.0];
      && (0, 1) in BrutePairs(ps, ds, rs)
      && XCandidates(ps, ds, rs) == []
      && SapPairs(ps, ds, rs) == []
  {
    NestedPairOverlaps();
    NestedNoCandidates();
  }

  lemma NestedPairOverlaps()
    ensures (0, 1) in BrutePairs([Vec2(10.0, 0.0), Vec2(10.0, 0.0)], [Zero2, Zero2], [5.0, 1.0])
  {
    assert Overlap([Vec2(10.0, 0.0), Vec2(10.0, 0.0)], [Zero2, Zero2], [5.0, 1.0], 0, 1);
  }

  lemma NestedNoCandidates()
    ensures var ps, ds, rs := [Vec2(10.0, 0.0), Vec2(10.0, 0.0)], [Zero2, Zero2], [5.0, 1.0];
      && XCandidates(ps, ds, rs) == []
      && SapPairs(ps, ds, rs) == []
  {
    NestedSortedX();
    NestedSweep(SortedX([Vec2(10.0, 0.0), Vec2(10.0, 0.0)], [Zero2, Zero2], [5.0, 1.0]));
  }

  /** The X endpoints of the nested pair, in push order. */
  lemma NestedXEndpoints()
    ensures XEndpoints([Vec2(10.0, 0.0), Vec2(10.0, 0.0)], [Zero2, Zero2], [5.0, 1.0], 2)
      == [Endpoint(15.0, 0), Endpoint(5.0, 0), Endpoint(11.0, 1), Endpoint(9.0, 1)]
  {
    var ps, ds, rs := [Vec2(10.0, 0.0), Vec2(10.0, 0.0)], [Zero2, Zero2], [5.0, 1.0];
    assert TruncI32(15.0) == 15 && TruncI32(5.0) == 5 && TruncI32(11.0) == 11 && TruncI32(9.0) == 9;
    assert XPair(ps[0], ds[0], rs[0], 0) == [Endpoint(15.0, 0), Endpoint(5.0, 0)];
    assert XPair(ps[1], ds[1], rs[1], 1) == [Endpoint(11.0, 1), Endpoint(9.0, 1)];
    assert XEndpoints(ps, ds, rs, 0) == [];
    assert XEndpoints(ps, ds, rs, 1) == [Endpoint(15.0, 0), Endpoint(5.0, 0)];
  }

  /** Sorting them puts the small circle's two edges between the big
      circle's. */
  lemma NestedSort(xe: seq<Endpoint>)
    requires xe == [Endpoint(15.0, 0), Endpoint(5.0, 0), Endpoint(11.0, 1), Endpoint(9.0, 1)]
    ensures SortByKey(xe) == [Endpoint(5.0, 0), Endpoint(9.0, 1), Endpoint(11.0, 1), Endpoint(15.0, 0)]
  {
    var a, b, c, d := Endpoint(15.0, 0), Endpoint(5.0, 0), Endpoint(11.0, 1), Endpoint(9.0, 1);
    assert xe == [a] + [b, c, d];
    SortByKeyCons(a, [b, c, d]);
    NestedSortTail();
    InsertPast(a, c, []);
    InsertPast(a, d, [c]);
    InsertPast(a, b, [d, c]);
  }

  lemma NestedSortTail()
    ensures SortByKey([Endpoint(5.0, 0), Endpoint(11.0, 1), Endpoint(9.0, 1)])
      == [Endpoint(5.0, 0), Endpoint(9.0, 1), Endpoint(11.0, 1)]
  {
    var b, c, d := Endpoint(5.0, 0), Endpoint(11.0, 1), Endpoint(9.0, 1);
    SortByKeyCons(b, [c, d]);
    SortByKeyCons(c, [d]);
    SortByKeyCons(d, []);
    assert [d] == [d] + [];
    assert [c, d] == [c] + [d];
    assert [b, c, d] == [b] + [c, d];
    InsertPast(c, d, []);
  }

  lemma SortByKeyCons(x: Endpoint, s: seq<Endpoint>)
    ensures SortByKey([x] + s) == InsertByKey(x, SortByKey(s))
  {
    assert ([x] + s)[1..] == s;
  }

  lemma InsertPast(e: Endpoint, x: Endpoint, s: seq<Endpoint>)
    requires x.key < e.key
    ensures InsertByKey(e, [x] + s) == [x] + InsertByKey(e, s)
  {
    assert ([x] + s)[1..] == s;
  }

  lemma NestedSortedX()
    ensures SortedX([Vec2(10.0, 0.0), Vec2(10.0, 0.0)], [Zero2, Zero2], [5.0, 1.0])
      == [Endpoint(5.0, 0), Endpoint(9.0, 1), Endpoint(11.0, 1), Endpoint(15.0, 0)]
  {
    NestedXEndpoints();
    NestedSort(XEndpoints([Vec2(10.0, 0.0), Vec2(10.0, 0.0)], [Zero2, Zero2], [5.0, 1.0], 2));
  }

  /** Sweeping `0, 1, 1, 0` pushes and pops both circles. */
  lemma NestedSweep(xs: seq<Endpoint>)
    requires xs == [Endpoint(5.0, 0), Endpoint(9.0, 1), Endpoint(11.0, 1), Endpoint(15.0, 0)]
    ensures SweepFrom([], xs) == []
  {
    assert xs[1..][1..] == xs[2..] && xs[2..][1..] == xs[3..] && xs[3..][1..] == xs[4..] == [];
    assert SweepFrom([], xs[4..]) == [];
    assert [0][..0] == [];
    assert SweepFrom([0], xs[3..]) == [];
    assert [0, 1][..1] == [0];
    assert SweepFrom([0, 1], xs[2..]) == [];
    assert [0] + [1] == [0, 1];
    assert SweepFrom([0], xs[1..]) == [];
    assert [] + [0] == [0];
  }

  // ---------------------------------------------------------------------
  // Boundary containment
  // ---------------------------------------------------------------------

  /** The predicted circle leaves the horizontal range `[0, width - 300]`. */
  predicate LeavesX(p: Vec2, d: Vec2, r: real, window: Vec2) {
    var tp := Add2(p, d);
    tp.x - r < 0.0 || tp.x + r > window.x - 300.0
  }

  /** The predicted circle leaves the vertical range `[0, height]`. */
  predicate LeavesY(p: Vec2, d: Vec2, r: real, window: Vec2) {
    var tp := Add2(p, d);
    tp.y - r < 0.0 || tp.y + r > window.y
  }

  function Bounce(p: Vec2, d: Vec2, r: real, window: Vec2): Vec2 {
    Vec2(if LeavesX(p, d, r, window) then -d.x else d.x,
         if LeavesY(p, d, r, window) then -d.y else d.y)
  }

  /** `prevent_out_of_bound`: zips the three lists, so it walks the
      shortest of them and never panics. */
  function PreventOutOfBound(positions: seq<Vec2>, dirs: seq<Vec2>, rads: seq<real>, window: Vec2): (r: seq<Vec2>)
    ensures |r| == |dirs|
    ensures forall k :: 0 <= k < |dirs| && k < |positions| && k < |rads| ==>
      && (LeavesX(positions[k], dirs[k], rads[k], window) ==> r[k].x == -dirs[k].x)
      && (!LeavesX(positions[k], dirs[k], rads[k], window) ==> r[k].x == dirs[k].x)
      && (LeavesY(positions[k], dirs[k], rads[k], window) ==> r[k].y == -dirs[k].y)
      && (!LeavesY(positions[k], dirs[k], rads[k], window) ==> r[k].y == dirs[k].y)
    ensures forall k :: 0 <= k < |dirs| && (k >= |positions| || k >= |rads|) ==> r[k] == dirs[k]
    ensures forall k :: 0 <= k < |dirs| ==> r[k].x * r[k].x == dirs[k].x * dirs[k].x
    ensures forall k :: 0 <= k < |dirs| ==> r[k].y * r[k].y == dirs[k].y * dirs[k].y
  {
    seq(|dirs|, k requires 0 <= k < |dirs| =>
      if k < |positions| && k < |rads| then Bounce(positions[k], dirs[k], rads[k], window) else dirs[k])
  }

  /** A circle at (5,5) of radius 2 heading (-10,0) would end at x = -5,
      so its horizontal direction flips; its vertical one does not. */
  lemma BoundaryExample()
    ensures PreventOutOfBound([Vec2(5.0, 5.0)], [Vec2(-10.0, 0.0)], [2.0], Vec2(800.0, 800.0)) == [Vec2(10.0, 0.0)]
  {
  }
}
