/** The older keyboard bit set of `gamestate.rs`: twelve key bits from
    bit 0 on, without a close bit, set and cleared by an explicit match on
    the key. */
module KeyboardFlags {
  import opened Base
  import IF = InputFlags
  import GS = GameState

  type Flags = bv32

  const NONE: Flags := 0x0
  const W: Flags := 0x1
  const S: Flags := 0x2
  const D: Flags := 0x4
  const A: Flags := 0x8
  const X: Flags := 0x10
  const Y: Flags := 0x20
  const E: Flags := 0x40
  const Q: Flags := 0x80
  const RIGHT: Flags := 0x100
  const LEFT: Flags := 0x200
  const UP: Flags := 0x400
  const DOWN: Flags := 0x800
  const WS: Flags := W | S

  /** Every named key flag, in declaration order. */
  const AllKeys: seq<Flags> := [W, S, D, A, X, Y, E, Q, RIGHT, LEFT, UP, DOWN]

  /** The twelve flags are single bits, pairwise disjoint, and `WS` is the
      union of `W` and `S`. */
  lemma KeysAreDistinctBits()
    ensures |AllKeys| == 12
    ensures forall i :: 0 <= i < |AllKeys| ==> IF.SingleBit(AllKeys[i])
    ensures forall i, j :: 0 <= i < j < |AllKeys| ==> AllKeys[i] & AllKeys[j] == 0
    ensures WS & W == W && WS & S == S && WS & !(W | S) == 0
  {
  }

  /** The flag the match in `key_down`/`key_up` picks for a key, 0 for
      the keys the match ignores.  The older layout lists the same keys in
      the same order as the newer one, one bit lower, since it has no close
      bit below them. */
  function KeyFlag(k: IF.Keycode): (f: Flags)
    ensures k.OtherKey? <==> f == NONE
  {
    IF.FromKey(k) >> 1
  }

  /** Key by key, the older match: shifting its flag up by one bit gives
      the newer layout's flag. */
  lemma LayoutsAgree(k: IF.Keycode)
    ensures KeyFlag(k) << 1 == IF.FromKey(k)
    ensures k == IF.KeyW ==> KeyFlag(k) == W
    ensures k == IF.KeyS ==> KeyFlag(k) == S
    ensures k == IF.KeyD ==> KeyFlag(k) == D
    ensures k == IF.KeyA ==> KeyFlag(k) == A
    ensures k == IF.KeyX ==> KeyFlag(k) == X
    ensures k == IF.KeyY ==> KeyFlag(k) == Y
    ensures k == IF.KeyE ==> KeyFlag(k) == E
    ensures k == IF.KeyQ ==> KeyFlag(k) == Q
    ensures k == IF.ArrowRight ==> KeyFlag(k) == RIGHT
    ensures k == IF.ArrowLeft ==> KeyFlag(k) == LEFT
    ensures k == IF.ArrowUp ==> KeyFlag(k) == UP
    ensures k == IF.ArrowDown ==> KeyFlag(k) == DOWN
  {
    IF.FromKeyBits(k);
  }

  /** `key_down`: the listed keys set their bit and nothing else; any other
      key leaves the flags as they are. */
  function KeyDown(f: Flags, k: IF.Keycode): (r: Flags)
    ensures r & KeyFlag(k) == KeyFlag(k)
    ensures r & !KeyFlag(k) == f & !KeyFlag(k)
  {
    if k.OtherKey? then f else IF.Insert(f, KeyFlag(k))
  }

  /** `key_up`: the listed keys clear their bit and nothing else; any other
      key leaves the flags as they are. */
  function KeyUp(f: Flags, k: IF.Keycode): (r: Flags)
    ensures r & KeyFlag(k) == 0
    ensures r & !KeyFlag(k) == f & !KeyFlag(k)
  {
    if k.OtherKey? then f else IF.Remove(f, KeyFlag(k))
  }

  /** Keys outside the match change nothing. */
  lemma OtherKeysIgnored(f: Flags, code: int)
    ensures KeyDown(f, IF.OtherKey(code)) == f && KeyUp(f, IF.OtherKey(code)) == f
  {
  }

  /** Pressing twice is pressing once, and a press undone by a release
      leaves the key's bit clear with every other bit as before the press. */
  lemma KeyDownThenUp(f: Flags, k: IF.Keycode)
    ensures KeyDown(KeyDown(f, k), k) == KeyDown(f, k)
    ensures KeyUp(KeyDown(f, k), k) == KeyUp(f, k)
  {
  }

  predicate Has(f: Flags, g: Flags) {
    f & g == g
  }

  /** `get_movement` of `gamestate.rs`: `None` while no key is held,
      otherwise the normalised sum of the movement keys' directions, read
      through this layout's bits.  The flags are read, never written. */
  function GetMovement(input: Flags, normalize: Vec3 -> Vec3): (r: Option<Vec3>)
    ensures r.None? <==> input == NONE
    ensures r.Some? ==> r.value == normalize(GS.RawMovement(Has(input, W), Has(input, S), Has(input, D),
                                                           Has(input, A), Has(input, X), Has(input, Y)))
  {
    if input == NONE then None
    else Some(normalize(GS.RawMovement(Has(input, W), Has(input, S), Has(input, D),
                                       Has(input, A), Has(input, X), Has(input, Y))))
  }

  /** Holding only keys that do not move (E, Q, the arrows) still yields
      `Some`, of the zero vector's normalisation. */
  lemma NonMovingKeys(normalize: Vec3 -> Vec3)
    ensures GetMovement(E | UP, normalize) == Some(normalize(Zero3))
    ensures GetMovement(WS, normalize) == Some(normalize(Zero3))
  {
    assert !Has(E | UP, W) && !Has(E | UP, S) && !Has(E | UP, D) && !Has(E | UP, A) && !Has(E | UP, X) && !Has(E | UP, Y);
    assert Has(WS, W) && Has(WS, S) && !Has(WS, D) && !Has(WS, A) && !Has(WS, X) && !Has(WS, Y);
  }

  /** Both layouts move the same way for the same held keys: shifting the
      older flags up by one gives the newer ones, and the movement read
      from either is the same. */
  lemma MovementAgrees(f: Flags, normalize: Vec3 -> Vec3)
    requires f & 0x8000_0000 == 0
    ensures GetMovement(f, normalize) == GS.GetMovement(f << 1, normalize)
  {
    assert Has(f, W) == GS.Has(f << 1, IF.W);
    assert Has(f, S) == GS.Has(f << 1, IF.S);
    assert Has(f, D) == GS.Has(f << 1, IF.D);
    assert Has(f, A) == GS.Has(f << 1, IF.A);
    assert Has(f, X) == GS.Has(f << 1, IF.X);
    assert Has(f, Y) == GS.Has(f << 1, IF.Y);
    assert (f == NONE) == (f << 1 == IF.NONE);
  }
}
