/** The game's input bit set: one bit per held key plus a close request
    and a captured-mouse bit, kept in a `u32`. */
module InputFlags {
  type Flags = bv32

  const NONE: Flags := 0x0
  const CLOSE: Flags := 0x1
  const W: Flags := 0x2
  const S: Flags := 0x4
  const D: Flags := 0x8
  const A: Flags := 0x10
  const X: Flags := 0x20
  const Y: Flags := 0x40
  const E: Flags := 0x80
  const Q: Flags := 0x100
  const RIGHT: Flags := 0x200
  const LEFT: Flags := 0x400
  const UP: Flags := 0x800
  const DOWN: Flags := 0x1000
  const CAPTURED_MOUSE: Flags := 0x2000
  const WS: Flags := W | S

  /** Every named flag, in declaration order. */
  const AllFlags: seq<Flags> := [CLOSE, W, S, D, A, X, Y, E, Q, RIGHT, LEFT, UP, DOWN, CAPTURED_MOUSE]

  predicate SingleBit(b: Flags) {
    b != 0 && b & (b - 1) == 0
  }

  /** The fourteen flags are single bits, pairwise disjoint. */
  lemma FlagsAreDistinctBits()
    ensures |AllFlags| == 14
    ensures forall i :: 0 <= i < |AllFlags| ==> SingleBit(AllFlags[i])
    ensures forall i, j :: 0 <= i < j < |AllFlags| ==> AllFlags[i] & AllFlags[j] == 0
    ensures WS == W | S && WS & !(W | S) == 0
  {
  }

  /** `contains`: every bit of `g` is set in `f`. */
  predicate Contains(f: Flags, g: Flags) {
    f & g == g
  }

  /** The keys the game tells apart; `OtherKey` is any other key code. */
  datatype Keycode = KeyE | KeyQ | KeyW | KeyS | KeyD | KeyA | KeyX | KeyY
                   | ArrowRight | ArrowLeft | ArrowUp | ArrowDown | OtherKey(code: int)

  /** `From<Keycode>`: the key's flag, `NONE` for keys without one. */
  function FromKey(k: Keycode): (f: Flags)
    ensures k.OtherKey? <==> f == NONE
  {
    match k
    case KeyE => E
    case KeyQ => Q
    case KeyW => W
    case KeyS => S
    case KeyD => D
    case KeyA => A
    case KeyX => X
    case KeyY => Y
    case ArrowRight => RIGHT
    case ArrowLeft => LEFT
    case ArrowUp => UP
    case ArrowDown => DOWN
    case OtherKey(_) => NONE
  }

  /** The bits no key maps to: `CLOSE | CAPTURED_MOUSE`. */
  const Reserved: Flags := 0x2001

  /** A key maps to one bit, and never to a reserved one. */
  lemma FromKeyBits(k: Keycode)
    ensures FromKey(k) == NONE || SingleBit(FromKey(k))
    ensures FromKey(k) & Reserved == 0
  {
  }

  /** bitflags' `insert`: sets the bits of `g`, keeps all others. */
  function Insert(f: Flags, g: Flags): (r: Flags)
    ensures r & g == g
    ensures r & !g == f & !g
  {
    f | g
  }

  /** bitflags' `remove`: clears the bits of `g`, keeps all others. */
  function Remove(f: Flags, g: Flags): (r: Flags)
    ensures r & g == 0
    ensures r & !g == f & !g
  {
    f & !g
  }

  lemma MaskedUnchanged(f: Flags, r: Flags, g: Flags, m: Flags)
    requires r & !g == f & !g && g & m == 0
    ensures r & m == f & m
  {
  }

  /** `key_down` sets the key's bit and no other. */
  function KeyDown(f: Flags, k: Keycode): (r: Flags)
    ensures r & FromKey(k) == FromKey(k)
    ensures r & !FromKey(k) == f & !FromKey(k)
  {
    Insert(f, FromKey(k))
  }

  /** `key_up` clears the key's bit and no other. */
  function KeyUp(f: Flags, k: Keycode): (r: Flags)
    ensures r & FromKey(k) == 0
    ensures r & !FromKey(k) == f & !FromKey(k)
  {
    Remove(f, FromKey(k))
  }

  lemma ReservedBits()
    ensures Reserved == CLOSE | CAPTURED_MOUSE
  {
  }

  /** Pressing a key never touches the close and captured-mouse bits. */
  lemma KeyDownKeepsReserved(f: Flags, k: Keycode)
    ensures KeyDown(f, k) & Reserved == f & Reserved
  {
    FromKeyBits(k);
    MaskedUnchanged(f, KeyDown(f, k), FromKey(k), Reserved);
  }

  /** Releasing a key never touches the close and captured-mouse bits. */
  lemma KeyUpKeepsReserved(f: Flags, k: Keycode)
    ensures KeyUp(f, k) & Reserved == f & Reserved
  {
    FromKeyBits(k);
    MaskedUnchanged(f, KeyUp(f, k), FromKey(k), Reserved);
  }

  /** Pressing a key twice is pressing it once; releasing it afterwards
      leaves the same flags as releasing it without the press. */
  lemma KeyDownIdempotent(f: Flags, k: Keycode)
    ensures KeyDown(KeyDown(f, k), k) == KeyDown(f, k)
    ensures KeyUp(KeyDown(f, k), k) == KeyUp(f, k)
  {
  }

  /** `close`: the close bit is set. */
  function Close(f: Flags): (b: bool)
    ensures b <==> f & CLOSE != 0
  {
    f & CLOSE == CLOSE
  }

  lemma ReservedHasClose(f: Flags)
    ensures f & CLOSE == (f & Reserved) & CLOSE
  {
  }

  /** Keys never request or cancel closing. */
  lemma KeysKeepClose(f: Flags, k: Keycode)
    ensures Close(KeyDown(f, k)) == Close(f) && Close(KeyUp(f, k)) == Close(f)
  {
    KeyDownKeepsReserved(f, k);
    KeyUpKeepsReserved(f, k);
    ReservedHasClose(f);
    ReservedHasClose(KeyDown(f, k));
    ReservedHasClose(KeyUp(f, k));
  }
}
