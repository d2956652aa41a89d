/** The game state's input handling: the movement direction read off the
    held keys, and mouse motion turning the camera while the mouse is
    captured. */
module GameState {
  import opened Base
  import opened InputFlags

  function Ind(b: bool): real {
    if b then 1.0 else 0.0
  }

  /** Adds `delta` to `v` when `b` holds. */
  function AddIf(v: Vec3, b: bool, delta: Vec3): (r: Vec3)
    ensures r == Vec3(v.x + Ind(b) * delta.x, v.y + Ind(b) * delta.y, v.z + Ind(b) * delta.z)
  {
    if b then Add3(v, delta) else v
  }

  /** The direction before normalisation: W forward (-z), S back, D right,
      A left, X up, Y down, each added in turn as the source does. */
  function RawMovement(w: bool, s: bool, d: bool, a: bool, x: bool, y: bool): (v: Vec3)
    ensures v.x == Ind(d) - Ind(a)
    ensures v.y == Ind(x) - Ind(y)
    ensures v.z == Ind(s) - Ind(w)
  {
    var v1 := AddIf(Zero3, w, Vec3(0.0, 0.0, -1.0));
    var v2 := AddIf(v1, s, Vec3(0.0, 0.0, 1.0));
    var v3 := AddIf(v2, d, Vec3(1.0, 0.0, 0.0));
    var v4 := AddIf(v3, a, Vec3(-1.0, 0.0, 0.0));
    var v5 := AddIf(v4, x, Vec3(0.0, 1.0, 0.0));
    AddIf(v5, y, Vec3(0.0, -1.0, 0.0))
  }

  predicate Has(f: Flags, g: Flags) {
    f & g == g
  }

  /** `gamestate::get_movement`: nothing while no flag is set, otherwise
      the normalised direction of the movement keys.  `normalize` stands
      for the fast inverse-square-root normalisation.  The flags are read,
      never written. */
  function GetMovement(input: Flags, normalize: Vec3 -> Vec3): (r: Option<Vec3>)
    ensures r.None? <==> input == NONE
    ensures r.Some? ==> r.value == normalize(RawMovement(Has(input, W), Has(input, S), Has(input, D),
                                                        Has(input, A), Has(input, X), Has(input, Y)))
  {
    if input == NONE then None
    else Some(normalize(RawMovement(Has(input, W), Has(input, S), Has(input, D),
                                    Has(input, A), Has(input, X), Has(input, Y))))
  }

  /** A set flag that is not a movement key, or W and S together, still
      gives `Some`, of the zero vector's normalisation. */
  lemma MovementWithoutDirection(normalize: Vec3 -> Vec3)
    ensures GetMovement(CLOSE, normalize) == Some(normalize(Zero3))
    ensures GetMovement(WS, normalize) == Some(normalize(Zero3))
  {
    assert !Has(CLOSE, W) && !Has(CLOSE, S) && !Has(CLOSE, D) && !Has(CLOSE, A) && !Has(CLOSE, X) && !Has(CLOSE, Y);
    assert Has(WS, W) && Has(WS, S) && !Has(WS, D) && !Has(WS, A) && !Has(WS, X) && !Has(WS, Y);
  }

  /** The camera calls mouse motion makes, in order. */
  datatype CameraCall = RotateV(deg: real) | RotateH(deg: real)

  /** `on_mouse_motion`: while the mouse is captured, a horizontal move
      turns the camera about the vertical axis and a vertical move about
      the horizontal one, by a tenth of a degree per pixel; a zero
      component makes no call. */
  function OnMouseMotion(input: Flags, xrel: int, yrel: int): (calls: seq<CameraCall>)
    ensures !Has(input, CAPTURED_MOUSE) ==> calls == []
    ensures Has(input, CAPTURED_MOUSE) ==>
      && (RotateV(xrel as real / 10.0) in calls <==> xrel != 0)
      && (RotateH(yrel as real / 10.0) in calls <==> yrel != 0)
      && |calls| == (if xrel != 0 then 1 else 0) + (if yrel != 0 then 1 else 0)
    ensures forall i :: 0 <= i < |calls| ==> (calls[i].RotateV? <==> i == 0 && xrel != 0)
  {
    if Has(input, CAPTURED_MOUSE) then
      (if xrel != 0 then [RotateV(xrel as real / 10.0)] else [])
      + (if yrel != 0 then [RotateH(yrel as real / 10.0)] else [])
    else []
  }
}
