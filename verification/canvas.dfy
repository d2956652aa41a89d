/** The annotation canvas: a three-state machine driven by mouse events
    that records bounding boxes and key points, and the line and dot
    primitives it draws with. */
module Canvas {
  import opened Base

  /** Key points per annotation. */
  const KeyP: nat := 2

  /** A labelled box and its `KeyP` key points. */
  datatype Annotation = Annotation(category: int, bbox: (Vec2, Vec2), keyp: (Vec2, Vec2))

  /** Writing key point `i`; the source's fixed-size array has no slot
      past the second, so the caller rules those out. */
  function SetKeyPoint(kp: (Vec2, Vec2), i: nat, p: Vec2): (r: (Vec2, Vec2))
    requires i < KeyP
    ensures i == 0 ==> r == (p, kp.1)
    ensures i == 1 ==> r == (kp.0, p)
  {
    if i == 0 then (p, kp.1) else (kp.0, p)
  }

  datatype AnnoState = BoxStart | BoxEnd | KeyPoint(i: nat)

  /** The canvas's drawing buffers and annotation state.  `size` is the
      drawable width and height; clicks right of the width are ignored. */
  datatype Canvas = Canvas(
    lines: seq<Vec2>,
    dots: seq<Vec2>,
    colors: seq<Vec3>,
    size: (int, int),
    mousePos: Vec2,
    annos: seq<Annotation>,
    state: AnnoState,
    currentClass: int)

  /** The SDL events the canvas reacts to; window coordinates in pixels. */
  datatype Event = MouseDown(x: int, y: int) | MouseMotion(x: int, y: int) | MouseUp(x: int, y: int) | OtherEvent

  /** `x as f32, y as f32` for in-range pixel coordinates. */
  function Pixel(x: int, y: int): Vec2 { Vec2(x as real, y as real) }

  /** A freshly opened canvas. */
  function New(size: (int, int)): (c: Canvas)
    ensures c.state == BoxStart && c.annos == [] && c.lines == [] && c.dots == [] && c.colors == []
    ensures c.mousePos == Zero2 && c.currentClass == 0 && c.size == size
  {
    Canvas([], [], [], size, Zero2, [], BoxStart, 0)
  }

  /** The states reachable from `New`: a key-point index is always in
      range and every state past `BoxStart` has an annotation to work on. */
  predicate Inv(c: Canvas) {
    && (c.state.KeyPoint? ==> c.state.i < KeyP)
    && (!c.state.BoxStart? ==> |c.annos| > 0)
  }

  /** The last annotation with `f` applied, if there is one
      (`annos.last_mut().map(f)`). */
  function MapLast(annos: seq<Annotation>, f: Annotation -> Annotation): (r: seq<Annotation>)
    ensures |r| == |annos|
    ensures forall k :: 0 <= k < |annos| - 1 ==> r[k] == annos[k]
    ensures |annos| > 0 ==> r[|annos| - 1] == f(annos[|annos| - 1])
  {
    if |annos| == 0 then annos else annos[|annos| - 1 := f(annos[|annos| - 1])]
  }

  /** A click: starts a box, or places the next key point. */
  function Down(c: Canvas, x: int, y: int): (r: Result<Canvas>)
  {
    match c.state
    case BoxStart =>
      var p := Pixel(x, y);
      var anno := Annotation(c.currentClass, (p, p), (UnitX2, UnitX2));
      Ok(c.(annos := c.annos + [anno], state := BoxEnd))
    case KeyPoint(i) =>
      if |c.annos| > 0 && i >= KeyP then Panic("index out of bounds")
      else
        var annos := MapLast(c.annos, (a: Annotation) => if i < KeyP then a.(keyp := SetKeyPoint(a.keyp, i, Pixel(x, y))) else a);
        Ok(c.(annos := annos, state := if i + 1 >= KeyP then BoxStart else KeyPoint(i + 1)))
    case BoxEnd => Ok(c)
  }

  /** `handle_event`.  Events right of the canvas are ignored; the only
      panic is a key-point index past the annotation's key points. */
  function HandleEvent(c: Canvas, e: Event): (r: Result<Canvas>)
    ensures (e.OtherEvent? || e.x > c.size.0) ==> r == Ok(c)
    ensures r.Panic? <==> e.MouseDown? && e.x <= c.size.0 && c.state.KeyPoint? && c.state.i >= KeyP && |c.annos| > 0
    ensures Inv(c) ==> r.Ok?
    // a click in BoxStart opens one annotation and waits for its corner
    ensures e.MouseDown? && e.x <= c.size.0 && c.state.BoxStart? ==>
      && r.Ok? && r.value.state == BoxEnd
      && r.value.annos == c.annos + [Annotation(c.currentClass, (Pixel(e.x, e.y), Pixel(e.x, e.y)), (UnitX2, UnitX2))]
      && r.value.mousePos == c.mousePos
    // a click in KeyPoint(i) fills key point i of the last annotation
    ensures e.MouseDown? && e.x <= c.size.0 && c.state.KeyPoint? && r.Ok? ==>
      && r.value.state == (if c.state.i + 1 >= KeyP then BoxStart else KeyPoint(c.state.i + 1))
      && |r.value.annos| == |c.annos|
      && (forall k :: 0 <= k < |c.annos| - 1 ==> r.value.annos[k] == c.annos[k])
      && (|c.annos| > 0 ==>
            r.value.annos[|c.annos| - 1]
            == c.annos[|c.annos| - 1].(keyp := SetKeyPoint(c.annos[|c.annos| - 1].keyp, c.state.i, Pixel(e.x, e.y))))
    // a click while dragging a box changes nothing
    ensures e.MouseDown? && c.state.BoxEnd? ==> r == Ok(c)
    // motion moves the cursor, and the open box's far corner in BoxEnd
    ensures e.MouseMotion? && e.x <= c.size.0 ==>
      && r.Ok? && r.value.mousePos == Pixel(e.x, e.y) && r.value.state == c.state
      && |r.value.annos| == |c.annos|
      && (forall k :: 0 <= k < |c.annos| - 1 ==> r.value.annos[k] == c.annos[k])
      && (|c.annos| > 0 ==>
            r.value.annos[|c.annos| - 1]
            == (if c.state.BoxEnd? then c.annos[|c.annos| - 1].(bbox := (c.annos[|c.annos| - 1].bbox.0, Pixel(e.x, e.y)))
                else c.annos[|c.annos| - 1]))
    // releasing the button closes the box and asks for the first key point
    ensures e.MouseUp? && e.x <= c.size.0 ==>
      r == Ok(if c.state.BoxEnd? then c.(state := KeyPoint(0)) else c)
    // the drawing buffers, canvas size and class are never touched
    ensures r.Ok? ==> r.value.(annos := c.annos, state := c.state, mousePos := c.mousePos) == c
  {
    match e
    case OtherEvent => Ok(c)
    case MouseDown(x, y) => if x > c.size.0 then Ok(c) else Down(c, x, y)
    case MouseMotion(x, y) =>
      if x > c.size.0 then Ok(c)
      else
        var p := Pixel(x, y);
        var annos := if c.state.BoxEnd? then MapLast(c.annos, (a: Annotation) => a.(bbox := (a.bbox.0, p))) else c.annos;
        Ok(c.(annos := annos, mousePos := p))
    case MouseUp(x, _) =>
      if x > c.size.0 then Ok(c)
      else if c.state.BoxEnd? then Ok(c.(state := KeyPoint(0)))
      else Ok(c)
  }

  /** Every event keeps the invariant, so a canvas driven from `New`
      never panics. */
  lemma HandleEventKeepsInv(c: Canvas, e: Event)
    requires Inv(c)
    ensures HandleEvent(c, e).Ok? && Inv(HandleEvent(c, e).value)
  {
  }

  lemma NewInv(size: (int, int))
    ensures Inv(New(size))
  {
  }

  /** Annotations are only ever appended: the list grows by one exactly on
      a click in `BoxStart`, and the ones before the last never change. */
  lemma AnnotationsOnlyGrow(c: Canvas, e: Event)
    requires HandleEvent(c, e).Ok?
    ensures var r := HandleEvent(c, e).value;
      && |r.annos| == |c.annos| + (if e.MouseDown? && e.x <= c.size.0 && c.state.BoxStart? then 1 else 0)
      && forall k :: 0 <= k < |c.annos| - 1 ==> r.annos[k] == c.annos[k]
  {
  }

  /** Running a sequence of events from `New` never panics. */
  function Run(c: Canvas, es: seq<Event>): (r: Canvas)
    requires Inv(c)
    ensures Inv(r) && r.size == c.size && r.lines == c.lines
    decreases |es|
  {
    if |es| == 0 then c
    else
      HandleEventKeepsInv(c, es[0]);
      Run(HandleEvent(c, es[0]).value, es[1..])
  }

  /** Drawing a box by down, drag, up and two key-point clicks yields one
      finished annotation and returns to `BoxStart`. */
  lemma OneAnnotation(size: (int, int))
    requires size.0 >= 10
    ensures var c := Run(New(size), [MouseDown(1, 2), MouseMotion(5, 6), MouseUp(5, 6), MouseDown(3, 3), MouseDown(4, 4)]);
      && c.state == BoxStart
      && c.annos == [Annotation(0, (Pixel(1, 2), Pixel(5, 6)), (Pixel(3, 3), Pixel(4, 4)))]
  {
    var c0 := New(size);
    var c1 := HandleEvent(c0, MouseDown(1, 2)).value;
    var c2 := HandleEvent(c1, MouseMotion(5, 6)).value;
    var c3 := HandleEvent(c2, MouseUp(5, 6)).value;
    var c4 := HandleEvent(c3, MouseDown(3, 3)).value;
    var c5 := HandleEvent(c4, MouseDown(4, 4)).value;
    var es := [MouseDown(1, 2), MouseMotion(5, 6), MouseUp(5, 6), MouseDown(3, 3), MouseDown(4, 4)];
    assert es[1..][1..][1..][1..][1..] == [];
    assert Run(c0, es) == Run(c1, es[1..]) == Run(c2, es[1..][1..]) == Run(c3, es[1..][1..][1..]);
    assert Run(c3, es[1..][1..][1..]) == Run(c4, es[1..][1..][1..][1..]) == Run(c5, []);
  }

  // ---------------------------------------------------------------------
  // Drawing primitives
  // ---------------------------------------------------------------------

  /** `add_line`: a segment is two consecutive entries of `lines`. */
  function AddLine(c: Canvas, start: Vec2, end: Vec2): (r: Canvas)
    ensures r.lines == c.lines + [start, end]
    ensures r.(lines := c.lines) == c
  {
    c.(lines := c.lines + [start, end])
  }

  /** `add_dot`. */
  function AddDot(c: Canvas, pos: Vec2): (r: Canvas)
    ensures r.dots == c.dots + [pos]
    ensures r.(dots := c.dots) == c
  {
    c.(dots := c.dots + [pos])
  }

  /** The colour of the cursor cross. */
  const Cyan: Vec3 := Vec3(0.0, 1.0, 1.0)

  /** `add_cross`: a horizontal line through the cursor across the canvas,
      a vertical one down it, and four cyan colours.  The source extends a
      field `l_colors` that `Canvas` does not declare; the model extends
      `colors`, the only colour list there is. */
  function AddCross(c: Canvas): (r: Canvas)
    ensures |r.lines| == |c.lines| + 4 && r.lines[..|c.lines|] == c.lines
    ensures var n := |c.lines|;
      && r.lines[n] == Vec2(0.0, c.mousePos.y) && r.lines[n + 1] == Vec2(c.size.0 as real, c.mousePos.y)
      && r.lines[n + 2] == Vec2(c.mousePos.x, 0.0) && r.lines[n + 3] == Vec2(c.mousePos.x, c.size.1 as real)
    ensures r.colors == c.colors + [Cyan, Cyan, Cyan, Cyan]
    ensures r.(lines := c.lines, colors := c.colors) == c
  {
    var c1 := AddLine(c, Vec2(0.0, c.mousePos.y), Vec2(c.size.0 as real, c.mousePos.y));
    var c2 := AddLine(c1, Vec2(c.mousePos.x, 0.0), Vec2(c.mousePos.x, c.size.1 as real));
    c2.(colors := c2.colors + [Cyan, Cyan, Cyan, Cyan])
  }

  /** Both ends of the segment starting at `k` share a coordinate. */
  predicate AxisAligned(lines: seq<Vec2>, k: nat)
    requires k + 1 < |lines|
  {
    lines[k].x == lines[k + 1].x || lines[k].y == lines[k + 1].y
  }

  /** `add_square`: the four sides of the box spanned by `start` and `end`,
      two from each corner, each ending at one of the two other corners:
      first the one below or above `start`, then the one beside it. */
  function AddSquare(c: Canvas, start: Vec2, end: Vec2): (r: Canvas)
    ensures |r.lines| == |c.lines| + 8 && r.lines[..|c.lines|] == c.lines
    ensures forall k :: 0 <= k < 4 ==> AxisAligned(r.lines, |c.lines| + 2 * k)
    ensures var n := |c.lines|;
      r.lines[n] == r.lines[n + 2] == start && r.lines[n + 4] == r.lines[n + 6] == end
    ensures var n := |c.lines|;
      && r.lines[n + 1] == r.lines[n + 5] == Vec2(start.x, end.y)
      && r.lines[n + 3] == r.lines[n + 7] == Vec2(end.x, start.y)
    ensures forall k :: |c.lines| <= k < |r.lines| ==> r.lines[k].x in {start.x, end.x} && r.lines[k].y in {start.y, end.y}
    ensures r.(lines := c.lines) == c
  {
    var c1 := AddLine(c, start, Vec2(start.x, end.y));
    var c2 := AddLine(c1, start, Vec2(end.x, start.y));
    var c3 := AddLine(c2, end, Vec2(start.x, end.y));
    AddLine(c3, end, Vec2(end.x, start.y))
  }

  /** When the two corners differ in both coordinates, the square's four
      segments are the four distinct sides of the box, none of zero
      length. */
  lemma SquareSidesDistinct(c: Canvas, start: Vec2, end: Vec2)
    requires start.x != end.x && start.y != end.y
    ensures var r := AddSquare(c, start, end); var n := |c.lines|;
      && (forall k :: 0 <= k < 4 ==> r.lines[n + 2 * k] != r.lines[n + 2 * k + 1])
      && (forall k, j :: 0 <= k < j < 4 ==>
            {r.lines[n + 2 * k], r.lines[n + 2 * k + 1]} != {r.lines[n + 2 * j], r.lines[n + 2 * j + 1]})
  {
  }
}
