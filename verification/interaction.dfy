/** Mouse and touch handling of the resize-safe fluid simulation and the
    uniforms of the splat they trigger. Pointer state lives in three globals
    (`_mouseDown`, `_lastX`, `_lastY`); the last position is `None` until a
    press sets it (the source's `undefined`, which turns a delta into NaN). */
module Interaction {
  import opened Wrappers

  const SPLAT_RADIUS: real := 0.004
  const SPLAT_FORCE: real := 6000.0

  datatype Color = Color(r: real, g: real, b: real)

  const MouseColor: Color := Color(0.9, 0.7, 1.2)
  const TouchColor: Color := Color(0.7, 0.8, 1.1)

  datatype Pointer = Pointer(down: bool, lastX: Option<real>, lastY: Option<real>)

  const Released: Pointer := Pointer(false, None, None)

  /** A DOM event with the coordinates its handler reads: client position
      minus the target's bounding-box corner for mouse events, page position
      for touches (`None` when `targetTouches[0]` is missing). */
  datatype Event =
    | MouseDown(clientX: real, clientY: real, left: real, top: real)
    | MouseMove(clientX: real, clientY: real, left: real, top: real)
    | MouseUp
    | TouchStart(touch: Option<(real, real)>)
    | TouchMove(touch: Option<(real, real)>, canvasLeft: real, canvasTop: real)
    | TouchEnd

  /** A call `splat(x, y, dx, dy, color)`; a delta is `None` when it is NaN. */
  datatype SplatCall = SplatCall(x: real, y: real, dx: Option<real>, dy: Option<real>, color: Color)

  /** `(x - last) * k`, NaN when there is no last position. */
  function Delta(x: real, last: Option<real>, k: real): (r: Option<real>)
    ensures r.Some? <==> last.Some?
    ensures last.Some? ==> r.value == k * (x - last.value)
  {
    if last.Some? then Some((x - last.value) * k) else None
  }

  /** The listeners: returns the new pointer state and the splat issued, if any. */
  function Handle(p: Pointer, e: Event): (r: (Pointer, Option<SplatCall>))
  {
    match e
    case MouseDown(cx, cy, left, top) =>
      (Pointer(true, Some(cx - left), Some(cy - top)), None)
    case MouseMove(cx, cy, left, top) =>
      if !p.down then (p, None)
      else
        var x := cx - left;
        var y := cy - top;
        (Pointer(true, Some(x), Some(y)),
         Some(SplatCall(x, y, Delta(x, p.lastX, 5.0), Delta(y, p.lastY, 5.0), MouseColor)))
    case MouseUp => (p.(down := false), None)
    case TouchEnd => (p.(down := false), None)
    case TouchStart(t) =>
      if t.None? then (p, None) else (Pointer(true, Some(t.value.0), Some(t.value.1)), None)
    case TouchMove(t, left, top) =>
      if t.None? then (p, None)
      else
        var (x, y) := t.value;
        (p.(lastX := Some(x), lastY := Some(y)),
         Some(SplatCall(x - left, y - top, Delta(x, p.lastX, 10.0), Delta(y, p.lastY, 10.0), TouchColor)))
  }

  /** A window mousemove splats exactly when the button is down; the delta is
      five times the movement since the last recorded position. */
  lemma MouseMoveSplatsIffDown(p: Pointer, cx: real, cy: real, left: real, top: real)
    requires p.lastX.Some? && p.lastY.Some?
    ensures var (q, call) := Handle(p, MouseMove(cx, cy, left, top));
      (call.Some? <==> p.down)
      && (p.down ==> call.value == SplatCall(cx - left, cy - top,
                                  Some(5.0 * (cx - left - p.lastX.value)),
                                  Some(5.0 * (cy - top - p.lastY.value)), MouseColor)
                     && q.lastX == Some(cx - left) && q.lastY == Some(cy - top))
      && (!p.down ==> q == p)
  {
  }

  /** A touch move splats whether or not anything is pressed, at the page
      position relative to the canvas, with ten times the movement. */
  lemma TouchMoveAlwaysSplats(p: Pointer, x: real, y: real, left: real, top: real)
    ensures var (q, call) := Handle(p, TouchMove(Some((x, y)), left, top));
      call.Some? && call.value.x == x - left && call.value.y == y - top
      && call.value.color == TouchColor
      && (p.lastX.Some? ==> call.value.dx == Some(10.0 * (x - p.lastX.value)))
      && (p.lastX.None? ==> call.value.dx.None?)
      && q.down == p.down
  {
  }

  /** Touch end is the mouse-up handler. */
  lemma TouchEndIsMouseUp(p: Pointer)
    ensures Handle(p, TouchEnd) == Handle(p, MouseUp)
    ensures !Handle(p, TouchEnd).0.down
  {
  }

  /** Runs a sequence of events, collecting the splats issued. */
  function Run(p: Pointer, es: seq<Event>): (r: (Pointer, seq<SplatCall>))
    decreases |es|
  {
    if |es| == 0 then (p, [])
    else
      var (q, c) := Handle(p, es[0]);
      var (last, calls) := Run(q, es[1..]);
      (last, (if c.Some? then [c.value] else []) + calls)
  }

  predicate IsPress(e: Event) {
    e.MouseDown? || (e.TouchStart? && e.touch.Some?)
  }

  /** Without a press or a touch move, a released pointer never splats and
      stays released. */
  lemma {:induction false} NoSplatWithoutPress(p: Pointer, es: seq<Event>)
    requires !p.down
    requires forall k :: 0 <= k < |es| ==> !IsPress(es[k]) && !es[k].TouchMove?
    ensures Run(p, es).1 == []
    ensures !Run(p, es).0.down
    decreases |es|
  {
    if |es| > 0 {
      NoSplatWithoutPress(Handle(p, es[0]).0, es[1..]);
    }
  }

  /** The x deltas of one drag add up to five times the distance travelled. */
  function SumDx(calls: seq<SplatCall>): real
    requires forall k :: 0 <= k < |calls| ==> calls[k].dx.Some?
    decreases |calls|
  {
    if |calls| == 0 then 0.0 else calls[0].dx.value + SumDx(calls[1..])
  }

  /** A drag made only of window mouse moves (button held, moves over targets
      at the same corner) splats once per move and the deltas telescope: their
      sum is five times the total horizontal travel. */
  lemma {:induction false} DragDeltasTelescope(p: Pointer, es: seq<Event>)
    requires p.down && p.lastX.Some? && p.lastY.Some?
    requires forall k :: 0 <= k < |es| ==> es[k].MouseMove?
    ensures var (q, calls) := Run(p, es);
      |calls| == |es| && q.down && q.lastX.Some?
      && (forall k :: 0 <= k < |calls| ==> calls[k].dx.Some?)
      && SumDx(calls) == 5.0 * (q.lastX.value - p.lastX.value)
    decreases |es|
  {
    if |es| > 0 {
      var (q, c) := Handle(p, es[0]);
      DragDeltasTelescope(q, es[1..]);
    }
  }

  /** `correctRadius(aspectRatio)` with `SPLAT_RADIUS / 0.004 == 1`. */
  function CorrectRadius(aspect: real): (r: real)
    ensures aspect > 1.0 ==> r == 0.00035
    ensures aspect <= 1.0 ==> r == 0.00035 * aspect
    ensures aspect >= 0.0 ==> 0.0 <= r <= 0.00035
  {
    (if aspect > 1.0 then 0.00035 else 0.00035 * aspect) * (SPLAT_RADIUS / 0.004)
  }

  /** The correction never shrinks as the canvas gets wider. */
  lemma CorrectRadiusMonotone(a: real, b: real)
    requires a <= b
    ensures CorrectRadius(a) <= CorrectRadius(b)
  {
  }

  datatype Uniforms = Uniforms(aspect: real, pointX: real, pointY: real,
                               velocityColor: Color, densityColor: Color, radius: real)

  /** The splat program's uniforms for a canvas of `w` x `h`: the point in
      texture coordinates with y flipped, the velocity "colour" carrying the
      scaled delta, and the corrected radius. `None` when a canvas side is 0
      (the source divides by it, producing non-finite uniforms) or a delta is NaN. */
  function SplatUniforms(c: SplatCall, w: int, h: int): (r: Option<Uniforms>)
    ensures r.Some? <==> w > 0 && h > 0 && c.dx.Some? && c.dy.Some?
    ensures r.Some? ==>
      r.value.pointX * (w as real) == c.x
      && (1.0 - r.value.pointY) * (h as real) == c.y
      && r.value.velocityColor == Color(c.dx.value * SPLAT_FORCE, c.dy.value * SPLAT_FORCE, 1.0)
      && r.value.densityColor == c.color
      && r.value.radius == CorrectRadius(w as real / h as real) * SPLAT_RADIUS
  {
    if w <= 0 || h <= 0 || c.dx.None? || c.dy.None? then None
    else
      var aspect := w as real / h as real;
      Some(Uniforms(aspect, c.x / w as real, 1.0 - c.y / h as real,
                    Color(c.dx.value * SPLAT_FORCE, c.dy.value * SPLAT_FORCE, 1.0), c.color,
                    CorrectRadius(aspect) * SPLAT_RADIUS))
  }

  /** A splat lands inside the unit texture square exactly when its canvas
      position is inside the canvas. */
  lemma SplatPointInsideIff(c: SplatCall, w: int, h: int)
    requires w > 0 && h > 0 && c.dx.Some? && c.dy.Some?
    ensures var u := SplatUniforms(c, w, h).value;
      (0.0 <= u.pointX <= 1.0 && 0.0 <= u.pointY <= 1.0)
      <==> (0.0 <= c.x <= w as real && 0.0 <= c.y <= h as real)
  {
    var u := SplatUniforms(c, w, h).value;
    var W := w as real;
    var H := h as real;
    assert u.pointX * W == c.x;
    assert (1.0 - u.pointY) * H == c.y;
    assert 0.0 <= u.pointX <= 1.0 <==> 0.0 <= u.pointX * W <= W;
    assert 0.0 <= u.pointY <= 1.0 <==> 0.0 <= (1.0 - u.pointY) * H <= H;
  }
}
