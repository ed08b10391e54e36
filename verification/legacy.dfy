/** The legacy fluid simulation (`FluidCanvas.tsx`). Its framebuffers are
    `[texture, fbo, unit]` triples whose texture stays bound to a fixed
    texture unit, and shaders name their inputs by unit, so a buffer is
    identified here by its unit. Differences from the resize-safe variant:
    texture sizes are not clamped, resize never reallocates, the pressure
    sampler is bound once before the Jacobi loop, hovering the canvas presses
    the primary pointer, and touch moves never splat. */
module Legacy {
  import opened Wrappers
  import opened DoubleBuffer
  import opened Schedule
  import Interaction
  import Fields
  import Lifecycle

  // ---- texture units and sizes ----

  /** Units: density 0/1, velocity 2/3, divergence 4, curl 5, pressure 6/7. */
  const Units: Buffers<nat> := Buffers(Double(2, 3), Double(0, 1), Double(6, 7), 4, 5)

  lemma UnitsDistinct()
    ensures Schedule.Distinct(Units)
  {
  }

  /** `canvas >> TEXTURE_DOWNSAMPLE` with no lower bound. */
  function TexSize(side: int): int {
    Fields.ShiftRight(side, Fields.TEXTURE_DOWNSAMPLE)
  }

  /** Without the clamp a canvas side of 0 or 1 gives a zero-sized texture,
      where the resize-safe variant allocates 2. */
  lemma UnclampedSizeCanBeZero()
    ensures TexSize(1) == 0 && TexSize(0) == 0
    ensures Fields.TexSize(1) == 2
  {
  }

  // ---- the step with the sampler bound once ----

  /** The legacy pressure loop: `uPressure` names the read unit as it was
      before the loop; each iteration renders into the current write half and swaps. */
  function FixedJacobiPasses(divergence: nat, sampled: nat, p: Double<nat>, n: nat)
    : (r: (seq<Pass<nat>>, Double<nat>))
    ensures |r.0| == n
    ensures r.1 == SwapN(p, n)
    ensures forall k :: 0 <= k < n ==>
      r.0[k] == Pass(Jacobi, [divergence, sampled], SwapN(p, k).write)
    decreases n
  {
    if n == 0 then ([], p)
    else
      var (ps, q) := FixedJacobiPasses(divergence, sampled, p, n - 1);
      (ps + [Pass(Jacobi, [divergence, sampled], q.write)], Swap(q))
  }

  /** `update`: the resize-safe pass order, but every Jacobi pass samples the
      pressure unit bound before the loop. */
  function StepPasses(b: Buffers<nat>, n: nat): (r: (seq<Pass<nat>>, Buffers<nat>))
  {
    var v0 := b.velocity;
    var curl := Pass(Curl, [v0.read], b.curl);
    var vort := Pass(Vorticity, [v0.read, b.curl], v0.write);
    var v1 := Swap(v0);
    var div := Pass(Divergence, [v1.read], b.divergence);
    var clear := Pass(ClearPressure, [b.pressure.read], b.pressure.write);
    var p1 := Swap(b.pressure);
    var (jacobi, p2) := FixedJacobiPasses(b.divergence, p1.read, p1, n);
    var grad := Pass(GradientSubtract, [p2.read, v1.read], v1.write);
    var v2 := Swap(v1);
    var advV := Pass(Advect, [v2.read, v2.read], v2.write);
    var v3 := Swap(v2);
    var advD := Pass(Advect, [v3.read, b.density.read], b.density.write);
    ([curl, vort, div, clear] + jacobi + [grad, advV, advD],
     Buffers(v3, Swap(b.density), p2, b.divergence, b.curl))
  }

  /** The legacy step differs from the resize-safe one only in what the Jacobi
      passes sample, and ends with the same buffer assignment. */
  lemma StepDiffersOnlyInJacobi(b: Buffers<nat>, n: nat)
    ensures |StepPasses(b, n).0| == |Schedule.StepPasses(b, n).0| == 7 + n
    ensures StepPasses(b, n).1 == Schedule.StepPasses(b, n).1
    ensures forall k :: 0 <= k < 7 + n && !(4 <= k < 4 + n) ==>
      StepPasses(b, n).0[k] == Schedule.StepPasses(b, n).0[k]
    ensures forall k :: 4 <= k < 4 + n ==>
      StepPasses(b, n).0[k].dest == Schedule.StepPasses(b, n).0[k].dest
      && StepPasses(b, n).0[k].samples == [b.divergence, b.pressure.write]
  {
    var p1 := Swap(b.pressure);
    var (lj, _) := FixedJacobiPasses(b.divergence, p1.read, p1, n);
    var (sj, _) := JacobiPasses(b.divergence, p1, n);
    var l := StepPasses(b, n).0;
    var s := Schedule.StepPasses(b, n).0;
    forall k | 4 <= k < 4 + n
      ensures l[k].dest == s[k].dest && l[k].samples == [b.divergence, b.pressure.write]
    {
      assert l[k] == lj[k - 4] && s[k] == sj[k - 4];
    }
  }

  /** Jacobi iteration `k` (from 0) renders into the very unit it samples
      exactly when `k` is odd: read/write feedback on every second pass. */
  lemma JacobiFeedbackOnOddIterations(b: Buffers<nat>, n: nat, k: nat)
    requires Schedule.Distinct(b)
    requires k < n
    ensures var pass := StepPasses(b, n).0[4 + k];
      pass.kernel == Jacobi && (pass.dest in pass.samples <==> k % 2 == 1)
  {
    var p1 := Swap(b.pressure);
    var (lj, _) := FixedJacobiPasses(b.divergence, p1.read, p1, n);
    assert StepPasses(b, n).0[4 + k] == lj[k];
    SwapNParity(p1, k);
  }

  /** With the legacy units and 25 iterations, the schedule has feedback:
      iteration 1 writes unit 7, which is also the unit it samples. */
  lemma LegacyScheduleHasFeedback()
    ensures !FeedbackFree(StepPasses(Units, PRESSURE_ITERATIONS).0)
    ensures StepPasses(Units, PRESSURE_ITERATIONS).0[5].dest == 7
  {
    UnitsDistinct();
    JacobiFeedbackOnOddIterations(Units, PRESSURE_ITERATIONS, 1);
    var p1 := Swap(Units.pressure);
    assert SwapN(p1, 1) == Swap(p1);
  }

  // ---- pointers ----

  datatype Pointer = Pointer(id: int, x: real, y: real, dx: real, dy: real,
                             down: bool, moved: bool, color: Interaction.Color)

  /** `new pointerPrototype()`. */
  const Prototype: Pointer := Pointer(-1, 0.0, 0.0, 0.0, 0.0, false, false, Interaction.Color(30.0, 0.0, 300.0))

  datatype Touch = Touch(identifier: int, pageX: real, pageY: real)

  /** Pointer list and the idle splat stack. `pointers[0]` is the primary
      pointer: the list only grows at the end, so it stays the same object. */
  datatype Input = Input(pointers: seq<Pointer>, splatStack: seq<nat>)

  /** State after setup: one pointer, released, with a start colour. */
  function Start(color: Interaction.Color): (r: Input)
    ensures |r.pointers| == 1 && !r.pointers[0].down && r.splatStack == []
  {
    Input([Prototype.(color := color)], [])
  }

  /** A splat request `splat(x, y, dx, dy, color)`. */
  datatype Call = Call(x: real, y: real, dx: real, dy: real, color: Interaction.Color)

  /** Canvas `mousedown`: press the primary pointer at the offset position. */
  function MouseDown(s: Input, offsetX: real, offsetY: real): (r: Input)
    requires |s.pointers| >= 1
    ensures |r.pointers| == |s.pointers| && r.pointers[1..] == s.pointers[1..]
    ensures r.pointers[0].down && !r.pointers[0].moved
    ensures r.pointers[0].x == offsetX && r.pointers[0].y == offsetY
    ensures r.pointers[0].dx == 0.0 && r.pointers[0].dy == 0.0
  {
    s.(pointers := s.pointers[0 := s.pointers[0].(down := true, moved := false, x := offsetX,
                                                  y := offsetY, dx := 0.0, dy := 0.0)])
  }

  /** Window `mousemove`: ignored unless the primary pointer is down; else one
      splat with five times the movement and the primary colour. */
  function WindowMouseMove(s: Input, clientX: real, clientY: real, rectLeft: real, rectTop: real)
    : (r: (Input, Option<Call>))
    requires |s.pointers| >= 1
  {
    var p := s.pointers[0];
    if !p.down then (s, None)
    else
      var x := clientX - rectLeft;
      var y := clientY - rectTop;
      var q := p.(moved := true, dx := (x - p.x) * 5.0, dy := (y - p.y) * 5.0, x := x, y := y);
      (s.(pointers := s.pointers[0 := q]), Some(Call(x, y, q.dx, q.dy, q.color)))
  }

  /** Window `mousemove` splats iff the primary pointer is down, with the delta
      rule above; nothing else changes. */
  lemma WindowMouseMoveRule(s: Input, cx: real, cy: real, left: real, top: real)
    requires |s.pointers| >= 1
    ensures var (r, call) := WindowMouseMove(s, cx, cy, left, top);
      var p := s.pointers[0];
      (call.Some? <==> p.down)
      && (!p.down ==> r == s)
      && (p.down ==> call.value == Call(cx - left, cy - top, 5.0 * (cx - left - p.x),
                                        5.0 * (cy - top - p.y), p.color)
                     && r.pointers[0].moved && |r.pointers| == |s.pointers|)
  {
  }

  /** Canvas `mousemove`: presses the primary pointer and gives it a new colour. */
  function CanvasMouseMove(s: Input, color: Interaction.Color): (r: Input)
    requires |s.pointers| >= 1
  {
    s.(pointers := s.pointers[0 := s.pointers[0].(down := true, color := color)])
  }

  /** A mouse move over the canvas: the canvas listener runs before the window
      listener the event bubbles to. */
  function HoverMove(s: Input, color: Interaction.Color, cx: real, cy: real, left: real, top: real)
    : (r: (Input, Option<Call>))
    requires |s.pointers| >= 1
  {
    WindowMouseMove(CanvasMouseMove(s, color), cx, cy, left, top)
  }

  /** Hovering the canvas with no button pressed still splats, and leaves the
      primary pointer pressed. */
  lemma HoverSplatsWithoutPress(s: Input, color: Interaction.Color, cx: real, cy: real, left: real, top: real)
    requires |s.pointers| >= 1 && !s.pointers[0].down
    ensures var (r, call) := HoverMove(s, color, cx, cy, left, top);
      call.Some? && call.value.color == color && r.pointers[0].down
  {
  }

  /** Window `mouseup` releases the primary pointer. */
  function MouseUp(s: Input): (r: Input)
    requires |s.pointers| >= 1
    ensures |r.pointers| == |s.pointers| && !r.pointers[0].down
  {
    s.(pointers := s.pointers[0 := s.pointers[0].(down := false)])
  }

  /** `while (touches.length >= pointers.length) pointers.push(new pointerPrototype())`. */
  function Grow(ps: seq<Pointer>, n: nat): (r: seq<Pointer>)
    ensures |r| == if n >= |ps| then n + 1 else |ps|
    ensures r[..|ps|] == ps
    ensures forall i :: |ps| <= i < |r| ==> r[i] == Prototype
    decreases n + 1 - |ps|
  {
    if n >= |ps| then Grow(ps + [Prototype], n) else ps
  }

  /** Canvas `touchstart`: grow the pointer list past the touch count, then
      pointer `i` takes touch `i`'s id and page position, is pressed and gets
      colour `colors(i)`. */
  function TouchStart(s: Input, touches: seq<Touch>, colors: nat -> Interaction.Color): (r: Input)
  {
    var ps := Grow(s.pointers, |touches|);
    s.(pointers := seq(|ps|, i requires 0 <= i < |ps| =>
         if i < |touches|
         then ps[i].(id := touches[i].identifier, down := true, x := touches[i].pageX,
                     y := touches[i].pageY, color := colors(i))
         else ps[i]))
  }

  /** After a touch start there are more pointers than touches, every touched
      pointer is pressed at its touch, and the others are unchanged. */
  lemma TouchStartRule(s: Input, touches: seq<Touch>, colors: nat -> Interaction.Color)
    ensures var r := TouchStart(s, touches, colors);
      |r.pointers| > |touches| && |r.pointers| >= |s.pointers|
      && (forall i :: 0 <= i < |touches| ==>
            r.pointers[i].down && r.pointers[i].id == touches[i].identifier
            && r.pointers[i].x == touches[i].pageX && r.pointers[i].y == touches[i].pageY
            && r.pointers[i].color == colors(i))
      && (forall i :: |touches| <= i < |s.pointers| ==> r.pointers[i] == s.pointers[i])
  {
  }

  /** Window `touchmove`: pointer `i` records ten times touch `i`'s movement and
      its new position; no splat is issued. A move with more touches than
      pointers throws after updating the pointers that exist. */
  function TouchMove(s: Input, touches: seq<Touch>): (r: (Input, bool))
  {
    var ps := s.pointers;
    (s.(pointers := seq(|ps|, i requires 0 <= i < |ps| =>
         if i < |touches|
         then ps[i].(moved := true, dx := (touches[i].pageX - ps[i].x) * 10.0,
                     dy := (touches[i].pageY - ps[i].y) * 10.0,
                     x := touches[i].pageX, y := touches[i].pageY)
         else ps[i])),
     |touches| > |ps|)
  }

  /** Touch moves update the deltas (ten times the movement) but leave nothing
      for the frame loop to splat with: the pointers' `down` flags and the
      idle splat stack are untouched. */
  lemma TouchMoveNeverSplats(s: Input, touches: seq<Touch>)
    ensures var (r, threw) := TouchMove(s, touches);
      |r.pointers| == |s.pointers| && r.splatStack == s.splatStack
      && (threw <==> |touches| > |s.pointers|)
      && (forall i :: 0 <= i < |s.pointers| && i < |touches| ==>
            r.pointers[i].dx == 10.0 * (touches[i].pageX - s.pointers[i].x)
            && r.pointers[i].x == touches[i].pageX && r.pointers[i].down == s.pointers[i].down)
  {
  }

  // ---- events and frames ----

  datatype Event =
    | EMouseDown(offsetX: real, offsetY: real)
    | EWindowMouseMove(cx: real, cy: real, left: real, top: real)
    | ECanvasMouseMove(color: Interaction.Color)
    | EMouseUp
    | ETouchStart(touches: seq<Touch>, colors: nat -> Interaction.Color)
    | ETouchMove(touches: seq<Touch>)

  /** Dispatches one event; the splat is the window mousemove's, the only
      listener that splats. */
  function Handle(s: Input, e: Event): (r: (Input, Option<Call>))
    requires |s.pointers| >= 1
    ensures |r.0.pointers| >= 1
    ensures r.0.splatStack == s.splatStack
    ensures r.1.Some? ==> e.EWindowMouseMove?
  {
    match e
    case EMouseDown(ox, oy) => (MouseDown(s, ox, oy), None)
    case EWindowMouseMove(cx, cy, l, t) => WindowMouseMove(s, cx, cy, l, t)
    case ECanvasMouseMove(c) => (CanvasMouseMove(s, c), None)
    case EMouseUp => (MouseUp(s), None)
    case ETouchStart(ts, cs) => (TouchStart(s, ts, cs), None)
    case ETouchMove(ts) => (TouchMove(s, ts).0, None)
  }

  function Run(s: Input, es: seq<Event>): (r: Input)
    requires |s.pointers| >= 1
    ensures |r.pointers| >= 1
    decreases |es|
  {
    if |es| == 0 then s else Run(Handle(s, es[0]).0, es[1..])
  }

  /** No listener pushes onto the idle splat stack, so it stays empty forever. */
  lemma {:induction false} SplatStackStaysEmpty(s: Input, es: seq<Event>)
    requires |s.pointers| >= 1 && s.splatStack == []
    ensures Run(s, es).splatStack == []
    decreases |es|
  {
    if |es| > 0 {
      SplatStackStaysEmpty(Handle(s, es[0]).0, es[1..]);
    }
  }

  datatype FrameOut = FrameOut(input: Input, units: Buffers<nat>, passes: seq<Pass<nat>>,
                               stepDt: real, idleSplats: nat)

  /** `updateFrame`: `update` always uses `dt = 0.016` (the clamped elapsed
      time is computed and dropped) and is skipped only when paused; a
      non-empty splat stack would pop a count of random splats. */
  function UpdateFrame(s: Input, b: Buffers<nat>, paused: bool): (r: FrameOut)
    ensures r.stepDt == 0.016
    ensures paused ==> r.passes == [] && r.units == b
    ensures !paused ==> |r.passes| == 7 + PRESSURE_ITERATIONS
    ensures r.idleSplats > 0 ==> |s.splatStack| > 0
  {
    var (ps, b1) := if paused then ([], b) else StepPasses(b, PRESSURE_ITERATIONS);
    if |s.splatStack| > 0
    then FrameOut(s.(splatStack := s.splatStack[..|s.splatStack| - 1]), b1, ps, 0.016,
                  s.splatStack[|s.splatStack| - 1])
    else FrameOut(s, b1, ps, 0.016, 0)
  }

  /** From setup, whatever events arrive, no frame ever issues idle splats. */
  lemma NoIdleSplats(color: Interaction.Color, es: seq<Event>, b: Buffers<nat>, paused: bool)
    ensures UpdateFrame(Run(Start(color), es), b, paused).idleSplats == 0
  {
    SplatStackStaysEmpty(Start(color), es);
  }

  // ---- resize ----

  datatype Sim = Sim(canvasW: int, canvasH: int, texW: int, texH: int)

  /** Mount: size the canvas from the container and allocate at `canvas >> 1`. */
  function Mount(rectW: real, rectH: real): (r: Sim)
    ensures r.texW == TexSize(r.canvasW) && r.texH == TexSize(r.canvasH)
  {
    var w := Lifecycle.FloorSize(rectW);
    var h := Lifecycle.FloorSize(rectH);
    Sim(w, h, TexSize(w), TexSize(h))
  }

  /** The resize observer only resizes the canvas; the fields keep the size
      they were allocated with. */
  function OnResize(s: Sim, rectW: real, rectH: real): (r: Sim)
    ensures r.texW == s.texW && r.texH == s.texH
    ensures r.canvasW == Lifecycle.FloorSize(rectW) && r.canvasH == Lifecycle.FloorSize(rectH)
  {
    s.(canvasW := Lifecycle.FloorSize(rectW), canvasH := Lifecycle.FloorSize(rectH))
  }

  /** Growing the container from 800 x 600 to 1600 x 1200 leaves 400 x 300
      fields behind an 1600 x 1200 canvas, where the resize-safe variant
      reallocates at 800 x 600. */
  lemma ResizeLeavesStaleFields()
    ensures var s := OnResize(Mount(800.0, 600.0), 1600.0, 1200.0);
      s.texW == 400 && s.texH == 300 && TexSize(s.canvasW) == 800 && TexSize(s.canvasH) == 600
  {
  }

  /** The legacy radius correction (no `SPLAT_RADIUS / 0.004` factor) agrees
      with the resize-safe one for every aspect ratio. */
  function CorrectRadius(aspect: real): (r: real)
    ensures r == Interaction.CorrectRadius(aspect)
  {
    if aspect > 1.0 then 0.00035 else 0.00035 * aspect
  }
}
