/** Mount, resize, frame and cleanup of the resize-safe fluid simulation as
    state transitions. Host inputs (the container's bounding box, the frame
    timestamp, the pause flag) are parameters; the GL context is the handle
    set of `Fields.Gl`. */
module Lifecycle {
  import opened Wrappers
  import opened DoubleBuffer
  import opened Fields
  import opened Schedule

  /** `lastW`/`lastH` remember the last floored container size; the canvas
      starts at the HTML default of 300 x 150 until the first size is applied. */
  datatype Surface = Surface(lastW: int, lastH: int, canvasW: int, canvasH: int)

  const InitialSurface: Surface := Surface(0, 0, 300, 150)

  /** `Math.max(0, Math.floor(x))`. */
  function FloorSize(x: real): (r: int)
    ensures r >= 0
    ensures x >= 0.0 ==> r as real <= x < r as real + 1.0
    ensures x < 0.0 ==> r == 0
  {
    if x.Floor < 0 then 0 else x.Floor
  }

  /** `updateCanvasSize`: applies the floored container size to the canvas and
      reports whether it differed from the last one applied. */
  function UpdateCanvasSize(s: Surface, rectW: real, rectH: real): (r: (Surface, bool))
    ensures r.1 <==> (FloorSize(rectW), FloorSize(rectH)) != (s.lastW, s.lastH)
    ensures !r.1 ==> r.0 == s
    ensures r.1 ==> r.0 == Surface(FloorSize(rectW), FloorSize(rectH), FloorSize(rectW), FloorSize(rectH))
  {
    var w := FloorSize(rectW);
    var h := FloorSize(rectH);
    if w == s.lastW && h == s.lastH then (s, false) else (Surface(w, h, w, h), true)
  }

  /** Repeating a size update with the same box changes nothing. */
  lemma UpdateCanvasSizeIdempotent(s: Surface, rectW: real, rectH: real)
    ensures var s1 := UpdateCanvasSize(s, rectW, rectH).0;
      UpdateCanvasSize(s1, rectW, rectH) == (s1, false)
  {
  }

  datatype Sim = Sim(surface: Surface, fields: Fields, gl: Gl, lastTime: real)

  predicate CanvasUsable(s: Surface) { s.canvasW >= 2 && s.canvasH >= 2 }

  function AsBuffers(f: Fields): Buffers<Fbo>
    requires AllPresent(f)
  {
    Buffers(f.velocity.value, f.density.value, f.pressure.value, f.divergence.value, f.curl.value)
  }

  /** Ownership part of the invariant:
      - the fields exist all together or not at all, and share one size;
      - the live GL objects are exactly the fields' (nothing leaks);
      - the eight framebuffers are distinct objects. */
  ghost predicate Owned(s: Sim) {
    GlOk(s.gl)
    && (AllPresent(s.fields) || NonePresent(s.fields))
    && AllSized(s.fields, s.fields.texW, s.fields.texH)
    && (forall x :: x in s.gl.live <==> x in Handles(s.fields))
    && (AllPresent(s.fields) ==> Schedule.Distinct(AsBuffers(s.fields)))
  }

  /** The simulation invariant: owned fields that, on a usable canvas, are
      sized for that canvas. */
  ghost predicate Coherent(s: Sim) {
    Owned(s)
    && (AllPresent(s.fields) && CanvasUsable(s.surface) ==>
          s.fields.texW == TexSize(s.surface.canvasW) && s.fields.texH == TexSize(s.surface.canvasH))
  }

  /** Fields whose sixteen GL handles are distinct have eight distinct
      framebuffers (each framebuffer owns a distinct texture handle). */
  lemma DistinctHandlesDistinctBuffers(f: Fields)
    requires AllPresent(f) && |Handles(f)| == 16 && AllDifferent(Handles(f))
    ensures Schedule.Distinct(AsBuffers(f))
  {
    var hs := Handles(f);
    var t := [hs[0], hs[2], hs[4], hs[6], hs[8], hs[10], hs[12], hs[14]];
    assert t == [f.density.value.read.texture, f.density.value.write.texture,
                 f.velocity.value.read.texture, f.velocity.value.write.texture,
                 f.divergence.value.texture, f.curl.value.texture,
                 f.pressure.value.read.texture, f.pressure.value.write.texture];
    assert forall a, b :: 0 <= a < b < 8 ==> t[a] != t[b] by {
      forall a, b | 0 <= a < b < 8 ensures t[a] != t[b] {
        assert t[a] == hs[2 * a] && t[b] == hs[2 * b];
      }
    }
  }

  /** Freshly allocated fields are coherent with the canvas they were sized for. */
  lemma InitCoherent(surface: Surface, gl: Gl, lastTime: real)
    requires GlOk(gl) && gl.live == {}
    ensures var (f, g) := InitFramebuffers(gl, surface.canvasW, surface.canvasH);
      Coherent(Sim(surface, f, g, lastTime))
  {
    var (f, g) := InitFramebuffers(gl, surface.canvasW, surface.canvasH);
    DistinctHandlesDistinctBuffers(f);
  }

  /** `disposeFramebuffers` on the simulation state. */
  function Dispose(s: Sim): (r: Sim)
    requires Owned(s)
    ensures NonePresent(r.fields) && r.gl.live == {}
    ensures Coherent(r)
  {
    var (f, g, _) := DisposeFramebuffers(s.fields, s.gl);
    assert forall x :: x in g.live ==> false;
    s.(fields := f, gl := g)
  }

  /** `initFramebuffers` on a state with nothing allocated. */
  function Alloc(s: Sim): (r: Sim)
    requires Coherent(s) && NonePresent(s.fields)
    ensures Coherent(r)
    ensures AllPresent(r.fields)
    ensures r.fields.texW == TexSize(s.surface.canvasW) && r.fields.texH == TexSize(s.surface.canvasH)
    ensures r.surface == s.surface && r.lastTime == s.lastTime
  {
    assert s.gl.live == {} by {
      assert forall x :: x in s.gl.live ==> x in Handles(s.fields);
    }
    var (f, g) := InitFramebuffers(s.gl, s.surface.canvasW, s.surface.canvasH);
    InitCoherent(s.surface, s.gl, s.lastTime);
    s.(fields := f, gl := g)
  }

  /** Mount: size once; allocate only if that applied a size of at least
      2 x 2. Returns the state and whether the first sizing took effect. */
  function Mount(rectW: real, rectH: real, now: real): (r: (Sim, bool))
    ensures Coherent(r.0)
    ensures r.1 <==> FloorSize(rectW) != 0 || FloorSize(rectH) != 0
    ensures AllPresent(r.0.fields) <==> FloorSize(rectW) >= 2 && FloorSize(rectH) >= 2
  {
    var (surface, sized) := UpdateCanvasSize(InitialSurface, rectW, rectH);
    var s := Sim(surface, Unallocated, Gl({}, 0), now);
    if surface.lastW >= 2 && surface.lastH >= 2 then (Alloc(s), sized) else (s, sized)
  }

  /** The deferred first sizing, run one animation frame after a mount whose
      first sizing did not take effect: size again, dispose, and allocate if
      the canvas (whatever its current size) is usable. */
  function DeferredSizing(s: Sim, rectW: real, rectH: real): (r: Sim)
    requires Coherent(s)
    ensures Coherent(r)
    ensures AllPresent(r.fields) <==> CanvasUsable(r.surface)
  {
    var (surface, _) := UpdateCanvasSize(s.surface, rectW, rectH);
    var d := Dispose(s.(surface := surface));
    if CanvasUsable(surface) then Alloc(d) else d
  }

  /** A container still 0 x 0 one frame after mount leaves the canvas at its
      default 300 x 150, so fields are allocated at 150 x 75 anyway. */
  lemma ZeroContainerUsesDefaultCanvas(now: real)
    ensures var (s, sized) := Mount(0.0, 0.0, now);
      !sized && NonePresent(s.fields)
      && var d := DeferredSizing(s, 0.0, 0.0);
         AllPresent(d.fields) && d.fields.texW == 150 && d.fields.texH == 75
  {
    var (s, _) := Mount(0.0, 0.0, now);
    assert s.surface == InitialSurface;
  }

  /** The resize observer: re-size the canvas; when the size changed and both
      sides are at least 2, dispose and reallocate. */
  function OnResize(s: Sim, rectW: real, rectH: real): (r: Sim)
    requires Coherent(s)
    ensures Coherent(r)
  {
    var (surface, changed) := UpdateCanvasSize(s.surface, rectW, rectH);
    var s1 := s.(surface := surface);
    if !changed || !CanvasUsable(surface) then s1 else Alloc(Dispose(s1))
  }

  /** Resize reallocates exactly when the floored size changed to a usable
      one; otherwise the fields (and the GL objects) are left as they were. */
  lemma ResizeReallocatesIffChanged(s: Sim, rectW: real, rectH: real)
    requires Coherent(s)
    ensures var w := FloorSize(rectW); var h := FloorSize(rectH);
      var r := OnResize(s, rectW, rectH);
      if (w, h) != (s.surface.lastW, s.surface.lastH) && w >= 2 && h >= 2
      then AllPresent(r.fields) && r.fields.texW == TexSize(w) && r.fields.texH == TexSize(h)
      else r.fields == s.fields && r.gl == s.gl
  {
  }

  /** Resizing away and back ends with fields of the original size. */
  lemma ResizeThereAndBack(s: Sim, w0: real, h0: real, w1: real, h1: real)
    requires Coherent(s)
    requires FloorSize(w0) >= 2 && FloorSize(h0) >= 2 && FloorSize(w1) >= 2 && FloorSize(h1) >= 2
    requires (FloorSize(w0), FloorSize(h0)) != (FloorSize(w1), FloorSize(h1))
    requires (FloorSize(w0), FloorSize(h0)) != (s.surface.lastW, s.surface.lastH)
    ensures var r := OnResize(OnResize(OnResize(s, w0, h0), w1, h1), w0, h0);
      AllPresent(r.fields) && r.fields.texW == TexSize(FloorSize(w0)) && r.fields.texH == TexSize(FloorSize(h0))
  {
    ResizeReallocatesIffChanged(s, w0, h0);
    var s1 := OnResize(s, w0, h0);
    ResizeReallocatesIffChanged(s1, w1, h1);
    var s2 := OnResize(s1, w1, h1);
    ResizeReallocatesIffChanged(s2, w0, h0);
  }

  /** `step`: does nothing unless every field exists and the canvas is usable;
      otherwise renders the step's passes and applies their swaps. */
  function Step(s: Sim): (r: (Sim, seq<Pass<Fbo>>))
    requires Coherent(s)
    ensures Coherent(r.0)
    ensures r.0.surface == s.surface && r.0.gl == s.gl
    ensures r.1 == [] <==> !AllPresent(s.fields) || !CanvasUsable(s.surface)
    ensures FeedbackFree(r.1)
  {
    if !AllPresent(s.fields) || !CanvasUsable(s.surface) then (s, [])
    else
      var b := AsBuffers(s.fields);
      var (ps, b1) := StepPasses(b, PRESSURE_ITERATIONS);
      StepOrder(b, PRESSURE_ITERATIONS);
      StepFeedbackFree(b, PRESSURE_ITERATIONS);
      StepSwapParity(b, PRESSURE_ITERATIONS);
      SwapNParity(b.pressure, 1 + PRESSURE_ITERATIONS);
      var f := s.fields.(velocity := Some(b1.velocity), density := Some(b1.density),
                         pressure := Some(b1.pressure));
      assert AsBuffers(f) == b1;
      (s.(fields := f), ps)
  }

  datatype FrameOut = FrameOut(sim: Sim, dt: real, passes: seq<Pass<Fbo>>, displayed: Option<Fbo>)

  /** `frame(now)`: `dt` is the elapsed time in seconds capped at 0.016; the
      step runs only when not paused, the canvas is usable and density and
      velocity exist; the density read half is drawn every frame. */
  function Frame(s: Sim, now: real, paused: bool): (r: FrameOut)
    requires Coherent(s)
    ensures Coherent(r.sim) && r.sim.lastTime == now
    ensures r.dt <= 0.016
    ensures (now - s.lastTime) / 1000.0 <= 0.016 ==> r.dt == (now - s.lastTime) / 1000.0
    ensures (now - s.lastTime) / 1000.0 >= 0.016 ==> r.dt == 0.016
    ensures |r.passes| > 0 <==> !paused && CanvasUsable(s.surface) && AllPresent(s.fields)
    ensures FeedbackFree(r.passes)
    ensures r.displayed == (if r.sim.fields.density.Some? then Some(r.sim.fields.density.value.read) else None)
  {
    var elapsed := (now - s.lastTime) / 1000.0;
    var dt := if elapsed < 0.016 then elapsed else 0.016;
    var s1 := s.(lastTime := now);
    var (s2, ps) :=
      if !paused && CanvasUsable(s1.surface) && s1.fields.density.Some? && s1.fields.velocity.Some?
      then Step(s1) else (s1, []);
    FrameOut(s2, dt, ps, if s2.fields.density.Some? then Some(s2.fields.density.value.read) else None)
  }

  /** After a step, the frame shows the buffer the density advection wrote. */
  lemma FrameShowsAdvectedDensity(s: Sim, now: real)
    requires Coherent(s) && CanvasUsable(s.surface) && AllPresent(s.fields)
    ensures var r := Frame(s, now, false);
      |r.passes| == 7 + PRESSURE_ITERATIONS
      && r.displayed == Some(r.passes[6 + PRESSURE_ITERATIONS].dest)
  {
    StepOrder(AsBuffers(s.fields), PRESSURE_ITERATIONS);
  }

  /** `startLoopWhenReady`: the loop starts once the canvas is usable and
      density exists. */
  predicate ReadyToStart(s: Sim) {
    CanvasUsable(s.surface) && s.fields.density.Some?
  }

  /** Once the loop may start, every unpaused frame steps. */
  lemma ReadyMeansStepping(s: Sim, now: real)
    requires Coherent(s) && ReadyToStart(s)
    ensures |Frame(s, now, false).passes| == 7 + PRESSURE_ITERATIONS
  {
    StepOrder(AsBuffers(s.fields), PRESSURE_ITERATIONS);
  }

  /** `splat` on the fields: nothing without density and velocity, otherwise a
      velocity pass and a density pass, each followed by a swap. */
  function ApplySplat(s: Sim): (r: (Sim, seq<Pass<Fbo>>))
    requires Coherent(s)
    ensures Coherent(r.0)
    ensures |r.1| == (if AllPresent(s.fields) then 2 else 0)
    ensures FeedbackFree(r.1)
  {
    if !AllPresent(s.fields) then (s, [])
    else
      var b := AsBuffers(s.fields);
      var (ps, b1) := SplatPasses(b);
      SplatFeedbackFree(b);
      var f := s.fields.(velocity := Some(b1.velocity), density := Some(b1.density));
      assert AsBuffers(f) == b1;
      (s.(fields := f), ps)
  }

  /** Cleanup disposes every field, leaving no GL framebuffer object alive. */
  function Cleanup(s: Sim): (r: Sim)
    requires Coherent(s)
    ensures r.gl.live == {} && NonePresent(r.fields)
  {
    Dispose(s)
  }
}
