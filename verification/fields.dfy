/** Framebuffer bookkeeping of the resize-safe fluid simulation: texture sizes
    derived from the canvas, allocation of the five fields, and disposal.
    The GL context is reduced to the set of live object handles and a
    counter for fresh ones; a texture and its framebuffer are two handles. */
module Fields {
  import opened Wrappers
  import opened DoubleBuffer

  /** `config.TEXTURE_DOWNSAMPLE`. */
  const TEXTURE_DOWNSAMPLE: nat := 1

  const TWO_32: int := 0x1_0000_0000
  const TWO_31: int := 0x8000_0000

  /** ECMAScript ToInt32: wrap modulo 2^32 into `[-2^31, 2^31)`. */
  function ToInt32(x: int): (r: int)
    ensures -TWO_31 <= r < TWO_31
    ensures (r - x) % TWO_32 == 0
    ensures -TWO_31 <= x < TWO_31 ==> r == x
  {
    var m := x % TWO_32;
    if m >= TWO_31 then m - TWO_32 else m
  }

  /** 2^k. Positive, so `ShiftRight` never divides by zero. */
  function Pow2(k: nat): (r: nat)
    ensures r >= 1
  {
    if k == 0 then 1 else 2 * Pow2(k - 1)
  }

  /** JavaScript `x >> k`: ToInt32 then an arithmetic shift by `k mod 32`,
      i.e. floor division of the wrapped value by a power of two. */
  function ShiftRight(x: int, k: nat): int {
    ToInt32(x) / Pow2(k % 32)
  }

  /** `Math.max(2, side >> TEXTURE_DOWNSAMPLE)`. */
  function TexSize(side: int): (r: int)
    ensures r >= 2
    ensures 0 <= side < TWO_31 ==> r == if side / 2 < 2 then 2 else side / 2
  {
    var s := ShiftRight(side, TEXTURE_DOWNSAMPLE);
    if s < 2 then 2 else s
  }

  /** A canvas width of 2^31 wraps negative under `>>`, so the clamp yields 2
      instead of half the width. */
  lemma HugeCanvasWrapsToMinimum()
    ensures TexSize(TWO_31) == 2
    ensures TexSize(TWO_32 + 8) == 4
  {
  }

  datatype Fbo = Fbo(texture: nat, fbo: nat, w: int, h: int)

  /** Live GL object handles and the next fresh handle. */
  datatype Gl = Gl(live: set<nat>, next: nat)

  /** Every live handle was handed out before `next`. */
  predicate GlOk(gl: Gl) {
    forall x :: x in gl.live ==> x < gl.next
  }

  /** `createFBO(w, h, ...)`: a fresh texture and a fresh framebuffer, both
      live afterwards, sized `w` x `h`. */
  function CreateFbo(gl: Gl, w: int, h: int): (r: (Fbo, Gl))
    ensures r.0.w == w && r.0.h == h
    ensures r.0.texture == gl.next && r.0.fbo == gl.next + 1 && r.1.next == gl.next + 2
    ensures forall x :: x in r.1.live <==> x in gl.live || gl.next <= x < r.1.next
    ensures GlOk(gl) ==> GlOk(r.1)
  {
    (Fbo(gl.next, gl.next + 1, w, h), Gl(gl.live + {gl.next, gl.next + 1}, gl.next + 2))
  }

  /** `createDoubleFBO`: two independent framebuffers, read first. */
  function CreateDouble(gl: Gl, w: int, h: int): (r: (Double<Fbo>, Gl))
    ensures r.0.read.w == w && r.0.read.h == h && r.0.write.w == w && r.0.write.h == h
    ensures DoubleHandles(r.0) == [gl.next, gl.next + 1, gl.next + 2, gl.next + 3]
    ensures r.1.next == gl.next + 4
    ensures forall x :: x in r.1.live <==> x in gl.live || gl.next <= x < r.1.next
    ensures GlOk(gl) ==> GlOk(r.1)
  {
    var (a, g1) := CreateFbo(gl, w, h);
    var (b, g2) := CreateFbo(g1, w, h);
    (Double(a, b), g2)
  }

  /** The simulation's fields; `None` is the source's `null`. */
  datatype Fields = Fields(
    density: Option<Double<Fbo>>,
    velocity: Option<Double<Fbo>>,
    divergence: Option<Fbo>,
    curl: Option<Fbo>,
    pressure: Option<Double<Fbo>>,
    texW: int,
    texH: int)

  /** Before the first allocation: nothing exists, sizes start at 2. */
  const Unallocated: Fields := Fields(None, None, None, None, None, 2, 2)

  predicate AllPresent(f: Fields) {
    f.density.Some? && f.velocity.Some? && f.divergence.Some? && f.curl.Some? && f.pressure.Some?
  }

  predicate NonePresent(f: Fields) {
    f.density.None? && f.velocity.None? && f.divergence.None? && f.curl.None? && f.pressure.None?
  }

  predicate FboSized(b: Fbo, w: int, h: int) { b.w == w && b.h == h }

  predicate DoubleSized(d: Double<Fbo>, w: int, h: int) {
    FboSized(d.read, w, h) && FboSized(d.write, w, h)
  }

  /** Every present field, both halves of every double field, is `w` x `h`,
      and so are the recorded texture sizes. */
  predicate AllSized(f: Fields, w: int, h: int) {
    f.texW == w && f.texH == h
    && (f.density.Some? ==> DoubleSized(f.density.value, w, h))
    && (f.velocity.Some? ==> DoubleSized(f.velocity.value, w, h))
    && (f.divergence.Some? ==> FboSized(f.divergence.value, w, h))
    && (f.curl.Some? ==> FboSized(f.curl.value, w, h))
    && (f.pressure.Some? ==> DoubleSized(f.pressure.value, w, h))
  }

  function FboHandles(b: Fbo): seq<nat> { [b.texture, b.fbo] }

  function DoubleHandles(d: Double<Fbo>): seq<nat> { FboHandles(d.read) + FboHandles(d.write) }

  function OptDouble(o: Option<Double<Fbo>>): seq<nat> {
    if o.Some? then DoubleHandles(o.value) else []
  }

  function OptSingle(o: Option<Fbo>): seq<nat> {
    if o.Some? then FboHandles(o.value) else []
  }

  /** The GL handles owned by the present fields, in disposal order. */
  function Handles(f: Fields): seq<nat> {
    OptDouble(f.density) + OptDouble(f.velocity) + OptSingle(f.divergence)
    + OptSingle(f.curl) + OptDouble(f.pressure)
  }

  predicate AllDifferent(s: seq<nat>) {
    forall a, b :: 0 <= a < b < |s| ==> s[a] != s[b]
  }

  /** `initFramebuffers`: allocate density, velocity, divergence, curl and
      pressure in that order, all at `TexSize` of the canvas. It does not free
      what was there before. */
  function InitFramebuffers(gl: Gl, canvasW: int, canvasH: int): (r: (Fields, Gl))
    requires GlOk(gl)
    ensures AllPresent(r.0)
    ensures AllSized(r.0, TexSize(canvasW), TexSize(canvasH))
    ensures |Handles(r.0)| == 16 && AllDifferent(Handles(r.0))
    ensures forall k :: 0 <= k < 16 ==> Handles(r.0)[k] !in gl.live
    ensures forall x :: x in r.1.live <==> x in gl.live || x in Handles(r.0)
    ensures GlOk(r.1)
  {
    var w := TexSize(canvasW);
    var h := TexSize(canvasH);
    var (d, g1) := CreateDouble(gl, w, h);
    var (v, g2) := CreateDouble(g1, w, h);
    var (dv, g3) := CreateFbo(g2, w, h);
    var (c, g4) := CreateFbo(g3, w, h);
    var (p, g5) := CreateDouble(g4, w, h);
    var f := Fields(Some(d), Some(v), Some(dv), Some(c), Some(p), w, h);
    ConsecutiveHandles(f, gl.next);
    (f, g5)
  }

  /** Handles handed out one after another from `n` are distinct and fresh. */
  lemma ConsecutiveHandles(f: Fields, n: nat)
    requires AllPresent(f)
    requires DoubleHandles(f.density.value) == [n, n + 1, n + 2, n + 3]
    requires DoubleHandles(f.velocity.value) == [n + 4, n + 5, n + 6, n + 7]
    requires FboHandles(f.divergence.value) == [n + 8, n + 9]
    requires FboHandles(f.curl.value) == [n + 10, n + 11]
    requires DoubleHandles(f.pressure.value) == [n + 12, n + 13, n + 14, n + 15]
    ensures |Handles(f)| == 16
    ensures forall k :: 0 <= k < 16 ==> Handles(f)[k] == n + k
    ensures forall x :: x in Handles(f) <==> n <= x < n + 16
  {
    var hs := Handles(f);
    assert hs == [n, n + 1, n + 2, n + 3] + [n + 4, n + 5, n + 6, n + 7] + [n + 8, n + 9]
      + [n + 10, n + 11] + [n + 12, n + 13, n + 14, n + 15];
  }

  /** `disposeFramebuffers`: delete each present field's textures and
      framebuffers (both halves of a double field), skip absent ones, and set
      every field to null. Returns the fields, the context, and the handles
      deleted in order. */
  function DisposeFramebuffers(f: Fields, gl: Gl): (r: (Fields, Gl, seq<nat>))
    ensures NonePresent(r.0)
    ensures r.0.texW == f.texW && r.0.texH == f.texH
    ensures r.2 == Handles(f)
    ensures forall x :: x in r.1.live <==> x in gl.live && x !in r.2
    ensures r.1.next == gl.next
  {
    var del := Handles(f);
    (Fields(None, None, None, None, None, f.texW, f.texH),
     Gl(gl.live - (set x | x in del), gl.next),
     del)
  }

  /** A second dispose finds every field null and deletes nothing. */
  lemma DisposeTwiceDeletesNothing(f: Fields, gl: Gl)
    ensures var (f1, g1, _) := DisposeFramebuffers(f, gl);
            DisposeFramebuffers(f1, g1).2 == [] && DisposeFramebuffers(f1, g1).1 == g1
  {
    var (f1, g1, _) := DisposeFramebuffers(f, gl);
    assert Handles(f1) == [];
  }

  /** Allocating and then disposing leaves exactly the handles that were live
      before: the fields leak nothing. */
  lemma InitThenDisposeLeaksNothing(gl: Gl, canvasW: int, canvasH: int)
    requires GlOk(gl)
    ensures var (f, g1) := InitFramebuffers(gl, canvasW, canvasH);
            DisposeFramebuffers(f, g1).1.live == gl.live
  {
    var (f, g1) := InitFramebuffers(gl, canvasW, canvasH);
    var g2 := DisposeFramebuffers(f, g1).1;
    forall x ensures x in g2.live <==> x in gl.live {
      if x in Handles(f) {
        var k :| 0 <= k < |Handles(f)| && Handles(f)[k] == x;
      }
    }
  }
}
