/** The linear fragment shaders of the resize-safe fluid simulation, written
    per texel over `Grid.Grid`: clear/decay, divergence, curl, the Jacobi
    pressure iteration and gradient subtraction. `L`, `R`, `B`, `T` are the
    clamped neighbours one texel left, right, below and above. */
module Stencils {
  import opened Grid
  import opened DoubleBuffer

  // ---- per-texel programs ----

  /** `value * texture2D(uTexture, vUv)`: every channel scaled. */
  function Scale(value: real, t: Texel): Texel {
    Texel(value * t.x, value * t.y, value * t.z, value * t.w)
  }

  /** Divergence shader: channel x gets `R.x - L.x`, channel y gets `T.y - B.y`. */
  function DivergenceAt(v: Grid, w: nat, h: nat, i: int, j: int): Texel
    requires w > 0 && h > 0 && IsGrid(v, w, h)
  {
    Texel(Fetch(v, w, h, i + 1, j).x - Fetch(v, w, h, i - 1, j).x,
          Fetch(v, w, h, i, j + 1).y - Fetch(v, w, h, i, j - 1).y, 0.0, 1.0)
  }

  /** Curl shader: `R.y - L.y - T.x + B.x` in channel x. */
  function CurlAt(v: Grid, w: nat, h: nat, i: int, j: int): Texel
    requires w > 0 && h > 0 && IsGrid(v, w, h)
  {
    Texel(Fetch(v, w, h, i + 1, j).y - Fetch(v, w, h, i - 1, j).y
          - Fetch(v, w, h, i, j + 1).x + Fetch(v, w, h, i, j - 1).x, 0.0, 0.0, 1.0)
  }

  /** Sum of the four clamped neighbours' `x` channels. */
  function NeighbourSumX(p: Grid, w: nat, h: nat, i: int, j: int): real
    requires w > 0 && h > 0 && IsGrid(p, w, h)
  {
    Fetch(p, w, h, i - 1, j).x + Fetch(p, w, h, i + 1, j).x
    + Fetch(p, w, h, i, j - 1).x + Fetch(p, w, h, i, j + 1).x
  }

  /** Pressure shader: `(L + R + B + T - divergence) * 0.25`, reading only
      channel x of both the pressure and the divergence texture. */
  function JacobiAt(p: Grid, d: Grid, w: nat, h: nat, i: int, j: int): Texel
    requires w > 0 && h > 0 && IsGrid(p, w, h) && IsGrid(d, w, h)
  {
    Texel((NeighbourSumX(p, w, h, i, j) - Fetch(d, w, h, i, j).x) * 0.25, 0.0, 0.0, 1.0)
  }

  /** Gradient-subtract shader: velocity minus `(R - L, T - B)` of the pressure. */
  function GradientSubtractAt(p: Grid, v: Grid, w: nat, h: nat, i: int, j: int): Texel
    requires w > 0 && h > 0 && IsGrid(p, w, h) && IsGrid(v, w, h)
  {
    var V := Fetch(v, w, h, i, j);
    Texel(V.x - (Fetch(p, w, h, i + 1, j).x - Fetch(p, w, h, i - 1, j).x),
          V.y - (Fetch(p, w, h, i, j + 1).x - Fetch(p, w, h, i, j - 1).x), 0.0, 1.0)
  }

  // ---- full-screen passes ----

  function ClearPass(g: Grid, w: nat, h: nat, value: real): (r: Grid)
    requires w > 0 && h > 0 && IsGrid(g, w, h)
    ensures IsGrid(r, w, h)
  {
    Build(w, h, (i, j) => Scale(value, Fetch(g, w, h, i, j)))
  }

  function DivergencePass(v: Grid, w: nat, h: nat): (r: Grid)
    requires w > 0 && h > 0 && IsGrid(v, w, h)
    ensures IsGrid(r, w, h)
  {
    Build(w, h, (i, j) => DivergenceAt(v, w, h, i, j))
  }

  function CurlPass(v: Grid, w: nat, h: nat): (r: Grid)
    requires w > 0 && h > 0 && IsGrid(v, w, h)
    ensures IsGrid(r, w, h)
  {
    Build(w, h, (i, j) => CurlAt(v, w, h, i, j))
  }

  function JacobiPass(p: Grid, d: Grid, w: nat, h: nat): (r: Grid)
    requires w > 0 && h > 0 && IsGrid(p, w, h) && IsGrid(d, w, h)
    ensures IsGrid(r, w, h)
  {
    Build(w, h, (i, j) => JacobiAt(p, d, w, h, i, j))
  }

  function GradientSubtractPass(p: Grid, v: Grid, w: nat, h: nat): (r: Grid)
    requires w > 0 && h > 0 && IsGrid(p, w, h) && IsGrid(v, w, h)
    ensures IsGrid(r, w, h)
  {
    Build(w, h, (i, j) => GradientSubtractAt(p, v, w, h, i, j))
  }

  // ---- properties ----

  /** Decay passes compose multiplicatively, and a factor of 1 changes nothing. */
  lemma ClearCompose(g: Grid, w: nat, h: nat, a: real, b: real)
    requires w > 0 && h > 0 && IsGrid(g, w, h)
    ensures ClearPass(ClearPass(g, w, h, a), w, h, b) == ClearPass(g, w, h, a * b)
    ensures ClearPass(g, w, h, 1.0) == g
  {
    var l: Grid := ClearPass(ClearPass(g, w, h, a), w, h, b);
    var r: Grid := ClearPass(g, w, h, a * b);
    forall j | 0 <= j < h ensures l[j] == r[j] {
      forall i | 0 <= i < w ensures l[j][i] == r[j][i] {
        assert l[j][i] == Scale(b, Scale(a, g[j][i]));
      }
    }
    var one: Grid := ClearPass(g, w, h, 1.0);
    forall j | 0 <= j < h ensures one[j] == g[j] {
      assert |one[j]| == |g[j]|;
    }
  }

  /** The pressure pass reads nothing of the divergence texture but its x
      channel: divergence grids that agree on x give the same result. */
  lemma JacobiReadsOnlyDivergenceX(p: Grid, d1: Grid, d2: Grid, w: nat, h: nat)
    requires w > 0 && h > 0 && IsGrid(p, w, h) && IsGrid(d1, w, h) && IsGrid(d2, w, h)
    requires SameX(d1, d2, w, h)
    ensures JacobiPass(p, d1, w, h) == JacobiPass(p, d2, w, h)
  {
    var a: Grid := JacobiPass(p, d1, w, h);
    var b: Grid := JacobiPass(p, d2, w, h);
    forall j | 0 <= j < h ensures a[j] == b[j] {
      forall i | 0 <= i < w ensures a[j][i] == b[j][i] {
        assert Fetch(d1, w, h, i, j).x == Fetch(d2, w, h, i, j).x;
      }
    }
  }

  /** A texel left unchanged (in x) by a Jacobi pass satisfies the discrete
      Poisson equation there: neighbour sum minus four times the centre equals
      the divergence read by the pass. */
  lemma JacobiFixedPointSolvesPoisson(p: Grid, d: Grid, w: nat, h: nat, i: nat, j: nat)
    requires w > 0 && h > 0 && IsGrid(p, w, h) && IsGrid(d, w, h)
    requires i < w && j < h
    requires JacobiPass(p, d, w, h)[j][i].x == p[j][i].x
    ensures NeighbourSumX(p, w, h, i, j) - 4.0 * p[j][i].x == d[j][i].x
  {
    assert JacobiPass(p, d, w, h)[j][i] == JacobiAt(p, d, w, h, i, j);
  }

  /** A constant pressure field with zero divergence is a fixed point of the
      Jacobi pass (the converged state the solver should keep). */
  lemma ConstantPressureIsJacobiFixed(p: Grid, d: Grid, w: nat, h: nat, c: real)
    requires w > 0 && h > 0 && IsGrid(p, w, h) && IsGrid(d, w, h)
    requires ConstantX(p, w, h, c) && ConstantX(d, w, h, 0.0)
    ensures ConstantX(JacobiPass(p, d, w, h), w, h, c)
  {
    var r: Grid := JacobiPass(p, d, w, h);
    forall j, i | 0 <= j < h && 0 <= i < w ensures r[j][i].x == c {
      assert r[j][i] == JacobiAt(p, d, w, h, i, j);
      assert Fetch(p, w, h, i - 1, j).x == c && Fetch(p, w, h, i + 1, j).x == c;
      assert Fetch(p, w, h, i, j - 1).x == c && Fetch(p, w, h, i, j + 1).x == c;
      assert Fetch(d, w, h, i, j).x == 0.0;
    }
  }

  /** A constant pressure has no gradient: subtracting it leaves the velocity's
      x and y channels unchanged. */
  lemma ConstantPressureKeepsVelocity(p: Grid, v: Grid, w: nat, h: nat, c: real)
    requires w > 0 && h > 0 && IsGrid(p, w, h) && IsGrid(v, w, h)
    requires ConstantX(p, w, h, c)
    ensures forall j, i :: 0 <= j < h && 0 <= i < w ==>
      GradientSubtractPass(p, v, w, h)[j][i].x == v[j][i].x
      && GradientSubtractPass(p, v, w, h)[j][i].y == v[j][i].y
  {
    var r: Grid := GradientSubtractPass(p, v, w, h);
    forall j, i | 0 <= j < h && 0 <= i < w
      ensures r[j][i].x == v[j][i].x && r[j][i].y == v[j][i].y
    {
      assert r[j][i] == GradientSubtractAt(p, v, w, h, i, j);
      assert Fetch(p, w, h, i - 1, j).x == c && Fetch(p, w, h, i + 1, j).x == c;
      assert Fetch(p, w, h, i, j - 1).x == c && Fetch(p, w, h, i, j + 1).x == c;
    }
  }

  /** A uniform velocity field has zero divergence (both channels) and zero curl. */
  lemma UniformVelocityIsQuiet(v: Grid, w: nat, h: nat, u: Texel)
    requires w > 0 && h > 0 && IsGrid(v, w, h)
    requires forall j, i :: 0 <= j < h && 0 <= i < w ==> v[j][i] == u
    ensures forall j, i :: 0 <= j < h && 0 <= i < w ==>
      DivergencePass(v, w, h)[j][i].x == 0.0 && DivergencePass(v, w, h)[j][i].y == 0.0
      && CurlPass(v, w, h)[j][i].x == 0.0
  {
    forall j, i | 0 <= j < h && 0 <= i < w
      ensures DivergencePass(v, w, h)[j][i].x == 0.0 && DivergencePass(v, w, h)[j][i].y == 0.0
      ensures CurlPass(v, w, h)[j][i].x == 0.0
    {
      assert DivergencePass(v, w, h)[j][i] == DivergenceAt(v, w, h, i, j);
      assert CurlPass(v, w, h)[j][i] == CurlAt(v, w, h, i, j);
      assert Fetch(v, w, h, i - 1, j) == u && Fetch(v, w, h, i + 1, j) == u;
      assert Fetch(v, w, h, i, j - 1) == u && Fetch(v, w, h, i, j + 1) == u;
    }
  }

  // ---- the pressure solve on the pressure double buffer ----

  /** `n` Jacobi passes applied one after another to `p`. */
  function JacobiIter(p: Grid, d: Grid, w: nat, h: nat, n: nat): (r: Grid)
    requires w > 0 && h > 0 && IsGrid(p, w, h) && IsGrid(d, w, h)
    ensures IsGrid(r, w, h)
    decreases n
  {
    if n == 0 then p else JacobiPass(JacobiIter(p, d, w, h, n - 1), d, w, h)
  }

  /** The solve loop as the source runs it: each iteration renders the Jacobi
      pass of the read half into the write half, then swaps. */
  function SolvePressure(p: Double<Grid>, d: Grid, w: nat, h: nat, n: nat): (r: Double<Grid>)
    requires w > 0 && h > 0 && IsGrid(p.read, w, h) && IsGrid(p.write, w, h) && IsGrid(d, w, h)
    ensures IsGrid(r.read, w, h) && IsGrid(r.write, w, h)
    decreases n
  {
    if n == 0 then p
    else
      var q := SolvePressure(p, d, w, h, n - 1);
      Swap(Double(q.read, JacobiPass(q.read, d, w, h)))
  }

  /** Because the sampler is rebound to the read half every iteration, the
      double-buffered loop computes exactly the iterated Jacobi pass. */
  lemma {:induction false} SolvePressureIsIteration(p: Double<Grid>, d: Grid, w: nat, h: nat, n: nat)
    requires w > 0 && h > 0 && IsGrid(p.read, w, h) && IsGrid(p.write, w, h) && IsGrid(d, w, h)
    ensures SolvePressure(p, d, w, h, n).read == JacobiIter(p.read, d, w, h, n)
    ensures n > 0 ==> SolvePressure(p, d, w, h, n).write == JacobiIter(p.read, d, w, h, n - 1)
    decreases n
  {
    if n > 0 {
      SolvePressureIsIteration(p, d, w, h, n - 1);
    }
  }

  /** A converged (constant, divergence-free) pressure stays converged for any
      number of solver iterations. */
  lemma {:induction false} ConvergedPressureStays(p: Grid, d: Grid, w: nat, h: nat, c: real, n: nat)
    requires w > 0 && h > 0 && IsGrid(p, w, h) && IsGrid(d, w, h)
    requires ConstantX(p, w, h, c) && ConstantX(d, w, h, 0.0)
    ensures ConstantX(JacobiIter(p, d, w, h, n), w, h, c)
    decreases n
  {
    if n > 0 {
      ConvergedPressureStays(p, d, w, h, c, n - 1);
      ConstantPressureIsJacobiFixed(JacobiIter(p, d, w, h, n - 1), d, w, h, c);
    }
  }

  // ---- the divergence the pressure pass never sees ----

  /** The full discrete divergence `(R.x - L.x) + (T.y - B.y)` at a texel. */
  function FullDivergence(v: Grid, w: nat, h: nat, i: int, j: int): real
    requires w > 0 && h > 0 && IsGrid(v, w, h)
  {
    (Fetch(v, w, h, i + 1, j).x - Fetch(v, w, h, i - 1, j).x)
    + (Fetch(v, w, h, i, j + 1).y - Fetch(v, w, h, i, j - 1).y)
  }

  /** A purely vertical flow that spreads upwards: `v = (0, j)`. */
  function VerticalFlow(w: nat, h: nat): (v: Grid)
    ensures IsGrid(v, w, h)
  {
    Build(w, h, (i, j) => Texel(0.0, j as real, 0.0, 1.0))
  }

  /** As written, the divergence the pressure pass consumes (channel x) is
      zero everywhere for the vertical flow, although its full divergence is 2
      at every texel away from the top and bottom rows: the pressure pass
      behaves exactly as for a divergence-free field. */
  lemma VerticalFlowInvisibleToPressure(p: Grid, w: nat, h: nat)
    requires w > 0 && h >= 3 && IsGrid(p, w, h)
    ensures FullDivergence(VerticalFlow(w, h), w, h, 0, 1) == 2.0
    ensures JacobiPass(p, DivergencePass(VerticalFlow(w, h), w, h), w, h)
         == JacobiPass(p, Build(w, h, (i, j) => Texel(0.0, 0.0, 0.0, 1.0)), w, h)
  {
    var v := VerticalFlow(w, h);
    var zero: Grid := Build(w, h, (i, j) => Texel(0.0, 0.0, 0.0, 1.0));
    var dv: Grid := DivergencePass(v, w, h);
    assert Fetch(v, w, h, 0, 2).y == 2.0 && Fetch(v, w, h, 0, 0).y == 0.0;
    forall j, i | 0 <= j < h && 0 <= i < w ensures dv[j][i].x == zero[j][i].x {
      assert dv[j][i] == DivergenceAt(v, w, h, i, j);
      assert Fetch(v, w, h, i + 1, j).x == 0.0 && Fetch(v, w, h, i - 1, j).x == 0.0;
    }
    JacobiReadsOnlyDivergenceX(p, dv, zero, w, h);
  }

  /** Corrected divergence shader: the full divergence in the channel the
      pressure pass reads. */
  function CorrectedDivergencePass(v: Grid, w: nat, h: nat): (r: Grid)
    requires w > 0 && h > 0 && IsGrid(v, w, h)
    ensures IsGrid(r, w, h)
  {
    Build(w, h, (i, j) => Texel(FullDivergence(v, w, h, i, j), 0.0, 0.0, 1.0))
  }

  /** With the corrected divergence, every Jacobi texel subtracts the full
      divergence, so the vertical flow above is no longer invisible. */
  lemma CorrectedDivergenceReachesPressure(p: Grid, v: Grid, w: nat, h: nat)
    requires w > 0 && h > 0 && IsGrid(p, w, h) && IsGrid(v, w, h)
    ensures forall j, i :: 0 <= j < h && 0 <= i < w ==>
      JacobiPass(p, CorrectedDivergencePass(v, w, h), w, h)[j][i].x
        == (NeighbourSumX(p, w, h, i, j) - FullDivergence(v, w, h, i, j)) * 0.25
    ensures h >= 3 ==> CorrectedDivergencePass(VerticalFlow(w, h), w, h)[1][0].x == 2.0
  {
    var cd: Grid := CorrectedDivergencePass(v, w, h);
    forall j, i | 0 <= j < h && 0 <= i < w
      ensures JacobiPass(p, cd, w, h)[j][i].x
        == (NeighbourSumX(p, w, h, i, j) - FullDivergence(v, w, h, i, j)) * 0.25
    {
      assert JacobiPass(p, cd, w, h)[j][i] == JacobiAt(p, cd, w, h, i, j);
      assert Fetch(cd, w, h, i, j) == cd[j][i];
    }
    if h >= 3 {
      var vf: Grid := VerticalFlow(w, h);
      assert Fetch(vf, w, h, 0, 2).y == 2.0 && Fetch(vf, w, h, 0, 0).y == 0.0;
    }
  }
}
