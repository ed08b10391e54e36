/** The render-pass schedule of one simulation step of the resize-safe fluid
    simulation, as data: each pass names its shader program, the buffers it
    samples and the buffer it renders into. `B` is whatever identifies a
    framebuffer (a GL handle pair in `Fields`). */
module Schedule {
  import opened DoubleBuffer

  /** `config.PRESSURE_ITERATIONS`. */
  const PRESSURE_ITERATIONS: nat := 25

  datatype Kernel = Curl | Vorticity | Divergence | ClearPressure | Jacobi
                  | GradientSubtract | Advect | Splat

  datatype Pass<B> = Pass(kernel: Kernel, samples: seq<B>, dest: B)

  /** The framebuffers of the five fields. */
  datatype Buffers<B> = Buffers(velocity: Double<B>, density: Double<B>, pressure: Double<B>,
                                divergence: B, curl: B)

  predicate Outside<B(==)>(x: B, d: Double<B>) { x != d.read && x != d.write }

  predicate Apart<B(==)>(a: Double<B>, b: Double<B>) { Outside(a.read, b) && Outside(a.write, b) }

  /** The eight framebuffers are pairwise different objects. */
  predicate Distinct<B(==)>(b: Buffers<B>) {
    b.velocity.read != b.velocity.write
    && b.density.read != b.density.write
    && b.pressure.read != b.pressure.write
    && b.divergence != b.curl
    && Apart(b.velocity, b.density) && Apart(b.velocity, b.pressure) && Apart(b.density, b.pressure)
    && Outside(b.divergence, b.velocity) && Outside(b.divergence, b.density) && Outside(b.divergence, b.pressure)
    && Outside(b.curl, b.velocity) && Outside(b.curl, b.density) && Outside(b.curl, b.pressure)
  }

  /** No pass renders into a texture it samples. */
  predicate FeedbackFree<B(==)>(ps: seq<Pass<B>>) {
    forall k :: 0 <= k < |ps| ==> ps[k].dest !in ps[k].samples
  }

  /** The pressure-solve loop: every iteration rebinds `uPressure` to the
      current read half, renders into the write half and swaps. */
  function JacobiPasses<B>(divergence: B, p: Double<B>, n: nat): (r: (seq<Pass<B>>, Double<B>))
    ensures |r.0| == n
    ensures r.1 == SwapN(p, n)
    ensures forall k :: 0 <= k < n ==>
      r.0[k] == Pass(Jacobi, [divergence, SwapN(p, k).read], SwapN(p, k).write)
    decreases n
  {
    if n == 0 then ([], p)
    else
      var (ps, q) := JacobiPasses(divergence, p, n - 1);
      (ps + [Pass(Jacobi, [divergence, q.read], q.write)], Swap(q))
  }

  /** `step`: curl, vorticity, divergence, pressure decay, `n` Jacobi
      iterations, gradient subtraction, velocity advection, density advection.
      Returns the passes in order and the buffers after all swaps. */
  function StepPasses<B>(b: Buffers<B>, n: nat): (r: (seq<Pass<B>>, Buffers<B>))
  {
    var v0 := b.velocity;
    var curl := Pass(Curl, [v0.read], b.curl);
    var vort := Pass(Vorticity, [v0.read, b.curl], v0.write);
    var v1 := Swap(v0);
    var div := Pass(Divergence, [v1.read], b.divergence);
    var clear := Pass(ClearPressure, [b.pressure.read], b.pressure.write);
    var p1 := Swap(b.pressure);
    var (jacobi, p2) := JacobiPasses(b.divergence, p1, n);
    var grad := Pass(GradientSubtract, [p2.read, v1.read], v1.write);
    var v2 := Swap(v1);
    var advV := Pass(Advect, [v2.read, v2.read], v2.write);
    var v3 := Swap(v2);
    var advD := Pass(Advect, [v3.read, b.density.read], b.density.write);
    ([curl, vort, div, clear] + jacobi + [grad, advV, advD],
     Buffers(v3, Swap(b.density), p2, b.divergence, b.curl))
  }

  /** The pass order of one step: 7 fixed passes around `n` Jacobi passes. */
  lemma StepOrder<B>(b: Buffers<B>, n: nat)
    ensures var ps := StepPasses(b, n).0;
      |ps| == 7 + n
      && ps[0].kernel == Curl && ps[1].kernel == Vorticity && ps[2].kernel == Divergence
      && ps[3].kernel == ClearPressure
      && (forall k :: 4 <= k < 4 + n ==> ps[k].kernel == Jacobi)
      && ps[4 + n].kernel == GradientSubtract
      && ps[5 + n].kernel == Advect && ps[5 + n].dest == ps[4 + n].samples[1]
      && ps[6 + n].kernel == Advect && ps[6 + n].dest == b.density.write
  {
    var ps := StepPasses(b, n).0;
    var (jacobi, _) := JacobiPasses(b.divergence, Swap(b.pressure), n);
    forall k | 4 <= k < 4 + n ensures ps[k].kernel == Jacobi {
      assert ps[k] == jacobi[k - 4];
    }
  }

  /** Swap parity per step: velocity is swapped three times (net one swap),
      pressure `1 + n` times, density once; divergence and curl stay put. */
  lemma StepSwapParity<B>(b: Buffers<B>, n: nat)
    ensures StepPasses(b, n).1.velocity == Swap(b.velocity)
    ensures StepPasses(b, n).1.pressure == SwapN(b.pressure, 1 + n)
    ensures StepPasses(b, n).1.density == Swap(b.density)
    ensures StepPasses(b, n).1.divergence == b.divergence && StepPasses(b, n).1.curl == b.curl
  {
    SwapNAdd(b.pressure, 1, n);
  }

  /** With the configured 25 iterations the pressure pair is swapped 26
      times (once after clearing, once per iteration), an even count, so it
      ends the step in its starting orientation. */
  lemma StepWithConfiguredIterations<B>(b: Buffers<B>)
    ensures StepPasses(b, PRESSURE_ITERATIONS).1.pressure == b.pressure
  {
    StepSwapParity(b, PRESSURE_ITERATIONS);
    SwapNParity(b.pressure, 1 + PRESSURE_ITERATIONS);
  }

  /** Swapping any of the double buffers keeps all eight objects distinct. */
  lemma DistinctUnderSwaps<B>(b: Buffers<B>, i: nat, j: nat, k: nat)
    requires Distinct(b)
    ensures Distinct(Buffers(SwapN(b.velocity, i), SwapN(b.density, j), SwapN(b.pressure, k),
                             b.divergence, b.curl))
  {
    SwapNParity(b.velocity, i);
    SwapNParity(b.density, j);
    SwapNParity(b.pressure, k);
  }

  /** In every pass of a step the destination differs from every sampled
      texture, provided the eight framebuffers are distinct. */
  lemma {:induction false} StepFeedbackFree<B>(b: Buffers<B>, n: nat)
    requires Distinct(b)
    ensures FeedbackFree(StepPasses(b, n).0)
    ensures Distinct(StepPasses(b, n).1)
  {
    var ps := StepPasses(b, n).0;
    var p1 := Swap(b.pressure);
    var (jacobi, _) := JacobiPasses(b.divergence, p1, n);
    forall k | 0 <= k < |ps| ensures ps[k].dest !in ps[k].samples {
      if 4 <= k < 4 + n {
        var q := SwapN(p1, k - 4);
        SwapNParity(p1, k - 4);
        assert ps[k] == jacobi[k - 4] == Pass(Jacobi, [b.divergence, q.read], q.write);
      } else if k == 4 + n {
        SwapNParity(p1, n);
      }
    }
    StepSwapParity(b, n);
    DistinctUnderSwaps(b, 1, 1, 1 + n);
  }

  /** Data flow inside a step: vorticity reads the curl just computed,
      divergence reads the velocity vorticity wrote, every Jacobi iteration
      reads the divergence and the pressure the previous pass wrote, and the
      gradient pass reads the pressure the last pressure pass wrote. */
  lemma {:induction false} StepDataFlow<B>(b: Buffers<B>, n: nat)
    ensures var ps := StepPasses(b, n).0;
      ps[1].samples[1] == ps[0].dest
      && ps[2].samples[0] == ps[1].dest
      && (forall k :: 4 <= k < 4 + n ==> ps[k].samples[0] == ps[2].dest)
      && (forall k :: 4 <= k < 4 + n ==> ps[k].samples[1] == ps[k - 1].dest)
      && ps[4 + n].samples[0] == ps[3 + n].dest
      && ps[4 + n].samples[1] == ps[2].samples[0]
      && ps[6 + n].samples[0] == ps[5 + n].dest
  {
    var ps := StepPasses(b, n).0;
    var p1 := Swap(b.pressure);
    var (jacobi, p2) := JacobiPasses(b.divergence, p1, n);
    forall k | 4 <= k < 4 + n
      ensures ps[k].samples[0] == ps[2].dest && ps[k].samples[1] == ps[k - 1].dest
    {
      assert ps[k] == jacobi[k - 4];
      if k > 4 {
        assert ps[k - 1] == jacobi[k - 5];
        assert SwapN(p1, k - 4) == Swap(SwapN(p1, k - 5));
      }
    }
    if n > 0 {
      assert ps[3 + n] == jacobi[n - 1];
      assert p2 == Swap(SwapN(p1, n - 1));
    }
  }

  /** `splat`: one pass into velocity, one into density, each followed by a swap. */
  function SplatPasses<B>(b: Buffers<B>): (r: (seq<Pass<B>>, Buffers<B>))
  {
    ([Pass(Splat, [b.velocity.read], b.velocity.write), Pass(Splat, [b.density.read], b.density.write)],
     b.(velocity := Swap(b.velocity), density := Swap(b.density)))
  }

  /** A splat writes the halves it does not read, leaves the buffers distinct,
      and the next pass reads what the splat wrote. */
  lemma SplatFeedbackFree<B>(b: Buffers<B>)
    requires Distinct(b)
    ensures FeedbackFree(SplatPasses(b).0)
    ensures Distinct(SplatPasses(b).1)
    ensures SplatPasses(b).1.velocity.read == SplatPasses(b).0[0].dest
    ensures SplatPasses(b).1.density.read == SplatPasses(b).0[1].dest
  {
    DistinctUnderSwaps(b, 1, 1, 0);
  }
}
