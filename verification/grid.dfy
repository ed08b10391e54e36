/** Simulation fields as grids of four-channel texels, sampled the way the
    fragment shaders sample them: at texel centres, with clamp-to-edge wrapping
    (every texture is created with `CLAMP_TO_EDGE`). Row `j` grows upwards, so
    the shaders' `T` neighbour is row `j + 1` and `B` is row `j - 1`. */
module Grid {

  datatype Texel = Texel(x: real, y: real, z: real, w: real)

  type Grid = seq<seq<Texel>>

  /** `g` has `h` rows of `w` texels each. */
  predicate IsGrid(g: Grid, w: nat, h: nat) {
    |g| == h && forall j :: 0 <= j < h ==> |g[j]| == w
  }

  /** Clamp-to-edge: an index outside `[0, n)` reads the nearest edge texel. */
  function Clamp(i: int, n: nat): (r: nat)
    requires n > 0
    ensures r < n
    ensures 0 <= i < n ==> r == i
    ensures i < 0 ==> r == 0
    ensures i >= n ==> r == n - 1
  {
    if i < 0 then 0 else if i >= n then n - 1 else i
  }

  /** The texel a shader reads at integer offset `(i, j)` from the origin. */
  function Fetch(g: Grid, w: nat, h: nat, i: int, j: int): Texel
    requires w > 0 && h > 0 && IsGrid(g, w, h)
  {
    g[Clamp(j, h)][Clamp(i, w)]
  }

  /** The grid whose texel `(i, j)` is `f(i, j)`: one full-screen draw. */
  function Build(w: nat, h: nat, f: (int, int) -> Texel): (g: Grid)
    ensures IsGrid(g, w, h)
    ensures forall j, i :: 0 <= j < h && 0 <= i < w ==> g[j][i] == f(i, j)
  {
    seq(h, j => seq(w, i => f(i, j)))
  }

  /** Every texel of `g` has `x` channel `c`. */
  predicate ConstantX(g: Grid, w: nat, h: nat, c: real)
    requires IsGrid(g, w, h)
  {
    forall j, i :: 0 <= j < h && 0 <= i < w ==> g[j][i].x == c
  }

  /** `a` and `b` agree on the `x` channel everywhere. */
  predicate SameX(a: Grid, b: Grid, w: nat, h: nat)
    requires IsGrid(a, w, h) && IsGrid(b, w, h)
  {
    forall j, i :: 0 <= j < h && 0 <= i < w ==> a[j][i].x == b[j][i].x
  }
}
