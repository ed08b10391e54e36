/** The scroll-driven frame-sequence player: frame file names, the batched
    loading plan, the loading gate, the scroll-progress-to-frame mapping with
    its completion latch, and the 16:9 canvas sizing. Image loading, timers,
    `requestAnimationFrame` and the scroll library are inputs. */
module FramePlayer {
  import opened Wrappers
  import opened Text
  import Storage

  const INITIAL_BATCH: nat := 30
  const BATCH_SIZE: nat := 10

  // ---- frame names ----

  /** `${frameBaseName}${n.toString().padStart(3, '0')}.png`. */
  function FramePath(base: string, n: nat): (r: string)
    ensures |r| == |base| + Digits(n) + 4
    ensures r[..|base|] == base && r[|r| - 4..] == ".png"
  {
    base + PadStart(NatToString(n), 3, '0') + ".png"
  }

  /** The width of the number field: three digits, more when needed. */
  function Digits(n: nat): (k: nat)
    ensures k >= 3
  {
    if |NatToString(n)| >= 3 then |NatToString(n)| else 3
  }

  /** `getFrameUrl(n)`: the frame's path resolved through `getBlogImageUrl`. */
  function FrameUrl(base: string, n: nat, publicUrl: string -> string): (r: string)
    ensures !StartsWith(FramePath(base, n), "http") ==> r == publicUrl(FramePath(base, n))
    ensures StartsWith(FramePath(base, n), "http") ==> r == FramePath(base, n)
  {
    Storage.BlogImageUrl(FramePath(base, n), publicUrl)
  }

  /** The number field of a frame path is all digits, at least three wide,
      and reads back as the frame number: numbers of 1000 and more keep all
      their digits. */
  lemma FramePathRoundTrip(base: string, n: nat)
    ensures var f := FramePath(base, n);
      var field := f[|base|..|f| - 4];
      |field| == Digits(n) && AllDigits(field) && ParseDigits(field) == n
  {
    var d := PadStart(NatToString(n), 3, '0');
    var f := FramePath(base, n);
    assert f[|base|..|f| - 4] == d;
    ZeroPadKeepsValue(NatToString(n), 3);
    ParseNatToString(n);
  }

  /** Different frames have different paths. */
  lemma FramePathInjective(base: string, n: nat, m: nat)
    requires FramePath(base, n) == FramePath(base, m)
    ensures n == m
  {
    FramePathRoundTrip(base, n);
    FramePathRoundTrip(base, m);
  }

  // ---- loading plan ----

  function Min(a: int, b: int): int { if a <= b then a else b }

  /** `i, i+1, ..., j-1`. */
  function Range(i: nat, j: nat): (r: seq<nat>)
    requires i <= j
    ensures |r| == j - i
    ensures forall k :: 0 <= k < |r| ==> r[k] == i + k
  {
    seq(j - i, k requires 0 <= k < j - i => i + k)
  }

  /** `loadBatch(start, end)`: the array indices it loads. */
  function Batch(start: nat, end: nat, total: nat): seq<nat>
  {
    if start <= Min(end, total) then Range(start, Min(end, total)) else []
  }

  /** The background batches `[i, i+10)` for `i = start, start+10, ...` below `total`. */
  function LaterBatches(start: nat, total: nat): seq<nat>
    decreases total - start
  {
    if start >= total then [] else Batch(start, start + BATCH_SIZE, total) + LaterBatches(start + BATCH_SIZE, total)
  }

  /** Every index `loadFrames` requests, in request order: the initial batch
      of 30, then the batches of 10. */
  function LoadPlan(total: nat): seq<nat> {
    Batch(0, INITIAL_BATCH, total) + LaterBatches(INITIAL_BATCH, total)
  }

  lemma {:induction false} LaterBatchesCover(start: nat, total: nat)
    requires start <= total
    ensures LaterBatches(start, total) == Range(start, total)
    decreases total - start
  {
    if start < total {
      var mid := Min(start + BATCH_SIZE, total);
      LaterBatchesCover(mid, total);
      if start + BATCH_SIZE < total {
        assert LaterBatches(start + BATCH_SIZE, total) == Range(mid, total);
      }
      assert Range(start, mid) + Range(mid, total) == Range(start, total);
    }
  }

  /** The plan requests every index of `[0, totalFrames)` exactly once, in
      increasing order: the batches partition the frame range. */
  lemma LoadPlanPartitions(total: nat)
    ensures LoadPlan(total) == Range(0, total)
  {
    if total <= INITIAL_BATCH {
      assert LoadPlan(total) == Range(0, total) + [];
    } else {
      LaterBatchesCover(INITIAL_BATCH, total);
      assert Range(0, INITIAL_BATCH) + Range(INITIAL_BATCH, total) == Range(0, total);
    }
  }

  /** Array index `i` is file number `i + 1`: the files requested are
      numbers 1 to `totalFrames`, in order. */
  lemma FileNumbers(total: nat)
    ensures var plan := LoadPlan(total);
      seq(|plan|, k requires 0 <= k < |plan| => plan[k] + 1) == Range(1, total + 1)
  {
    LoadPlanPartitions(total);
  }

  // ---- loading gate ----

  datatype Loading = Loading(loaded: nat, isLoading: bool)

  /** Image completions in completion order (`true` for `onload`, `false`
      for `onerror`); a success increments the count and, if the count then
      equals `threshold`, clears `isLoading`. */
  function Complete(s: Loading, results: seq<bool>, threshold: nat): Loading
    decreases |results|
  {
    if |results| == 0 then s
    else if !results[0] then Complete(s, results[1..], threshold)
    else
      var n := s.loaded + 1;
      Complete(Loading(n, s.isLoading && n != threshold), results[1..], threshold)
  }

  function Successes(results: seq<bool>): (n: nat)
    ensures n <= |results|
    decreases |results|
  {
    if |results| == 0 then 0 else (if results[0] then 1 else 0) + Successes(results[1..])
  }

  /** Starting from a count below the threshold, the count advances by the
      successes and loading ends exactly when the threshold is reached. */
  lemma {:induction false} CompleteClearsAtThreshold(s: Loading, results: seq<bool>, threshold: nat)
    requires s.isLoading && s.loaded < threshold
    ensures Complete(s, results, threshold).loaded == s.loaded + Successes(results)
    ensures !Complete(s, results, threshold).isLoading <==> s.loaded + Successes(results) >= threshold
    decreases |results|
  {
    if |results| > 0 {
      var n := s.loaded + 1;
      if !results[0] {
        CompleteClearsAtThreshold(s, results[1..], threshold);
      } else if n < threshold {
        CompleteClearsAtThreshold(Loading(n, true), results[1..], threshold);
      } else {
        CompleteCounts(Loading(n, false), results[1..], threshold);
      }
    }
  }

  /** Once loading has ended it stays ended; the count keeps counting. */
  lemma {:induction false} CompleteCounts(s: Loading, results: seq<bool>, threshold: nat)
    requires !s.isLoading
    ensures Complete(s, results, threshold) == Loading(s.loaded + Successes(results), false)
    decreases |results|
  {
    if |results| > 0 {
      if results[0] {
        CompleteCounts(Loading(s.loaded + 1, false), results[1..], threshold);
      } else {
        CompleteCounts(s, results[1..], threshold);
      }
    }
  }

  const Start: Loading := Loading(0, true)

  /** As written, the gate is `loadedCount === 30`: with fewer than 30 frames
      it never opens, even when every frame loads. */
  lemma ShortSequenceNeverStarts(total: nat, results: seq<bool>)
    requires total < INITIAL_BATCH && |results| <= total
    ensures Complete(Start, results, INITIAL_BATCH).isLoading
  {
    CompleteClearsAtThreshold(Start, results, INITIAL_BATCH);
  }

  /** The threshold the loading indicator displays: `min(30, totalFrames)`. */
  function GateThreshold(total: nat): (t: nat)
    ensures t <= INITIAL_BATCH && t <= total
    ensures total >= INITIAL_BATCH ==> t == INITIAL_BATCH
    ensures total < INITIAL_BATCH ==> t == total
  {
    Min(INITIAL_BATCH, total)
  }

  /** With the threshold the indicator shows, loading ends exactly when
      `min(30, totalFrames)` frames have loaded; in particular it ends once
      every frame of a short sequence has loaded. */
  lemma CorrectedGateOpens(total: nat, results: seq<bool>)
    requires total >= 1
    ensures !Complete(Start, results, GateThreshold(total)).isLoading
            <==> Successes(results) >= GateThreshold(total)
    ensures Successes(results) >= total ==> !Complete(Start, results, GateThreshold(total)).isLoading
  {
    CompleteClearsAtThreshold(Start, results, GateThreshold(total));
  }

  // ---- scroll progress to frame ----

  /** `min(floor(progress * (totalFrames - 1)), totalFrames - 1)`. */
  function FrameIndex(progress: real, total: int): int {
    Min((progress * (total - 1) as real).Floor, total - 1)
  }

  /** For progress in `[0, 1]` the index is a valid frame, it never goes
      back as progress grows, and progress 1 shows the last frame. */
  lemma FrameIndexBounds(progress: real, total: int)
    requires 0.0 <= progress <= 1.0 && total >= 1
    ensures 0 <= FrameIndex(progress, total) <= total - 1
    ensures progress == 1.0 ==> FrameIndex(progress, total) == total - 1
  {
    var t := (total - 1) as real;
    assert 0.0 <= progress * t <= t;
  }

  /** Progress at or past 1 maps to the last frame. */
  lemma FrameIndexAtEnd(progress: real, total: int)
    requires progress >= 1.0 && total >= 1
    ensures FrameIndex(progress, total) == total - 1
  {
    var t := (total - 1) as real;
    assert progress * t >= t;
    FloorMonotone(t, progress * t);
  }

  lemma FrameIndexMonotone(p: real, q: real, total: int)
    requires 0.0 <= p <= q && total >= 1
    ensures FrameIndex(p, total) <= FrameIndex(q, total)
  {
    var t := (total - 1) as real;
    assert p * t <= q * t;
    FloorMonotone(p * t, q * t);
  }

  lemma FloorMonotone(a: real, b: real)
    requires a <= b
    ensures a.Floor <= b.Floor
  {
    assert a.Floor as real <= a <= b < b.Floor as real + 1.0;
  }

  /** The player's state between events: the completion latch, the frame
      on the canvas, whether an animation frame is scheduled, and the
      scroll trigger's latest progress, which the scheduled frame reads when
      it runs. */
  datatype Player = Player(hasCompleted: bool, current: int, pending: bool, progress: real)

  /** When loading ends, frame 0 is on the canvas and nothing is scheduled. */
  const Idle: Player := Player(false, 0, false, 0.0)

  /** What reaches the player: a scroll update with its progress, or the
      browser running the scheduled animation frame. */
  datatype Event = Scroll(progress: real) | AnimationFrame

  /** `onUpdate(self)`: cancel any scheduled frame, latch at progress 1, and
      unless latched below 1 schedule a new frame. */
  function OnUpdate(p: Player, progress: real): Player
  {
    var completed := p.hasCompleted || progress == 1.0;
    Player(completed, p.current, !(completed && progress < 1.0), progress)
  }

  /** The scheduled callback: map the progress it reads to a frame and draw
      that frame when it differs from the current one and has loaded.
      Returns the frame drawn, if any. */
  function Tick(p: Player, total: int, loaded: int -> bool): (Player, Option<int>)
  {
    if !p.pending then (p, None)
    else
      var index := FrameIndex(p.progress, total);
      if index != p.current && loaded(index) then (p.(pending := false, current := index), Some(index))
      else (p.(pending := false), None)
  }

  function Step(p: Player, e: Event, total: int, loaded: int -> bool): (Player, Option<int>)
  {
    match e
    case Scroll(x) => (OnUpdate(p, x), None)
    case AnimationFrame => Tick(p, total, loaded)
  }

  /** The frames drawn by a run of events, in order, and the final state. */
  function Run(p: Player, events: seq<Event>, total: int, loaded: int -> bool): (Player, seq<int>)
    decreases |events|
  {
    if |events| == 0 then (p, [])
    else
      var (q, d) := Step(p, events[0], total, loaded);
      var (last, drawn) := Run(q, events[1..], total, loaded);
      (last, (if d.Some? then [d.value] else []) + drawn)
  }

  /** A scroll update never draws: it records the progress, sets the latch
      exactly at 1, and leaves a frame scheduled exactly when the player is
      not latched below 1 (so a latched update below 1 cancels a frame that
      was scheduled). An animation frame draws exactly when one is scheduled
      and the latest progress maps to a new, loaded frame, which becomes
      current; afterwards nothing is scheduled. */
  lemma StepDraws(p: Player, e: Event, total: int, loaded: int -> bool)
    ensures var (q, drawn) := Step(p, e, total, loaded);
      (drawn.Some? <==> e.AnimationFrame? && p.pending
                        && FrameIndex(p.progress, total) != p.current && loaded(FrameIndex(p.progress, total)))
      && (drawn.Some? ==> drawn.value == FrameIndex(p.progress, total) && q.current == drawn.value)
      && (drawn.None? ==> q.current == p.current)
      && (e.Scroll? ==> q.progress == e.progress
                        && (q.hasCompleted <==> p.hasCompleted || e.progress == 1.0)
                        && (q.pending <==> !(q.hasCompleted && e.progress < 1.0)))
      && (e.AnimationFrame? ==> !q.pending && q.progress == p.progress && q.hasCompleted == p.hasCompleted)
  {
  }

  /** A scroll that is not ignored, followed by its animation frame, puts
      the frame that progress maps to on the canvas once it has loaded. */
  lemma ScrollThenFrameShows(p: Player, x: real, total: int, loaded: int -> bool)
    requires !(p.hasCompleted && x < 1.0) && loaded(FrameIndex(x, total))
    ensures Run(p, [Scroll(x), AnimationFrame], total, loaded).0.current == FrameIndex(x, total)
  {
    var q := OnUpdate(p, x);
    assert [Scroll(x), AnimationFrame][1..] == [AnimationFrame];
    assert Run(q, [AnimationFrame], total, loaded).0 == Tick(q, total, loaded).0;
  }

  /** Latched with nothing scheduled, a run whose scroll updates all stay
      below 1 draws nothing and keeps the frame on the canvas. */
  lemma {:induction false} LatchHolds(p: Player, events: seq<Event>, total: int, loaded: int -> bool)
    requires p.hasCompleted && !p.pending
    requires forall k :: 0 <= k < |events| && events[k].Scroll? ==> events[k].progress < 1.0
    ensures Run(p, events, total, loaded).1 == []
    ensures Run(p, events, total, loaded).0.current == p.current
    ensures Run(p, events, total, loaded).0.hasCompleted
    decreases |events|
  {
    if |events| > 0 {
      var (q, d) := Step(p, events[0], total, loaded);
      assert d.None? && q.hasCompleted && !q.pending && q.current == p.current by {
        if events[0].Scroll? {
          assert events[0].progress < 1.0;
        }
      }
      forall k | 0 <= k < |events[1..]| && events[1..][k].Scroll?
        ensures events[1..][k].progress < 1.0
      {
        assert events[1..][k] == events[k + 1];
      }
      LatchHolds(q, events[1..], total, loaded);
    }
  }

  /** After the latch sets, a scheduled frame can only come from an update at
      progress 1 or more, so every frame drawn is the last one. */
  lemma {:induction false} LatchedDrawsOnlyLast(p: Player, events: seq<Event>, total: int, loaded: int -> bool)
    requires total >= 1
    requires p.hasCompleted && (p.pending ==> p.progress >= 1.0)
    ensures forall k :: 0 <= k < |Run(p, events, total, loaded).1| ==>
              Run(p, events, total, loaded).1[k] == total - 1
    decreases |events|
  {
    if |events| > 0 {
      var (q, d) := Step(p, events[0], total, loaded);
      assert q.hasCompleted && (q.pending ==> q.progress >= 1.0);
      if d.Some? {
        FrameIndexAtEnd(p.progress, total);
      }
      LatchedDrawsOnlyLast(q, events[1..], total, loaded);
    }
  }

  /** Reaching the end sets the latch for good. */
  lemma {:induction false} LatchIsPermanent(p: Player, events: seq<Event>, total: int, loaded: int -> bool)
    requires p.hasCompleted || (exists k :: 0 <= k < |events| && events[k] == Scroll(1.0))
    ensures Run(p, events, total, loaded).0.hasCompleted
    decreases |events|
  {
    if |events| > 0 {
      var q := Step(p, events[0], total, loaded).0;
      if !q.hasCompleted {
        var k :| 0 <= k < |events| && events[k] == Scroll(1.0);
        assert k > 0;
        assert events[1..][k - 1] == Scroll(1.0);
      }
      LatchIsPermanent(q, events[1..], total, loaded);
    }
  }

  /** The scheduled frame reads the progress when it runs: reaching the end
      and scrolling back to 0.98 before the frame runs cancels it, so the
      last of 10 frames is never drawn and frame 8 stays on the canvas. */
  lemma ScrollBackBeforeFrameSkipsLast()
    ensures var r := Run(Player(false, 8, false, 0.9), [Scroll(1.0), Scroll(0.98), AnimationFrame], 10, _ => true);
      r.1 == [] && r.0.current == 8 && r.0.hasCompleted
  {
    var events := [Scroll(1.0), Scroll(0.98), AnimationFrame];
    var p1 := OnUpdate(Player(false, 8, false, 0.9), 1.0);
    var p2 := OnUpdate(p1, 0.98);
    assert !p2.pending;
    assert events[1..] == [Scroll(0.98), AnimationFrame];
    assert events[1..][1..] == [AnimationFrame];
  }

  // ---- sizing ----

  datatype CanvasSize = CanvasSize(cssWidth: real, cssHeight: real, width: int, height: int)

  function MinR(a: real, b: real): real { if a <= b then a else b }

  /** `handleResize`: CSS size `min(1280, container)` by `min(w * 720 / 1280, 720)`,
      backing store scaled by `devicePixelRatio || 1` and truncated to whole
      pixels by the canvas. */
  function Resize(containerWidth: real, dpr: real): (r: CanvasSize)
    requires containerWidth >= 0.0 && dpr >= 0.0
    ensures 0.0 <= r.cssWidth <= 1280.0 && r.cssHeight <= 720.0
    ensures r.cssHeight * 16.0 == r.cssWidth * 9.0
    ensures containerWidth <= 1280.0 ==> r.cssWidth == containerWidth
    ensures containerWidth >= 1280.0 ==> r.cssWidth == 1280.0
    ensures r.width >= 0 && r.height >= 0
  {
    var w := MinR(1280.0, containerWidth);
    var h := MinR(w * 720.0 / 1280.0, 720.0);
    var scale := if dpr == 0.0 then 1.0 else dpr;
    CanvasSize(w, h, (w * scale).Floor, (h * scale).Floor)
  }

  /** The backing store is the CSS size times the pixel ratio, up to less
      than a pixel; a ratio of 0 (falsy) falls back to 1. */
  lemma ResizeBacking(containerWidth: real, dpr: real)
    requires containerWidth >= 0.0 && dpr >= 0.0
    ensures var scale := if dpr == 0.0 then 1.0 else dpr;
      var r := Resize(containerWidth, dpr);
      r.width as real <= r.cssWidth * scale < r.width as real + 1.0
      && r.height as real <= r.cssHeight * scale < r.height as real + 1.0
    ensures dpr == 0.0 ==> Resize(containerWidth, dpr) == Resize(containerWidth, 1.0)
  {
  }
}
