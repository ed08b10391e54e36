# Audience Synergy web site: a Dafny model of its core

This project models the behavioural core of the Audience Synergy marketing
site and its blog back end, and proves properties about that model.

**The WebGL fluid background** comes in two variants.

- The resize-safe variant (`FluidCanvas3.tsx`) is modelled in four parts:
  - the canvas sizing;
  - the framebuffer fields and their GL handles;
  - the order in which one simulation step runs its shader passes over double buffers;
  - the numerical effect of the linear passes (divergence, curl, Jacobi pressure iteration, gradient subtraction) on grids of texels with clamp-to-edge sampling.

  The pointer handlers that turn mouse and touch events into splats are modelled as well.
- The legacy variant (`FluidCanvas.tsx`) is modelled only as far as it differs: texture units, the Jacobi binding, its input handlers, its frame loop and its resize behaviour.

**The Supabase edge functions:**

- `blog-api` models the per-IP rate limiter, the bearer-token check, input validation and sanitising, `createSlug`, and the category, author and post records it writes.
- `blog-image-upload` models the type and size checks and the stored file name.

**The client helpers and components:**

- `storage.ts` models the public URL of a stored image, and upload and delete against the `blog-images` bucket seen as the set of paths it holds.
- The scroll-driven frame player models the frame paths, the batch loading plan, the loading gate, the mapping from scroll progress to frame, the completion latch with the scheduled animation frame that a scroll update cancels and reschedules, and canvas sizing.
- The key-metrics counters model number extraction, the linear count-up over 2000 ms and its display.
- The theme provider models the theme set, the load-from-storage effect and the persist effect.

**How effects are modelled.** Effects are modelled as values:

- The GL context is a set of live handles plus a next-handle counter.
- Local storage is a string map.
- A database is a record of what each lookup and insert returns.
- The clock, `Math.random()` text, storage client errors, upload results and public-URL lookups are parameters.

**JavaScript semantics are written out where they matter:**

- truthiness, `||` and `??`;
- `split('.').pop() || 'jpg'`;
- `parseFloat` as the longest `digits[.digits]` prefix;
- `>>` via ToInt32;
- `Math.floor`;
- strict-versus-inclusive comparisons.

**Modules:**

| module | file | models |
|---|---|---|
| `Wrappers` | wrappers.dfy | `Option` |
| `Text` | text.dfy | ASCII lower-casing, JS `trim`, `slice(0, n)`, `padStart`, decimal digits |
| `DoubleBuffer` | double_buffer.dfy | `createDoubleFBO`'s read/write pair and `swap` |
| `Fields` | fields.dfy | texture sizes, `createFBO`, `createDoubleFBO`, `initFramebuffers`, `disposeFramebuffers` |
| `Schedule` | schedule.dfy | the pass order of `step` and of `splat` over abstract buffers |
| `Lifecycle` | lifecycle.dfy | canvas sizing, mount, resize observer, frame loop, cleanup (resize-safe variant) |
| `Grid`, `Stencils` | grid.dfy, stencils.dfy | the linear shaders on texel grids |
| `Interaction` | interaction.dfy | mouse/touch handlers and splat uniforms (resize-safe variant) |
| `Legacy` | legacy.dfy | the legacy variant's differences |
| `Slug` | slug.dfy | `createSlug` |
| `RateLimit`, `Edge` | rate_limit.dfy, edge.dfy | `checkRateLimit`, client IP, bearer check |
| `BlogApi` | blog_api.dfy | `blog-api` request handling |
| `UploadNames`, `ImageUpload`, `Storage` | upload.dfy | upload file names, `blog-image-upload`, `storage.ts` |
| `FramePlayer` | frame_player.dfy | `FrameSequencePlayer` |
| `KeyMetrics` | key_metrics.dfy | `KeyMetrics` counters |
| `Theme` | theme.dfy | `ThemeProvider` |

## Model

| member | source | states |
|---|---|---|
| DoubleBuffer.Swap | src/components/FluidCanvas3.tsx:235-239 | swapping exchanges the read and write halves |
| DoubleBuffer.SwapInvolutive | src/components/FluidCanvas3.tsx:235-239 | two swaps restore the pair |
| DoubleBuffer.SwapNParity | src/components/FluidCanvas3.tsx:235-239 | after n swaps the pair is the original for even n and swapped for odd n |
| DoubleBuffer.SwapNAdd | src/components/FluidCanvas3.tsx:235-239 | m swaps then n swaps equal m+n swaps |
| DoubleBuffer.SwapNKeepsHalves | src/components/FluidCanvas3.tsx:225-242 | swapping never loses or duplicates a texture: the halves stay the same two, and stay different if they were |
| Fields.ToInt32 | src/components/FluidCanvas3.tsx:374-375 | the JS ToInt32 conversion `>>` applies: a value in [-2^31, 2^31) congruent to the input mod 2^32, the identity on that range |
| Fields.TexSize | src/components/FluidCanvas3.tsx:374-375 | the texture side is `max(2, canvas >> TEXTURE_DOWNSAMPLE)`: always at least 2, and half the canvas (rounded down) for a canvas below 2^31 |
| Fields.HugeCanvasWrapsToMinimum | src/components/FluidCanvas3.tsx:374-375 | a side of 2^31 wraps negative under `>>` and is clamped to 2; 2^32+8 wraps to 4 |
| Fields.CreateFbo | src/components/FluidCanvas3.tsx:204-222 | one texture and one framebuffer of the requested size, with two fresh handles added to the live set |
| Fields.CreateDouble | src/components/FluidCanvas3.tsx:225-242 | two same-sized framebuffers on four fresh consecutive handles |
| Fields.InitFramebuffers | src/components/FluidCanvas3.tsx:373-394 | all five fields exist at the downsampled size; their 16 handles are pairwise different, were not live before, and are exactly what became live |
| Fields.ConsecutiveHandles | src/components/FluidCanvas3.tsx:373-394 | allocation in source order gives the fields handles n..n+15 in that order |
| Fields.DisposeFramebuffers | src/components/FluidCanvas3.tsx:396-415 | every field is released: exactly its handles are deleted, the fields are emptied and the texture size kept |
| Fields.DisposeTwiceDeletesNothing | src/components/FluidCanvas3.tsx:396-415 | a second dispose deletes nothing and changes nothing |
| Fields.InitThenDisposeLeaksNothing | src/components/FluidCanvas3.tsx:373-415 | allocating then disposing leaves exactly the previously live handles |
| Schedule.JacobiPasses | src/components/FluidCanvas3.tsx:463-471 | iteration k reads the divergence and the pressure read half after k swaps, writes the write half, and n iterations leave the pressure swapped n times |
| Schedule.StepPasses | src/components/FluidCanvas3.tsx:422-501 | one simulation step as a list of render passes and the buffers after its swaps; its order, swap parity, feedback freedom and data flow are stated by Schedule.StepOrder, Schedule.StepSwapParity, Schedule.StepFeedbackFree and Schedule.StepDataFlow |
| Schedule.StepOrder | src/components/FluidCanvas3.tsx:422-501 | one step is curl, vorticity, divergence, pressure clear, n Jacobi passes, gradient subtraction, velocity and density advection; the velocity advection writes the velocity the gradient pass read, the density advection writes density.write |
| Schedule.StepSwapParity | src/components/FluidCanvas3.tsx:422-501 | a step swaps velocity an odd number of times, pressure 1+n times and density once, and leaves divergence and curl in place |
| Schedule.StepWithConfiguredIterations | src/components/FluidCanvas3.tsx:94 | with 25 iterations the pressure pair ends the step in its starting orientation |
| Schedule.DistinctUnderSwaps | src/components/FluidCanvas3.tsx:225-242 | any number of swaps keeps all eight textures distinct |
| Schedule.StepFeedbackFree | src/components/FluidCanvas3.tsx:422-501 | no pass of a step samples the texture it renders to, and the buffers stay distinct |
| Schedule.StepDataFlow | src/components/FluidCanvas3.tsx:428-500 | each pass reads what its predecessor wrote: divergence reads the vorticity output, every Jacobi pass reads the divergence and the previous pressure, the gradient reads the last pressure, density advection reads the new velocity |
| Schedule.SplatPasses | src/components/FluidCanvas3.tsx:514-536 | a splat as two passes, velocity then density, each followed by a swap; Schedule.SplatFeedbackFree states its properties |
| Schedule.SplatFeedbackFree | src/components/FluidCanvas3.tsx:514-536 | a splat's two passes are feedback-free and the new read halves are what they wrote |
| Lifecycle.FloorSize | src/components/FluidCanvas3.tsx:64-79 | `Math.floor` of a CSS size, as a non-negative pixel count |
| Lifecycle.UpdateCanvasSize | src/components/FluidCanvas3.tsx:64-79 | the canvas is resized, and a change reported, exactly when the floored container size differs from the last one |
| Lifecycle.UpdateCanvasSizeIdempotent | src/components/FluidCanvas3.tsx:64-79 | sizing twice to the same container reports no change the second time |
| Lifecycle.InitCoherent | src/components/FluidCanvas3.tsx:373-394 | fresh fields on an empty context own exactly the live handles and form distinct buffers |
| Lifecycle.Dispose | src/components/FluidCanvas3.tsx:396-415 | disposal leaves no field and no live handle |
| Lifecycle.Alloc | src/components/FluidCanvas3.tsx:373-394 | allocation gives every field, sized from the current canvas, keeping the coherence invariant |
| Lifecycle.Mount | src/components/FluidCanvas3.tsx:80-82 | mount reports sizing done exactly when a floored side is non-zero, and has fields exactly when both sides are at least 2 |
| Lifecycle.DeferredSizing | src/components/FluidCanvas3.tsx:639-648 | after the deferred sizing the fields exist exactly when the canvas is usable |
| Lifecycle.ZeroContainerUsesDefaultCanvas | src/components/FluidCanvas3.tsx:417-419 | a zero-sized container leaves the 300x150 default canvas, from which the deferred sizing allocates 150x75 fields |
| Lifecycle.OnResize | src/components/FluidCanvas3.tsx:609-615 | the resize observer keeps the fields coherent with the live handles |
| Lifecycle.ResizeReallocatesIffChanged | src/components/FluidCanvas3.tsx:609-615 | fields are reallocated at the new size exactly when the floored size changed and both sides are at least 2; otherwise fields and context are untouched |
| Lifecycle.ResizeThereAndBack | src/components/FluidCanvas3.tsx:609-615 | resizing away and back ends with fields of the original size |
| Lifecycle.Step | src/components/FluidCanvas3.tsx:422-501 | a step runs passes exactly when every field exists and the canvas is usable; its passes are feedback-free and the context is unchanged |
| Lifecycle.Frame | src/components/FluidCanvas3.tsx:619-628 | a frame clamps dt to 0.016, runs a step exactly when not paused and ready, and draws the density read half |
| Lifecycle.FrameShowsAdvectedDensity | src/components/FluidCanvas3.tsx:496-508 | the texture drawn is the one the step's last pass wrote |
| Lifecycle.ReadyMeansStepping | src/components/FluidCanvas3.tsx:631-638 | once ready, an unpaused frame runs all 7+25 passes |
| Lifecycle.ApplySplat | src/components/FluidCanvas3.tsx:514-536 | a splat runs two feedback-free passes when the fields exist and none otherwise |
| Lifecycle.Cleanup | src/components/FluidCanvas3.tsx:651-666 | cleanup leaves no field and no live handle |
| Grid.Clamp | src/components/FluidCanvas3.tsx:204-222 | clamp-to-edge addressing: in range indices are kept, the rest go to the nearest edge |
| Grid.Build | src/components/FluidCanvas3.tsx:422-501 | a full-screen pass writes every texel from its own coordinates |
| Stencils.ClearCompose | src/components/FluidCanvas3.tsx:288-291 | clearing scales by a factor: two clears compose multiplicatively and a factor of 1 is the identity |
| Stencils.JacobiReadsOnlyDivergenceX | src/components/FluidCanvas3.tsx:336-339 | the pressure pass depends only on the divergence texture's x channel |
| Stencils.JacobiFixedPointSolvesPoisson | src/components/FluidCanvas3.tsx:336-339 | a texel the Jacobi pass leaves unchanged satisfies the discrete Poisson equation there |
| Stencils.ConstantPressureIsJacobiFixed | src/components/FluidCanvas3.tsx:336-339 | a constant pressure with zero divergence is a fixed point |
| Stencils.ConstantPressureKeepsVelocity | src/components/FluidCanvas3.tsx:341-344 | a constant pressure has zero gradient, so the velocity is unchanged |
| Stencils.UniformVelocityIsQuiet | src/components/FluidCanvas3.tsx:321-329 | a uniform velocity field has zero divergence and zero curl |
| Stencils.SolvePressure | src/components/FluidCanvas3.tsx:463-471 | the double-buffered Jacobi loop keeps both halves well-formed grids of the canvas size; Stencils.SolvePressureIsIteration states what it computes |
| Stencils.SolvePressureIsIteration | src/components/FluidCanvas3.tsx:463-471 | the double-buffered loop computes n Jacobi iterations into the read half and n-1 into the write half |
| Stencils.ConvergedPressureStays | src/components/FluidCanvas3.tsx:463-471 | every iteration keeps a converged constant pressure |
| Stencils.VerticalFlowInvisibleToPressure | src/components/FluidCanvas3.tsx:321-324 | as written: a purely vertical flow with full divergence 2 produces the same pressure as no flow at all |
| Stencils.CorrectedDivergenceReachesPressure | src/components/FluidCanvas3.tsx:321-324 | corrected: each Jacobi texel subtracts the full divergence, and the vertical flow reaches the pressure |
| Interaction.Delta | src/components/FluidCanvas3.tsx:559-598 | a movement delta exists exactly when a last position does, scaled from the difference |
| Interaction.Handle | src/components/FluidCanvas3.tsx:550-606 | the pointer listeners as one transition; Interaction.MouseMoveSplatsIffDown, Interaction.TouchMoveAlwaysSplats and Interaction.TouchEndIsMouseUp state its cases |
| Interaction.MouseMoveSplatsIffDown | src/components/FluidCanvas3.tsx:559-570 | a mouse move splats exactly when the button is down, with 5 times the movement, and otherwise changes nothing |
| Interaction.TouchMoveAlwaysSplats | src/components/FluidCanvas3.tsx:585-598 | a touch move always splats at the touch position, with 10 times the movement when a last position is known |
| Interaction.TouchEndIsMouseUp | src/components/FluidCanvas3.tsx:572-574 | touch end behaves as mouse up and releases the pointer |
| Interaction.Run | src/components/FluidCanvas3.tsx:550-606 | a run of pointer events with the splats issued; Interaction.NoSplatWithoutPress and Interaction.DragDeltasTelescope state its properties |
| Interaction.NoSplatWithoutPress | src/components/FluidCanvas3.tsx:550-606 | without a press or touch move, no event sequence splats |
| Interaction.DragDeltasTelescope | src/components/FluidCanvas3.tsx:559-570 | during a drag the splat x-deltas sum to 5 times the total displacement |
| Interaction.CorrectRadius | src/components/FluidCanvas3.tsx:510-512 | the radius is scaled by the aspect ratio below 1 and left at full size above 1 |
| Interaction.CorrectRadiusMonotone | src/components/FluidCanvas3.tsx:510-512 | a wider canvas never gets a smaller radius |
| Interaction.SplatUniforms | src/components/FluidCanvas3.tsx:514-536 | the splat point is the canvas position normalised with y flipped, the velocity colour the delta times 6000, the radius corrected |
| Interaction.SplatPointInsideIff | src/components/FluidCanvas3.tsx:519-527 | a splat lands in the unit square exactly when its position is inside the canvas |
| Legacy.UnitsDistinct | src/components/FluidCanvas.tsx:502-520 | the legacy fields use eight distinct texture units |
| Legacy.UnclampedSizeCanBeZero | src/components/FluidCanvas.tsx:499-500 | without the clamp a 1-pixel canvas gives a zero texture, where the resize-safe variant gives 2 |
| Legacy.FixedJacobiPasses | src/components/FluidCanvas.tsx:569-573 | every legacy Jacobi pass samples the unit bound once before the loop while writing the swapped write half |
| Legacy.StepPasses | src/components/FluidCanvas.tsx:535-596 | the legacy step as render passes; Legacy.StepDiffersOnlyInJacobi and Legacy.LegacyScheduleHasFeedback compare it with the resize-safe step |
| Legacy.StepDiffersOnlyInJacobi | src/components/FluidCanvas.tsx:535-596 | the legacy step has the same length, the same final buffers and the same passes as the resize-safe one, except the Jacobi passes' sampled pressure |
| Legacy.JacobiFeedbackOnOddIterations | src/components/FluidCanvas.tsx:569-573 | as written: Jacobi iteration k samples the texture it renders to exactly when k is odd |
| Legacy.LegacyScheduleHasFeedback | src/components/FluidCanvas.tsx:569-573 | as written: with the legacy units and 25 iterations the schedule has feedback (iteration 1 writes and samples unit 7) |
| Legacy.Start | src/components/FluidCanvas.tsx:80-100 | the legacy input state starts with one released pointer and an empty splat stack |
| Legacy.MouseDown | src/components/FluidCanvas.tsx:666-677 | mousedown presses the primary pointer at the offset, with zero delta, leaving other pointers alone |
| Legacy.WindowMouseMove | src/components/FluidCanvas.tsx:679-694 | the window mouse-move listener; Legacy.WindowMouseMoveRule states it |
| Legacy.WindowMouseMoveRule | src/components/FluidCanvas.tsx:679-694 | a window mouse move splats exactly when the primary pointer is down, with 5 times its movement; otherwise nothing changes |
| Legacy.CanvasMouseMove | src/components/FluidCanvas.tsx:739-742 | the canvas mouse-move listener presses the primary pointer with a new colour; Legacy.HoverSplatsWithoutPress states the consequence |
| Legacy.HoverMove | src/components/FluidCanvas.tsx:739-742 | a mouse move over the canvas runs the canvas listener, then the window listener; Legacy.HoverSplatsWithoutPress states it |
| Legacy.HoverSplatsWithoutPress | src/components/FluidCanvas.tsx:739-742 | as written: hovering over the canvas sets the pointer down, so the next move splats without any press |
| Legacy.MouseUp | src/components/FluidCanvas.tsx:696-702 | mouseup releases the primary pointer |
| Legacy.Grow | src/components/FluidCanvas.tsx:709 | growing the pointer list keeps the existing pointers and appends prototypes |
| Legacy.TouchStart | src/components/FluidCanvas.tsx:704-720 | the touch-start listener; Legacy.TouchStartRule states it |
| Legacy.TouchStartRule | src/components/FluidCanvas.tsx:704-720 | touch i presses pointer i at its page position with its identifier and the colour chosen for it; pointers beyond the touches are kept |
| Legacy.TouchMove | src/components/FluidCanvas.tsx:722-737 | the touch-move listener; Legacy.TouchMoveNeverSplats states it |
| Legacy.TouchMoveNeverSplats | src/components/FluidCanvas.tsx:722-737 | as written: a touch move records 10 times the movement but issues no splat, and throws when there are more touches than pointers |
| Legacy.Handle | src/components/FluidCanvas.tsx:661-742 | no handler touches the splat stack; only a window mouse move splats |
| Legacy.Run | src/components/FluidCanvas.tsx:661-742 | a run of events keeps at least the primary pointer; Legacy.SplatStackStaysEmpty states what it never does |
| Legacy.SplatStackStaysEmpty | src/components/FluidCanvas.tsx:80-82 | nothing ever pushes onto the splat stack |
| Legacy.UpdateFrame | src/components/FluidCanvas.tsx:640-651 | a legacy frame always steps with dt 0.016 unless paused, and pops splats only from a non-empty stack |
| Legacy.NoIdleSplats | src/components/FluidCanvas.tsx:643-648 | as written: the frame loop's splat-stack branch never fires |
| Legacy.Mount | src/components/FluidCanvas.tsx:498-531 | at mount the texture size is the unclamped half of the canvas |
| Legacy.OnResize | src/components/FluidCanvas.tsx:36-38 | the legacy resize observer resizes the canvas but keeps the textures |
| Legacy.ResizeLeavesStaleFields | src/components/FluidCanvas.tsx:36-38 | as written: after resizing 800x600 to 1600x1200 the textures stay 400x300 instead of 800x600 |
| Legacy.CorrectRadius | src/components/FluidCanvas.tsx:634-637 | the legacy radius correction agrees with the resize-safe one |
| Text.LowerAscii | supabase/functions/blog-api/index.ts:63-68 | lower-casing maps each ASCII capital to its small letter and leaves every other character |
| Text.TrimStart | supabase/functions/blog-api/index.ts:30-48 | the result is a suffix, what was dropped is white space, and it does not start with white space |
| Text.TrimEnd | supabase/functions/blog-api/index.ts:30-48 | the result is a prefix, what was dropped is white space, and it does not end with white space |
| Text.Trim | supabase/functions/blog-api/index.ts:33-48 | JS `trim`: white space dropped at both ends; Text.TrimIsInfix and Text.TrimEmptyIffAllSpace state it |
| Text.TrimEmptyIffAllSpace | supabase/functions/blog-api/index.ts:33-39 | trimming gives the empty string exactly for an all-white-space string |
| Text.TrimIsInfix | supabase/functions/blog-api/index.ts:42-48 | the trimmed string is a slice of the input with no white space at either end |
| Text.Take | supabase/functions/blog-api/index.ts:42-48 | `slice(0, n)` is the prefix of length min(n, length) |
| Text.PadStart | src/components/FrameSequencePlayer.tsx:31 | `padStart` keeps the string as the suffix and fills the front with the pad character up to the length |
| Text.NatToString | supabase/functions/blog-image-upload/index.ts:115-117 | a number's decimal text is non-empty digits without a leading zero |
| Text.ParseNatToString | supabase/functions/blog-image-upload/index.ts:115-117 | decimal text reads back as the number |
| Text.ZeroPadKeepsValue | src/components/FrameSequencePlayer.tsx:31 | zero padding keeps the number the digits denote |
| Slug.Collapse | supabase/functions/blog-api/index.ts:63-68 | the collapsed text ends in a dash exactly when the input ends outside `[a-z0-9]` |
| Slug.Words | supabase/functions/blog-api/index.ts:63-68 | the reference: the maximal runs of `[a-z0-9]`, each non-empty |
| Slug.WordsEmptyIff | supabase/functions/blog-api/index.ts:63-68 | there are no words exactly when the text has no letter or digit |
| Slug.JoinIsSlug | supabase/functions/blog-api/index.ts:63-68 | joining words with single dashes gives a well-formed slug |
| Slug.CollapseIsJoin | supabase/functions/blog-api/index.ts:66 | collapsing is the joined words, with one dash before if the text starts outside `[a-z0-9]` and one after if it ends outside |
| Slug.StripBoundaryDashes | supabase/functions/blog-api/index.ts:67 | stripping removes exactly those boundary dashes |
| Slug.CreateSlug | supabase/functions/blog-api/index.ts:63-68 | `createSlug` as written, by its two replacements; Slug.SlugIsJoinedWords, Slug.SlugIsSlug and Slug.SlugEmptyIff state its meaning |
| Slug.SlugIsJoinedWords | supabase/functions/blog-api/index.ts:63-68 | `createSlug` is the lower-cased title's words joined by single dashes |
| Slug.SlugIsSlug | supabase/functions/blog-api/index.ts:63-68 | a slug has only `[a-z0-9-]`, no dash at either end and no double dash |
| Slug.SlugEmptyIff | supabase/functions/blog-api/index.ts:63-68 | a slug is empty exactly when the title has no ASCII letter or digit |
| Slug.WordsOfJoin | supabase/functions/blog-api/index.ts:63-68 | the words of joined words are those words (join's inverse) |
| Slug.SlugIdempotent | supabase/functions/blog-api/index.ts:63-68 | slugging a slug changes nothing |
| RateLimit.Check | supabase/functions/blog-api/index.ts:13-28 | a request is allowed exactly when its IP's window expired or its count is below the limit; an expired window restarts at count 1, an allowed one increments, a refused one changes nothing, other IPs are untouched |
| RateLimit.ActiveWindowAllows | supabase/functions/blog-api/index.ts:13-28 | within one window exactly the remaining quota is granted and the window end does not move |
| RateLimit.Run | supabase/functions/blog-api/index.ts:13-28 | a run of requests from one IP allows at most one per request |
| RateLimit.FreshWindowAllowsAtMostMax | supabase/functions/blog-api/index.ts:17-24 | from a fresh window at most `max` requests (and at least one) are allowed before it ends |
| RateLimit.WindowBoundaryIsStrict | supabase/functions/blog-api/index.ts:17 | a request exactly at the reset time still belongs to the full window; one a millisecond later is allowed |
| RateLimit.RunIsolatesIps | supabase/functions/blog-api/index.ts:13-28 | one IP's requests never change another IP's record |
| RateLimit.ConfiguredLimits | supabase/functions/blog-image-upload/index.ts:13-28 | the blog API allows 10 and the upload function 20 requests per minute |
| Edge.ClientIp | supabase/functions/blog-api/index.ts:71 | the client key is the forwarded-for header when non-empty, else `unknown` |
| Edge.Authorised | supabase/functions/blog-api/index.ts:99-112 | the bearer-token test; Edge.AuthorisedIff states which headers pass |
| Edge.AuthorisedIff | supabase/functions/blog-api/index.ts:99-112 | a request is authorised exactly when a token is configured and the header is `Bearer ` followed by it |
| Edge.NoTokenRefusesAll | supabase/functions/blog-api/index.ts:106-112 | with no token configured every request is refused |
| BlogApi.OrNull | supabase/functions/blog-api/index.ts:233-236 | `x \|\| null` keeps a truthy value and gives null for a falsy one |
| BlogApi.OrFalse | supabase/functions/blog-api/index.ts:237 | `x ?? false` is false exactly for undefined, null or false, and keeps every other value |
| BlogApi.Errors | supabase/functions/blog-api/index.ts:33-39 | a title error exactly when the title is not a non-blank string, likewise for content, title first |
| BlogApi.Sanitise | supabase/functions/blog-api/index.ts:42-48 | a string title is trimmed and cut to 200, a non-empty string excerpt to 500; nothing else changes |
| BlogApi.ValidateInput | supabase/functions/blog-api/index.ts:30-51 | an input is valid exactly when title and content are non-blank strings, and a valid input stays non-blank after sanitising |
| BlogApi.BlankCheck | supabase/functions/blog-api/index.ts:33-39 | the source's falsy, non-string or blank test is the negation of a non-blank string |
| BlogApi.SanitisingKeepsVerdict | supabase/functions/blog-api/index.ts:30-51 | validating the sanitised payload again gives the same errors |
| BlogApi.SanitisedTitleBounds | supabase/functions/blog-api/index.ts:42-48 | the sanitised title has at most 200 characters and is the trimmed title when that fits |
| BlogApi.ResolveCategory | supabase/functions/blog-api/index.ts:155-189 | no category when falsy, the existing id when found, else a new row named after it with its slug; a failure exactly when a new row is needed and cannot be made |
| BlogApi.ResolveAuthor | supabase/functions/blog-api/index.ts:192-226 | likewise for authors, the new author's e-mail being the name's slug at the site domain |
| BlogApi.NewAuthorEmail | supabase/functions/blog-api/index.ts:209 | a new author's e-mail local part is a well-formed slug of the name |
| BlogApi.PostRecord | supabase/functions/blog-api/index.ts:229-240 | the post row: the slug of the title, a falsy excerpt or image as null, `published` defaulting to false, `published_at` set exactly when published is truthy |
| BlogApi.CreatePost | supabase/functions/blog-api/index.ts:115-289 | 400 exactly for validation errors, 409 exactly for a taken slug, 500 for an unreadable body or a failed insert, otherwise 201 with the sanitised post |
| BlogApi.Serve | supabase/functions/blog-api/index.ts:73-112 | 200 for OPTIONS, 405 for other non-POST verbs; a POST is counted by the limiter first, 429 when refused, 401 when not authorised, then created |
| BlogApi.CreatedOnlyWhenAdmitted | supabase/functions/blog-api/index.ts:73-152 | a 201 implies a POST that passed the limiter and the token check with a non-blank title and content |
| BlogApi.CreatedPostShape | supabase/functions/blog-api/index.ts:229-278 | a created post has the trimmed non-blank title cut to 200, a well-formed fresh slug, the content as sent, and `published_at` exactly when published |
| BlogApi.UnauthorisedPostsUseQuota | supabase/functions/blog-api/index.ts:86-112 | an unauthorised POST gets 401 or 429 and uses up one request of its IP's window |
| BlogApi.ReplayIsConflict | supabase/functions/blog-api/index.ts:135-152 | sending a created post again gives a conflict (or the rate limit) |
| UploadNames.LastSegment | supabase/functions/blog-image-upload/index.ts:116 | `split('.').pop()` is the dot-free suffix after the last dot, or the whole name |
| UploadNames.Extension | supabase/functions/blog-image-upload/index.ts:116 | the extension is that segment, or `jpg` when it is empty; never empty and never dotted |
| UploadNames.LastSegmentAfterDot | supabase/functions/blog-image-upload/index.ts:116 | the segment after a dot and a dot-free extension is that extension |
| UploadNames.LastSegmentNoDot | supabase/functions/blog-image-upload/index.ts:116 | a dot-free name is its own last segment |
| UploadNames.ExtensionOfDottedName | supabase/functions/blog-image-upload/index.ts:116 | a name ending in `.ext` has extension ext, or `jpg` for a trailing dot |
| UploadNames.FolderOrDefault | supabase/functions/blog-image-upload/index.ts:82 | an empty or missing folder falls back to `content` |
| UploadNames.Filename | supabase/functions/blog-image-upload/index.ts:115-117 | the stored name scheme; UploadNames.FilenameExtension and UploadNames.FilenamePrefix state it |
| UploadNames.FilenameExtension | supabase/functions/blog-image-upload/index.ts:115-117 | a stored name has the same extension as the uploaded file |
| UploadNames.FilenamePrefix | supabase/functions/blog-image-upload/index.ts:115-117 | a stored name starts with the folder and a slash, followed by the timestamp's decimal text |
| ImageUpload.CheckFile | supabase/functions/blog-image-upload/index.ts:84-112 | rejections in order: no file, a type outside the five allowed, then more than 5 MB; otherwise accepted |
| ImageUpload.SizeBoundary | supabase/functions/blog-image-upload/index.ts:105-112 | exactly 5242880 bytes are accepted, one more is too large, and type is checked before size |
| ImageUpload.AllowedTypesExactly | supabase/functions/blog-image-upload/index.ts:94-102 | the allowed types are exactly jpeg, jpg, png, webp and gif |
| ImageUpload.Serve | supabase/functions/blog-image-upload/index.ts:33-166 | 200/405 by verb; a POST passes the limiter (429), the token (401), the file checks (400 with the rejection), and is stored (201) exactly when the upload succeeds, with its path, public URL, name, size and type |
| Storage.BlogImageUrl | src/lib/storage.ts:6-20 | empty for an empty path, the path itself when it starts with `http`, else the bucket's public URL |
| Storage.BlogImageUrlIdempotent | src/lib/storage.ts:6-20 | resolving a resolved URL changes nothing when public URLs start with `http` |
| Storage.HttpPrefixPassesThrough | src/lib/storage.ts:10-12 | any path starting with `http`, even `httpfoo.png`, is passed through |
| Storage.FolderName | src/lib/storage.ts:25-27 | the folder names; `content` exactly for the default |
| Storage.UploadBlogImage | src/lib/storage.ts:25-59 | null exactly when the client errs or the generated path is already stored (`upsert: false`); otherwise the generated path and its resolved URL, and the bucket gains that path; a failure leaves the bucket alone |
| Storage.UploadNameScheme | src/lib/storage.ts:31-33 | the client names files as the edge function does: folder prefix and original extension |
| Storage.DeleteBlogImage | src/lib/storage.ts:64-80 | true exactly when the client reports no error; on success the path is gone and nothing else is removed, on failure the bucket is unchanged |
| Storage.UploadThenDeleteRestores | src/lib/storage.ts:25-80 | deleting the path a successful upload returned restores the bucket as it was |
| Storage.DeleteTwiceIsDeleteOnce | src/lib/storage.ts:64-80 | removing a path that is already gone succeeds and changes nothing |
| FramePlayer.FramePath | src/components/FrameSequencePlayer.tsx:30-34 | a frame path is the base name, the padded number and `.png` |
| FramePlayer.FrameUrl | src/components/FrameSequencePlayer.tsx:30-34 | the frame URL resolves the path through the public-URL helper |
| FramePlayer.FramePathRoundTrip | src/components/FrameSequencePlayer.tsx:30-34 | the number field of a frame path is digits that read back as the frame number, for every number |
| FramePlayer.FramePathInjective | src/components/FrameSequencePlayer.tsx:30-34 | different frames have different paths |
| FramePlayer.LoadPlan | src/components/FrameSequencePlayer.tsx:37-93 | the load order; FramePlayer.LoadPlanPartitions states it covers every frame once, in order |
| FramePlayer.LaterBatchesCover | src/components/FrameSequencePlayer.tsx:84-86 | the later batches of 10 load the remaining indices in order |
| FramePlayer.LoadPlanPartitions | src/components/FrameSequencePlayer.tsx:37-93 | the initial batch and later batches load every index 0..total-1 exactly once, in order |
| FramePlayer.FileNumbers | src/components/FrameSequencePlayer.tsx:70 | the files loaded are numbers 1..total, in order |
| FramePlayer.Complete | src/components/FrameSequencePlayer.tsx:53-68 | image completions advancing the loading gate; FramePlayer.CompleteClearsAtThreshold and FramePlayer.CompleteCounts state it |
| FramePlayer.CompleteClearsAtThreshold | src/components/FrameSequencePlayer.tsx:53-68 | the loaded count is the number of successes, and loading ends exactly when it reaches the threshold |
| FramePlayer.CompleteCounts | src/components/FrameSequencePlayer.tsx:53-68 | once loading ended, later results only count |
| FramePlayer.ShortSequenceNeverStarts | src/components/FrameSequencePlayer.tsx:59-61 | as written: with fewer than 30 frames loading never ends, even when every frame loads |
| FramePlayer.GateThreshold | src/components/FrameSequencePlayer.tsx:231 | the corrected gate is `min(30, totalFrames)` |
| FramePlayer.CorrectedGateOpens | src/components/FrameSequencePlayer.tsx:59-61 | corrected: loading ends exactly when the threshold is reached, and always once every frame of the sequence loaded |
| FramePlayer.FrameIndex | src/components/FrameSequencePlayer.tsx:140-143 | scroll progress to frame; FramePlayer.FrameIndexBounds, FramePlayer.FrameIndexMonotone and FramePlayer.FrameIndexAtEnd state it |
| FramePlayer.FrameIndexBounds | src/components/FrameSequencePlayer.tsx:140-143 | the mapped frame lies in 0..total-1, and progress 1 shows the last frame |
| FramePlayer.FrameIndexMonotone | src/components/FrameSequencePlayer.tsx:140-143 | more progress never maps to an earlier frame |
| FramePlayer.FrameIndexAtEnd | src/components/FrameSequencePlayer.tsx:140-143 | progress at or past 1 maps to the last frame |
| FramePlayer.OnUpdate | src/components/FrameSequencePlayer.tsx:124-136 | the scroll listener: cancel, latch, reschedule; FramePlayer.StepDraws states it |
| FramePlayer.Tick | src/components/FrameSequencePlayer.tsx:138-149 | the scheduled animation frame; FramePlayer.StepDraws states it |
| FramePlayer.Run | src/components/FrameSequencePlayer.tsx:124-150 | a run of scroll updates and animation frames with the frames drawn; FramePlayer.LatchHolds, FramePlayer.LatchedDrawsOnlyLast and FramePlayer.LatchIsPermanent state its properties |
| FramePlayer.StepDraws | src/components/FrameSequencePlayer.tsx:124-150 | a scroll update never draws: it records the progress, latches exactly at 1, and leaves a frame scheduled exactly when not latched below 1, so a latched update below 1 cancels a scheduled frame; an animation frame draws exactly when one is scheduled and the latest progress maps to a new, loaded frame, which becomes current, and afterwards nothing is scheduled |
| FramePlayer.ScrollThenFrameShows | src/components/FrameSequencePlayer.tsx:124-150 | a scroll that is not ignored, followed by its animation frame, shows the frame its progress maps to once that frame has loaded |
| FramePlayer.LatchHolds | src/components/FrameSequencePlayer.tsx:130-136 | latched with nothing scheduled, scroll updates below 1 and animation frames draw nothing and keep the canvas |
| FramePlayer.LatchedDrawsOnlyLast | src/components/FrameSequencePlayer.tsx:124-150 | once latched, every frame drawn is the last frame |
| FramePlayer.LatchIsPermanent | src/components/FrameSequencePlayer.tsx:130-136 | once progress reaches 1 the latch stays set |
| FramePlayer.ScrollBackBeforeFrameSkipsLast | src/components/FrameSequencePlayer.tsx:124-150 | reaching 1 and scrolling back to 0.98 before the animation frame runs cancels it: the last frame is never drawn |
| FramePlayer.Resize | src/components/FrameSequencePlayer.tsx:168-199 | the CSS size is the container width capped at 1280 (exactly 1280 for wider containers), at 16:9; the backing store is non-negative |
| FramePlayer.ResizeBacking | src/components/FrameSequencePlayer.tsx:175-188 | the backing store is the CSS size times the pixel ratio truncated to whole pixels; a ratio of 0 falls back to 1 |
| KeyMetrics.KeepNumeric | src/components/KeyMetrics.tsx:132 | every character other than a digit or a dot is removed: the result holds only digits and dots, and a string with none of them filters to empty |
| KeyMetrics.KeepNumericKeepsNumeric | src/components/KeyMetrics.tsx:132 | a string of digits and dots is kept whole |
| KeyMetrics.KeepNumericIdempotent | src/components/KeyMetrics.tsx:132 | filtering twice equals filtering once |
| KeyMetrics.LeadingDigits | src/components/KeyMetrics.tsx:132 | the longest digit prefix |
| KeyMetrics.ParseFloat | src/components/KeyMetrics.tsx:132 | `parseFloat` fails exactly when the text starts with neither a digit nor a dot and a digit; otherwise it is non-negative |
| KeyMetrics.ParseDecimal | src/components/KeyMetrics.tsx:132 | `w.f` parses as w plus f's digits over the matching power of ten |
| KeyMetrics.ParseWhole | src/components/KeyMetrics.tsx:132 | a number's decimal text parses back to it |
| KeyMetrics.Progress | src/components/KeyMetrics.tsx:99 | progress lies in [0, 1] and is 1 exactly when the 2000 ms duration has passed |
| KeyMetrics.Count | src/components/KeyMetrics.tsx:100 | the count at a timestamp; KeyMetrics.CountBounds and KeyMetrics.CountMonotone state it |
| KeyMetrics.CountBounds | src/components/KeyMetrics.tsx:100 | the count lies in [0, floor(end)] and is floor(end) once the duration has passed |
| KeyMetrics.CountMonotone | src/components/KeyMetrics.tsx:100 | a later frame never shows a smaller count |
| KeyMetrics.Animate | src/components/KeyMetrics.tsx:90-111 | the frame loop sets at most one count per frame |
| KeyMetrics.Counter | src/components/KeyMetrics.tsx:94 | nothing is counted before the metric is visible |
| KeyMetrics.AnimateCounts | src/components/KeyMetrics.tsx:96-104 | every frame sets the count for its timestamp, frames stop only after one a full duration in |
| KeyMetrics.AnimateShape | src/components/KeyMetrics.tsx:96-104 | the counts are bounded, nondecreasing, and end at floor(end) when the animation stops |
| KeyMetrics.NumericValue | src/components/KeyMetrics.tsx:132 | the metric's number: `parseFloat` of its digits and dots; KeyMetrics.DecimalMetricValues states it for the decimal metrics |
| KeyMetrics.DecimalMetricValues | src/components/KeyMetrics.tsx:30-132 | "0.80%" parses to 0.8 and "2.1" to 2.1 |
| KeyMetrics.KeepNumericAppend | src/components/KeyMetrics.tsx:132 | filtering distributes over concatenation |
| KeyMetrics.Displayed | src/components/KeyMetrics.tsx:164-166 | the number shown; KeyMetrics.DecimalMetricsAsWritten and KeyMetrics.CorrectedDisplayReachesValue state it |
| KeyMetrics.DecimalMetricsAsWritten | src/components/KeyMetrics.tsx:164-166 | as written: "0.80%" displays 0.00 throughout and "2.1" at most 0.02 |
| KeyMetrics.CorrectedDisplayReachesValue | src/components/KeyMetrics.tsx:164-166 | corrected: a decimal metric never displays above its value and displays it exactly once the duration has passed |
| Theme.Parse | src/components/ThemeProvider.tsx:3-14 | a string read back as a theme is that theme's name |
| Theme.ParseName | src/components/ThemeProvider.tsx:3-14 | every theme's name reads back as that theme |
| Theme.NameInjective | src/components/ThemeProvider.tsx:3-14 | different themes have different names |
| Theme.ThemesListExact | src/components/ThemeProvider.tsx:31-87 | the switcher lists eleven entries, each theme exactly once |
| Theme.ListedIffParses | src/components/ThemeProvider.tsx:91 | a string is in the list exactly when it names a theme |
| Theme.LoadSaved | src/components/ThemeProvider.tsx:89-94 | a stored, non-empty, listed value is adopted; anything else keeps the current theme |
| Theme.EmptyNeverListed | src/components/ThemeProvider.tsx:91 | the empty string is never listed |
| Theme.Persist | src/components/ThemeProvider.tsx:96-99 | the attribute and the `theme` key carry the current theme; other keys are untouched |
| Theme.SetTheme | src/components/ThemeProvider.tsx:96-99 | switching makes the chosen theme current and published |
| Theme.Mount | src/components/ThemeProvider.tsx:29-99 | mount settles on the stored theme when usable, else the default, and publishes it |
| Theme.MountDefaults | src/components/ThemeProvider.tsx:29 | with nothing usable stored the theme is `healthcare-professional` |
| Theme.Switches | src/components/ThemeProvider.tsx:96-99 | after a run of switches the last choice is current and published |
| Theme.PersistThenMount | src/components/ThemeProvider.tsx:89-99 | the theme last persisted is the one the next mount adopts |

## Left out

- GL context creation, format probing, shader compilation and uniform plumbing are not modelled. Framebuffers are pairs of handles with a size.
- The splat's Gaussian falloff, vorticity confinement, semi-Lagrangian advection and hardware filtering are left out. They are non-linear or filtered samples. Those passes appear only in the pass schedule.
- Texel values are reals. Half-float precision and rounding are not modelled.
- JS doubles outside the shaders are exact reals as well: `KeyMetrics.Progress` and `KeyMetrics.Count`, `FramePlayer.FrameIndex` and `FramePlayer.Resize`, and `Lifecycle.Frame`'s `dt`. Double rounding could move a floor by one near an integer (for instance `progress * (totalFrames - 1)` just below a whole number), which the model does not show.
- `requestAnimationFrame`, timers, the `ResizeObserver` and the `IntersectionObserver` fire events whose order is given by the caller. Their asynchrony is not modelled.
- The multiple random splats at start use `Math.random()` and are not modelled. The random colours of the legacy touch pointers are a parameter.
- The legacy canvas width is assigned from the unfloored CSS size; the canvas truncates it. The model applies the same floor as the resize-safe variant.
- The edge functions' CORS headers and JSON response bodies are not modelled; only status codes and the records written are.
- The exception branch of `blog-api` is modelled only as an unreadable body (500). Errors thrown by the database client are modelled as failed inserts.
- A `.single()` lookup that finds several rows is not modelled. A lookup either finds one id or none.
- Dates are integer milliseconds. `toISOString()` text is not modelled.
- `Text.LowerAscii` lower-cases ASCII only. Unicode case mapping is not modelled, so slugs of non-ASCII titles may differ.
- `Text.TrimStart`, `Text.TrimEnd` and `Text.Trim` use ASCII white space plus U+00A0, U+FEFF, U+2028 and U+2029. JS `trim` also removes the other Unicode space separators, which are not modelled.
- `Text.Take` counts characters as Unicode scalars, while JS `slice` counts UTF-16 code units. A title or excerpt with characters outside the Basic Multilingual Plane keeps more of its text in the model than in the source, which can also split a surrogate pair.
- `BlogApi.Sanitise` inherits that difference: its 200- and 500-character caps (index.ts:43, 47) are in scalars, not UTF-16 code units.
- `BlogApi.CreatePost` uses one `now` for the rate limiter and for `published_at`. The source reads the clock twice, with `Date.now()` at index.ts:17 and `new Date()` at index.ts:238, so the two may differ by the request's duration.
- A form `folder` value that is a file rather than a string is not modelled.
- The upload's rate-limit clock and file-name timestamp are the same parameter. The source reads the clock twice.
- `Storage.UploadBlogImage` takes the returned `data.path` to be the requested file name, and the public-URL lookup is a parameter standing for the storage client.
- `Storage.UploadBlogImage` and `Storage.DeleteBlogImage` take client errors other than an occupied path (network, permissions) as a parameter.
- `FramePlayer.FrameUrl` ignores the folder argument `'frames'`, as `getBlogImageUrl` does.
- `FramePlayer.Resize` requires a non-negative width and pixel ratio. A negative layout width cannot occur in a browser.
- `FramePlayer.Run` takes the interleaving of scroll updates and animation frames as input. The browser's scheduling and the scroll library's smoothing (`scrub: 1`) are not modelled, and a scroll update's progress is taken to be what the scheduled frame later reads.
- The GSAP scroll trigger is not modelled. Its progress is an input in [0, 1].
- `KeyMetrics.ParseFloat` covers `digits[.digits]` and `.digits` prefixes. Signs, exponents, `Infinity` and NaN propagation are not modelled, and NaN is `None`.
- `toFixed(2)` and `toLocaleString()` text formatting is not modelled. The displayed number is.
- `KeyMetrics.Animate` treats a start time of 0 as unset, as the source's `if (!startTime)` does.
- Presentational components, routing, pages and the admin UI are outside the core.

## Findings

| source | as written | input that shows it | evidently intended | confidence | as-written member | corrected member |
|---|---|---|---|---|---|---|
| src/components/FluidCanvas.tsx:569-573 | the pressure texture unit is bound once before the Jacobi loop, while the loop swaps which texture is written | any step with 25 iterations: iteration 1 renders into unit 7, which it also samples | each iteration samples the pressure the previous one wrote, as the resize-safe variant does | not executed | Legacy.JacobiFeedbackOnOddIterations | Schedule.StepFeedbackFree |
| src/components/FluidCanvas.tsx:36-38 | the resize observer resizes the canvas but never reallocates the framebuffers | resize 800x600 to 1600x1200: textures stay 400x300 | reallocate at the new size | not executed | Legacy.ResizeLeavesStaleFields | Lifecycle.ResizeReallocatesIffChanged |
| src/components/FluidCanvas.tsx:739-742 | hovering the canvas sets the pointer down | any mouse move over the canvas without a button press splats | splat only while the button is held | not executed | Legacy.HoverSplatsWithoutPress | Interaction.MouseMoveSplatsIffDown |
| src/components/FluidCanvas.tsx:722-737 | touch moves update the pointers but never splat, and nothing pushes the splat stack | a touch drag produces no splat | a touch move splats like a drag | not executed | Legacy.TouchMoveNeverSplats | Interaction.TouchMoveAlwaysSplats |
| src/components/FluidCanvas3.tsx:321-324 | the divergence shader writes the x and y parts to separate channels and the pressure pass reads only x | velocity (0, j) on a grid of height 3: full divergence 2, pressure as for a still field | the full divergence in the channel the pressure pass reads | not executed | Stencils.VerticalFlowInvisibleToPressure | Stencils.CorrectedDivergenceReachesPressure |
| src/components/FrameSequencePlayer.tsx:59-61 | loading ends when exactly 30 frames have loaded | a sequence of 20 frames that all load: the player stays in its loading state | end at `min(30, totalFrames)`, as the indicator at line 231 counts | not executed | FramePlayer.ShortSequenceNeverStarts | FramePlayer.CorrectedGateOpens |
| src/components/KeyMetrics.tsx:164-166 | decimal metrics count to `floor(value)` and display that divided by 100 | "0.80%" shows 0.00; "2.1" ends at 0.02 | count in hundredths so the display reaches the value | not executed | KeyMetrics.DecimalMetricsAsWritten | KeyMetrics.CorrectedDisplayReachesValue |
