# termdemo in Dafny

termdemo is a terminal demoscene player. A fixed playlist of scenes, each wrapping one
visual effect, renders into an RGB pixel framebuffer. That framebuffer is drawn into the
terminal as half-block characters, two pixels per cell. A sequencer advances through the
playlist, either automatically (AutoPlay) or under keyboard control (Interactive). It blends
from one scene to the next with one of five transitions: cut, fade through black, dissolve,
wipe left or wipe down.

This project is a pure functional model of that core, with contracts and lemmas about it.

- **Engine**
  - `Pixels` holds the shared pixel type and the integer casts. Rust's `as u8`, `as u32` and `as i32` truncations are written out.
  - `Effects` is the abstract `Effect` interface: a state type together with a record of its operations and the trait's default methods.
  - `Scenes` holds the scene builders.
  - `Transitions` implements `lerp_color` and `apply_transition`.
  - `Sequencers` is the playlist state machine.
  - `Framebuffers` covers the framebuffer and the half-block pixel-pair selection.
  - `Input` maps keys to actions.
  - `Apps` is the action dispatch and parameter adjustment.
  - `Driver` covers the playlist configuration and the guards of the main loop.
- **Effects with discrete cores**
  - `Grids`, `Ticks` and `Lcg` are helpers: toroidal indexing, the capped tick accumulator and the 64-bit LCG.
  - `GameOfLife` is Conway's life with ageing cells.
  - `BriansBrain` is the three-state automaton.
  - `LSystems` covers string rewriting, the bracket-depth scan and the turtle stack.
  - `Lissajous` is the trail ring buffer.
  - `PixelSort` sorts runs of bright pixels.
  - `Sierpinski` is the chaos game.
  - `Pools` holds the particle-pool idioms.
  - `Fireworks` and `Fountain` are the particle effects.
  - `Fire` covers the palette and heat propagation.
  - `Matrix` is the column lifecycle of the digital rain.

Time, progress and colour arithmetic use `real`. A float-to-integer cast is modelled as
truncation toward zero. Every random draw the source takes from `thread_rng` or a seeded
`StdRng` is a parameter of the model, usually a function from a draw index to a value.
Where a contract depends on a draw's range, as for the matrix columns, the range the source
asks for is a precondition. The other draws, among them those of the fire, the fountain, the Game of Life seed and
the fireworks, are left unconstrained, because no stated property depends on their range. Trigonometric inputs are parameters too:
the vertex positions of the chaos game and the plasma image under the pixel sort. Terminal
events arrive as an `Option<Event>` parameter, and the frame time `dt` is an input.

## Model

| member | source | states |
|---|---|---|
| Sequencers.New | src/sequencer.rs:21-36 | a new sequencer is valid, starts at scene 0 with both clocks at zero, Playing, with empty snapshot buffers, no dimensions and no effect initialised |
| Sequencers.Reinit | src/sequencer.rs:44-46 | re-initialising scene `k` calls `init(width, height)` on that scene's effect only and logs exactly that one call |
| Sequencers.Init | src/sequencer.rs:38-47 | `init` stores the dimensions, makes both snapshot buffers `width*height` long keeping their old prefix and padding with black, and initialises only the current scene (none when the playlist is empty) |
| Sequencers.Resize | src/sequencer.rs:49-58 | `resize` behaves exactly like `init` |
| Sequencers.TogglePause | src/sequencer.rs:71-73 | only the paused flag flips |
| Sequencers.StartTransition | src/sequencer.rs:114-125 | a scene change sets transitioning with zero elapsed time, makes `k` current with scene time 0, initialises only scene `k`, and keeps the global clock and the previous-frame snapshot |
| Sequencers.GotoScene | src/sequencer.rs:75-80 | an out-of-range or already-current target changes nothing; any other target starts a transition to it |
| Sequencers.NextScene | src/sequencer.rs:82-96 | no-op on an empty playlist; steps forward by one; at the last scene wraps to 0 exactly when looping and is otherwise a no-op |
| Sequencers.PrevScene | src/sequencer.rs:98-112 | no-op on an empty playlist; steps back by one; at scene 0 wraps to the last scene exactly when looping and is otherwise a no-op |
| Sequencers.Progress | src/sequencer.rs:141 | transition progress never exceeds 1, is 1 once the elapsed time reaches the duration, and below it is the elapsed fraction of the duration |
| Sequencers.Update | src/sequencer.rs:127-133 | a tick keeps the sequencer valid and the output length; while paused or with no scenes it changes nothing; otherwise the global clock advances by exactly `dt` |
| Sequencers.PlayingTick | src/sequencer.rs:164-180 | on a Playing tick the current effect draws the output, the snapshot becomes an exact copy of it, and an expired scene behaves exactly like `next_scene` while an unexpired one stays put with its clock advanced |
| Sequencers.TransitioningTick | src/sequencer.rs:137-163 | on a Transitioning tick the target draws into the next-frame buffer, the output is the blend of snapshot and target at the clamped progress, the snapshot is untouched, and transitioning ends exactly when progress reaches 1 |
| Sequencers.TransitionEndsOnTarget | src/sequencer.rs:151-163 | the tick that completes a transition shows the target effect's own frame and leaves the Transitioning state |
| Sequencers.SnapshotFeedsNextTransition | src/sequencer.rs:170-172 | the frame shown on a Playing tick is the snapshot that the next scene change blends away from |
| Sequencers.NextSceneRestartsSingleScene | src/sequencer.rs:86-95 | with a single looping scene, `next_scene` starts a transition back into the same scene and re-initialises it |
| Sequencers.CurrentEffect | src/sequencer.rs:183-185 | the current effect exists exactly when `current` indexes the playlist, and is that scene's effect |
| Sequencers.WithCurrentEffect | src/sequencer.rs:183-185 | writing through the current-effect handle replaces only the current scene's effect |
| Transitions.Mix | src/transition.rs:13-16 | one interpolated channel lies between its two endpoint channels and equals them at `t = 0` and `t = 1` |
| Transitions.LerpColor | src/transition.rs:11-17 | after clamping `t`, every channel lies between the endpoint channels; `t <= 0` gives `a` and `t >= 1` gives `b` |
| Transitions.InterpolantBetween | src/transition.rs:13 | the real interpolant stays between its endpoints for `t` in [0,1] |
| Transitions.InterpolantMonotone | src/transition.rs:13 | the real interpolant moves towards `b` as `t` grows |
| Transitions.CastU8Monotone | src/transition.rs:16 | truncation to `u8` never reverses an order |
| Transitions.MixMonotone | src/transition.rs:13-16 | a blended channel never moves away from its target as `t` grows |
| Transitions.WipeThreshold | src/transition.rs:60 | the wiped column (row) count lies within the extent, is 0 at progress 0 and the whole extent at progress 1 |
| Transitions.WipeThresholdMonotone | src/transition.rs:60 | the wiped count never shrinks as progress grows |
| Transitions.ApplyTransition | src/transition.rs:19-29 | the output keeps its length, and pixels at or past `min(output, from, to)` keep their old values |
| Transitions.BlendStartsAtFrom | src/transition.rs:28-72 | at progress 0 or below, every kind shows the outgoing frame on every written index |
| Transitions.BlendEndsAtTo | src/transition.rs:28-72 | at progress 1 or above, every kind shows the incoming frame (WipeDown when the frame fits `width*height`) |
| Transitions.CutSwitchesAtMidpoint | src/transition.rs:32-38 | Cut shows `from` below progress 0.5 and `to` from 0.5 on |
| Transitions.FadeThroughBlack | src/transition.rs:39-53 | Fade is all black at exactly 0.5, never brighter than `from` before it and never brighter than `to` after it |
| Transitions.DissolveMonotone | src/transition.rs:54-58 | each dissolved channel lies between the endpoint channels and moves monotonically towards the target as progress grows |
| Transitions.DissolveIsPerPixelLerp | src/transition.rs:54-58 | each dissolved pixel is `lerp_color` of its own outgoing and incoming pixels at the clamped progress, independent of every other pixel |
| Transitions.WipeLeftPartition | src/transition.rs:59-65 | pixel `i` shows `to` exactly when its column `i mod width` is below `floor(width*progress)`, else `from`; a pixel once wiped stays wiped at higher progress |
| Transitions.WipeDownPartition | src/transition.rs:66-72 | pixel `i` shows `to` exactly when its row `i div width` is below `floor(height*progress)`, else `from`; a pixel once wiped stays wiped |
| Scenes.New | src/scene.rs:12-19 | a new scene plays indefinitely and is entered with a 1.5-second dissolve |
| Scenes.WithDuration | src/scene.rs:21-24 | the builder fixes the play time and changes no other field |
| Scenes.WithTransition | src/scene.rs:26-30 | the builder sets the entry blend and its length and changes no other field |
| Scenes.BuildersCommute | src/scene.rs:21-30 | the two builders give the same scene in either order |
| Effects.Update | src/effect.rs:14 | an effect's update rewrites pixel values through a borrowed slice and never changes the buffer's length |
| Effects.WithDefaults | src/effect.rs:13-19 | an effect relying on the trait defaults ignores `randomize_init`, `cleanup` and `set_param` and lists no parameters |
| Apps.New | src/app.rs:24-34 | a new app has an empty framebuffer, shows the HUD exactly in Interactive mode, selects parameter 0 and is not quitting |
| Apps.Init | src/app.rs:36-39 | the framebuffer and the sequencer receive the same dimensions, and their buffers all become `width*height` long |
| Apps.Resize | src/app.rs:41-44 | `resize` forwards the same dimensions to the framebuffer and through the sequencer's `resize` |
| Apps.AdjustParam | src/app.rs:103-115 | outside Interactive mode or with the cursor past the list nothing changes; otherwise the current effect receives `set_param(name, v)` with `v` in the parameter's range: `value + delta` when that is in range, the minimum when it falls below, the maximum when it rises above |
| Apps.HandleAction | src/app.rs:46-92 | each action does exactly what the dispatch says: quit, pause, mode toggle with its looping and HUD flags, navigation that resets the parameter cursor, HUD toggle, parameter steps of 0.05, and the saturating or capped cursor moves |
| Apps.HandleActionKeepsValid | src/app.rs:64-75 | no action ever moves `current` outside the playlist |
| Apps.HandleActionKeepsLoopingMatchesMode | src/app.rs:50-63 | every action keeps the playlist looping exactly in AutoPlay mode |
| Apps.ToggleModeTwiceRestores | src/app.rs:50-63 | two mode toggles give back the original app when its flags agree with its mode |
| Apps.ParamCursorStaysInRange | src/app.rs:80-90 | the parameter cursor stays inside a non-empty parameter list under `[` and `]` |
| Apps.DefaultParamsIgnoreParamKeys | src/app.rs:78-90 | for an effect with no parameters the parameter keys change nothing |
| Apps.Update | src/app.rs:96-101 | one app update is one sequencer tick over the framebuffer's pixels, which keep their length and dimensions |
| Framebuffers.New | src/framebuffer.rs:13-19 | a new framebuffer holds exactly `width*height` pixels, all black |
| Framebuffers.Resize | src/framebuffer.rs:21-26 | resizing sets the dimensions and the length `width*height`, keeps the old prefix and pads with black |
| Framebuffers.Clear | src/framebuffer.rs:29-31 | clearing blackens every pixel and keeps the dimensions and the length |
| Framebuffers.ResizeSameIsIdentity | src/framebuffer.rs:21-26 | resizing a consistent buffer to its own dimensions changes nothing |
| Framebuffers.PixelAt | src/framebuffer.rs:50-62 | a cell half shows the stored pixel of its row and column, and black for a row at or past the height or an index past the buffer |
| Framebuffers.WidthU16 | src/framebuffer.rs:49 | the column bound is the width truncated to 16 bits |
| Framebuffers.Render | src/framebuffer.rs:39-73 | nothing is drawn exactly when the framebuffer has no width or height; otherwise every area row is drawn for `min(area width, width)` columns, cell `(col, row)` pairing pixel rows `2*row` and `2*row+1` |
| Framebuffers.PixelAtInside | src/framebuffer.rs:50-53 | inside a consistent buffer the pixel shown is the stored one |
| Framebuffers.RenderShowsEveryPixel | src/framebuffer.rs:45-62 | when the area is large enough, every pixel appears in exactly the cell and half its coordinates select |
| Framebuffers.RenderBelowIsBlack | src/framebuffer.rs:50-62 | a terminal row wholly below the framebuffer is drawn black on black |
| Input.KeyAction | src/input.rs:36-38 | digit keys '1' to '9' select scenes 0 to 8 |
| Input.PollAction | src/input.rs:20-44 | no event, a non-key event or a non-press key gives no action, and any scene selected is below 9 |
| Input.PollActionMatchesBindings | src/input.rs:24-39 | a pressed key gives a given action exactly when that pair is in the binding table, or for a scene jump exactly when the key is a digit '1' to '9' naming that scene |
| Input.UnboundKeysDoNothing | src/input.rs:36-39 | every key that is neither bound nor a digit '1' to '9' (including '0') gives no action |
| Input.DigitKeysInjective | src/input.rs:36-38 | distinct digit keys select distinct scenes |
| Driver.Playlist | src/main.rs:110-315 | the playlist has one scene per line of the table, each with its play time and entry blend |
| Driver.PlaylistWellTimed | src/main.rs:110-315 | there are 64 scenes, each with a fixed play time between 8 and 16 seconds and a blend time of 1.5 or 2.0 seconds |
| Driver.PlaylistEnds | src/main.rs:113-115 | the show opens on the plasma and closes on the slower plasma variant |
| Driver.Start | src/main.rs:317-331 | start-up loops exactly in AutoPlay, shows the HUD exactly in Interactive mode, sizes the framebuffer to the columns and twice the rows, and initialises only scene 0 |
| Driver.ResizeStep | src/main.rs:343-349 | the app is resized only to a non-empty size differing from the current one, and stays coupled either way |
| Driver.HandleInput | src/main.rs:338 | handling input is the dispatch of the polled action, and it keeps the app coupled and looping exactly in AutoPlay |
| Driver.Tick | src/main.rs:335-362 | a tick stops exactly on quit; otherwise it resizes under the guard and updates only a non-empty framebuffer, keeping the app coupled |
| Driver.HandleActionKeepsCoupled | src/app.rs:46-92 | no action changes the dimensions, the output buffer or the snapshot length |
| Driver.CoupledUpdateDefined | src/main.rs:351-352 | a coupled app with a non-empty framebuffer meets every precondition of the sequencer tick |
| Driver.TickKeepsLoopingMatchesMode | src/main.rs:318-325 | every tick keeps the playlist looping exactly in AutoPlay |
| Driver.TicksStayCoupled | src/main.rs:335-369 | any number of ticks, each with its own polled event, terminal size and frame time, keeps the app coupled and its sequencer valid, provided every effect lists usable parameter ranges |
| Driver.SleepTime | src/main.rs:333 | the loop sleeps out the rest of the 1/60 s budget and never sleeps after a slow tick |
| Driver.DispatchDefined | src/app.rs:103-115 | when every effect lists usable parameter ranges, every key but the undefined hold toggle can be dispatched on a valid, coupled app |
| Grids.Index | src/effects/gameoflife.rs:86 | the row-major index of a cell lies inside the grid and gives back its column as the remainder and its row as the quotient by the width |
| Grids.IndexOfCoordinates | src/effects/gameoflife.rs:86 | every grid index is the index of its own column and row |
| Grids.WrapIndex | src/effects/gameoflife.rs:78-80 | a wrapped neighbour index always lies inside the grid |
| Grids.Neighbours | src/effects/gameoflife.rs:73-84 | a neighbour count never exceeds 8 |
| Grids.NeighboursAreWindowMinusCentre | src/effects/gameoflife.rs:73-84 | the neighbour count equals the count over the whole wrapped 3x3 window minus the cell itself |
| Grids.WrapCentre | src/effects/gameoflife.rs:78-80 | the zero offset wraps to the cell itself |
| Ticks.StepBudget | src/effects/gameoflife.rs:61-64 | at most 5 steps are taken per frame, the steps plus the new accumulator equal the old accumulator plus the gain, and below the cap the steps are the whole part |
| Ticks.StepsConserveTime | src/effects/cellular.rs:112-115 | over any run of frames no time is lost or invented: the steps plus the remainder equal the start plus all gains |
| Ticks.RemainderBelowOne | src/effects/cellular.rs:112-115 | with small non-negative gains the carried remainder stays in [0, 1) |
| Lcg.Stream | src/effects/cellular.rs:37-40 | the drawn states start at the seed's successor, and each is the successor of the one before |
| Lcg.StreamSplits | src/effects/sierpinski.rs:31-36 | drawing `m + n` states is drawing `m` and then `n` more from where the first run ended |
| Lcg.NextIsTwoWrappingSteps | src/effects/sierpinski.rs:31-36 | the source's `wrapping_mul` followed by `wrapping_add`, each wrapped to 64 bits, gives the same state as the single remainder the model takes |
| GameOfLife.New | src/effects/gameoflife.rs:16-27 | a new automaton is empty with tick rate 10, seed density 0.3 and an empty accumulator |
| GameOfLife.Seed | src/effects/gameoflife.rs:29-37 | cell `i` is alive exactly when its draw is below the seed density, the scratch buffer is all dead and every age is 0 |
| GameOfLife.Init | src/effects/gameoflife.rs:45-50 | `init` stores the dimensions, empties the accumulator and reseeds all three buffers to `width*height` |
| GameOfLife.Rule | src/effects/gameoflife.rs:86-92 | a live cell survives exactly with 2 or 3 neighbours and a dead cell is born exactly with 3 |
| GameOfLife.NextGeneration | src/effects/gameoflife.rs:69-94 | every cell's next state is the rule applied to its current state and its wrapped neighbour count in the current generation |
| GameOfLife.AgeStep | src/effects/gameoflife.rs:96-102 | a living cell ages by a saturating 1 and a dead one sheds a saturating 3 |
| GameOfLife.CountTrueIsMultiplicity | src/effects/gameoflife.rs:98 | the live count is the number of `true` cells |
| GameOfLife.SparseMeansUnderFivePercent | src/effects/gameoflife.rs:109-111 | the integer test `alive*100/total < 5` means fewer than one cell in twenty is alive |
| GameOfLife.Tick | src/effects/gameoflife.rs:66-113 | one generation swaps in the next cells and their ages, unless the result is sparse, in which case the grid is reseeded |
| GameOfLife.GenerationLoop | src/effects/gameoflife.rs:69-104 | the cell loop computes every next state from the current generation, the new ages and the live count |
| GameOfLife.TickLoop | src/effects/gameoflife.rs:66-113 | the loop form of one generation agrees with the functional one |
| GameOfLife.RunTicks | src/effects/gameoflife.rs:66 | repeated generations keep the grid sized and the dimensions and settings |
| GameOfLife.GhostShade | src/effects/gameoflife.rs:122-126 | a recently dead cell is a dim violet no brighter than 40, saturating at age 30 |
| GameOfLife.CellColour | src/effects/gameoflife.rs:116-129 | a live cell takes the hue colour, a dead aged cell the ghost shade, and any other cell is black |
| GameOfLife.Update | src/effects/gameoflife.rs:52-131 | nothing happens on an empty grid; otherwise the budgeted number of generations run and each covered pixel shows its cell's colour while the rest are left alone |
| GameOfLife.SetParamReadsBack | src/effects/gameoflife.rs:133-156 | setting tick rate or seed density is read back by `params()` and leaves the other one alone |
| GameOfLife.Params | src/effects/gameoflife.rs:133-148 | tick rate in [2, 30] and seed density in [0.1, 0.6], each reporting its current value, with usable ranges |
| GameOfLife.SetParam | src/effects/gameoflife.rs:150-156 | each listed name stores its value in its own field, and any other name changes nothing |
| BriansBrain.Draw | src/effects/cellular.rs:41 | the corrected draw is a value in [0, 1] |
| BriansBrain.DrawAsWrittenBelowHalf | src/effects/cellular.rs:41 | the draw as written is always below one half |
| BriansBrain.DrawSplitsAtHalf | src/effects/cellular.rs:41 | the corrected draw is below one half exactly for the lower half of the states |
| BriansBrain.SeedGridBy | src/effects/cellular.rs:34-48 | cell `i` is On exactly when the `i`-th state drawn from the dimension-derived seed gives a draw below the density, and Off otherwise |
| BriansBrain.SeedAsWrittenSaturatesAtHalf | src/effects/cellular.rs:34-48 | as written, a density of one half or more turns every cell On |
| BriansBrain.SeedAtHalfSplitsStates | src/effects/cellular.rs:34-48 | as corrected, density one half turns On exactly the cells whose state lies in the lower half |
| BriansBrain.Seed | src/effects/cellular.rs:34-50 | seeding depends only on the dimensions and density, draws each cell from the generator stream with the corrected draw, and leaves the scratch buffer all Off |
| BriansBrain.Init | src/effects/cellular.rs:98-103 | `init` stores the dimensions, empties the accumulator and reseeds with the corrected draw |
| BriansBrain.Rule | src/effects/cellular.rs:61-84 | On always becomes Dying, Dying always becomes Off, and Off becomes On exactly with two On neighbours |
| BriansBrain.NextGrid | src/effects/cellular.rs:56-87 | every cell's next state is the rule applied to its current state and its wrapped On-neighbour count in the current grid |
| BriansBrain.Step | src/effects/cellular.rs:52-90 | a step computes the next grid from the current one and swaps the buffers |
| BriansBrain.OnCellsBurnOut | src/effects/cellular.rs:61-63 | an On cell is Dying after one step and Off after two |
| BriansBrain.BirthNeedsTwoNeighbours | src/effects/cellular.rs:64-84 | a cell is On after a step exactly when it was Off with two On neighbours |
| BriansBrain.NoCellStaysOn | src/effects/cellular.rs:61-84 | a cell On after some step was Off before it |
| BriansBrain.ColourIsInjective | src/effects/cellular.rs:122-128 | the three state colours are distinct |
| BriansBrain.Update | src/effects/cellular.rs:105-129 | nothing happens on an empty grid; otherwise `dt*speed*15` steps' worth run (at most 5) and each covered pixel shows its cell's colour |
| BriansBrain.SetParam | src/effects/cellular.rs:148-160 | a new density reseeds the board (with the corrected draw) only when both dimensions are non-zero; speed is stored; other names are ignored |
| BriansBrain.SetParamReadsBack | src/effects/cellular.rs:131-160 | setting speed or density is read back by `params()` and leaves the other one alone |
| BriansBrain.RunSteps | src/effects/cellular.rs:112-119 | running steps keeps both buffers sized and the settings unchanged, and after at least one step the grid is the next generation of the scratch buffer it was swapped with |
| BriansBrain.Params | src/effects/cellular.rs:131-146 | speed in [0.5, 3] and density in [0.1, 0.5], each reporting its current value, with usable ranges |
| LSystems.Image | src/effects/lsystem.rs:35-41 | an `F` becomes the production and every other symbol is copied |
| LSystems.GenerateWith | src/effects/lsystem.rs:29-45 | zero generations give the axiom `F` |
| LSystems.RewriteAppend | src/effects/lsystem.rs:35-41 | a generation rewrites symbol by symbol, so it distributes over concatenation |
| LSystems.RewriteFixesStringsWithoutF | src/effects/lsystem.rs:38-39 | a string without `F` is left unchanged by a generation |
| LSystems.CountFIsMultiplicity | src/effects/lsystem.rs:214 | the segment count is the number of `F` symbols |
| LSystems.ProductionHasEightF | src/effects/lsystem.rs:37 | the production draws eight segments |
| LSystems.RewriteMultipliesF | src/effects/lsystem.rs:35-41 | with an eight-segment production each generation multiplies the segment count by 8 |
| LSystems.GenerateWithCountsF | src/effects/lsystem.rs:33-43 | `n` generations of an eight-segment production from the axiom give `8^n` segments |
| LSystems.GenerateCountsF | src/effects/lsystem.rs:29-45 | generation `n` of the tree draws `8^n` segments |
| LSystems.LowAtMostNet | src/effects/lsystem.rs:31 | the lowest prefix balance is never positive and never above the final balance |
| LSystems.LowIsPrefixMinimumFrom | src/effects/lsystem.rs:31 | from any starting balance, the lowest-prefix measure is non-negative exactly when every prefix balance is |
| LSystems.LowIsPrefixMinimum | src/effects/lsystem.rs:31 | a non-negative lowest-prefix measure means no prefix closes more brackets than it opened |
| LSystems.LowAppend | src/effects/lsystem.rs:31 | balance and lowest prefix compose under concatenation |
| LSystems.BranchIsBalanced | src/effects/lsystem.rs:37 | a bracket around bracket-free text is balanced and never dips below zero |
| LSystems.TwoBranchesAreBalanced | src/effects/lsystem.rs:37 | bracket-free text around two such branches is balanced and never dips below zero |
| LSystems.ProductionIsBalanced | src/effects/lsystem.rs:37 | the production is balanced and never dips below zero |
| LSystems.ImageKeepsBrackets | src/effects/lsystem.rs:35-41 | under a balanced production a symbol and its image have the same balance and lowest prefix |
| LSystems.RewriteKeepsBrackets | src/effects/lsystem.rs:35-41 | a generation under a balanced production keeps the balance and the lowest prefix |
| LSystems.GenerateWithIsBalanced | src/effects/lsystem.rs:33-43 | every generation from the axiom under a balanced production is balanced |
| LSystems.GenerateIsBalanced | src/effects/lsystem.rs:29-45 | every generated tree is balanced and no prefix closes more brackets than it opened |
| LSystems.GenerationsUsed | src/effects/lsystem.rs:175 | the generation count used is the truncated parameter clamped to 3..6 |
| LSystems.MaxDepth | src/effects/lsystem.rs:193-209 | the first pass returns a depth at least 1 that bounds the counter on every prefix and is reached by it unless it is the floor 1 |
| LSystems.ScanIsNestingWhenBalanced | src/effects/lsystem.rs:198-199 | on strings that never close more than they opened, the saturating counter is the plain bracket balance |
| LSystems.TurtleStep | src/effects/lsystem.rs:212-272 | `[` saves the turtle and deepens, `]` restores the last saved turtle or does nothing on an empty stack, `F` moves without touching heading, depth or stack |
| LSystems.RunAppend | src/effects/lsystem.rs:212 | interpreting a concatenation is interpreting the parts in turn |
| LSystems.RunKeepsStackBase | src/effects/lsystem.rs:247-271 | a string that never closes more brackets than there are extra saved states leaves the states below them alone and changes the stack depth by its balance |
| LSystems.BranchRestores | src/effects/lsystem.rs:247-271 | a balanced bracketed branch returns the turtle and the stack exactly to where they were |
| LSystems.GeneratedTreeClosesEveryBranch | src/effects/lsystem.rs:212-274 | interpreting any generated tree from an empty stack ends with an empty stack |
| Lissajous.Init | src/effects/lissajous.rs:34-40 | `init` gives 800 zero points, the head at slot 0 and nothing filled |
| Lissajous.Push | src/effects/lissajous.rs:78-82 | a point is written at the head and nothing else, the head advances modulo 800, and the filled flag is never cleared |
| Lissajous.Update | src/effects/lissajous.rs:42-83 | an update on an empty area does nothing; otherwise the head advances by 4 modulo 800 and the filled flag is never cleared |
| Lissajous.AdvanceHead | src/effects/lissajous.rs:78-82 | fewer than a ring of pushes move the head by their number and set the filled flag exactly when the head passes the end |
| Lissajous.Total | src/effects/lissajous.rs:85-89 | `total` is at most 800 and exactly 800 once filled |
| Lissajous.DrawOrder | src/effects/lissajous.rs:107-113 | the draw loop visits `total` distinct slots |
| Lissajous.HeadIndex | src/effects/lissajous.rs:160-165 | the head index is the slot just before the head |
| Lissajous.PushRemembers | src/effects/lissajous.rs:78-82 | a push keeps the ring holding the last 800 points of the history, each in its slot |
| Lissajous.RingRemembers | src/effects/lissajous.rs:34-83 | from `init`, the ring holds exactly the recent history of all points pushed |
| Lissajous.ReadIndexHolds | src/effects/lissajous.rs:109-115 | the slot read at step `i` holds the point pushed `total - i` pushes ago |
| Lissajous.DrawOrderIsOldestFirst | src/effects/lissajous.rs:107-115 | the draw loop reads the last `total` points oldest first, and the head index holds the newest |
| Lissajous.TrailDrawsRecentHistory | src/effects/lissajous.rs:34-115 | from `init`, after any history, the draw loop visits the most recent points (up to 800) in order |
| PixelSort.Brightness | src/effects/pixelsort.rs:35-37 | the luma-weighted brightness of a pixel lies in [0, 1] |
| PixelSort.RowOrder | src/effects/pixelsort.rs:69-71 | a row sorts descending exactly when its index is odd |
| PixelSort.InsertKeepsElements | src/effects/pixelsort.rs:91-104 | inserting into a sorted run adds exactly the one pixel |
| PixelSort.InsertKeepsSorted | src/effects/pixelsort.rs:91-104 | inserting into an ordered run keeps it ordered |
| PixelSort.SortByIsSorted | src/effects/pixelsort.rs:91-104 | the sorted run is ordered by brightness in the row's direction |
| PixelSort.SortByIsPermutation | src/effects/pixelsort.rs:91-104 | the sorted run holds exactly the pixels of the run |
| PixelSort.RunLength | src/effects/pixelsort.rs:84-88 | the run at the front ends at the row end or at the first pixel below the threshold |
| PixelSort.RunIsBright | src/effects/pixelsort.rs:85 | every pixel inside a run is at or above the threshold |
| PixelSort.SortRunsFixesDarkPixel | src/effects/pixelsort.rs:77-81 | a pixel below the threshold keeps its position |
| PixelSort.SortRunsIsPermutation | src/effects/pixelsort.rs:74-105 | the processed row holds exactly the pixels of the row |
| PixelSort.StepStopsAtDark | src/effects/pixelsort.rs:85 | the scan never runs past a pixel below the threshold |
| PixelSort.SortRunsFromBoundary | src/effects/pixelsort.rs:74-105 | the scan is local: from the row start or just after a dark pixel, the rest of the row is processed as if it were a row of its own |
| PixelSort.SortRunsSortsEachRun | src/effects/pixelsort.rs:83-104 | every maximal run of bright pixels is replaced in place by its sorted copy |
| PixelSort.SortedRunIsOrderedPermutation | src/effects/pixelsort.rs:83-104 | each maximal run ends up ordered and holds exactly the pixels it held |
| PixelSort.Row | src/effects/pixelsort.rs:70 | row `y` is the `width` pixels at the row's indices |
| PixelSort.Update | src/effects/pixelsort.rs:50-107 | the output keeps its length, pixels past the image are left alone, and every pixel of row `y` is that row of the image with its runs sorted in the row's direction |
| Sierpinski.New | src/effects/sierpinski.rs:17-29 | a new chaos game is empty, with speed 1, rotation 0.5, generator state 12345 and no iterations |
| Sierpinski.Init | src/effects/sierpinski.rs:44-52 | `init` gives a black `w*h` buffer, the point at the centre and a zero iteration count |
| Sierpinski.InitForgetsState | src/effects/sierpinski.rs:44-52 | `init` is deterministic in the dimensions: the generator is seeded from them alone and no earlier state survives except the two parameters |
| Sierpinski.Vertex | src/effects/sierpinski.rs:103-104 | the chosen vertex is the draw modulo 3, so one of 0, 1 and 2 |
| Sierpinski.Blend | src/effects/sierpinski.rs:121-127 | a channel at or above the vertex colour stays put; one below rises by the gap but by at most 60, never past the colour |
| Sierpinski.BlendTimesReachesColour | src/effects/sierpinski.rs:121-127 | `k` landings on one vertex reach its colour once `60k` covers the gap |
| Sierpinski.FiveLandingsReachColour | src/effects/sierpinski.rs:121-127 | five landings always reach the colour |
| Sierpinski.BrighterTransitive | src/effects/sierpinski.rs:121-132 | brightening composes across iterations |
| Sierpinski.Fade | src/effects/sierpinski.rs:92-98 | the fade lowers every channel by exactly one, stopping at zero |
| Sierpinski.Landing | src/effects/sierpinski.rs:113-117 | the point lands in a buffer slot exactly when its truncated coordinates are on screen |
| Sierpinski.Iterate | src/effects/sierpinski.rs:102-135 | an iteration draws the next generator state, moves the point halfway to the chosen vertex, blends only the slot it lands in and counts one iteration |
| Sierpinski.IterateTimesFollowsStream | src/effects/sierpinski.rs:102-136 | over `k` iterations the counter grows by `k`, the generator has drawn the next `k` states, and no channel gets darker |
| Sierpinski.Iterations | src/effects/sierpinski.rs:101 | the iteration count is `5000*speed` truncated, between 2500 and 15000 over the parameter's range |
| Sierpinski.Update | src/effects/sierpinski.rs:54-141 | nothing happens on an empty screen; otherwise the buffer fades only after 50000 iterations, the budgeted iterations run, and the first `min(len)` pixels are a copy of the buffer |
| Sierpinski.SetParamReadsBack | src/effects/sierpinski.rs:143-166 | setting speed or rotation is read back by `params()` and leaves the other one alone |
| Sierpinski.IterateTimes | src/effects/sierpinski.rs:102-136 | any number of iterations keeps the buffer sized and the dimensions unchanged |
| Sierpinski.Params | src/effects/sierpinski.rs:143-158 | speed in [0.5, 3] and rotation in [0, 2], each reporting its current value, with usable ranges |
| Sierpinski.SetParam | src/effects/sierpinski.rs:160-166 | each listed name stores its value in its own field, and any other name changes nothing |
| Pools.Emit | src/effects/fountain.rs:73-85 | the emission loop keeps the old pool as a prefix, adds one item per whole unit of the accumulator up to the cap, subtracts exactly what it emitted, and stops only with less than one unit left or the pool full |
| Pools.Keep | src/effects/fountain.rs:89-95 | `retain` keeps only items that pass the test, never more than were there |
| Pools.KeepMembership | src/effects/fountain.rs:89-95 | an item survives `retain` exactly when it was in the pool and passes the test |
| Pools.KeepSplits | src/effects/fireworks.rs:123-127 | the items kept and the items dropped add up to the whole pool |
| Pools.Dim | src/effects/fountain.rs:66-70 | a saturating fade lowers each channel by its own amount, never below zero and never brightening |
| Fireworks.New | src/effects/fireworks.rs:33-43 | a new show has no rockets, no sparks, an empty accumulator and both parameters at 1 |
| Fireworks.Init | src/effects/fireworks.rs:53-59 | `init` empties both pools and the accumulator, stores the dimensions and keeps the parameters |
| Fireworks.FadeSky | src/effects/fireworks.rs:73-78 | every pixel dims by (10, 10, 12), saturating |
| Fireworks.Launch | src/effects/fireworks.rs:80-91 | the accumulator grows by `dt*intensity*2.5`; one rocket per whole unit is appended at the bottom row, never past 8 in the air, and the accumulator loses exactly what was launched |
| Fireworks.Explode | src/effects/fireworks.rs:131-152 | spark creation only appends, adds nothing to a pool already at 2000, and never takes a pool past 2000 |
| Fireworks.ExplodeCount | src/effects/fireworks.rs:133-135 | the pool grows by every spark drawn, truncated only by the cap of 2000 |
| Fireworks.Update | src/effects/fireworks.rs:61-186 | nothing moves on an empty screen; otherwise the caps hold, only flying rockets and living sparks stay, and the accumulator is what the launch left |
| Fireworks.RocketsFlyOrBurst | src/effects/fireworks.rs:95-129 | every rocket in the air after the launch either stays or bursts, none lost and none counted twice |
| Fireworks.RocketRemovedExactlyWhenBursting | src/effects/fireworks.rs:123-128 | a moved rocket stays in the pool exactly when it is below its target height and still rising |
| Fireworks.SparkRemovedExactlyWhenBurntOut | src/effects/fireworks.rs:155-165 | a spark that was alive before the frame stays exactly when its life after burning `1.2*dt` is positive |
| Fireworks.SetParamReadsBack | src/effects/fireworks.rs:188-211 | setting intensity or gravity is read back by `params()` and leaves the other one alone |
| Fireworks.MoveRocket | src/effects/fireworks.rs:96-97 | a rocket moves by `vy*dt`, its upward speed decays by `gravity*0.3*dt`, and nothing else about it changes |
| Fireworks.MoveSpark | src/effects/fireworks.rs:156-161 | a frame burns `1.2*dt` of a spark's life and keeps its hue |
| Fireworks.Burn | src/effects/fireworks.rs:155-165 | the spark pass leaves only living sparks, never more than before |
| Fireworks.Params | src/effects/fireworks.rs:188-203 | intensity in [0.3, 4] and gravity in [0.3, 3], each reporting its current value, with usable ranges |
| Fireworks.SetParam | src/effects/fireworks.rs:205-211 | each listed name stores its value in its own field, and any other name changes nothing |
| Fountain.New | src/effects/fountain.rs:24-34 | a new fountain is empty, with gravity 1 and emission 80 |
| Fountain.Init | src/effects/fountain.rs:44-49 | `init` empties the pool and the accumulator, stores the dimensions and keeps the parameters |
| Fountain.FadeTrails | src/effects/fountain.rs:65-70 | every pixel dims by (12, 12, 15), saturating |
| Fountain.Emitted | src/effects/fountain.rs:76-84 | a new particle starts on the bottom row with full life |
| Fountain.Emission | src/effects/fountain.rs:72-85 | the accumulator grows by `dt*emission`; one particle per whole unit is appended, never past 500 alive, and the accumulator loses exactly what was emitted |
| Fountain.Move | src/effects/fountain.rs:90-93 | a frame takes half of `dt` off a particle's life and leaves its sideways speed alone |
| Fountain.Age | src/effects/fountain.rs:88-95 | the retain pass leaves only living particles, never more than before |
| Fountain.Update | src/effects/fountain.rs:55-95 | nothing moves on an empty screen; otherwise emission then aging, with the pool kept at or below 500 |
| Fountain.ParticleSurvivesExactlyWhileAlive | src/effects/fountain.rs:89-95 | a particle survives the frame exactly when its life less `dt/2` is still positive |
| Fountain.FreshParticlesSurviveShortFrames | src/effects/fountain.rs:83 | a particle emitted this frame survives any frame shorter than two seconds |
| Fountain.SetParamReadsBack | src/effects/fountain.rs:118-141 | setting gravity or emission is read back by `params()` and leaves the other one alone |
| Fountain.Params | src/effects/fountain.rs:118-133 | gravity in [0.3, 3] and emission in [20, 200], each reporting its current value, with usable ranges |
| Fountain.SetParam | src/effects/fountain.rs:135-141 | each listed name stores its value in its own field, and any other name changes nothing |
| Fire.PaletteEntry | src/effects/fire.rs:25-53 | every one of the 256 slots is painted, by the last window that covers it |
| Fire.ControlPointsExact | src/effects/fire.rs:27-33 | each control point's slot holds exactly its control colour |
| Fire.PaletteMonotone | src/effects/fire.rs:25-53 | the palette never darkens in any channel from a cooler slot to a hotter one |
| Fire.ChannelIsInterpolant | src/effects/fire.rs:44-48 | a palette channel is the same linear interpolation, cast to `u8`, as the transitions use |
| Fire.Init | src/effects/fire.rs:61-65 | `init` gives a heat buffer of `w*h` zeros and keeps the parameters |
| Fire.Feed | src/effects/fire.rs:76-81 | the bottom two rows get `draw * intensity`; every other cell is unchanged |
| Fire.Cooled | src/effects/fire.rs:86-100 | a propagated cell's heat is never negative |
| Fire.CooledReadsTwoRowsBelow | src/effects/fire.rs:86-97 | a cell's new heat depends only on the two rows below it |
| Fire.Propagated | src/effects/fire.rs:83-102 | the reference propagation keeps the fed bottom two rows and has the buffer's length |
| Fire.PropagatedIsNonNegative | src/effects/fire.rs:100 | no propagated cell is negative |
| Fire.PropagateInPlace | src/effects/fire.rs:83-102 | the in-place, top-row-first loop computes exactly the reference propagation, so its reads from below are never stale |
| Fire.PaletteIndex | src/effects/fire.rs:106 | the heat maps to a slot in 0..255, with cold at 0 and saturated heat at 255 |
| Fire.HotterIsNoDarker | src/effects/fire.rs:105-108 | a hotter cell is never shown darker in any channel |
| Fire.Update | src/effects/fire.rs:67-109 | nothing changes on an empty screen; otherwise the buffer is fed then propagated, and the first `min(len)` pixels show it through the palette while the rest are untouched |
| Fire.SetParamReadsBack | src/effects/fire.rs:111-134 | setting cooling or intensity is read back by `params()` and leaves the other one alone |
| Fire.BuildPalette | src/effects/fire.rs:25-53 | the palette has 256 slots; its contents are stated by `Fire.PaletteEntry`, `Fire.ControlPointsExact` and `Fire.PaletteMonotone` |
| Fire.Params | src/effects/fire.rs:111-126 | cooling in [0.1, 1.5] and intensity in [0.3, 2], each reporting its current value, with usable ranges |
| Fire.SetParam | src/effects/fire.rs:128-134 | each listed name stores its value in its own field, and any other name changes nothing |
| Matrix.New | src/effects/matrix.rs:23-32 | a new rain has no columns, speed 1 and density 0.6 |
| Matrix.Init | src/effects/matrix.rs:57-61 | `init` drops every column, stores the dimensions and keeps the parameters |
| Matrix.InitColumns | src/effects/matrix.rs:34-49 | `max(w/8, 1)` columns, each with its drawn trail of 8 to 24 printable characters, a head above the screen, and active exactly when its roll is below the density |
| Matrix.RandomizeInit | src/effects/matrix.rs:63-66 | a reseed rebuilds well-formed columns for the stored width and changes nothing else |
| Matrix.ColumnsStartOnScreen | src/effects/matrix.rs:103-106 | every column `init_columns` makes starts inside the screen width, so the right-edge skip never fires for them |
| Matrix.Step | src/effects/matrix.rs:82-170 | an inactive column activates exactly when its roll is below `density*dt*2` (head 0, new speed) and otherwise is untouched; an active one falls by `speed*global speed*dt`, changes at most its mutated character, and goes inactive exactly when its tail row is below the screen (never past the right edge); trails stay printable and keep their length |
| Matrix.DeactivatedColumnIsOffScreen | src/effects/matrix.rs:165-169 | a column switched off this tick has no character left in the drawn rows |
| Matrix.Update | src/effects/matrix.rs:68-171 | nothing happens on an empty screen; otherwise each column takes its own step and well-formed columns stay well-formed |
| Matrix.InitLeavesNoRain | src/effects/matrix.rs:57-61 | after `init` alone, `update` has no column to move: only `randomize_init` brings rain |
| Matrix.SetParamReadsBack | src/effects/matrix.rs:173-196 | setting speed or density is read back by `params()` and leaves the other one alone |
| Matrix.Params | src/effects/matrix.rs:173-188 | speed in [0.3, 3] and density in [0.2, 1], each reporting its current value, with usable ranges |
| Matrix.SetParam | src/effects/matrix.rs:190-196 | each listed name stores its value in its own field, and any other name changes nothing |

## Left out

- Terminal I/O is not modelled: raw mode, the alternate screen, `terminal.draw`, event polling, and the ratatui cell styling of `HalfBlockWidget`. They are side effects on the terminal, and only the pixel-pair selection is kept.
- `src/ui.rs` is not part of this model. It lays out HUD text into a ratatui buffer and changes no state.
- Wall-clock timing is not modelled: `Instant` and the `sleep` of frame pacing. `dt` and the elapsed tick time are inputs.
- The hold feature is not modelled. `src/app.rs:77` calls `toggle_hold` and `src/ui.rs:25` reads `held`, but the sequencer defines neither, so the source does not compile with them. `Apps.HandleAction` therefore requires an action other than `ToggleHold`.
- Random number generation is not modelled: `thread_rng`, `StdRng` and their seeding. Every draw is an input, and only the matrix column draws (`Matrix.InitColumns`) are constrained to their ranges; the others are unconstrained. This covers the fountain and matrix reseeds in `randomize_init`, the fire's sparks, the spark hue jitter and the rocket positions, and the Game of Life seed.
- Trigonometry and HSV colouring are not modelled. This covers the chaos-game vertex circle, the pixel sort's plasma image, and the particle and glyph drawing of fireworks, fountain and matrix, including the `font8x8` glyph bitmaps. These are floating-point per-pixel maths. The models take the vertices and the image as parameters and state the physics and pool behaviour only.
- IEEE-754 rounding is not modelled. Reals stand in for `f64`.
- `Pixels.TruncInt`: a float-to-`i32` cast is modelled as truncation without the `i32` saturation at ±2^31, because no screen coordinate comes near it.
- `u32` overflow of `width * height` is not modelled. Dimensions are `nat`, because terminal sizes keep the product far below 2^32.
- `Sierpinski.Update`: the `u64` iteration counter is unbounded here, because 2^64 iterations cannot occur.
- `Fire.Update`: requires a height other than 1. At height 1, `h - 2` underflows and the source panics. The framebuffer height is always even.
- `Transitions.ApplyTransition`: requires a non-zero width for the wipes when something is written. With width 0, the source divides by zero and panics.
- `Matrix.InitColumns`: requires draws within their ranges. At height 0, the head range `-h..0` is empty and the source panics, so the model admits no draw there.
- `BriansBrain.Seed`, `BriansBrain.Init`, `BriansBrain.SetParam`: seed the board with the corrected draw `BriansBrain.Draw` (`state >> 32`), not the `state >> 33` of `src/effects/cellular.rs:41`, so the seeded board differs at every density: the program's draw lies in [0, 0.5), so a density `d` turns about `min(2d, 1)` of the cells On where the model turns about `d` (about 60% against 30% at the default 0.3), and at 0.5 or more the program turns every cell On; the draw as written is `BriansBrain.SeedGridAsWritten`, and the Findings table records the difference.
- `PixelSort.Update`: requires at least `w * h` pixels. With a shorter slice, `pixels[idx]` at `src/effects/pixelsort.rs:64` indexes out of bounds and the source panics; the framebuffer the engine passes always holds `w * h` pixels.
- `Apps.AdjustParam`: requires the selected parameter's `min <= max`. Otherwise `f64::clamp` panics.
- `Driver.TicksStayCoupled`: assumes every effect lists only ranges with `min <= max`, because `f64::clamp` in `adjust_param` panics otherwise; all modelled effects meet this (their `Params` ensure `WellFormedParams`).
- `PixelSort.SortBy`: is proved ordered and a permutation, but its stability (the source's `sort_by` is a stable merge sort) is not stated, because equal keys do not change the brightness order the effect shows.
- The engine never calls `randomize_init`; only `init` is called. So the matrix shows no columns (`Matrix.InitLeavesNoRain`), and the fountain keeps its fixed seed. `Matrix.RandomizeInit` models the method as written.
- The remaining effect files are not part of this model, from `plasma` through `scroller`. Their substance is floating-point per-pixel maths or geometry.

## Findings

| source | as written | input that shows it | evidently intended | confidence | as-written member | corrected member |
|---|---|---|---|---|---|---|
| src/effects/cellular.rs:41 | the seed draw is `(state >> 33) / u32::MAX`, a 31-bit value over a 32-bit maximum, so it is always below 0.5 | density 0.5, the top of the parameter's range, on any non-empty grid: every cell is seeded On | `state >> 32`, a draw spread over [0, 1], so density 0.5 turns about half the cells On | high; not executed | BriansBrain.SeedAsWrittenSaturatesAtHalf | BriansBrain.SeedAtHalfSplitsStates |
