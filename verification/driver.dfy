/** The top-level loop: the fixed playlist, start-up, and one tick of `run` with its
    input, resize, update and pacing steps. The terminal, the clock and the sleep are
    parameters: the terminal size, the polled event, `dt` and the measured tick time. */
module Driver {
  import opened Pixels
  import opened Options
  import opened Transitions
  import opened Scenes
  import opened Input
  import opened Effects
  import Sequencers
  import Framebuffers
  import Apps

  /** One playlist line: an effect (named by its type), its play time and its entry blend. */
  function Entry(effect: string, secs: real, kind: TransitionKind, tsecs: real): (sc: Scene<string>)
    ensures sc == Scene(effect, Some(secs), kind, tsecs)
  {
    WithTransition(WithDuration(Scenes.New(effect), secs), kind, tsecs)
  }

  /** A play time of a playlist line: every line fixes one between 8 and 16 seconds. */
  type PlayTime = r: real | 8.0 <= r <= 16.0 witness 8.0

  /** A blend time of a playlist line: every line uses 1.5 s or 2.0 s. */
  type BlendTime = r: real | r == 1.5 || r == 2.0 witness 1.5

  /** One line of `build_scenes`: effect type, play time, entry blend, blend time. */
  type Line = (string, PlayTime, TransitionKind, BlendTime)

  /** Act 1, classic patterns. */
  const ClassicPatterns: seq<Line> := [
    ("Plasma", 12.0, Dissolve, 1.5),
    ("Moire", 12.0, Dissolve, 1.5),
    ("Kaleidoscope", 12.0, Dissolve, 1.5),
    ("Shadebobs", 12.0, Dissolve, 1.5),
    ("CopperBars", 10.0, WipeDown, 1.5),
    ("RasterBars", 10.0, Dissolve, 1.5),
    ("CopperFlag", 12.0, Dissolve, 1.5),
    ("KefrensBars", 12.0, Dissolve, 1.5),
    ("Truchet", 12.0, Dissolve, 1.5),
    ("Interference", 12.0, Dissolve, 1.5)
  ]

  /** Act 2, heat and motion. */
  const HeatAndMotion: seq<Line> := [
    ("Fire", 12.0, WipeDown, 1.5),
    ("Twister", 12.0, Dissolve, 1.5),
    ("Tunnel", 12.0, Fade, 1.5),
    ("DotTunnel", 12.0, Dissolve, 1.5),
    ("Rotozoom", 12.0, Dissolve, 1.5),
    ("Lightning", 12.0, Fade, 1.5),
    ("LavaLamp", 14.0, Dissolve, 1.5)
  ]

  /** Act 3, 3D geometry. */
  const Geometry3D: seq<Line> := [
    ("Starfield", 12.0, Fade, 1.5),
    ("Galaxy", 14.0, Dissolve, 2.0),
    ("DotSphere", 12.0, Dissolve, 1.5),
    ("BoingBall", 14.0, Dissolve, 1.5),
    ("FilledVector", 12.0, Dissolve, 1.5),
    ("Morph", 14.0, Dissolve, 1.5),
    ("Glenz", 12.0, Dissolve, 1.5),
    ("Lissajous3D", 12.0, Dissolve, 1.5),
    ("TorusKnot", 14.0, Dissolve, 2.0),
    ("Wireframe", 12.0, Fade, 1.5),
    ("CubeField", 14.0, Fade, 1.5),
    ("Wolfenstein", 14.0, Fade, 1.5),
    ("Raymarcher", 14.0, Dissolve, 2.0),
    ("Terrain", 14.0, Dissolve, 2.0),
    ("VoxelLandscape", 14.0, Dissolve, 2.0)
  ]

  /** Act 4, fractals. */
  const Fractals: seq<Line> := [
    ("Mandelbrot", 14.0, Dissolve, 2.0),
    ("Julia", 14.0, Dissolve, 2.0),
    ("FractalZoom", 14.0, Dissolve, 2.0),
    ("Sierpinski", 14.0, Dissolve, 2.0)
  ]

  /** Act 5, simulations. */
  const Simulations: seq<Line> := [
    ("Metaballs", 12.0, Fade, 1.5),
    ("Voronoi", 12.0, Dissolve, 1.5),
    ("ReactionDiffusion", 14.0, Dissolve, 1.5),
    ("FluidSim", 14.0, Dissolve, 1.5),
    ("ClothSim", 14.0, Dissolve, 1.5),
    ("Water", 12.0, Dissolve, 1.5),
    ("Fountain", 12.0, Fade, 1.5),
    ("Boids", 14.0, Dissolve, 1.5),
    ("CellularAutomata", 14.0, Dissolve, 1.5),
    ("GameOfLife", 14.0, Dissolve, 1.5)
  ]

  /** Act 6, natural and atmospheric. */
  const Atmospheric: seq<Line> := [
    ("Aurora", 14.0, Fade, 2.0),
    ("Rain", 12.0, Dissolve, 1.5),
    ("Snowfall", 12.0, Dissolve, 1.5),
    ("Parallax", 14.0, Dissolve, 2.0),
    ("LSystem", 14.0, Dissolve, 1.5),
    ("Neon", 12.0, Fade, 1.5)
  ]

  /** Act 7, retro and text. */
  const RetroAndText: seq<Line> := [
    ("Lens", 12.0, Dissolve, 1.5),
    ("BumpMapping", 12.0, Dissolve, 1.5),
    ("SineScroller", 12.0, Dissolve, 1.5),
    ("Oscilloscope", 12.0, Dissolve, 1.5),
    ("PendulumWave", 14.0, Dissolve, 1.5),
    ("Spirograph", 14.0, Fade, 1.5),
    ("FlowField", 14.0, Dissolve, 1.5),
    ("PixelSort", 12.0, Dissolve, 1.5),
    ("Matrix", 14.0, Fade, 2.0)
  ]

  /** The finale. */
  const Finale: seq<Line> := [
    ("Fireworks", 14.0, Fade, 2.0),
    ("Scroller", 16.0, WipeLeft, 2.0),
    ("Plasma", 8.0, Dissolve, 1.5)
  ]

  const Lines: seq<Line> :=
    ClassicPatterns + HeatAndMotion + Geometry3D + Fractals + Simulations + Atmospheric + RetroAndText + Finale

  /** `build_scenes`: one scene per line, built with `with_duration` then `with_transition`. */
  function Playlist(): (p: seq<Scene<string>>)
    ensures |p| == |Lines|
    ensures forall i :: 0 <= i < |Lines| ==> p[i] == Scene(Lines[i].0, Some(Lines[i].1 as real), Lines[i].2, Lines[i].3 as real)
  {
    seq(|Lines|, i requires 0 <= i < |Lines| => Entry(Lines[i].0, Lines[i].1, Lines[i].2, Lines[i].3))
  }

  /** The show has 64 scenes; every one has a fixed play time between 8 and 16 seconds and
      enters with a 1.5 s or 2.0 s blend, so the automatic show always advances. */
  lemma PlaylistWellTimed()
    ensures |Playlist()| == 64
    ensures forall i :: 0 <= i < |Playlist()| ==>
      && Playlist()[i].duration.Some?
      && 8.0 <= Playlist()[i].duration.value <= 16.0
      && (Playlist()[i].transitionDuration == 1.5 || Playlist()[i].transitionDuration == 2.0)
  {
  }

  /** The show opens on the plasma and ends on the slower plasma variant, so the loop
      back to the start is a plasma-to-plasma dissolve. */
  lemma PlaylistEnds()
    ensures Playlist()[0] == Scene("Plasma", Some(12.0), Dissolve, 1.5)
    ensures Playlist()[63] == Scene("Plasma", Some(8.0), Dissolve, 1.5)
  {
  }

  /** The application and the sequencer agree on the dimensions, and the output buffer and
      the outgoing snapshot both hold one pixel per framebuffer coordinate. */
  predicate Coupled<S>(app: Apps.App<S>) {
    && app.fb.Consistent()
    && app.sequencer.width == app.fb.width
    && app.sequencer.height == app.fb.height
    && |app.sequencer.prevFrame| == |app.fb.pixels|
  }

  /** The start of `run`: the mode from the command-line flag, a sequencer that loops
      exactly in AutoPlay, and a framebuffer of `cols` x `2*rows` pixels. */
  function Start<S>(ops: EffectOps<S>, scenes: seq<Scene<S>>, interactive: bool, cols: nat, rows: nat): (app: Apps.App<S>)
    ensures app.mode == (if interactive then Apps.Interactive else Apps.AutoPlay)
    ensures Apps.LoopingMatchesMode(app)
    ensures app.showHud <==> interactive
    ensures app.fb.width == cols && app.fb.height == 2 * rows
    ensures Coupled(app) && app.sequencer.Valid()
    ensures app.sequencer.current == 0 && !app.sequencer.transitioning && !app.sequencer.paused
    ensures |scenes| > 0 ==> app.sequencer.initLog == [Sequencers.InitCall(0, cols, 2 * rows)]
  {
    var mode := if interactive then Apps.Interactive else Apps.AutoPlay;
    var sq := Sequencers.New(scenes, mode == Apps.AutoPlay);
    Apps.Init(ops, Apps.New(sq, mode), cols, rows * 2)
  }

  /** What a tick needs of the state before it: a valid, coupled app, and an input the
      dispatcher can handle. */
  predicate TickDefined<S>(ops: EffectOps<S>, app: Apps.App<S>, ev: Option<Event>) {
    && app.sequencer.Valid()
    && Coupled(app)
    && Apps.HandleDefined(ops, app, PollAction(ev))
  }

  /** The resize guard of `run`: only non-empty sizes that differ from the current one. */
  predicate ShouldResize<S>(app: Apps.App<S>, w: nat, h: nat) {
    w > 0 && h > 0 && (w != app.fb.width || h != app.fb.height)
  }

  /** The tick after input and before rendering: resize when the guard allows it. */
  function ResizeStep<S>(ops: EffectOps<S>, app: Apps.App<S>, cols: nat, rows: nat): (r: Apps.App<S>)
    requires Coupled(app) && app.sequencer.Valid()
    ensures Coupled(r) && r.sequencer.Valid()
    ensures ShouldResize(app, cols, 2 * rows) ==> r == Apps.Resize(ops, app, cols, 2 * rows)
    ensures !ShouldResize(app, cols, 2 * rows) ==> r == app
    ensures r.mode == app.mode && r.sequencer.looping == app.sequencer.looping
  {
    if ShouldResize(app, cols, rows * 2) then Apps.Resize(ops, app, cols, rows * 2) else app
  }

  /** `App::handle_input` with the polled event passed in: input keeps the app coupled,
      valid, and looping exactly in AutoPlay. */
  function HandleInput<S>(ops: EffectOps<S>, app: Apps.App<S>, ev: Option<Event>): (r: Apps.App<S>)
    requires TickDefined(ops, app, ev)
    ensures r == Apps.HandleAction(ops, app, PollAction(ev))
    ensures Coupled(r) && r.sequencer.Valid()
    ensures Apps.LoopingMatchesMode(app) ==> Apps.LoopingMatchesMode(r)
  {
    var action := PollAction(ev);
    Apps.HandleActionKeepsValid(ops, app, action);
    HandleActionKeepsCoupled(ops, app, action);
    Apps.HandleActionKeepsLoopingMatchesMode(ops, app, action);
    Apps.HandleAction(ops, app, action)
  }

  /** One iteration of the `run` loop. Returns the new app and whether the loop ends. */
  function Tick<S>(ops: EffectOps<S>, app: Apps.App<S>, ev: Option<Event>, cols: nat, rows: nat, dt: real): (r: (Apps.App<S>, bool))
    requires TickDefined(ops, app, ev)
    ensures var handled := HandleInput(ops, app, ev);
      && (r.1 <==> handled.shouldQuit)
      && (r.1 ==> r.0 == handled)
    ensures !r.1 ==>
      var resized := ResizeStep(ops, HandleInput(ops, app, ev), cols, rows);
      && (resized.fb.width > 0 && resized.fb.height > 0 ==>
            Sequencers.UpdateDefined(resized.sequencer, |resized.fb.pixels|) && r.0 == Apps.Update(ops, resized, dt))
      && (resized.fb.width == 0 || resized.fb.height == 0 ==> r.0 == resized)
    ensures Coupled(r.0) && r.0.sequencer.Valid()
  {
    var handled := HandleInput(ops, app, ev);
    if handled.shouldQuit then (handled, true)
    else
      var resized := ResizeStep(ops, handled, cols, rows);
      if resized.fb.width > 0 && resized.fb.height > 0 then
        CoupledUpdateDefined(resized);
        (Apps.Update(ops, resized, dt), false)
      else (resized, false)
  }

  /** Input never touches the dimensions, the output buffer or the outgoing snapshot. */
  lemma HandleActionKeepsCoupled<S>(ops: EffectOps<S>, app: Apps.App<S>, action: Action)
    requires Apps.HandleDefined(ops, app, action)
    requires Coupled(app)
    ensures Coupled(Apps.HandleAction(ops, app, action))
  {
    var r := Apps.HandleAction(ops, app, action);
    assert r.fb == app.fb;
    assert r.sequencer.width == app.sequencer.width && r.sequencer.height == app.sequencer.height;
    assert r.sequencer.prevFrame == app.sequencer.prevFrame;
  }

  /** A coupled, non-empty framebuffer satisfies every precondition of the sequencer tick. */
  lemma CoupledUpdateDefined<S>(app: Apps.App<S>)
    requires Coupled(app) && app.sequencer.Valid()
    requires app.fb.width > 0
    ensures Sequencers.UpdateDefined(app.sequencer, |app.fb.pixels|)
  {
  }

  /** Ticks keep the playlist looping exactly in AutoPlay. */
  lemma TickKeepsLoopingMatchesMode<S>(ops: EffectOps<S>, app: Apps.App<S>, ev: Option<Event>, cols: nat, rows: nat, dt: real)
    requires TickDefined(ops, app, ev)
    requires Apps.LoopingMatchesMode(app)
    ensures Apps.LoopingMatchesMode(Tick(ops, app, ev, cols, rows, dt).0)
  {
  }

  /** What the loop reads on one iteration: the polled event (if any), the terminal size it
      queries, and the measured frame time. */
  datatype Frame = Frame(event: Option<Event>, cols: nat, rows: nat, dt: real)

  /** With usable parameter ranges, every action but the undefined hold toggle can be
      dispatched on a valid, coupled app. */
  lemma DispatchDefined<S(!new)>(ops: EffectOps<S>, app: Apps.App<S>, ev: Option<Event>)
    requires ParamsWellFormed(ops)
    requires app.sequencer.Valid() && Coupled(app) && PollAction(ev) != ToggleHold
    ensures TickDefined(ops, app, ev)
  {
    var ps := Apps.CurrentParams(ops, app);
    if app.mode == Apps.Interactive && app.selectedParam < |ps| {
      match Sequencers.CurrentEffect(app.sequencer)
      case Some(e) =>
        assert WellFormedParams(ops.params(e));
      case None =>
    }
  }

  /** A started show stays consistent across any number of ticks, whatever the terminal size
      and frame time of each one. */
  lemma {:induction false} TicksStayCoupled<S(!new)>(ops: EffectOps<S>, app: Apps.App<S>, frames: seq<Frame>)
    requires ParamsWellFormed(ops)
    requires app.sequencer.Valid() && Coupled(app)
    requires forall i :: 0 <= i < |frames| ==> PollAction(frames[i].event) != ToggleHold
    ensures var r := Run(ops, app, frames); Coupled(r) && r.sequencer.Valid()
    decreases |frames|
  {
    if |frames| > 0 {
      var f := frames[0];
      DispatchDefined(ops, app, f.event);
      var r := Tick(ops, app, f.event, f.cols, f.rows, f.dt);
      if !r.1 {
        TicksStayCoupled(ops, r.0, frames[1..]);
      }
    }
  }

  /** The loop driven by the frames it reads, stopping at the first quit. */
  function Run<S(!new)>(ops: EffectOps<S>, app: Apps.App<S>, frames: seq<Frame>): Apps.App<S>
    requires ParamsWellFormed(ops)
    requires app.sequencer.Valid() && Coupled(app)
    requires forall i :: 0 <= i < |frames| ==> PollAction(frames[i].event) != ToggleHold
    decreases |frames|
  {
    if |frames| == 0 then app
    else
      var f := frames[0];
      DispatchDefined(ops, app, f.event);
      var r := Tick(ops, app, f.event, f.cols, f.rows, f.dt);
      if r.1 then r.0 else Run(ops, r.0, frames[1..])
  }

  const TargetFrame: real := 1.0 / 60.0

  /** Frame pacing: sleep out the rest of the 1/60 s budget, never less than nothing, and
      never make up for a tick that overran. */
  function SleepTime(elapsed: real): (d: real)
    requires elapsed >= 0.0
    ensures d >= 0.0
    ensures elapsed < TargetFrame ==> elapsed + d == TargetFrame
    ensures elapsed >= TargetFrame ==> d == 0.0
  {
    if elapsed < TargetFrame then TargetFrame - elapsed else 0.0
  }
}
