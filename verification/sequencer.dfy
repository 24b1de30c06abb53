/** The playback state machine: a fixed playlist, the current scene, scene and global clocks,
    and the Playing / Transitioning modes with their two snapshot buffers. */
module Sequencers {
  import opened Pixels
  import opened Options
  import opened Transitions
  import opened Scenes
  import Effects

  /** One call of an effect's `init(width, height)`, recorded so that the model can say
      which scene was (re)initialised and with which dimensions. */
  datatype InitCall = InitCall(scene: nat, width: nat, height: nat)

  datatype Sequencer<S> = Sequencer(
    scenes: seq<Scene<S>>,
    current: nat,
    sceneTime: real,
    globalTime: real,
    paused: bool,
    looping: bool,
    transitioning: bool,
    transitionElapsed: real,
    prevFrame: seq<Pixel>,
    nextFrame: seq<Pixel>,
    width: nat,
    height: nat,
    initLog: seq<InitCall>)
  {
    /** `current` indexes the playlist whenever there is one. */
    predicate Valid() {
      if |scenes| == 0 then current == 0 else current < |scenes|
    }
  }

  /** `Sequencer::new`: scene 0, clocks at zero, Playing, empty buffers. */
  function New<S>(scenes: seq<Scene<S>>, looping: bool): (s: Sequencer<S>)
    ensures s.Valid()
    ensures s.scenes == scenes && s.looping == looping
    ensures s.current == 0 && s.sceneTime == 0.0 && s.globalTime == 0.0
    ensures !s.paused && !s.transitioning && s.transitionElapsed == 0.0
    ensures s.prevFrame == [] && s.nextFrame == [] && s.width == 0 && s.height == 0
    ensures s.initLog == []
  {
    Sequencer(scenes, 0, 0.0, 0.0, false, looping, false, 0.0, [], [], 0, 0, [])
  }

  /** The effect of scene `k` receives `init(width, height)`; no other scene is touched. */
  function Reinit<S>(ops: Effects.EffectOps<S>, s: Sequencer<S>, k: nat): (r: Sequencer<S>)
    requires k < |s.scenes|
    ensures |r.scenes| == |s.scenes|
    ensures r.scenes[k] == s.scenes[k].(effect := ops.init(s.scenes[k].effect, s.width, s.height))
    ensures forall j :: 0 <= j < |s.scenes| && j != k ==> r.scenes[j] == s.scenes[j]
    ensures r.initLog == s.initLog + [InitCall(k, s.width, s.height)]
    ensures r.(scenes := s.scenes, initLog := s.initLog) == s
  {
    var sc := s.scenes[k];
    s.(scenes := s.scenes[k := sc.(effect := ops.init(sc.effect, s.width, s.height))],
       initLog := s.initLog + [InitCall(k, s.width, s.height)])
  }

  /** `init(width, height)`: records the dimensions, resizes both snapshot buffers to
      `width*height` keeping their old prefix, and re-initialises the current scene only. */
  function Init<S>(ops: Effects.EffectOps<S>, s: Sequencer<S>, width: nat, height: nat): (r: Sequencer<S>)
    ensures r.width == width && r.height == height
    ensures |r.prevFrame| == width * height && |r.nextFrame| == width * height
    ensures forall i :: 0 <= i < width * height ==>
      r.prevFrame[i] == (if i < |s.prevFrame| then s.prevFrame[i] else Black)
    ensures forall i :: 0 <= i < width * height ==>
      r.nextFrame[i] == (if i < |s.nextFrame| then s.nextFrame[i] else Black)
    ensures |r.scenes| == |s.scenes|
    ensures s.current < |s.scenes| ==>
      && r.scenes[s.current] == s.scenes[s.current].(effect := ops.init(s.scenes[s.current].effect, width, height))
      && r.initLog == s.initLog + [InitCall(s.current, width, height)]
    ensures s.current >= |s.scenes| ==> r.scenes == s.scenes && r.initLog == s.initLog
    ensures forall j :: 0 <= j < |s.scenes| && j != s.current ==> r.scenes[j] == s.scenes[j]
    ensures r.(width := s.width, height := s.height, prevFrame := s.prevFrame, nextFrame := s.nextFrame,
               scenes := s.scenes, initLog := s.initLog) == s
    ensures s.Valid() ==> r.Valid()
  {
    var s1 := s.(width := width, height := height,
                 prevFrame := Pixels.Resize(s.prevFrame, width * height, Black),
                 nextFrame := Pixels.Resize(s.nextFrame, width * height, Black));
    if s.current < |s.scenes| then Reinit(ops, s1, s.current) else s1
  }

  /** `resize(width, height)` has exactly the body of `init`. */
  function Resize<S>(ops: Effects.EffectOps<S>, s: Sequencer<S>, width: nat, height: nat): (r: Sequencer<S>)
    ensures r == Init(ops, s, width, height)
  {
    Init(ops, s, width, height)
  }

  /** `toggle_pause`. */
  function TogglePause<S>(s: Sequencer<S>): (r: Sequencer<S>)
    ensures r.paused == !s.paused
    ensures r.(paused := s.paused) == s
  {
    s.(paused := !s.paused)
  }

  /** What `start_transition(k)` leaves behind, field by field: scene `k` re-initialised
      (and logged), it becomes current with a fresh scene clock, a transition starts from
      zero, and nothing else changes — in particular not `globalTime` or `prevFrame`. */
  ghost predicate TransitionStarted<S>(ops: Effects.EffectOps<S>, s: Sequencer<S>, r: Sequencer<S>, k: nat) {
    && k < |s.scenes|
    && r.current == k
    && r.transitioning
    && r.transitionElapsed == 0.0
    && r.sceneTime == 0.0
    && |r.scenes| == |s.scenes|
    && r.scenes[k] == s.scenes[k].(effect := ops.init(s.scenes[k].effect, s.width, s.height))
    && (forall j :: 0 <= j < |s.scenes| && j != k ==> r.scenes[j] == s.scenes[j])
    && r.initLog == s.initLog + [InitCall(k, s.width, s.height)]
    && r.(current := s.current, transitioning := s.transitioning, transitionElapsed := s.transitionElapsed,
          sceneTime := s.sceneTime, scenes := s.scenes, initLog := s.initLog) == s
  }

  /** `start_transition(k)`: the single entry point of every scene change. */
  function StartTransition<S>(ops: Effects.EffectOps<S>, s: Sequencer<S>, k: nat): (r: Sequencer<S>)
    requires k < |s.scenes|
    ensures TransitionStarted(ops, s, r, k)
    ensures r.Valid()
  {
    Reinit(ops, s, k).(transitioning := true, transitionElapsed := 0.0, current := k, sceneTime := 0.0)
  }

  /** `goto_scene(i)`: out-of-range or self targets change nothing at all. */
  function GotoScene<S>(ops: Effects.EffectOps<S>, s: Sequencer<S>, i: nat): (r: Sequencer<S>)
    ensures i >= |s.scenes| || i == s.current ==> r == s
    ensures i < |s.scenes| && i != s.current ==> TransitionStarted(ops, s, r, i)
    ensures s.Valid() ==> r.Valid()
  {
    if i >= |s.scenes| || i == s.current then s else StartTransition(ops, s, i)
  }

  /** `next_scene`: one step forward; at the last scene it wraps to 0 only when looping.
      There is no self-target check, so a one-scene looping playlist restarts its scene. */
  function NextScene<S>(ops: Effects.EffectOps<S>, s: Sequencer<S>): (r: Sequencer<S>)
    ensures |s.scenes| == 0 ==> r == s
    ensures |s.scenes| > 0 && s.current + 1 < |s.scenes| ==> TransitionStarted(ops, s, r, s.current + 1)
    ensures |s.scenes| > 0 && s.current + 1 >= |s.scenes| && s.looping ==> TransitionStarted(ops, s, r, 0)
    ensures |s.scenes| > 0 && s.current + 1 >= |s.scenes| && !s.looping ==> r == s
    ensures s.Valid() ==> r.Valid()
  {
    if |s.scenes| == 0 then s
    else if s.current + 1 >= |s.scenes| then
      if s.looping then StartTransition(ops, s, 0) else s
    else StartTransition(ops, s, s.current + 1)
  }

  /** `prev_scene`: one step back; at scene 0 it wraps to the last scene only when looping. */
  function PrevScene<S>(ops: Effects.EffectOps<S>, s: Sequencer<S>): (r: Sequencer<S>)
    requires s.Valid()
    ensures |s.scenes| == 0 ==> r == s
    ensures |s.scenes| > 0 && s.current > 0 ==> TransitionStarted(ops, s, r, s.current - 1)
    ensures |s.scenes| > 0 && s.current == 0 && s.looping ==> TransitionStarted(ops, s, r, |s.scenes| - 1)
    ensures |s.scenes| > 0 && s.current == 0 && !s.looping ==> r == s
    ensures r.Valid()
  {
    if |s.scenes| == 0 then s
    else if s.current == 0 then
      if s.looping then StartTransition(ops, s, |s.scenes| - 1) else s
    else StartTransition(ops, s, s.current - 1)
  }

  /** `(elapsed / duration).min(1.0)`. A zero duration gives +inf (or NaN at elapsed 0,
      which `f64::min` discards), hence 1; for a negative elapsed it gives -inf, which every
      consumer treats exactly like 0 (it is clamped and is not `>= 1`). */
  function Progress(elapsed: real, duration: real): (p: real)
    ensures p <= 1.0
    ensures duration > 0.0 && elapsed >= duration ==> p == 1.0
    ensures duration > 0.0 && 0.0 <= elapsed < duration ==> 0.0 <= p < 1.0 && p * duration == elapsed
    ensures duration == 0.0 && elapsed >= 0.0 ==> p == 1.0
  {
    if duration == 0.0 then (if elapsed >= 0.0 then 1.0 else 0.0)
    else MinReal(elapsed / duration, 1.0)
  }

  /** The wipes panic on a zero width; the tick only reaches them while transitioning. */
  predicate UpdateDefined<S>(s: Sequencer<S>, n: nat)
    requires s.Valid()
  {
    !s.paused && |s.scenes| > 0 && s.transitioning ==>
      BlendDefined(s.scenes[s.current].transitionIn, s.width, Min3(n, |s.prevFrame|, n))
  }

  /** `update(dt, pixels)`: one tick. Returns the new state and the new output buffer. */
  function Update<S>(ops: Effects.EffectOps<S>, s: Sequencer<S>, dt: real, pixels: seq<Pixel>): (r: (Sequencer<S>, seq<Pixel>))
    requires s.Valid()
    requires UpdateDefined(s, |pixels|)
    ensures r.0.Valid()
    ensures |r.1| == |pixels|
    ensures |r.0.scenes| == |s.scenes| && r.0.looping == s.looping && r.0.paused == s.paused
    ensures r.0.width == s.width && r.0.height == s.height
    ensures s.paused || |s.scenes| == 0 ==> r.0 == s && r.1 == pixels
    ensures !s.paused && |s.scenes| > 0 ==> r.0.globalTime == s.globalTime + dt
  {
    if s.paused || |s.scenes| == 0 then (s, pixels)
    else
      var sc := s.scenes[s.current];
      var s1 := s.(globalTime := s.globalTime + dt, sceneTime := s.sceneTime + dt);
      if s.transitioning then
        var elapsed := s.transitionElapsed + dt;
        var progress := Progress(elapsed, sc.transitionDuration);
        var (eff, frame) := Effects.Update(ops, sc.effect, s1.sceneTime, dt, Pixels.Resize(s.nextFrame, |pixels|, Black));
        var out := ApplyTransition(sc.transitionIn, s.prevFrame, frame, pixels, s.width, s.height, progress);
        (s1.(transitionElapsed := elapsed, nextFrame := frame,
             scenes := s.scenes[s.current := sc.(effect := eff)],
             transitioning := !(progress >= 1.0)), out)
      else
        var (eff, out) := Effects.Update(ops, sc.effect, s1.sceneTime, dt, pixels);
        var s2 := s1.(prevFrame := out, scenes := s.scenes[s.current := sc.(effect := eff)]);
        if sc.duration.Some? && s1.sceneTime >= sc.duration.value then (NextScene(ops, s2), out) else (s2, out)
  }

  /** The state after the rendering half of a Playing tick, before the expiry check. */
  function PlayedState<S>(ops: Effects.EffectOps<S>, s: Sequencer<S>, dt: real, pixels: seq<Pixel>): Sequencer<S>
    requires s.Valid() && |s.scenes| > 0
  {
    var sc := s.scenes[s.current];
    var (eff, out) := Effects.Update(ops, sc.effect, s.sceneTime + dt, dt, pixels);
    s.(globalTime := s.globalTime + dt, sceneTime := s.sceneTime + dt, prevFrame := out,
       scenes := s.scenes[s.current := sc.(effect := eff)])
  }

  /** A Playing tick: the current effect draws straight into the output, `prevFrame` becomes
      an exact copy of that output, and an expired fixed duration behaves exactly like
      `next_scene` on the rendered state. */
  lemma PlayingTick<S>(ops: Effects.EffectOps<S>, s: Sequencer<S>, dt: real, pixels: seq<Pixel>)
    requires s.Valid() && !s.paused && |s.scenes| > 0 && !s.transitioning
    ensures UpdateDefined(s, |pixels|)
    ensures var r := Update(ops, s, dt, pixels);
      var sc := s.scenes[s.current];
      var played := PlayedState(ops, s, dt, pixels);
      && r.1 == Effects.Update(ops, sc.effect, s.sceneTime + dt, dt, pixels).1
      && r.0.prevFrame == r.1
      && played.prevFrame == r.1
      && (sc.duration.Some? && s.sceneTime + dt >= sc.duration.value ==> r.0 == NextScene(ops, played))
      && (sc.duration.None? || s.sceneTime + dt < sc.duration.value ==>
            r.0 == played && r.0.sceneTime == s.sceneTime + dt && r.0.current == s.current && !r.0.transitioning)
  {
  }

  /** A Transitioning tick: the target renders into `nextFrame`, the output is the blend
      of `prevFrame` into it at the clamped progress, `prevFrame` is not written, and the
      transition ends exactly when progress reaches 1. */
  lemma TransitioningTick<S>(ops: Effects.EffectOps<S>, s: Sequencer<S>, dt: real, pixels: seq<Pixel>)
    requires s.Valid() && !s.paused && |s.scenes| > 0 && s.transitioning
    requires UpdateDefined(s, |pixels|)
    ensures var r := Update(ops, s, dt, pixels);
      var sc := s.scenes[s.current];
      var progress := Progress(s.transitionElapsed + dt, sc.transitionDuration);
      var target := Effects.Update(ops, sc.effect, s.sceneTime + dt, dt, Pixels.Resize(s.nextFrame, |pixels|, Black));
      && r.0.nextFrame == target.1
      && r.1 == ApplyTransition(sc.transitionIn, s.prevFrame, target.1, pixels, s.width, s.height, progress)
      && r.0.prevFrame == s.prevFrame
      && r.0.transitioning == (progress < 1.0)
      && r.0.transitionElapsed == s.transitionElapsed + dt
      && r.0.sceneTime == s.sceneTime + dt
      && r.0.current == s.current
      && r.0.scenes[s.current].effect == target.0
  {
  }

  /** The last Transitioning tick shows the target's own frame exactly (given a snapshot
      that covers the output, and for WipeDown an output within `width*height`). */
  lemma TransitionEndsOnTarget<S>(ops: Effects.EffectOps<S>, s: Sequencer<S>, dt: real, pixels: seq<Pixel>)
    requires s.Valid() && !s.paused && |s.scenes| > 0 && s.transitioning
    requires UpdateDefined(s, |pixels|)
    requires |s.prevFrame| >= |pixels|
    requires s.scenes[s.current].transitionIn.WipeDown? ==> |pixels| <= s.width * s.height
    requires Progress(s.transitionElapsed + dt, s.scenes[s.current].transitionDuration) >= 1.0
    ensures var r := Update(ops, s, dt, pixels);
      var sc := s.scenes[s.current];
      && !r.0.transitioning
      && r.1 == Effects.Update(ops, sc.effect, s.sceneTime + dt, dt, Pixels.Resize(s.nextFrame, |pixels|, Black)).1
  {
    var sc := s.scenes[s.current];
    var progress := Progress(s.transitionElapsed + dt, sc.transitionDuration);
    var target := Effects.Update(ops, sc.effect, s.sceneTime + dt, dt, Pixels.Resize(s.nextFrame, |pixels|, Black));
    TransitioningTick(ops, s, dt, pixels);
    BlendEndsAtTo(sc.transitionIn, s.prevFrame, target.1, pixels, s.width, s.height, progress);
    var r := Update(ops, s, dt, pixels);
    assert r.1 == target.1;
  }

  /** Snapshot discipline: after a Playing tick that does not expire its scene, a jump to
      another scene crossfades from exactly the frame that tick showed. */
  lemma SnapshotFeedsNextTransition<S>(ops: Effects.EffectOps<S>, s: Sequencer<S>, dt1: real, pixels: seq<Pixel>,
                                       k: nat, dt2: real)
    requires s.Valid() && !s.paused && |s.scenes| > 0 && !s.transitioning && s.width > 0
    requires s.scenes[s.current].duration.None? || s.sceneTime + dt1 < s.scenes[s.current].duration.value
    requires k < |s.scenes| && k != s.current
    ensures var (s1, shown) := Update(ops, s, dt1, pixels);
      var s2 := GotoScene(ops, s1, k);
      && s2.transitioning && s2.current == k && s2.prevFrame == shown
      && UpdateDefined(s2, |shown|)
      && var (s3, out) := Update(ops, s2, dt2, shown);
         out == ApplyTransition(s.scenes[k].transitionIn, shown, s3.nextFrame, shown, s.width, s.height,
                                Progress(dt2, s.scenes[k].transitionDuration))
  {
    PlayingTick(ops, s, dt1, pixels);
    var (s1, shown) := Update(ops, s, dt1, pixels);
    var s2 := GotoScene(ops, s1, k);
    assert s2.scenes[k].transitionIn == s.scenes[k].transitionIn;
    assert s2.scenes[k].transitionDuration == s.scenes[k].transitionDuration;
    TransitioningTick(ops, s2, dt2, shown);
  }

  /** With one scene and looping on, `next_scene` re-enters the same scene: a transition
      starts and the scene's effect is initialised again. */
  lemma NextSceneRestartsSingleScene<S>(ops: Effects.EffectOps<S>, s: Sequencer<S>)
    requires |s.scenes| == 1 && s.current == 0 && s.looping
    ensures var r := NextScene(ops, s);
      r.current == 0 && r.transitioning && r.sceneTime == 0.0
      && r.initLog == s.initLog + [InitCall(0, s.width, s.height)]
  {
  }

  /** The scene whose effect receives input and parameter changes, if any. */
  function CurrentEffect<S>(s: Sequencer<S>): (e: Option<S>)
    ensures e.Some? <==> s.current < |s.scenes|
    ensures e.Some? ==> e.value == s.scenes[s.current].effect
  {
    if s.current < |s.scenes| then Some(s.scenes[s.current].effect) else None
  }

  /** Replaces the current scene's effect state (the target of `current_effect_mut`). */
  function WithCurrentEffect<S>(s: Sequencer<S>, e: S): (r: Sequencer<S>)
    requires s.current < |s.scenes|
    ensures |r.scenes| == |s.scenes| && r.scenes[s.current].effect == e
    ensures r.scenes[s.current] == s.scenes[s.current].(effect := e)
    ensures forall j :: 0 <= j < |s.scenes| && j != s.current ==> r.scenes[j] == s.scenes[j]
    ensures r.(scenes := s.scenes) == s
  {
    s.(scenes := s.scenes[s.current := s.scenes[s.current].(effect := e)])
  }
}
