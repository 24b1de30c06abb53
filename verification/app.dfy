/** The application shell: framebuffer, sequencer, mode, HUD flags and the dispatch of one
    user action. */
module Apps {
  import opened Pixels
  import opened Options
  import opened Input
  import opened Effects
  import Sequencers
  import Framebuffers

  datatype Mode = AutoPlay | Interactive

  datatype App<S> = App(
    fb: Framebuffers.Framebuffer,
    sequencer: Sequencers.Sequencer<S>,
    mode: Mode,
    showHud: bool,
    selectedParam: nat,
    shouldQuit: bool)

  /** The coupling that `run` establishes and `ToggleMode` maintains: the playlist loops
      exactly in AutoPlay. */
  predicate LoopingMatchesMode<S>(app: App<S>) {
    app.sequencer.looping <==> app.mode == AutoPlay
  }

  /** `App::new`: an empty framebuffer, the HUD shown exactly in Interactive mode. */
  function New<S>(sequencer: Sequencers.Sequencer<S>, mode: Mode): (app: App<S>)
    ensures app.fb.width == 0 && app.fb.height == 0 && app.fb.pixels == []
    ensures app.sequencer == sequencer && app.mode == mode
    ensures app.showHud <==> mode == Interactive
    ensures app.selectedParam == 0 && !app.shouldQuit
  {
    App(Framebuffers.New(0, 0), sequencer, mode, mode == Interactive, 0, false)
  }

  /** `App::init`: the framebuffer and the sequencer receive the same dimensions. */
  function Init<S>(ops: EffectOps<S>, app: App<S>, width: nat, height: nat): (r: App<S>)
    ensures r.fb == Framebuffers.Resize(app.fb, width, height)
    ensures r.sequencer == Sequencers.Init(ops, app.sequencer, width, height)
    ensures r.fb.width == r.sequencer.width == width && r.fb.height == r.sequencer.height == height
    ensures |r.fb.pixels| == |r.sequencer.prevFrame| == |r.sequencer.nextFrame| == width * height
    ensures r.(fb := app.fb, sequencer := app.sequencer) == app
  {
    app.(fb := Framebuffers.Resize(app.fb, width, height),
         sequencer := Sequencers.Init(ops, app.sequencer, width, height))
  }

  /** `App::resize`: the same forwarding through the sequencer's `resize`. */
  function Resize<S>(ops: EffectOps<S>, app: App<S>, width: nat, height: nat): (r: App<S>)
    ensures r.fb.width == r.sequencer.width == width && r.fb.height == r.sequencer.height == height
    ensures |r.fb.pixels| == |r.sequencer.prevFrame| == width * height
    ensures r.sequencer == Sequencers.Resize(ops, app.sequencer, width, height)
    ensures r.(fb := app.fb, sequencer := app.sequencer) == app
  {
    app.(fb := Framebuffers.Resize(app.fb, width, height),
         sequencer := Sequencers.Resize(ops, app.sequencer, width, height))
  }

  /** The parameter list of the current scene's effect (empty when there is none). */
  function CurrentParams<S>(ops: EffectOps<S>, app: App<S>): (ps: seq<ParamDesc>)
    ensures app.sequencer.current >= |app.sequencer.scenes| ==> ps == []
  {
    match Sequencers.CurrentEffect(app.sequencer)
    case None => []
    case Some(e) => ops.params(e)
  }

  /** `f64::clamp` panics on an empty range; only the selected parameter is ever clamped. */
  predicate AdjustDefined<S>(ops: EffectOps<S>, app: App<S>) {
    var ps := CurrentParams(ops, app);
    app.mode == Interactive && app.selectedParam < |ps| ==> ps[app.selectedParam].min <= ps[app.selectedParam].max
  }

  /** `adjust_param(delta)`: only in Interactive mode and only for an existing selected
      parameter, the effect receives `set_param(name, clamp(value + delta, min, max))`: the
      stepped value when it stays in range, otherwise the bound it would cross. */
  function AdjustParam<S>(ops: EffectOps<S>, app: App<S>, delta: real): (r: App<S>)
    requires AdjustDefined(ops, app)
    ensures app.mode != Interactive ==> r == app
    ensures app.selectedParam >= |CurrentParams(ops, app)| ==> r == app
    ensures app.mode == Interactive && app.selectedParam < |CurrentParams(ops, app)| ==>
      var sq := app.sequencer;
      var p := CurrentParams(ops, app)[app.selectedParam];
      && sq.current < |sq.scenes|
      && exists v :: && p.min <= v <= p.max
                     && (p.min <= p.value + delta <= p.max ==> v == p.value + delta)
                     && (p.value + delta < p.min ==> v == p.min)
                     && (p.value + delta > p.max ==> v == p.max)
                     && r.sequencer == Sequencers.WithCurrentEffect(sq, ops.setParam(sq.scenes[sq.current].effect, p.name, v))
    ensures r.(sequencer := app.sequencer) == app
  {
    if app.mode != Interactive then app
    else
      match Sequencers.CurrentEffect(app.sequencer)
      case None => app
      case Some(e) =>
        var ps := ops.params(e);
        if app.selectedParam < |ps| then
          var p := ps[app.selectedParam];
          var v := Clamp(p.value + delta, p.min, p.max);
          app.(sequencer := Sequencers.WithCurrentEffect(app.sequencer, ops.setParam(e, p.name, v)))
        else app
  }

  /** What one action demands: the undefined hold toggle is not dispatched, navigation needs
      a valid sequencer, and parameter steps need a clampable selected parameter. */
  predicate HandleDefined<S>(ops: EffectOps<S>, app: App<S>, action: Action) {
    && !action.ToggleHold?
    && app.sequencer.Valid()
    && (action.ParamUp? || action.ParamDown? ==> AdjustDefined(ops, app))
  }

  /** The `match` in `handle_input`, applied to the polled action. */
  function HandleAction<S>(ops: EffectOps<S>, app: App<S>, action: Action): (r: App<S>)
    requires HandleDefined(ops, app, action)
    ensures action.NoAction? ==> r == app
    ensures action.Quit? ==> r == app.(shouldQuit := true)
    ensures action.TogglePause? ==> r == app.(sequencer := app.sequencer.(paused := !app.sequencer.paused))
    ensures action.ToggleHud? ==> r == app.(showHud := !app.showHud)
    ensures action.ToggleMode? && app.mode == AutoPlay ==>
      r == app.(mode := Interactive, showHud := true, sequencer := app.sequencer.(looping := false))
    ensures action.ToggleMode? && app.mode == Interactive ==>
      r == app.(mode := AutoPlay, showHud := false, sequencer := app.sequencer.(looping := true))
    ensures action.NextScene? ==> r == app.(sequencer := Sequencers.NextScene(ops, app.sequencer), selectedParam := 0)
    ensures action.PrevScene? ==> r == app.(sequencer := Sequencers.PrevScene(ops, app.sequencer), selectedParam := 0)
    ensures action.GotoScene? ==>
      r == app.(sequencer := Sequencers.GotoScene(ops, app.sequencer, action.index), selectedParam := 0)
    ensures action.ParamUp? ==> r == AdjustParam(ops, app, 0.05)
    ensures action.ParamDown? ==> r == AdjustParam(ops, app, -0.05)
    ensures action.ParamPrev? ==> r == app.(selectedParam := if app.selectedParam == 0 then 0 else app.selectedParam - 1)
    ensures action.ParamNext? ==>
      var count := |CurrentParams(ops, app)|;
      r == app.(selectedParam := if count == 0 then app.selectedParam else Min(app.selectedParam + 1, count - 1))
  {
    match action
    case Quit => app.(shouldQuit := true)
    case TogglePause => app.(sequencer := Sequencers.TogglePause(app.sequencer))
    case ToggleMode =>
      if app.mode == AutoPlay then
        app.(sequencer := app.sequencer.(looping := false), showHud := true, mode := Interactive)
      else
        app.(sequencer := app.sequencer.(looping := true), showHud := false, mode := AutoPlay)
    case NextScene => app.(sequencer := Sequencers.NextScene(ops, app.sequencer), selectedParam := 0)
    case PrevScene => app.(sequencer := Sequencers.PrevScene(ops, app.sequencer), selectedParam := 0)
    case GotoScene(idx) => app.(sequencer := Sequencers.GotoScene(ops, app.sequencer, idx), selectedParam := 0)
    case ToggleHud => app.(showHud := !app.showHud)
    case ParamUp => AdjustParam(ops, app, 0.05)
    case ParamDown => AdjustParam(ops, app, -0.05)
    case ParamPrev => app.(selectedParam := if app.selectedParam == 0 then 0 else app.selectedParam - 1)
    case ParamNext =>
      (match Sequencers.CurrentEffect(app.sequencer)
       case None => app
       case Some(e) =>
         var count := |ops.params(e)|;
         if count > 0 then app.(selectedParam := Min(app.selectedParam + 1, count - 1)) else app)
    case NoAction => app
  }

  /** Every dispatchable action keeps `current` inside the playlist. */
  lemma HandleActionKeepsValid<S>(ops: EffectOps<S>, app: App<S>, action: Action)
    requires HandleDefined(ops, app, action)
    ensures HandleAction(ops, app, action).sequencer.Valid()
  {
  }

  /** Every dispatchable action keeps the playlist looping exactly in AutoPlay. */
  lemma HandleActionKeepsLoopingMatchesMode<S>(ops: EffectOps<S>, app: App<S>, action: Action)
    requires HandleDefined(ops, app, action)
    ensures LoopingMatchesMode(app) ==> LoopingMatchesMode(HandleAction(ops, app, action))
  {
  }

  /** Two mode toggles restore the app when the HUD and looping flags agree with the mode. */
  lemma ToggleModeTwiceRestores<S>(ops: EffectOps<S>, app: App<S>)
    requires HandleDefined(ops, app, ToggleMode)
    requires LoopingMatchesMode(app) && (app.showHud <==> app.mode == Interactive)
    ensures HandleDefined(ops, HandleAction(ops, app, ToggleMode), ToggleMode)
    ensures HandleAction(ops, HandleAction(ops, app, ToggleMode), ToggleMode) == app
  {
  }

  /** The parameter cursor never leaves a non-empty parameter list through `[` or `]`. */
  lemma ParamCursorStaysInRange<S>(ops: EffectOps<S>, app: App<S>, action: Action)
    requires HandleDefined(ops, app, action)
    requires action.ParamPrev? || action.ParamNext?
    requires app.selectedParam < |CurrentParams(ops, app)|
    ensures HandleAction(ops, app, action).selectedParam < |CurrentParams(ops, app)|
  {
  }

  /** An effect with the default empty parameter list ignores every parameter key. */
  lemma DefaultParamsIgnoreParamKeys<S>(ops: EffectOps<S>, app: App<S>, action: Action)
    requires HandleDefined(ops, app, action)
    requires action.ParamUp? || action.ParamDown? || action.ParamNext?
    requires forall e :: ops.params(e) == []
    ensures HandleAction(ops, app, action) == app
  {
    assert CurrentParams(ops, app) == [];
  }

  /** `App::update`: one sequencer tick writing into the framebuffer's pixels. */
  function Update<S>(ops: EffectOps<S>, app: App<S>, dt: real): (r: App<S>)
    requires app.sequencer.Valid()
    requires Sequencers.UpdateDefined(app.sequencer, |app.fb.pixels|)
    ensures |r.fb.pixels| == |app.fb.pixels|
    ensures r.fb.width == app.fb.width && r.fb.height == app.fb.height
    ensures (r.sequencer, r.fb.pixels) == Sequencers.Update(ops, app.sequencer, dt, app.fb.pixels)
    ensures r.(sequencer := app.sequencer, fb := app.fb) == app
  {
    var (sq, out) := Sequencers.Update(ops, app.sequencer, dt, app.fb.pixels);
    app.(sequencer := sq, fb := app.fb.(pixels := out))
  }
}
