/** The capability contract every visual routine satisfies, with the effect's internal state
    kept abstract as a type parameter `S` and its methods gathered in a table of functions. */
module Effects {
  import opened Pixels

  /** One adjustable numeric parameter as listed by `params()`. */
  datatype ParamDesc = ParamDesc(name: string, min: real, max: real, value: real)

  /** The method table of one effect: what each trait method does to the state `S`.
      `step` is the state after `update`, `paint(s, t, dt, old, i)` is pixel `i` of the
      frame it writes; `randomizeInit` receives the seed drawn from the caller's RNG. */
  datatype EffectOps<!S> = EffectOps(
    name: S -> string,
    init: (S, nat, nat) -> S,
    randomizeInit: (S, nat) -> S,
    step: (S, real, real, seq<Pixel>) -> S,
    paint: (S, real, real, seq<Pixel>, nat) -> Pixel,
    cleanup: S -> S,
    params: S -> seq<ParamDesc>,
    setParam: (S, string, real) -> S)

  /** `Effect::update(t, dt, pixels)`: the effect gets a borrowed slice, so it may rewrite
      any pixel value but the frame it hands back always has the length it was given. */
  function Update<S>(ops: EffectOps<S>, s: S, t: real, dt: real, pixels: seq<Pixel>): (r: (S, seq<Pixel>))
    ensures |r.1| == |pixels|
    ensures r.0 == ops.step(s, t, dt, pixels)
    ensures forall i :: 0 <= i < |pixels| ==> r.1[i] == ops.paint(s, t, dt, pixels, i)
  {
    (ops.step(s, t, dt, pixels), seq(|pixels|, i requires 0 <= i => ops.paint(s, t, dt, pixels, i)))
  }

  /** An effect that implements only the required methods (`name`, `init`, `update`) and
      inherits the trait's defaults for everything else. */
  function WithDefaults<S(!new)>(name: S -> string, init: (S, nat, nat) -> S,
                           step: (S, real, real, seq<Pixel>) -> S,
                           paint: (S, real, real, seq<Pixel>, nat) -> Pixel): (ops: EffectOps<S>)
    ensures ops.name == name && ops.init == init && ops.step == step && ops.paint == paint
    ensures forall s, seed :: ops.randomizeInit(s, seed) == s
    ensures forall s :: ops.cleanup(s) == s
    ensures forall s :: ops.params(s) == []
    ensures forall s, n, v :: ops.setParam(s, n, v) == s
  {
    EffectOps(name, init, (s, _) => s, step, paint, s => s, _ => [], (s, _, _) => s)
  }

  /** A parameter list is usable by the HUD clamp only when every range is non-empty;
      `f64::clamp` panics otherwise. */
  predicate WellFormedParams(ps: seq<ParamDesc>) {
    forall i :: 0 <= i < |ps| ==> ps[i].min <= ps[i].max
  }

  /** Every state of the effect lists only usable parameter ranges. */
  ghost predicate ParamsWellFormed<S(!new)>(ops: EffectOps<S>) {
    forall s :: WellFormedParams(ops.params(s))
  }
}
