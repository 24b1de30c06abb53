/** A playlist entry: one effect plus its lifetime and entry-transition policy. */
module Scenes {
  import opened Transitions
  import opened Options

  datatype Scene<S> = Scene(effect: S, duration: Option<real>, transitionIn: TransitionKind, transitionDuration: real)

  /** `Scene::new`: indefinite duration, entered with a 1.5 s dissolve. */
  function New<S>(effect: S): (sc: Scene<S>)
    ensures sc.effect == effect
    ensures sc.duration == None
    ensures sc.transitionIn == Dissolve && sc.transitionDuration == 1.5
  {
    Scene(effect, None, Dissolve, 1.5)
  }

  /** `with_duration`: fixes the play time and nothing else. */
  function WithDuration<S>(sc: Scene<S>, secs: real): (r: Scene<S>)
    ensures r.duration == Some(secs)
    ensures r.(duration := sc.duration) == sc
  {
    sc.(duration := Some(secs))
  }

  /** `with_transition`: sets the entry blend and its length and nothing else. */
  function WithTransition<S>(sc: Scene<S>, kind: TransitionKind, secs: real): (r: Scene<S>)
    ensures r.transitionIn == kind && r.transitionDuration == secs
    ensures r.(transitionIn := sc.transitionIn, transitionDuration := sc.transitionDuration) == sc
  {
    sc.(transitionIn := kind, transitionDuration := secs)
  }

  /** The two builders touch disjoint fields, so their order does not matter. */
  lemma BuildersCommute<S>(sc: Scene<S>, secs: real, kind: TransitionKind, tsecs: real)
    ensures WithTransition(WithDuration(sc, secs), kind, tsecs) == WithDuration(WithTransition(sc, kind, tsecs), secs)
  {
  }
}
