/** The fixed-rate stepping shared by the two cellular automata: elapsed time accumulates,
    whole steps are taken from it (at most five per frame), and the remainder carries over. */
module Ticks {
  import opened Pixels

  const MaxStepsPerFrame: nat := 5

  /** `accum += gain; steps = (accum as u32).min(5); accum -= steps`. */
  function StepBudget(accum: real, gain: real): (r: (nat, real))
    ensures r.0 <= MaxStepsPerFrame
    ensures r.0 as real + r.1 == accum + gain
    ensures accum + gain <= 0.0 ==> r.0 == 0
    ensures 0.0 <= accum + gain ==> r.0 as real <= accum + gain && r.1 >= 0.0
    ensures 0.0 <= accum + gain < MaxStepsPerFrame as real ==> r.0 == (accum + gain).Floor && r.1 < 1.0
  {
    var a := accum + gain;
    var steps := Min(CastU32(a), MaxStepsPerFrame);
    (steps, a - steps as real)
  }

  function Sum(xs: seq<real>): real {
    if |xs| == 0 then 0.0 else xs[0] + Sum(xs[1..])
  }

  /** Steps taken and the final accumulator over a run of frames with the given gains. */
  function StepsOver(accum: real, gains: seq<real>): (r: (nat, real))
    decreases |gains|
  {
    if |gains| == 0 then (0, accum)
    else
      var (steps, rest) := StepBudget(accum, gains[0]);
      var (more, last) := StepsOver(rest, gains[1..]);
      (steps + more, last)
  }

  /** No time is lost or invented: over any run of frames, the steps taken plus what is left
      in the accumulator equal the starting accumulator plus all the time fed in. */
  lemma {:induction false} StepsConserveTime(accum: real, gains: seq<real>)
    ensures StepsOver(accum, gains).0 as real + StepsOver(accum, gains).1 == accum + Sum(gains)
    decreases |gains|
  {
    if |gains| > 0 {
      var (steps, rest) := StepBudget(accum, gains[0]);
      StepsConserveTime(rest, gains[1..]);
    }
  }

  /** With non-negative gains the carried remainder stays in [0, 1) whenever no frame hits the
      five-step cap: the automaton lags by less than one step. */
  lemma {:induction false} RemainderBelowOne(accum: real, gains: seq<real>)
    requires 0.0 <= accum < 1.0
    requires forall i :: 0 <= i < |gains| ==> 0.0 <= gains[i] < (MaxStepsPerFrame - 1) as real
    ensures 0.0 <= StepsOver(accum, gains).1 < 1.0
    decreases |gains|
  {
    if |gains| > 0 {
      var (steps, rest) := StepBudget(accum, gains[0]);
      RemainderBelowOne(rest, gains[1..]);
    }
  }
}
