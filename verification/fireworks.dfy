/** Fireworks: rockets launched from an accumulator (at most 8 in the air) rise until they
    reach their target height or stall, then burst into sparks (at most 2000 alive) that fall
    and burn out. The random draws are inputs; positions and velocities are reals. */
module Fireworks {
  import opened Pixels
  import opened Effects
  import opened Pools

  const MaxRockets: nat := 8
  const MaxSparks: nat := 2000

  datatype Rocket = Rocket(x: real, y: real, vy: real, targetY: real, hue: real)

  datatype Spark = Spark(x: real, y: real, vx: real, vy: real, life: real, hue: real)

  /** The random part of one spark: its velocity (from a random angle and speed), its life
      and its hue (the burst's hue with a small random shift). */
  datatype SparkDraw = SparkDraw(vx: real, vy: real, life: real, hue: real)

  /** Where a rocket burst and in which hue. */
  datatype Burst = Burst(x: real, y: real, hue: real)

  datatype Show = Show(
    width: nat,
    height: nat,
    intensity: real,
    gravity: real,
    sparks: seq<Spark>,
    rockets: seq<Rocket>,
    launchAccum: real)

  /** The pool caps that every update keeps. */
  predicate Bounded(f: Show) {
    |f.rockets| <= MaxRockets && |f.sparks| <= MaxSparks
  }

  /** `Fireworks::new`. */
  function New(): (f: Show)
    ensures Bounded(f) && f.rockets == [] && f.sparks == [] && f.launchAccum == 0.0
    ensures f.intensity == 1.0 && f.gravity == 1.0
  {
    Show(0, 0, 1.0, 1.0, [], [], 0.0)
  }

  /** `init(w, h)`: the sky is emptied and the launch accumulator reset. */
  function Init(f: Show, w: nat, h: nat): (r: Show)
    ensures Bounded(r) && r.rockets == [] && r.sparks == [] && r.launchAccum == 0.0
    ensures r.width == w && r.height == h
    ensures r.intensity == f.intensity && r.gravity == f.gravity
  {
    f.(width := w, height := h, sparks := [], rockets := [], launchAccum := 0.0)
  }

  /** The trail fade applied to the frame before anything is drawn. */
  function FadeSky(pixels: seq<Pixel>): (r: seq<Pixel>)
    ensures |r| == |pixels|
    ensures forall i :: 0 <= i < |r| ==> r[i] == Dim(pixels[i], 10, 10, 12)
  {
    Map(pixels, (p: Pixel) => Dim(p, 10, 10, 12))
  }

  /** The launch loop: `launch_accum` grows by `dt * intensity * 2.5` and each whole unit
      launches one rocket from the bottom row while fewer than 8 are in the air. */
  function Launch(f: Show, dt: real, draw: nat -> Rocket): (r: (seq<Rocket>, real))
    ensures var n := EmitCount(f.launchAccum + dt * f.intensity * 2.5, |f.rockets|, MaxRockets);
      && f.rockets <= r.0 && |r.0| == |f.rockets| + n
      && r.1 == f.launchAccum + dt * f.intensity * 2.5 - n as real
      && forall i :: |f.rockets| <= i < |r.0| ==> r.0[i].y == f.height as real - 1.0
    ensures |f.rockets| <= MaxRockets ==> |r.0| <= MaxRockets
  {
    Emit(f.rockets, f.launchAccum + dt * f.intensity * 2.5, MaxRockets,
         i => draw(i).(y := f.height as real - 1.0))
  }

  /** One frame of flight: the rocket rises by its velocity, which gravity (`gravity * 120`,
      scaled by 0.3) slows. */
  function MoveRocket(r: Rocket, grav: real, dt: real): (m: Rocket)
    ensures m.y == r.y + r.vy * dt && m.vy == r.vy + grav * 0.3 * dt
    ensures m.(y := r.y, vy := r.vy) == r
  {
    r.(y := r.y + r.vy * dt, vy := r.vy + grav * 0.3 * dt)
  }

  /** A rocket bursts once it has reached its target height or stopped rising. */
  predicate Bursts(r: Rocket) {
    r.y <= r.targetY || r.vy >= 0.0
  }

  predicate Flying(r: Rocket) {
    !Bursts(r)
  }

  function BurstOf(r: Rocket): Burst {
    Burst(r.x, r.y, r.hue)
  }

  /** The rockets after moving, before `retain` sorts them into flying and bursting. */
  function Moved(rockets: seq<Rocket>, gravity: real, dt: real): (m: seq<Rocket>)
    ensures |m| == |rockets|
    ensures forall i :: 0 <= i < |m| ==> m[i] == MoveRocket(rockets[i], gravity * 120.0, dt)
  {
    Map(rockets, (r: Rocket) => MoveRocket(r, gravity * 120.0, dt))
  }

  /** The sparks of one burst: all at the burst's position, the rest drawn. */
  function SparksOf(b: Burst, ds: seq<SparkDraw>): (s: seq<Spark>)
    ensures |s| == |ds|
    ensures forall i :: 0 <= i < |s| ==> s[i] == Spark(b.x, b.y, ds[i].vx, ds[i].vy, ds[i].life, ds[i].hue)
  {
    Map(ds, (d: SparkDraw) => Spark(b.x, b.y, d.vx, d.vy, d.life, d.hue))
  }

  /** `usize::saturating_sub`. */
  function SatSub(a: nat, b: nat): (c: nat)
    ensures a >= b ==> c == a - b
    ensures a < b ==> c == 0
  {
    if a >= b then a - b else 0
  }

  /** The spark creation loop over the bursts `bursts`, the `j`-th of which draws
      `burst(j)` (60 to 120 sparks in the source): each creates only as many as still fit
      under the cap of 2000. */
  function Explode(sparks: seq<Spark>, bursts: seq<Burst>, burst: nat -> seq<SparkDraw>, j: nat): (r: seq<Spark>)
    ensures sparks <= r
    ensures |sparks| >= MaxSparks ==> r == sparks
    ensures |sparks| <= MaxSparks ==> |r| <= MaxSparks
    decreases |bursts|
  {
    if |bursts| == 0 then sparks
    else
      var ds := burst(j);
      var n := Min(|ds|, SatSub(MaxSparks, |sparks|));
      Explode(sparks + SparksOf(bursts[0], ds[..n]), bursts[1..], burst, j + 1)
  }

  /** The number of sparks drawn for `n` bursts starting with the `j`-th. */
  function Drawn(burst: nat -> seq<SparkDraw>, j: nat, n: nat): nat
    decreases n
  {
    if n == 0 then 0 else |burst(j)| + Drawn(burst, j + 1, n - 1)
  }

  /** The cap truncates and nothing else does: the pool grows by all the sparks drawn, up to
      2000. */
  lemma {:induction false} ExplodeCount(sparks: seq<Spark>, bursts: seq<Burst>, burst: nat -> seq<SparkDraw>, j: nat)
    requires |sparks| <= MaxSparks
    ensures |Explode(sparks, bursts, burst, j)| == Min(MaxSparks, |sparks| + Drawn(burst, j, |bursts|))
    decreases |bursts|
  {
    if |bursts| > 0 {
      var ds := burst(j);
      var n := Min(|ds|, SatSub(MaxSparks, |sparks|));
      ExplodeCount(sparks + SparksOf(bursts[0], ds[..n]), bursts[1..], burst, j + 1);
    }
  }

  /** One frame of a spark: gravity, then 1% air drag on both velocity components, then the
      move; its life burns down by `1.2 * dt`. */
  function MoveSpark(s: Spark, grav: real, dt: real): (m: Spark)
    ensures m.life == s.life - dt * 1.2 && m.hue == s.hue
  {
    var vx := s.vx * 0.99;
    var vy := (s.vy + grav * dt) * 0.99;
    Spark(s.x + vx * dt, s.y + vy * dt, vx, vy, s.life - dt * 1.2, s.hue)
  }

  predicate Alive(s: Spark) {
    s.life > 0.0
  }

  /** The sparks after moving, without the burnt-out ones. */
  function Burn(sparks: seq<Spark>, gravity: real, dt: real): (r: seq<Spark>)
    ensures |r| <= |sparks|
    ensures forall i :: 0 <= i < |r| ==> Alive(r[i])
  {
    Keep(Map(sparks, (s: Spark) => MoveSpark(s, gravity * 120.0, dt)), Alive)
  }

  /** The rockets that burst this frame, in launch order. */
  function Bursting(f: Show, dt: real, draw: nat -> Rocket): seq<Burst> {
    Map(Keep(Moved(Launch(f, dt, draw).0, f.gravity, dt), Bursts), BurstOf)
  }

  /** The physics part of `update(t, dt, pixels)`: nothing on an empty screen; otherwise
      launch, fly (bursting rockets leave the pool), create the sparks of the bursts, then
      move all sparks and drop the burnt-out ones. */
  function Update(f: Show, dt: real, draw: nat -> Rocket, burst: nat -> seq<SparkDraw>): (r: Show)
    ensures f.width == 0 || f.height == 0 ==> r == f
    ensures Bounded(f) ==> Bounded(r)
    ensures f.width > 0 && f.height > 0 ==>
      && r.launchAccum == Launch(f, dt, draw).1
      && (forall i :: 0 <= i < |r.rockets| ==> Flying(r.rockets[i]))
      && (forall i :: 0 <= i < |r.sparks| ==> Alive(r.sparks[i]))
    ensures r.(sparks := f.sparks, rockets := f.rockets, launchAccum := f.launchAccum) == f
  {
    if f.width == 0 || f.height == 0 then f
    else
      var launched := Launch(f, dt, draw);
      var moved := Moved(launched.0, f.gravity, dt);
      var sparks := Explode(f.sparks, Bursting(f, dt, draw), burst, 0);
      f.(rockets := Keep(moved, Flying), launchAccum := launched.1, sparks := Burn(sparks, f.gravity, dt))
  }

  /** Every rocket in the air after the launch either flies on or bursts, never both and
      never neither. */
  lemma RocketsFlyOrBurst(f: Show, dt: real, draw: nat -> Rocket, burst: nat -> seq<SparkDraw>)
    requires f.width > 0 && f.height > 0
    ensures |Update(f, dt, draw, burst).rockets| + |Bursting(f, dt, draw)|
            == |f.rockets| + EmitCount(f.launchAccum + dt * f.intensity * 2.5, |f.rockets|, MaxRockets)
  {
    var moved := Moved(Launch(f, dt, draw).0, f.gravity, dt);
    KeepSplits(moved, Bursts, Flying);
  }

  /** A rocket in the air after the launch stays in the pool exactly when its move leaves it
      short of its target and still rising. */
  lemma RocketRemovedExactlyWhenBursting(f: Show, dt: real, draw: nat -> Rocket, burst: nat -> seq<SparkDraw>, i: nat)
    requires f.width > 0 && f.height > 0 && i < |Launch(f, dt, draw).0|
    ensures var m := MoveRocket(Launch(f, dt, draw).0[i], f.gravity * 120.0, dt);
      m in Update(f, dt, draw, burst).rockets <==> !Bursts(m)
  {
    var moved := Moved(Launch(f, dt, draw).0, f.gravity, dt);
    KeepMembership(moved, Flying, moved[i]);
  }

  /** A spark in the pool once this frame's bursts are added, carried over or just created,
      survives exactly when its life after burning is still positive. */
  lemma SparkRemovedExactlyWhenBurntOut(f: Show, dt: real, draw: nat -> Rocket, burst: nat -> seq<SparkDraw>, s: Spark)
    requires f.width > 0 && f.height > 0
    requires s in Explode(f.sparks, Bursting(f, dt, draw), burst, 0)
    ensures var m := MoveSpark(s, f.gravity * 120.0, dt);
      m in Update(f, dt, draw, burst).sparks <==> m.life > 0.0
  {
    var sparks := Explode(f.sparks, Bursting(f, dt, draw), burst, 0);
    var all := Map(sparks, (s: Spark) => MoveSpark(s, f.gravity * 120.0, dt));
    var k :| 0 <= k < |sparks| && sparks[k] == s;
    assert all[k] == MoveSpark(s, f.gravity * 120.0, dt);
    KeepMembership(all, Alive, all[k]);
  }

  /** `params()`: intensity in [0.3, 4] and gravity in [0.3, 3]. */
  function Params(f: Show): (ps: seq<ParamDesc>)
    ensures WellFormedParams(ps) && |ps| == 2
    ensures ps[0] == ParamDesc("intensity", 0.3, 4.0, f.intensity)
    ensures ps[1] == ParamDesc("gravity", 0.3, 3.0, f.gravity)
  {
    [ParamDesc("intensity", 0.3, 4.0, f.intensity), ParamDesc("gravity", 0.3, 3.0, f.gravity)]
  }

  /** `set_param(name, value)`: the two listed names store the value; others are ignored. */
  function SetParam(f: Show, name: string, value: real): (r: Show)
    ensures name == "intensity" ==> r == f.(intensity := value)
    ensures name == "gravity" ==> r == f.(gravity := value)
    ensures name != "intensity" && name != "gravity" ==> r == f
  {
    if name == "intensity" then f.(intensity := value)
    else if name == "gravity" then f.(gravity := value)
    else f
  }

  /** Setting a listed parameter is read back by `params()`, and leaves the other one alone. */
  lemma SetParamReadsBack(f: Show, k: nat, value: real)
    requires k < 2
    ensures var ps := Params(SetParam(f, Params(f)[k].name, value));
      ps[k].value == value && ps[1 - k] == Params(f)[1 - k]
  {
    assert "intensity" != "gravity";
  }
}
