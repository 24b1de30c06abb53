/** The fountain: particles emitted from the bottom centre at `emission` per second (at most
    500 alive), thrown upward, pulled down by gravity and faded out over two seconds. The
    random draws are inputs; positions and velocities are reals. */
module Fountain {
  import opened Pixels
  import opened Effects
  import opened Pools

  const MaxParticles: nat := 500

  datatype Particle = Particle(x: real, y: real, vx: real, vy: real, life: real)

  /** The random part of one emission: the launch angle, the speed, and the sideways jitter
      of the start position. */
  datatype ParticleDraw = ParticleDraw(angle: real, speed: real, jitter: real)

  datatype Spray = Spray(
    width: nat,
    height: nat,
    gravity: real,
    emission: real,
    particles: seq<Particle>,
    emitAccum: real)

  /** `Fountain::new`. */
  function New(): (f: Spray)
    ensures f.particles == [] && f.emitAccum == 0.0
    ensures f.gravity == 1.0 && f.emission == 80.0
  {
    Spray(0, 0, 1.0, 80.0, [], 0.0)
  }

  /** `init(w, h)`: the pool is emptied and the accumulator reset. */
  function Init(f: Spray, w: nat, h: nat): (r: Spray)
    ensures r.particles == [] && r.emitAccum == 0.0
    ensures r.width == w && r.height == h
    ensures r.gravity == f.gravity && r.emission == f.emission
  {
    f.(width := w, height := h, particles := [], emitAccum := 0.0)
  }

  /** The trail fade applied to the frame before the particles are drawn. */
  function FadeTrails(pixels: seq<Pixel>): (r: seq<Pixel>)
    ensures |r| == |pixels|
    ensures forall i :: 0 <= i < |r| ==> r[i] == Dim(pixels[i], 12, 12, 15)
  {
    Map(pixels, (p: Pixel) => Dim(p, 12, 12, 15))
  }

  /** A new particle: at the bottom centre (plus jitter), thrown up at the drawn speed and
      angle, with full life. */
  function Emitted(w: nat, h: nat, d: ParticleDraw): (p: Particle)
    ensures p.life == 1.0 && p.y == h as real - 1.0
  {
    Particle(w as real * 0.5 + d.jitter, h as real - 1.0, d.angle * d.speed, -d.speed, 1.0)
  }

  /** The emission loop: `emit_accum` grows by `dt * emission` and each whole unit emits one
      particle while fewer than 500 are alive. */
  function Emission(f: Spray, dt: real, draw: nat -> ParticleDraw): (r: (seq<Particle>, real))
    ensures var n := EmitCount(f.emitAccum + dt * f.emission, |f.particles|, MaxParticles);
      && f.particles <= r.0 && |r.0| == |f.particles| + n
      && r.1 == f.emitAccum + dt * f.emission - n as real
      && forall i :: |f.particles| <= i < |r.0| ==> r.0[i] == Emitted(f.width, f.height, draw(i))
    ensures |f.particles| <= MaxParticles ==> |r.0| <= MaxParticles
  {
    Emit(f.particles, f.emitAccum + dt * f.emission, MaxParticles, i => Emitted(f.width, f.height, draw(i)))
  }

  /** One frame of a particle: gravity (`gravity * 200`) on the vertical speed, the move, and
      half of `dt` off its life. */
  function Move(p: Particle, grav: real, dt: real): (m: Particle)
    ensures m.life == p.life - dt * 0.5 && m.vx == p.vx
  {
    var vy := p.vy + grav * dt;
    Particle(p.x + p.vx * dt, p.y + vy * dt, p.vx, vy, p.life - dt * 0.5)
  }

  predicate Alive(p: Particle) {
    p.life > 0.0
  }

  /** The `retain_mut` pass: every particle moves, and those whose life is used up go. */
  function Age(ps: seq<Particle>, gravity: real, dt: real): (r: seq<Particle>)
    ensures |r| <= |ps|
    ensures forall i :: 0 <= i < |r| ==> Alive(r[i])
  {
    Keep(Map(ps, (p: Particle) => Move(p, gravity * 200.0, dt)), Alive)
  }

  /** The physics part of `update(t, dt, pixels)`: nothing on an empty screen; otherwise
      emission, then the move-and-retain pass. */
  function Update(f: Spray, dt: real, draw: nat -> ParticleDraw): (r: Spray)
    ensures f.width == 0 || f.height == 0 ==> r == f
    ensures |f.particles| <= MaxParticles ==> |r.particles| <= MaxParticles
    ensures f.width > 0 && f.height > 0 ==>
      && r.emitAccum == Emission(f, dt, draw).1
      && r.particles == Age(Emission(f, dt, draw).0, f.gravity, dt)
    ensures r.(particles := f.particles, emitAccum := f.emitAccum) == f
  {
    if f.width == 0 || f.height == 0 then f
    else
      var emitted := Emission(f, dt, draw);
      f.(particles := Age(emitted.0, f.gravity, dt), emitAccum := emitted.1)
  }

  /** A particle in the pool after emission survives the frame exactly when its life, less
      half of `dt`, is still positive. */
  lemma ParticleSurvivesExactlyWhileAlive(f: Spray, dt: real, draw: nat -> ParticleDraw, i: nat)
    requires f.width > 0 && f.height > 0 && i < |Emission(f, dt, draw).0|
    ensures var p := Emission(f, dt, draw).0[i];
      Move(p, f.gravity * 200.0, dt) in Update(f, dt, draw).particles <==> p.life - dt * 0.5 > 0.0
  {
    var ps := Emission(f, dt, draw).0;
    var all := Map(ps, (p: Particle) => Move(p, f.gravity * 200.0, dt));
    KeepMembership(all, Alive, all[i]);
  }

  /** The particles emitted this frame start with full life, so with a frame shorter than two
      seconds they all survive it. */
  lemma FreshParticlesSurviveShortFrames(f: Spray, dt: real, draw: nat -> ParticleDraw, i: nat)
    requires f.width > 0 && f.height > 0 && dt < 2.0
    requires |f.particles| <= i < |Emission(f, dt, draw).0|
    ensures Move(Emission(f, dt, draw).0[i], f.gravity * 200.0, dt) in Update(f, dt, draw).particles
  {
    ParticleSurvivesExactlyWhileAlive(f, dt, draw, i);
  }

  /** `params()`: gravity in [0.3, 3] and emission in [20, 200]. */
  function Params(f: Spray): (ps: seq<ParamDesc>)
    ensures WellFormedParams(ps) && |ps| == 2
    ensures ps[0] == ParamDesc("gravity", 0.3, 3.0, f.gravity)
    ensures ps[1] == ParamDesc("emission", 20.0, 200.0, f.emission)
  {
    [ParamDesc("gravity", 0.3, 3.0, f.gravity), ParamDesc("emission", 20.0, 200.0, f.emission)]
  }

  /** `set_param(name, value)`: the two listed names store the value; others are ignored. */
  function SetParam(f: Spray, name: string, value: real): (r: Spray)
    ensures name == "gravity" ==> r == f.(gravity := value)
    ensures name == "emission" ==> r == f.(emission := value)
    ensures name != "gravity" && name != "emission" ==> r == f
  {
    if name == "gravity" then f.(gravity := value)
    else if name == "emission" then f.(emission := value)
    else f
  }

  /** Setting a listed parameter is read back by `params()`, and leaves the other one alone. */
  lemma SetParamReadsBack(f: Spray, k: nat, value: real)
    requires k < 2
    ensures var ps := Params(SetParam(f, Params(f)[k].name, value));
      ps[k].value == value && ps[1 - k] == Params(f)[1 - k]
  {
    assert "gravity" != "emission";
  }
}
