/** The chaos game drawing a Sierpinski triangle: a point repeatedly moves halfway toward one
    of three vertices chosen by the 64-bit LCG, brightening the buffer pixel it lands on toward
    that vertex's colour by at most 60 per channel. */
module Sierpinski {
  import opened Pixels
  import opened Options
  import opened Effects
  import opened Lcg
  import Grids

  /** The number of iterations after which the buffer starts to fade. */
  const FadeAfter: nat := 50000
  /** The most one landing raises a channel. */
  const BlendStep: nat := 60

  /** The vertex colours: red, green, blue. */
  const Colours: seq<Pixel> := [Pixel(255, 60, 60), Pixel(60, 255, 80), Pixel(60, 100, 255)]

  datatype Chaos = Chaos(
    width: nat,
    height: nat,
    speed: real,
    rotation: real,
    buffer: seq<Pixel>,
    x: real,
    y: real,
    lcg: U64,
    total: nat)
  {
    /** The buffer covers the screen. */
    predicate Sized() {
      |buffer| == width * height
    }
  }

  /** `Sierpinski::new`. */
  function New(): (c: Chaos)
    ensures c.width == 0 && c.height == 0 && c.Sized()
    ensures c.speed == 1.0 && c.rotation == 0.5 && c.lcg == 12345 && c.total == 0
  {
    Chaos(0, 0, 1.0, 0.5, [], 0.0, 0.0, 12345, 0)
  }

  /** The generator's starting state `w*31337 + h*7919 + 42`, computed in `u64`. */
  function SeedState(w: nat, h: nat): U64 {
    (w * 31337 + h * 7919 + 42) % Modulus
  }

  /** `init(w, h)`: a black buffer of `w*h` pixels, the point at the centre, the generator
      seeded from the dimensions alone and the iteration counter reset. */
  function Init(c: Chaos, w: nat, h: nat): (r: Chaos)
    ensures r.Sized() && r.width == w && r.height == h
    ensures forall i :: 0 <= i < |r.buffer| ==> r.buffer[i] == Black
    ensures r.x * 2.0 == w as real && r.y * 2.0 == h as real
    ensures r.total == 0
    ensures r.speed == c.speed && r.rotation == c.rotation
  {
    Chaos(w, h, c.speed, c.rotation, Repeat(Black, w * h), w as real / 2.0, h as real / 2.0, SeedState(w, h), 0)
  }

  /** `init` is deterministic in the dimensions: apart from the two parameters, it forgets
      everything about the state it was given, including the generator. */
  lemma InitForgetsState(c: Chaos, c': Chaos, w: nat, h: nat)
    ensures Init(c', w, h).(speed := c.speed, rotation := c.rotation) == Init(c, w, h)
    ensures Init(c, w, h).lcg == SeedState(w, h)
  {
  }

  /** `r % 3`: the vertex a draw selects. */
  function Vertex(r: U64): (v: nat)
    ensures v < 3
    ensures (r - v) % 3 == 0
  {
    r % 3
  }

  /** The `blend` closure: a channel below the vertex colour's rises toward it by at most 60;
      a channel already at or above it is kept. The `u8` saturating add is written as a plain
      sum, which never exceeds `c` and so never saturates (the `U8` subset check proves it). */
  function Blend(o: U8, c: U8): (r: U8)
    ensures c <= o ==> r == o
    ensures o <= r <= Max(o, c)
    ensures c > o ==> r == o + Min(c - o, BlendStep)
  {
    if c > o then o + Min(c - o, BlendStep) else o
  }

  /** `k` landings of the same vertex on one channel. */
  function BlendTimes(o: U8, c: U8, k: nat): U8
    decreases k
  {
    if k == 0 then o else BlendTimes(Blend(o, c), c, k - 1)
  }

  /** Landings on one vertex reach its colour: after `k` of them, with `60k` at least the
      gap, a channel is exactly the larger of where it was and the colour. */
  lemma {:induction false} BlendTimesReachesColour(o: U8, c: U8, k: nat)
    requires k * BlendStep >= c - o
    ensures BlendTimes(o, c, k) == Max(o, c)
    decreases k
  {
    if k > 0 {
      var o' := Blend(o, c);
      if c <= o {
        BlendTimesReachesColour(o', c, k - 1);
      } else if c - o <= BlendStep {
        BlendTimesReachesColour(o', c, k - 1);
      } else {
        assert o' == o + BlendStep;
        BlendTimesReachesColour(o', c, k - 1);
      }
    } else {
      assert c <= o;
    }
  }

  /** Since no channel gap exceeds 255, five landings always suffice. */
  lemma FiveLandingsReachColour(o: U8, c: U8)
    ensures BlendTimes(o, c, 5) == Max(o, c)
  {
    BlendTimesReachesColour(o, c, 5);
  }

  /** The blend of a pixel toward a colour, channel by channel. */
  function BlendPixel(o: Pixel, c: Pixel): Pixel {
    Pixel(Blend(o.r, c.r), Blend(o.g, c.g), Blend(o.b, c.b))
  }

  /** Every channel of `b` is at least that of `a`, pixel by pixel. */
  predicate Brighter(a: seq<Pixel>, b: seq<Pixel>) {
    |a| == |b| && forall i :: 0 <= i < |a| ==> a[i].r <= b[i].r && a[i].g <= b[i].g && a[i].b <= b[i].b
  }

  lemma BrighterTransitive(a: seq<Pixel>, b: seq<Pixel>, c: seq<Pixel>)
    requires Brighter(a, b) && Brighter(b, c)
    ensures Brighter(a, c)
  {
  }

  /** The gentle fade: every channel of every pixel drops by one, stopping at zero. */
  function Fade(buffer: seq<Pixel>): (r: seq<Pixel>)
    ensures Brighter(r, buffer)
    ensures forall i :: 0 <= i < |r| ==>
      r[i].r + 1 >= buffer[i].r && r[i].g + 1 >= buffer[i].g && r[i].b + 1 >= buffer[i].b
    ensures forall i :: 0 <= i < |r| && buffer[i] == Black ==> r[i] == Black
  {
    seq(|buffer|, i requires 0 <= i < |buffer| =>
      Pixel(SatSubU8(buffer[i].r, 1), SatSubU8(buffer[i].g, 1), SatSubU8(buffer[i].b, 1)))
  }

  /** The buffer slot the point lands in: `(x as i32, y as i32)` when on screen, else none. */
  function Landing(w: nat, h: nat, x: real, y: real): (slot: Option<nat>)
    ensures slot.Some? ==> slot.value < w * h
    ensures slot.Some? <==> 0 <= TruncInt(x) < w && 0 <= TruncInt(y) < h
  {
    var ix, iy := TruncInt(x), TruncInt(y);
    if 0 <= ix < w && 0 <= iy < h then
      Grids.IndexInGrid(ix, iy, w, h, iy * w, h * w);
      Some(iy * w + ix)
    else None
  }

  /** One iteration of the chaos game toward the three (rotating) vertices. */
  function Iterate(c: Chaos, verts: seq<(real, real)>): (r: Chaos)
    requires c.Sized() && |verts| == 3
    ensures r.Sized() && r.width == c.width && r.height == c.height
    ensures r.lcg == Next(c.lcg) && r.total == c.total + 1
    ensures Brighter(c.buffer, r.buffer)
    ensures var v := Vertex(r.lcg);
      && r.x == (c.x + verts[v].0) * 0.5 && r.y == (c.y + verts[v].1) * 0.5
      && forall i :: 0 <= i < |c.buffer| ==>
           r.buffer[i] == if Landing(c.width, c.height, r.x, r.y) == Some(i)
                          then BlendPixel(c.buffer[i], Colours[v]) else c.buffer[i]
    ensures r.(buffer := c.buffer, x := c.x, y := c.y, lcg := c.lcg, total := c.total) == c
  {
    var s := Next(c.lcg);
    var v := Vertex(s);
    var x, y := (c.x + verts[v].0) * 0.5, (c.y + verts[v].1) * 0.5;
    var buffer :=
      match Landing(c.width, c.height, x, y)
      case None => c.buffer
      case Some(i) => c.buffer[i := BlendPixel(c.buffer[i], Colours[v])];
    c.(lcg := s, x := x, y := y, buffer := buffer, total := c.total + 1)
  }

  /** `k` iterations in a row. */
  function IterateTimes(c: Chaos, verts: seq<(real, real)>, k: nat): (r: Chaos)
    requires c.Sized() && |verts| == 3
    ensures r.Sized() && r.width == c.width && r.height == c.height
    decreases k
  {
    if k == 0 then c else IterateTimes(Iterate(c, verts), verts, k - 1)
  }

  /** Over `k` iterations the counter grows by `k`, the generator has drawn the next `k`
      states of its stream, and no pixel has dimmed. */
  lemma {:induction false} IterateTimesFollowsStream(c: Chaos, verts: seq<(real, real)>, k: nat)
    requires c.Sized() && |verts| == 3
    ensures IterateTimes(c, verts, k).total == c.total + k
    ensures IterateTimes(c, verts, k).lcg == if k == 0 then c.lcg else Stream(c.lcg, k)[k - 1]
    ensures Brighter(c.buffer, IterateTimes(c, verts, k).buffer)
    decreases k
  {
    if k > 0 {
      var c1 := Iterate(c, verts);
      IterateTimesFollowsStream(c1, verts, k - 1);
      BrighterTransitive(c.buffer, c1.buffer, IterateTimes(c1, verts, k - 1).buffer);
      StreamSplits(c.lcg, 1, k - 1);
      assert Stream(c.lcg, 1) == [c1.lcg];
    }
  }

  /** Rust's `x as usize` for a float on a 64-bit target: truncation, saturating. */
  function CastUsize(x: real): (n: nat)
    ensures n < Modulus
    ensures 0.0 <= x < Modulus as real ==> n == x.Floor
    ensures x <= 0.0 ==> n == 0
  {
    if x <= 0.0 then 0 else if x >= Modulus as real then Modulus - 1 else x.Floor
  }

  /** The number of iterations one update runs: `5000 * speed` truncated. */
  function Iterations(speed: real): (n: nat)
    ensures speed <= 0.0 ==> n == 0
    ensures 0.5 <= speed <= 3.0 ==> 2500 <= n <= 15000
  {
    CastUsize(5000.0 * speed)
  }

  /** `update(t, dt, pixels)` with the three vertices (placed on a circle by trigonometry from
      `t` and the rotation) given: nothing on an empty screen; otherwise the buffer fades
      once more than 50000 iterations have run, `5000 * speed` iterations follow, and the
      first `min(|pixels|, |buffer|)` pixels receive the buffer. */
  function Update(c: Chaos, verts: seq<(real, real)>, pixels: seq<Pixel>): (r: (Chaos, seq<Pixel>))
    requires c.Sized() && |verts| == 3
    ensures r.0.Sized() && |r.1| == |pixels|
    ensures c.width == 0 || c.height == 0 ==> r == (c, pixels)
    ensures c.width > 0 && c.height > 0 ==>
      var k := Iterations(c.speed);
      var faded := if c.total > FadeAfter then Fade(c.buffer) else c.buffer;
      && r.0 == IterateTimes(c.(buffer := faded), verts, k)
      && r.0.total == c.total + k
      && Brighter(faded, r.0.buffer)
      && (k > 0 ==> r.0.lcg == Stream(c.lcg, k)[k - 1])
    ensures forall i :: 0 <= i < |pixels| ==> r.1[i] == if i < |r.0.buffer| then r.0.buffer[i] else pixels[i]
  {
    if c.width == 0 || c.height == 0 then (c, pixels)
    else
      var faded := if c.total > FadeAfter then Fade(c.buffer) else c.buffer;
      var k := Iterations(c.speed);
      IterateTimesFollowsStream(c.(buffer := faded), verts, k);
      var c1 := IterateTimes(c.(buffer := faded), verts, k);
      (c1, seq(|pixels|, i requires 0 <= i < |pixels| => if i < |c1.buffer| then c1.buffer[i] else pixels[i]))
  }

  /** `params()`: speed in [0.5, 3] and rotation in [0, 2]. */
  function Params(c: Chaos): (ps: seq<ParamDesc>)
    ensures WellFormedParams(ps) && |ps| == 2
    ensures ps[0] == ParamDesc("speed", 0.5, 3.0, c.speed)
    ensures ps[1] == ParamDesc("rotation", 0.0, 2.0, c.rotation)
  {
    [ParamDesc("speed", 0.5, 3.0, c.speed), ParamDesc("rotation", 0.0, 2.0, c.rotation)]
  }

  /** `set_param(name, value)`: the two listed names store the value; others are ignored. */
  function SetParam(c: Chaos, name: string, value: real): (r: Chaos)
    ensures name == "speed" ==> r == c.(speed := value)
    ensures name == "rotation" ==> r == c.(rotation := value)
    ensures name != "speed" && name != "rotation" ==> r == c
  {
    if name == "speed" then c.(speed := value)
    else if name == "rotation" then c.(rotation := value)
    else c
  }

  /** Setting a listed parameter is read back by `params()`, and leaves the other one alone. */
  lemma SetParamReadsBack(c: Chaos, k: nat, value: real)
    requires k < 2
    ensures var ps := Params(SetParam(c, Params(c)[k].name, value));
      ps[k].value == value && ps[1 - k] == Params(c)[1 - k]
  {
    assert "speed" != "rotation";
  }
}
