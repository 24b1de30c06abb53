/** The per-pixel blends used while the sequencer crossfades between two scenes. */
module Transitions {
  import opened Pixels

  datatype TransitionKind = Cut | Fade | Dissolve | WipeLeft | WipeDown
  {
    predicate IsWipe() { WipeLeft? || WipeDown? }
  }

  lemma FloorMonotone(x: real, y: real)
    requires x <= y
    ensures x.Floor <= y.Floor
  {
    assert (x.Floor as real) <= x <= y < (y.Floor as real) + 1.0;
  }

  lemma FloorBetween(lo: int, v: real, hi: int)
    requires lo as real <= v <= hi as real
    ensures lo <= v.Floor <= hi
  {
    FloorMonotone(lo as real, v);
    FloorMonotone(v, hi as real);
  }

  lemma ScaleBounds(d: real, t: real, k: real)
    requires d >= 0.0 && 0.0 <= t <= 1.0 && k == d * t
    ensures 0.0 <= k <= d
  {
    assert d - k == d * (1.0 - t);
  }

  /** The real-valued interpolant `a(1-t) + bt`. */
  function Interpolant(a: real, b: real, t: real): real {
    a * (1.0 - t) + b * t
  }

  /** The interpolant lies between its endpoints for `t` in [0,1]. */
  lemma InterpolantBetween(a: real, b: real, t: real)
    requires 0.0 <= t <= 1.0
    ensures a <= b ==> a <= Interpolant(a, b, t) <= b
    ensures b <= a ==> b <= Interpolant(a, b, t) <= a
  {
    var v := Interpolant(a, b, t);
    if a <= b {
      var k := (b - a) * t;
      ScaleBounds(b - a, t, k);
      assert v == a + k;
    } else {
      var k := (a - b) * t;
      ScaleBounds(a - b, t, k);
      assert v == a - k;
    }
  }

  /** One channel of `lerp_color`: the interpolant truncated by `as u8`. */
  function Mix(a: U8, b: U8, t: real): (c: U8)
    requires 0.0 <= t <= 1.0
    ensures Min(a, b) <= c <= Max(a, b)
    ensures t == 0.0 ==> c == a
    ensures t == 1.0 ==> c == b
  {
    InterpolantBetween(a as real, b as real, t);
    var v := Interpolant(a as real, b as real, t);
    if a <= b then FloorBetween(a, v, b); CastU8(v)
    else FloorBetween(b, v, a); CastU8(v)
  }

  /** `lerp_color`: per-channel interpolation with `t` clamped to [0,1] first. */
  function LerpColor(a: Pixel, b: Pixel, t: real): (c: Pixel)
    ensures Min(a.r, b.r) <= c.r <= Max(a.r, b.r)
    ensures Min(a.g, b.g) <= c.g <= Max(a.g, b.g)
    ensures Min(a.b, b.b) <= c.b <= Max(a.b, b.b)
    ensures t <= 0.0 ==> c == a
    ensures t >= 1.0 ==> c == b
  {
    var u := Clamp01(t);
    Pixel(Mix(a.r, b.r, u), Mix(a.g, b.g, u), Mix(a.b, b.b, u))
  }

  /** The real interpolant moves towards `b` as `t` grows. */
  lemma InterpolantMonotone(a: real, b: real, t1: real, t2: real)
    requires 0.0 <= t1 <= t2 <= 1.0
    ensures a <= b ==> Interpolant(a, b, t1) <= Interpolant(a, b, t2)
    ensures b <= a ==> Interpolant(a, b, t2) <= Interpolant(a, b, t1)
  {
    var d := t2 - t1;
    assert Interpolant(a, b, t2) == Interpolant(a, b, t1) + (b - a) * d;
    if a <= b {
      ScaleBounds(b - a, d, (b - a) * d);
    } else {
      ScaleBounds(a - b, d, (a - b) * d);
    }
  }

  /** `as u8` never reverses an order. */
  lemma CastU8Monotone(x: real, y: real)
    requires x <= y
    ensures CastU8(x) <= CastU8(y)
  {
    if 0.0 < x && y < 255.0 {
      FloorMonotone(x, y);
    }
  }

  /** A channel of a dissolve never moves away from its target as progress grows. */
  lemma MixMonotone(a: U8, b: U8, t1: real, t2: real)
    requires 0.0 <= t1 <= t2 <= 1.0
    ensures a <= b ==> Mix(a, b, t1) <= Mix(a, b, t2)
    ensures b <= a ==> Mix(a, b, t2) <= Mix(a, b, t1)
  {
    var v1 := Interpolant(a as real, b as real, t1);
    var v2 := Interpolant(a as real, b as real, t2);
    InterpolantMonotone(a as real, b as real, t1, t2);
    if a <= b {
      CastU8Monotone(v1, v2);
    } else {
      CastU8Monotone(v2, v1);
    }
  }

  /** The number of columns (or rows) already wiped: `(extent as f64 * progress) as u32`. */
  function WipeThreshold(extent: nat, p: real): (k: nat)
    requires 0.0 <= p <= 1.0
    ensures k <= extent
    ensures p == 0.0 ==> k == 0
    ensures p == 1.0 ==> k == extent
  {
    ScaleBounds(extent as real, p, (extent as real) * p);
    FloorMonotone((extent as real) * p, extent as real);
    ((extent as real) * p).Floor
  }

  lemma WipeThresholdMonotone(extent: nat, p1: real, p2: real)
    requires 0.0 <= p1 <= p2 <= 1.0
    ensures WipeThreshold(extent, p1) <= WipeThreshold(extent, p2)
  {
    var d := extent as real;
    ScaleBounds(d, p2 - p1, d * (p2 - p1));
    assert d * p2 == d * p1 + d * (p2 - p1);
    FloorMonotone((extent as real) * p1, (extent as real) * p2);
  }

  /** The wipes divide by `width`; the source panics when it is zero and there is work to do. */
  predicate BlendDefined(kind: TransitionKind, width: nat, n: nat) {
    kind.IsWipe() && n > 0 ==> width > 0
  }

  /** The blended value of pixel `i`, for an already-clamped progress `p`. */
  function BlendAt(kind: TransitionKind, from: Pixel, to: Pixel, i: nat, width: nat, height: nat, p: real): Pixel
    requires 0.0 <= p <= 1.0
    requires kind.IsWipe() ==> width > 0
  {
    match kind
    case Cut => if p < 0.5 then from else to
    case Fade =>
      if p < 0.5 then LerpColor(from, Black, p * 2.0) else LerpColor(Black, to, (p - 0.5) * 2.0)
    case Dissolve => LerpColor(from, to, p)
    case WipeLeft => if i % width < WipeThreshold(width, p) then to else from
    case WipeDown => if i / width < WipeThreshold(height, p) then to else from
  }

  function Min3(a: nat, b: nat, c: nat): nat { Min(Min(a, b), c) }

  /** `apply_transition`: blends the first `min(|output|, |from|, |to|)` pixels into `output`. */
  function ApplyTransition(kind: TransitionKind, from: seq<Pixel>, to: seq<Pixel>, output: seq<Pixel>,
                           width: nat, height: nat, progress: real): (r: seq<Pixel>)
    requires BlendDefined(kind, width, Min3(|output|, |from|, |to|))
    ensures |r| == |output|
    ensures forall i :: Min3(|output|, |from|, |to|) <= i < |output| ==> r[i] == output[i]
  {
    var p := Clamp01(progress);
    var n := Min3(|output|, |from|, |to|);
    seq(|output|, i requires 0 <= i < |output| =>
      if i < n then BlendAt(kind, from[i], to[i], i, width, height, p) else output[i])
  }

  /** At progress 0 (or below) every kind shows the outgoing frame. */
  lemma BlendStartsAtFrom(kind: TransitionKind, from: seq<Pixel>, to: seq<Pixel>, output: seq<Pixel>,
                          width: nat, height: nat, progress: real)
    requires BlendDefined(kind, width, Min3(|output|, |from|, |to|))
    requires progress <= 0.0
    ensures var r := ApplyTransition(kind, from, to, output, width, height, progress);
      forall i :: 0 <= i < Min3(|output|, |from|, |to|) ==> r[i] == from[i]
  {
  }

  /** At progress 1 (or above) every kind shows the incoming frame; WipeDown only covers
      `height` rows, so it needs the blended prefix to fit in `width*height`. */
  lemma BlendEndsAtTo(kind: TransitionKind, from: seq<Pixel>, to: seq<Pixel>, output: seq<Pixel>,
                      width: nat, height: nat, progress: real)
    requires BlendDefined(kind, width, Min3(|output|, |from|, |to|))
    requires progress >= 1.0
    requires kind.WipeDown? ==> Min3(|output|, |from|, |to|) <= width * height
    ensures var r := ApplyTransition(kind, from, to, output, width, height, progress);
      forall i :: 0 <= i < Min3(|output|, |from|, |to|) ==> r[i] == to[i]
  {
    var r := ApplyTransition(kind, from, to, output, width, height, progress);
    var n := Min3(|output|, |from|, |to|);
    forall i | 0 <= i < n
      ensures r[i] == to[i]
    {
      if kind.WipeLeft? {
        assert i % width < width;
      } else if kind.WipeDown? {
        assert i / width < height;
      }
    }
  }

  /** Cut is a hard switch at the midpoint. */
  lemma CutSwitchesAtMidpoint(from: seq<Pixel>, to: seq<Pixel>, output: seq<Pixel>,
                              width: nat, height: nat, progress: real)
    ensures var r := ApplyTransition(Cut, from, to, output, width, height, progress);
      forall i :: 0 <= i < Min3(|output|, |from|, |to|) ==>
        r[i] == (if progress < 0.5 then from[i] else to[i])
  {
  }

  /** Fade passes through black: at exactly half way every blended pixel is black, before
      it each channel is no brighter than the outgoing pixel, after it no brighter than the
      incoming one. */
  lemma FadeThroughBlack(from: seq<Pixel>, to: seq<Pixel>, output: seq<Pixel>,
                         width: nat, height: nat, progress: real)
    ensures var r := ApplyTransition(Fade, from, to, output, width, height, progress);
      forall i :: 0 <= i < Min3(|output|, |from|, |to|) ==>
        && (progress == 0.5 ==> r[i] == Black)
        && (progress < 0.5 ==> r[i].r <= from[i].r && r[i].g <= from[i].g && r[i].b <= from[i].b)
        && (progress >= 0.5 ==> r[i].r <= to[i].r && r[i].g <= to[i].g && r[i].b <= to[i].b)
  {
  }

  /** Dissolve: every channel lies between the two endpoint channels, and moves
      monotonically toward the incoming channel as progress grows. */
  lemma DissolveMonotone(from: seq<Pixel>, to: seq<Pixel>, output: seq<Pixel>,
                         width: nat, height: nat, p1: real, p2: real, i: nat)
    requires p1 <= p2
    requires i < Min3(|output|, |from|, |to|)
    ensures var r1 := ApplyTransition(Dissolve, from, to, output, width, height, p1);
      var r2 := ApplyTransition(Dissolve, from, to, output, width, height, p2);
      && (from[i].r <= to[i].r ==> from[i].r <= r1[i].r <= r2[i].r <= to[i].r)
      && (to[i].r <= from[i].r ==> to[i].r <= r2[i].r <= r1[i].r <= from[i].r)
      && (from[i].g <= to[i].g ==> from[i].g <= r1[i].g <= r2[i].g <= to[i].g)
      && (to[i].g <= from[i].g ==> to[i].g <= r2[i].g <= r1[i].g <= from[i].g)
      && (from[i].b <= to[i].b ==> from[i].b <= r1[i].b <= r2[i].b <= to[i].b)
      && (to[i].b <= from[i].b ==> to[i].b <= r2[i].b <= r1[i].b <= from[i].b)
  {
    var u1 := Clamp01(p1);
    var u2 := Clamp01(p2);
    MixMonotone(from[i].r, to[i].r, u1, u2);
    MixMonotone(from[i].g, to[i].g, u1, u2);
    MixMonotone(from[i].b, to[i].b, u1, u2);
  }

  /** Dissolve is a per-pixel `lerp_color`: each blended pixel mixes its own two endpoint
      pixels by the clamped progress, whatever the other pixels hold. */
  lemma DissolveIsPerPixelLerp(from: seq<Pixel>, to: seq<Pixel>, output: seq<Pixel>,
                               width: nat, height: nat, progress: real, i: nat)
    requires i < Min3(|output|, |from|, |to|)
    ensures ApplyTransition(Dissolve, from, to, output, width, height, progress)[i]
            == LerpColor(from[i], to[i], Clamp01(progress))
  {
  }

  /** WipeLeft never mixes: column `x` shows the incoming frame exactly when `x` is left of
      `floor(width * progress)`; once a pixel shows the incoming frame it keeps showing it at
      every later progress. */
  lemma WipeLeftPartition(from: seq<Pixel>, to: seq<Pixel>, output: seq<Pixel>,
                          width: nat, height: nat, p1: real, p2: real)
    requires width > 0
    requires 0.0 <= p1 <= p2 <= 1.0
    ensures var r := ApplyTransition(WipeLeft, from, to, output, width, height, p1);
      forall i :: 0 <= i < Min3(|output|, |from|, |to|) ==>
        && (i % width < (width as real * p1).Floor ==> r[i] == to[i])
        && (i % width >= (width as real * p1).Floor ==> r[i] == from[i])
    ensures var r1 := ApplyTransition(WipeLeft, from, to, output, width, height, p1);
      var r2 := ApplyTransition(WipeLeft, from, to, output, width, height, p2);
      forall i :: 0 <= i < Min3(|output|, |from|, |to|) && from[i] != to[i] && r1[i] == to[i] ==> r2[i] == to[i]
  {
    WipeThresholdMonotone(width, p1, p2);
  }

  /** WipeDown is the same partition keyed on the row `i / width` against `floor(height * progress)`. */
  lemma WipeDownPartition(from: seq<Pixel>, to: seq<Pixel>, output: seq<Pixel>,
                          width: nat, height: nat, p1: real, p2: real)
    requires width > 0
    requires 0.0 <= p1 <= p2 <= 1.0
    ensures var r := ApplyTransition(WipeDown, from, to, output, width, height, p1);
      forall i :: 0 <= i < Min3(|output|, |from|, |to|) ==>
        && (i / width < (height as real * p1).Floor ==> r[i] == to[i])
        && (i / width >= (height as real * p1).Floor ==> r[i] == from[i])
    ensures var r1 := ApplyTransition(WipeDown, from, to, output, width, height, p1);
      var r2 := ApplyTransition(WipeDown, from, to, output, width, height, p2);
      forall i :: 0 <= i < Min3(|output|, |from|, |to|) && from[i] != to[i] && r1[i] == to[i] ==> r2[i] == to[i]
  {
    WipeThresholdMonotone(height, p1, p2);
  }
}
