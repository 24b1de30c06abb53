/** The classic fire: the bottom two rows are fed random heat, every other row takes the
    cooled average of the cells below it, and heat is shown through a 256-entry palette
    ramping black, dark red, orange, yellow, white. */
module Fire {
  import opened Pixels
  import opened Grids
  import opened Effects
  import Transitions

  /** The palette slots of the five control colours. */
  function ControlIndex(k: nat): nat
    requires k < 5
  {
    if k == 0 then 0 else if k == 1 then 60 else if k == 2 then 150 else if k == 3 then 220 else 255
  }

  /** The five control colours: black, dark red, orange, yellow, white. */
  function ControlColour(k: nat): Pixel
    requires k < 5
  {
    if k == 0 then Pixel(0, 0, 0)
    else if k == 1 then Pixel(128, 0, 0)
    else if k == 2 then Pixel(255, 128, 0)
    else if k == 3 then Pixel(255, 255, 0)
    else Pixel(255, 255, 255)
  }

  /** `(c0 + (c1 - c0) * t) as u8` for one channel. */
  function Channel(a: U8, b: U8, t: real): U8 {
    CastU8(a as real + (b as real - a as real) * t)
  }

  /** The colour the `k`-th window (between control points `k` and `k + 1`) gives slot `i`. */
  function Ramp(k: nat, i: nat): Pixel
    requires k < 4 && ControlIndex(k) <= i <= ControlIndex(k + 1)
  {
    var i0, i1 := ControlIndex(k), ControlIndex(k + 1);
    var c0, c1 := ControlColour(k), ControlColour(k + 1);
    var t := if i1 == i0 then 0.0 else (i - i0) as real / (i1 - i0) as real;
    Pixel(Channel(c0.r, c1.r, t), Channel(c0.g, c1.g, t), Channel(c0.b, c1.b, t))
  }

  /** One pass of the `windows(2)` loop: slots `i0..=i1` receive the ramp, the rest keep
      what they had. */
  function PaintWindow(pal: seq<Pixel>, k: nat): (r: seq<Pixel>)
    requires |pal| == 256 && k < 4
    ensures |r| == 256
  {
    seq(256, i requires 0 <= i < 256 =>
      if ControlIndex(k) <= i <= ControlIndex(k + 1) then Ramp(k, i) else pal[i])
  }

  /** The windows from the `k`-th on, in order. */
  function PaintFrom(pal: seq<Pixel>, k: nat): (r: seq<Pixel>)
    requires |pal| == 256 && k <= 4
    ensures |r| == 256
    decreases 4 - k
  {
    if k == 4 then pal else PaintFrom(PaintWindow(pal, k), k + 1)
  }

  /** `build_palette`: a black table painted by the four windows. */
  function BuildPalette(): (p: seq<Pixel>)
    ensures |p| == 256
  {
    PaintFrom(Repeat(Black, 256), 0)
  }

  /** The last window covering slot `i`; a shared end point belongs to both neighbours and
      the later one paints it last. */
  function WindowOf(i: nat): (k: nat)
    requires i < 256
    ensures k < 4 && ControlIndex(k) <= i <= ControlIndex(k + 1)
    ensures k < 3 ==> i < ControlIndex(k + 1)
  {
    if i < 60 then 0 else if i < 150 then 1 else if i < 220 then 2 else 3
  }

  lemma {:induction false} PaintFromAt(pal: seq<Pixel>, k: nat, i: nat)
    requires |pal| == 256 && k <= 4 && i < 256
    ensures PaintFrom(pal, k)[i] == if WindowOf(i) >= k then Ramp(WindowOf(i), i) else pal[i]
    decreases 4 - k
  {
    if k < 4 {
      PaintFromAt(PaintWindow(pal, k), k + 1, i);
    }
  }

  /** Every one of the 256 slots is painted, by the last window that covers it. */
  lemma PaletteEntry(i: nat)
    requires i < 256
    ensures BuildPalette()[i] == Ramp(WindowOf(i), i)
  {
    PaintFromAt(Repeat(Black, 256), 0, i);
  }

  lemma CastU8OfChannel(a: U8)
    ensures CastU8(a as real) == a
  {
  }

  /** A control point's slot holds its control colour exactly. */
  lemma ControlPointsExact(k: nat)
    requires k < 5
    ensures BuildPalette()[ControlIndex(k)] == ControlColour(k)
  {
    var c := ControlColour(k);
    CastU8OfChannel(c.r);
    CastU8OfChannel(c.g);
    CastU8OfChannel(c.b);
    PaletteEntry(ControlIndex(k));
  }

  /** Channel-wise "no brighter than". */
  predicate NoBrighter(p: Pixel, q: Pixel) {
    p.r <= q.r && p.g <= q.g && p.b <= q.b
  }

  lemma ChannelIsInterpolant(a: U8, b: U8, t: real)
    ensures Channel(a, b, t) == CastU8(Transitions.Interpolant(a as real, b as real, t))
  {
    assert a as real + (b as real - a as real) * t == a as real * (1.0 - t) + b as real * t;
  }

  /** A channel ramp between rising end points rises with `t` and stays between them. */
  lemma ChannelMonotone(a: U8, b: U8, t1: real, t2: real)
    requires a <= b && 0.0 <= t1 <= t2 <= 1.0
    ensures a <= Channel(a, b, t1) <= Channel(a, b, t2) <= b
  {
    ChannelIsInterpolant(a, b, t1);
    ChannelIsInterpolant(a, b, t2);
    Transitions.InterpolantMonotone(a as real, b as real, t1, t2);
    Transitions.InterpolantBetween(a as real, b as real, t1);
    Transitions.InterpolantBetween(a as real, b as real, t2);
    Transitions.CastU8Monotone(a as real, Transitions.Interpolant(a as real, b as real, t1));
    Transitions.CastU8Monotone(Transitions.Interpolant(a as real, b as real, t1), Transitions.Interpolant(a as real, b as real, t2));
    Transitions.CastU8Monotone(Transitions.Interpolant(a as real, b as real, t2), b as real);
    CastU8OfChannel(a);
    CastU8OfChannel(b);
  }

  /** The ramp parameter `(i - i0) / (i1 - i0)` rises with `i` from 0 to 1 over a window. */
  lemma FractionMonotone(k: nat, n1: nat, n2: nat)
    requires k < 4 && n1 <= n2 <= ControlIndex(k + 1) - ControlIndex(k)
    ensures var d := (ControlIndex(k + 1) - ControlIndex(k)) as real;
      0.0 <= n1 as real / d <= n2 as real / d <= 1.0
  {
    if k == 0 {
      assert (ControlIndex(k + 1) - ControlIndex(k)) as real == 60.0;
    } else if k == 1 {
      assert (ControlIndex(k + 1) - ControlIndex(k)) as real == 90.0;
    } else if k == 2 {
      assert (ControlIndex(k + 1) - ControlIndex(k)) as real == 70.0;
    } else {
      assert (ControlIndex(k + 1) - ControlIndex(k)) as real == 35.0;
    }
  }

  /** Within one window the ramp brightens from one control colour to the next. */
  lemma RampMonotone(k: nat, i: nat, j: nat)
    requires k < 4 && ControlIndex(k) <= i <= j <= ControlIndex(k + 1)
    ensures NoBrighter(ControlColour(k), Ramp(k, i))
    ensures NoBrighter(Ramp(k, i), Ramp(k, j))
    ensures NoBrighter(Ramp(k, j), ControlColour(k + 1))
  {
    var i0, i1 := ControlIndex(k), ControlIndex(k + 1);
    var c0, c1 := ControlColour(k), ControlColour(k + 1);
    FractionMonotone(k, i - i0, j - i0);
    var ti, tj := (i - i0) as real / (i1 - i0) as real, (j - i0) as real / (i1 - i0) as real;
    ChannelMonotone(c0.r, c1.r, ti, tj);
    ChannelMonotone(c0.g, c1.g, ti, tj);
    ChannelMonotone(c0.b, c1.b, ti, tj);
  }

  /** The control colours brighten from each to the next. */
  lemma ControlColoursRise(k: nat, l: nat)
    requires k <= l < 5
    ensures NoBrighter(ControlColour(k), ControlColour(l))
  {
  }

  /** The palette never darkens along its slots: a hotter index is at least as bright in
      every channel. */
  lemma PaletteMonotone(i: nat, j: nat)
    requires i <= j < 256
    ensures NoBrighter(BuildPalette()[i], BuildPalette()[j])
  {
    PaletteEntry(i);
    PaletteEntry(j);
    var ki, kj := WindowOf(i), WindowOf(j);
    if ki == kj {
      RampMonotone(ki, i, j);
    } else {
      RampMonotone(ki, i, i);
      RampMonotone(kj, j, j);
      ControlColoursRise(ki + 1, kj);
    }
  }

  datatype Flame = Flame(width: nat, height: nat, heat: seq<real>, cooling: real, intensity: real)
  {
    /** The heat buffer covers the screen. */
    predicate Sized() {
      |heat| == width * height
    }
  }

  /** `Fire::new`. */
  function New(): (f: Flame)
    ensures f.Sized() && f.width == 0 && f.height == 0
    ensures f.cooling == 0.4 && f.intensity == 1.0
  {
    Flame(0, 0, [], 0.4, 1.0)
  }

  /** `init(w, h)`: a fresh buffer of `w*h` zeros (the old heat is not kept). */
  function Init(f: Flame, w: nat, h: nat): (r: Flame)
    ensures r.Sized() && r.width == w && r.height == h
    ensures forall i :: 0 <= i < |r.heat| ==> r.heat[i] == 0.0
    ensures r.cooling == f.cooling && r.intensity == f.intensity
  {
    f.(width := w, height := h, heat := Repeat(0.0, w * h))
  }

  /** The feed: every cell of the bottom two rows gets a random draw in [0, 1) times the
      intensity; `spark(i)` is the draw for cell `i`. */
  function Feed(heat: seq<real>, w: nat, h: nat, spark: nat -> real, intensity: real): (r: seq<real>)
    requires |heat| == w * h && h >= 2
    ensures |r| == |heat|
    ensures forall i :: 0 <= i < (h - 2) * w ==> r[i] == heat[i]
    ensures forall i :: (h - 2) * w <= i < |r| ==> r[i] == spark(i) * intensity
  {
    seq(|heat|, i requires 0 <= i < |heat| => if i >= (h - 2) * w then spark(i) * intensity else heat[i])
  }

  /** The new heat of cell `(x, y)` above the bottom two rows: the average of the cell below,
      its left and right neighbours (the cell below itself at an edge) and the cell two
      below, cooled by `cooling * 0.012` and floored at zero. */
  function Cooled(heat: seq<real>, w: nat, h: nat, x: nat, y: nat, cooling: real): (v: real)
    requires |heat| == w * h && x < w && y + 2 < h
    ensures v >= 0.0
  {
    var below := heat[Index(w, h, x, y + 1)];
    var left := if x > 0 then heat[Index(w, h, x - 1, y + 1)] else below;
    var right := if x < w - 1 then heat[Index(w, h, x + 1, y + 1)] else below;
    var twoBelow := heat[Index(w, h, x, y + 2)];
    MaxReal((below + left + right + twoBelow) / 4.0 - cooling * 0.012, 0.0)
  }

  /** A cell's new heat depends on the two rows below it and nothing else. */
  lemma CooledReadsTwoRowsBelow(a: seq<real>, b: seq<real>, w: nat, h: nat, x: nat, y: nat, cooling: real)
    requires |a| == w * h && |b| == w * h && x < w && y + 2 < h
    requires forall i :: (y + 1) * w <= i < (y + 3) * w && i < |a| ==> a[i] == b[i]
    ensures Cooled(a, w, h, x, y, cooling) == Cooled(b, w, h, x, y, cooling)
  {
    assert (y + 2) * w == (y + 1) * w + w;
    assert (y + 3) * w == (y + 2) * w + w;
  }

  /** A row above the bottom two, in row-major order. */
  lemma AboveFeed(w: nat, h: nat, i: nat)
    requires h >= 2 && i < (h - 2) * w
    ensures i % w < w && i / w + 2 < h && Index(w, h, i % w, i / w) == i
  {
    MulMonotone(h - 2, h, w);
    IndexOfCoordinates(w, h - 2, i);
  }

  /** The new heat of the cell at index `i`. */
  function CooledAt(heat: seq<real>, w: nat, h: nat, i: nat, cooling: real): (v: real)
    requires |heat| == w * h && h >= 2 && i < (h - 2) * w
    ensures v >= 0.0
  {
    AboveFeed(w, h, i);
    Cooled(heat, w, h, i % w, i / w, cooling)
  }

  /** The reference propagation: every row above the bottom two computed from the buffer as
      it was before the pass; the bottom two rows are left as fed. */
  function Propagated(heat: seq<real>, w: nat, h: nat, cooling: real): (r: seq<real>)
    requires |heat| == w * h && h >= 2
    ensures |r| == |heat|
    ensures forall i :: (h - 2) * w <= i < |r| ==> r[i] == heat[i]
  {
    seq(|heat|, i requires 0 <= i < |heat| => if i < (h - 2) * w then CooledAt(heat, w, h, i, cooling) else heat[i])
  }

  /** Propagated heat is never negative. */
  lemma PropagatedIsNonNegative(heat: seq<real>, w: nat, h: nat, cooling: real, i: nat)
    requires |heat| == w * h && h >= 2 && i < (h - 2) * w
    ensures Propagated(heat, w, h, cooling)[i] >= 0.0
  {
  }

  lemma PropagatedAt(heat: seq<real>, w: nat, h: nat, cooling: real, x: nat, y: nat)
    requires |heat| == w * h && x < w && y + 2 < h
    ensures Index(w, h, x, y) < (h - 2) * w
    ensures Propagated(heat, w, h, cooling)[Index(w, h, x, y)] == Cooled(heat, w, h, x, y, cooling)
  {
    IndexInGrid(x, y, w, h - 2, y * w, (h - 2) * w);
    AboveFeed(w, h, Index(w, h, x, y));
  }

  /** The in-place buffer after rewriting the first `k` cells: those hold the reference
      values, the others are still as fed. */
  predicate DoneUpTo(r: seq<real>, heat: seq<real>, p: seq<real>, k: nat) {
    |r| == |heat| == |p| && forall i :: 0 <= i < |r| ==> r[i] == if i < k then p[i] else heat[i]
  }

  lemma Advance(r: seq<real>, heat: seq<real>, p: seq<real>, k: nat, v: real)
    requires DoneUpTo(r, heat, p, k) && k < |r| && v == p[k]
    ensures DoneUpTo(r[k := v], heat, p, k + 1)
  {
  }

  /** What the pass reads for cell `(x, y)` lies at or after that cell, so it is still the
      fed value. */
  lemma ReadsUnwritten(r: seq<real>, heat: seq<real>, p: seq<real>, w: nat, h: nat, x: nat, y: nat, cooling: real)
    requires |heat| == w * h && x < w && y + 2 < h
    requires DoneUpTo(r, heat, p, Index(w, h, x, y))
    ensures Cooled(r, w, h, x, y, cooling) == Cooled(heat, w, h, x, y, cooling)
  {
    assert (y + 1) * w == y * w + w;
    CooledReadsTwoRowsBelow(r, heat, w, h, x, y, cooling);
  }

  /** The propagation loop as written: top row first, each cell rewritten in place. Every
      cell it reads (one or two rows further down) has not been rewritten yet, so the pass
      computes exactly the reference propagation of the fed buffer. */
  method PropagateInPlace(heat: seq<real>, w: nat, h: nat, cooling: real) returns (r: seq<real>)
    requires |heat| == w * h && h >= 2
    ensures r == Propagated(heat, w, h, cooling)
  {
    ghost var p := Propagated(heat, w, h, cooling);
    r := heat;
    var y := 0;
    while y < h - 2
      invariant 0 <= y <= h - 2 && DoneUpTo(r, heat, p, y * w)
    {
      var x := 0;
      while x < w
        invariant 0 <= x <= w && DoneUpTo(r, heat, p, y * w + x)
      {
        var here := Index(w, h, x, y);
        var b := Index(w, h, x, y + 1);
        var below := r[b];
        var left := if x > 0 then r[Index(w, h, x - 1, y + 1)] else r[b];
        var right := if x < w - 1 then r[Index(w, h, x + 1, y + 1)] else r[b];
        var twoBelow := r[Index(w, h, x, y + 2)];
        var v := MaxReal((below + left + right + twoBelow) / 4.0 - cooling * 0.012, 0.0);
        assert v == Cooled(r, w, h, x, y, cooling);
        ReadsUnwritten(r, heat, p, w, h, x, y, cooling);
        PropagatedAt(heat, w, h, cooling, x, y);
        Advance(r, heat, p, here, v);
        r := r[here := v];
        x := x + 1;
      }
      assert y * w + w == (y + 1) * w;
      y := y + 1;
    }
    assert DoneUpTo(r, heat, p, (h - 2) * w);
  }

  /** `(heat.clamp(0, 1) * 255) as usize`: a palette slot. */
  function PaletteIndex(heat: real): (k: nat)
    ensures k < 256
    ensures heat <= 0.0 ==> k == 0
    ensures heat >= 1.0 ==> k == 255
  {
    (Clamp01(heat) * 255.0).Floor
  }

  /** A hotter cell is never shown darker. */
  lemma HotterIsNoDarker(h1: real, h2: real)
    requires h1 <= h2
    ensures NoBrighter(BuildPalette()[PaletteIndex(h1)], BuildPalette()[PaletteIndex(h2)])
  {
    Transitions.FloorMonotone(Clamp01(h1) * 255.0, Clamp01(h2) * 255.0);
    PaletteMonotone(PaletteIndex(h1), PaletteIndex(h2));
  }

  /** `update(t, dt, pixels)`, with `spark(i)` the random draw for bottom cell `i`: nothing on
      an empty screen; otherwise feed, propagate, and show the first `min(|pixels|, |heat|)`
      cells through the palette. A screen one row high is excluded: `h - 2` underflows
      there and the source panics (the framebuffer height is always even). */
  function Update(f: Flame, spark: nat -> real, pixels: seq<Pixel>): (r: (Flame, seq<Pixel>))
    requires f.Sized() && f.height != 1
    ensures r.0.Sized() && |r.1| == |pixels|
    ensures f.width == 0 || f.height == 0 ==> r == (f, pixels)
    ensures f.width > 0 && f.height > 0 ==>
      && r.0 == f.(heat := Propagated(Feed(f.heat, f.width, f.height, spark, f.intensity), f.width, f.height, f.cooling))
      && forall i :: 0 <= i < |pixels| ==>
           r.1[i] == if i < |r.0.heat| then BuildPalette()[PaletteIndex(r.0.heat[i])] else pixels[i]
  {
    if f.width == 0 || f.height == 0 then (f, pixels)
    else
      var heat := Propagated(Feed(f.heat, f.width, f.height, spark, f.intensity), f.width, f.height, f.cooling);
      var palette := BuildPalette();
      (f.(heat := heat), seq(|pixels|, i requires 0 <= i < |pixels| =>
         if i < |heat| then palette[PaletteIndex(heat[i])] else pixels[i]))
  }

  /** `params()`: cooling in [0.1, 1.5] and intensity in [0.3, 2]. */
  function Params(f: Flame): (ps: seq<ParamDesc>)
    ensures WellFormedParams(ps) && |ps| == 2
    ensures ps[0] == ParamDesc("cooling", 0.1, 1.5, f.cooling)
    ensures ps[1] == ParamDesc("intensity", 0.3, 2.0, f.intensity)
  {
    [ParamDesc("cooling", 0.1, 1.5, f.cooling), ParamDesc("intensity", 0.3, 2.0, f.intensity)]
  }

  /** `set_param(name, value)`: the two listed names store the value; others are ignored. */
  function SetParam(f: Flame, name: string, value: real): (r: Flame)
    ensures name == "cooling" ==> r == f.(cooling := value)
    ensures name == "intensity" ==> r == f.(intensity := value)
    ensures name != "cooling" && name != "intensity" ==> r == f
  {
    if name == "cooling" then f.(cooling := value)
    else if name == "intensity" then f.(intensity := value)
    else f
  }

  /** Setting a listed parameter is read back by `params()`, and leaves the other one alone. */
  lemma SetParamReadsBack(f: Flame, k: nat, value: real)
    requires k < 2
    ensures var ps := Params(SetParam(f, Params(f)[k].name, value));
      ps[k].value == value && ps[1 - k] == Params(f)[1 - k]
  {
    assert "cooling" != "intensity";
  }
}
