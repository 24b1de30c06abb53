/** Digital rain: one column of falling characters per eight pixels of width. Each column has a
    head position, a fall speed, a trail of printable ASCII codes and an active flag. The random
    draws are inputs; the glyph rendering is not modelled. */
module Matrix {
  import opened Pixels
  import opened Effects

  /** The width and height of one character cell. */
  const Cell: nat := 8

  datatype Column = Column(headY: real, speed: real, trail: seq<nat>, active: bool)

  datatype Rain = Rain(width: nat, height: nat, speed: real, density: real, columns: seq<Column>)

  /** A printable ASCII code other than the space: `gen_range(33..127)`. */
  predicate Glyph(ch: nat) {
    33 <= ch <= 126
  }

  /** A trail as `init_columns` draws it: 8 to 24 printable characters. */
  predicate GoodTrail(t: seq<nat>) {
    8 <= |t| <= 24 && forall i :: 0 <= i < |t| ==> Glyph(t[i])
  }

  /** The fall speed range `gen_range(40.0..120.0)`. */
  predicate GoodSpeed(v: real) {
    40.0 <= v < 120.0
  }

  /** What every column keeps from creation on: a good trail and a speed in range. */
  predicate WellFormed(c: Column) {
    GoodTrail(c.trail) && GoodSpeed(c.speed)
  }

  predicate WellFormedRain(m: Rain) {
    forall k :: 0 <= k < |m.columns| ==> WellFormed(m.columns[k])
  }

  /** `Matrix::new`. */
  function New(): (m: Rain)
    ensures m.columns == [] && m.speed == 1.0 && m.density == 0.6
  {
    Rain(0, 0, 1.0, 0.6, [])
  }

  /** `init(w, h)`: the dimensions are stored and every column is dropped. */
  function Init(m: Rain, w: nat, h: nat): (r: Rain)
    ensures r.columns == [] && WellFormedRain(r)
    ensures r.width == w && r.height == h
    ensures r.speed == m.speed && r.density == m.density
  {
    m.(width := w, height := h, columns := [])
  }

  /** The random part of one new column: where its head starts, its speed, its trail and the
      roll compared with the density. */
  datatype ColumnDraw = ColumnDraw(headY: real, speed: real, trail: seq<nat>, roll: real)

  /** The ranges the generator promises for a column on a screen `h` rows high. With `h == 0`
      the head range `-h..0` is empty (the source panics), so no draw fits. */
  predicate Drawn(d: ColumnDraw, h: nat) {
    && -(h as real) <= d.headY < 0.0
    && GoodSpeed(d.speed)
    && GoodTrail(d.trail)
    && 0.0 <= d.roll < 1.0
  }

  /** `max(width / 8, 1)`. */
  function ColumnCount(w: nat): nat {
    Max(w / Cell, 1)
  }

  /** `init_columns`: `max(width / 8, 1)` fresh columns, column `k` built from `draws(k)`;
      it starts above the screen and is active when its roll is below the density. */
  function InitColumns(w: nat, h: nat, density: real, draws: nat -> ColumnDraw): (cs: seq<Column>)
    requires forall k :: 0 <= k < ColumnCount(w) ==> Drawn(draws(k), h)
    ensures |cs| == ColumnCount(w) >= 1
    ensures forall k :: 0 <= k < |cs| ==>
      && WellFormed(cs[k])
      && cs[k].trail == draws(k).trail
      && -(h as real) <= cs[k].headY < 0.0
      && (cs[k].active <==> draws(k).roll < density)
  {
    var cs := seq(ColumnCount(w), k requires 0 <= k < ColumnCount(w) =>
      Column(draws(k).headY, draws(k).speed, draws(k).trail, draws(k).roll < density));
    assert forall k :: 0 <= k < |cs| ==> Drawn(draws(k), h) && cs[k].trail == draws(k).trail;
    cs
  }

  /** `randomize_init(rng)`: the generator is reseeded (its output is `draws`) and the columns
      are rebuilt for the stored dimensions. */
  function RandomizeInit(m: Rain, draws: nat -> ColumnDraw): (r: Rain)
    requires forall k :: 0 <= k < ColumnCount(m.width) ==> Drawn(draws(k), m.height)
    ensures WellFormedRain(r) && |r.columns| == ColumnCount(m.width)
    ensures r.(columns := m.columns) == m
  {
    m.(columns := InitColumns(m.width, m.height, m.density, draws))
  }

  /** Every column `init_columns` makes starts inside the screen width: the `pixel_x >= w`
      skip in `update` never fires for them on a screen at least one pixel wide. */
  lemma ColumnsStartOnScreen(w: nat, k: nat)
    requires w > 0 && k < ColumnCount(w)
    ensures k * Cell < w
    ensures w >= Cell ==> k * Cell + Cell <= w
  {
    if w / Cell >= 1 {
      assert k + 1 <= w / Cell;
      assert (k + 1) * Cell <= (w / Cell) * Cell <= w;
    }
  }

  /** The random part of one column's tick: the activation roll and new speed of an inactive
      column; the mutation roll, position and character of an active one. */
  datatype Tick = Tick(roll: real, speed: real, mutation: real, index: nat, glyph: nat)

  /** The ranges the generator promises; the position is drawn from `0..trail.len()`, so only
      a non-empty trail can be mutated. */
  predicate Fits(t: Tick, c: Column) {
    && GoodSpeed(t.speed)
    && Glyph(t.glyph)
    && (c.active && t.mutation < 0.02 ==> t.index < |c.trail|)
  }

  /** The top row of trail character `ti`: `head_y as i32 - ti * 8`. */
  function CharRow(c: Column, ti: nat): int {
    TruncInt(c.headY) - ti * Cell
  }

  /** Whether the rendering loop draws trail character `ti` (it skips rows outside `-8..h`). */
  predicate Visible(c: Column, ti: nat, h: nat) {
    -(Cell as int) <= CharRow(c, ti) < h
  }

  /** One column in the loop of `update`. An inactive column activates when its roll is below
      `density * dt * 2` (head at 0, new speed) and is then left alone for the tick. An active
      column falls by `speed * global_speed * dt`, with a 2% chance has one character replaced,
      and, unless it lies past the right edge, goes inactive once its tail is below the screen. */
  function Step(c: Column, k: nat, w: nat, h: nat, speed: real, density: real, dt: real, t: Tick): (r: Column)
    requires Fits(t, c)
    ensures |r.trail| == |c.trail|
    ensures WellFormed(c) ==> WellFormed(r)
    ensures !c.active ==> (r.active <==> t.roll < density * dt * 2.0)
    ensures !c.active && r.active ==> r.headY == 0.0 && r.speed == t.speed && r.trail == c.trail
    ensures !c.active && !r.active ==> r == c
    ensures c.active ==> r.headY == c.headY + c.speed * speed * dt && r.speed == c.speed
    ensures c.active ==> forall i :: 0 <= i < |r.trail| && i != t.index ==> r.trail[i] == c.trail[i]
    ensures c.active && k * Cell >= w ==> r.active
    ensures c.active && k * Cell < w ==> (r.active <==> CharRow(r, |r.trail|) <= h)
  {
    if !c.active then
      if t.roll < density * dt * 2.0 then c.(active := true, headY := 0.0, speed := t.speed)
      else c
    else
      var trail := if t.mutation < 0.02 then c.trail[t.index := t.glyph] else c.trail;
      var moved := c.(headY := c.headY + c.speed * speed * dt, trail := trail);
      if k * Cell >= w then moved
      else if CharRow(moved, |trail|) > h then moved.(active := false)
      else moved
  }

  /** A column is switched off only when none of its characters would be drawn any more. */
  lemma DeactivatedColumnIsOffScreen(c: Column, k: nat, w: nat, h: nat, speed: real, density: real, dt: real, t: Tick, ti: nat)
    requires Fits(t, c) && c.active
    requires !Step(c, k, w, h, speed, density, dt, t).active
    requires ti < |c.trail|
    ensures !Visible(Step(c, k, w, h, speed, density, dt, t), ti, h)
  {
    var r := Step(c, k, w, h, speed, density, dt, t);
    assert CharRow(r, ti) == CharRow(r, |r.trail|) + (|r.trail| - ti) * Cell;
  }

  /** The column part of `update(t, dt, pixels)`: nothing on an empty screen; otherwise every
      column takes one `Step`, column `k` with draws `ticks(k)`. */
  function Update(m: Rain, dt: real, ticks: nat -> Tick): (r: Rain)
    requires forall k :: 0 <= k < |m.columns| ==> Fits(ticks(k), m.columns[k])
    ensures m.width == 0 || m.height == 0 ==> r == m
    ensures r.(columns := m.columns) == m && |r.columns| == |m.columns|
    ensures m.width > 0 && m.height > 0 ==> forall k :: 0 <= k < |r.columns| ==>
      r.columns[k] == Step(m.columns[k], k, m.width, m.height, m.speed, m.density, dt, ticks(k))
    ensures WellFormedRain(m) ==> WellFormedRain(r)
  {
    if m.width == 0 || m.height == 0 then m
    else
      m.(columns := seq(|m.columns|, k requires 0 <= k < |m.columns| =>
        Step(m.columns[k], k, m.width, m.height, m.speed, m.density, dt, ticks(k))))
  }

  /** After `init` the column list is empty, and `update` keeps it so: only `randomize_init`
      brings rain. */
  lemma InitLeavesNoRain(m: Rain, w: nat, h: nat, dt: real, ticks: nat -> Tick)
    ensures Update(Init(m, w, h), dt, ticks).columns == []
  {
  }

  /** `params()`: speed in [0.3, 3] and density in [0.2, 1]. */
  function Params(m: Rain): (ps: seq<ParamDesc>)
    ensures WellFormedParams(ps) && |ps| == 2
    ensures ps[0] == ParamDesc("speed", 0.3, 3.0, m.speed)
    ensures ps[1] == ParamDesc("density", 0.2, 1.0, m.density)
  {
    [ParamDesc("speed", 0.3, 3.0, m.speed), ParamDesc("density", 0.2, 1.0, m.density)]
  }

  /** `set_param(name, value)`: the two listed names store the value; others are ignored. */
  function SetParam(m: Rain, name: string, value: real): (r: Rain)
    ensures name == "speed" ==> r == m.(speed := value)
    ensures name == "density" ==> r == m.(density := value)
    ensures name != "speed" && name != "density" ==> r == m
  {
    if name == "speed" then m.(speed := value)
    else if name == "density" then m.(density := value)
    else m
  }

  /** Setting a listed parameter is read back by `params()`, and leaves the other one alone. */
  lemma SetParamReadsBack(m: Rain, k: nat, value: real)
    requires k < 2
    ensures var ps := Params(SetParam(m, Params(m)[k].name, value));
      ps[k].value == value && ps[1 - k] == Params(m)[1 - k]
  {
    assert "speed" != "density";
  }
}
