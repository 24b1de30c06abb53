/** Conway's Game of Life (B3/S23) on a torus, with per-cell ages that drive the colouring
    and an automatic reseed when the population collapses. */
module GameOfLife {
  import opened Pixels
  import opened Grids
  import opened Ticks
  import opened Effects

  type U16 = x: int | 0 <= x < 0x1_0000

  datatype Life = Life(
    width: nat,
    height: nat,
    tickRate: real,
    seedDensity: real,
    cells: seq<bool>,
    nextCells: seq<bool>,
    age: seq<U16>,
    tickAccum: real)
  {
    /** All three per-cell buffers cover the grid. */
    predicate Sized() {
      |cells| == width * height && |nextCells| == width * height && |age| == width * height
    }
  }

  /** `GameOfLife::new`. */
  function New(): (g: Life)
    ensures g.width == 0 && g.height == 0 && g.Sized()
    ensures g.tickRate == 10.0 && g.seedDensity == 0.3 && g.tickAccum == 0.0
  {
    Life(0, 0, 10.0, 0.3, [], [], [], 0.0)
  }

  /** `seed`: cell `i` is alive iff the `i`-th uniform draw falls below the density; the
      scratch buffer is cleared and every age is reset. */
  function Seed(g: Life, draws: seq<real>): (r: Life)
    requires |draws| == g.width * g.height
    ensures r.(cells := g.cells, nextCells := g.nextCells, age := g.age) == g
    ensures r.Sized()
    ensures forall i :: 0 <= i < |draws| ==> r.cells[i] == (draws[i] < g.seedDensity)
    ensures forall i :: 0 <= i < |draws| ==> !r.nextCells[i] && r.age[i] == 0
  {
    var n := g.width * g.height;
    g.(cells := seq(n, i requires 0 <= i < n => draws[i] < g.seedDensity),
       nextCells := Repeat(false, n),
       age := Repeat(0 as U16, n))
  }

  /** `init(width, height)`: new dimensions, an empty accumulator, a fresh seed. */
  function Init(g: Life, width: nat, height: nat, draws: seq<real>): (r: Life)
    requires |draws| == width * height
    ensures r.width == width && r.height == height && r.tickAccum == 0.0
    ensures r.Sized()
    ensures forall i :: 0 <= i < |draws| ==> r.cells[i] == (draws[i] < g.seedDensity) && r.age[i] == 0
    ensures r.tickRate == g.tickRate && r.seedDensity == g.seedDensity
  {
    Seed(g.(width := width, height := height, tickAccum := 0.0), draws)
  }

  function IsLive(b: bool): bool { b }

  /** The B3/S23 rule: a live cell survives with 2 or 3 live neighbours, a dead one is born
      with exactly 3. */
  function Rule(alive: bool, n: nat): (next: bool)
    ensures next <==> n == 3 || (alive && n == 2)
    ensures !alive && next ==> n == 3
    ensures alive && !next ==> n < 2 || n > 3
  {
    if alive then n == 2 || n == 3 else n == 3
  }

  /** The next state of cell `i`, read from the current generation only. */
  function CellNext(cells: seq<bool>, w: nat, h: nat, i: nat): bool
    requires |cells| == w * h && i < w * h
  {
    IndexOfCoordinates(w, h, i);
    Rule(cells[i], Neighbours(cells, w, h, i % w, i / w, IsLive))
  }

  /** The next generation, all cells at once. */
  function NextGeneration(cells: seq<bool>, w: nat, h: nat): (next: seq<bool>)
    requires |cells| == w * h
    ensures |next| == w * h
    ensures forall i :: 0 <= i < w * h ==> next[i] == CellNext(cells, w, h, i)
    ensures forall x, y :: 0 <= x < w && 0 <= y < h ==>
      next[Index(w, h, x, y)] == Rule(cells[Index(w, h, x, y)], Neighbours(cells, w, h, x, y, IsLive))
  {
    var next := seq(w * h, i requires 0 <= i < w * h => CellNext(cells, w, h, i));
    assert forall x, y :: 0 <= x < w && 0 <= y < h ==>
      next[Index(w, h, x, y)] == Rule(cells[Index(w, h, x, y)], Neighbours(cells, w, h, x, y, IsLive)) by {
      forall x, y | 0 <= x < w && 0 <= y < h
        ensures next[Index(w, h, x, y)] == Rule(cells[Index(w, h, x, y)], Neighbours(cells, w, h, x, y, IsLive))
      {
        var i := Index(w, h, x, y);
        assert i % w == x && i / w == y;
      }
    }
    next
  }

  /** One cell's age after a generation: `saturating_add(1)` while alive, `saturating_sub(3)`
      once dead. */
  function AgeStep(a: U16, alive: bool): (b: U16)
    ensures alive ==> b == (if a < 0xFFFF then a + 1 else 0xFFFF)
    ensures !alive ==> b == (if a >= 3 then a - 3 else 0)
    ensures alive ==> b >= a && b >= 1
    ensures !alive ==> b <= a
  {
    if alive then (if a < 0xFFFF then a + 1 else 0xFFFF)
    else if a > 0 then (if a >= 3 then a - 3 else 0)
    else a
  }

  function CountTrue(s: seq<bool>): (n: nat)
    ensures n <= |s|
  {
    if |s| == 0 then 0 else (if s[0] then 1 else 0) + CountTrue(s[1..])
  }

  /** Appending one cell adds one to the count exactly when the cell is alive. */
  lemma {:induction false} CountTrueSnoc(s: seq<bool>, b: bool)
    ensures CountTrue(s + [b]) == CountTrue(s) + (if b then 1 else 0)
    decreases |s|
  {
    if |s| == 0 {
      assert (s + [b])[1..] == [];
    } else {
      assert (s + [b])[1..] == s[1..] + [b];
      CountTrueSnoc(s[1..], b);
    }
  }

  /** The live count is the multiplicity of `true`. */
  lemma {:induction false} CountTrueIsMultiplicity(s: seq<bool>)
    ensures CountTrue(s) == multiset(s)[true]
    decreases |s|
  {
    if |s| > 0 {
      assert s == [s[0]] + s[1..];
      CountTrueIsMultiplicity(s[1..]);
    }
  }

  /** The reseed test `alive * 100 / total < 5` (integer division). */
  predicate Sparse(alive: nat, total: nat)
    requires total > 0
  {
    alive * 100 / total < 5
  }

  /** The reseed test means "fewer than one cell in twenty is alive". */
  lemma SparseMeansUnderFivePercent(alive: nat, total: nat)
    requires total > 0
    ensures Sparse(alive, total) <==> 20 * alive < total
  {
    var q := alive * 100 / total;
    var r := alive * 100 % total;
    assert alive * 100 == q * total + r && 0 <= r < total;
    if q < 5 {
      MulMonotone(q + 1, 5, total);
      assert (q + 1) * total == q * total + total;
      assert alive * 100 < 5 * total;
    } else {
      MulMonotone(5, q, total);
      assert alive * 100 >= 5 * total;
    }
  }

  /** One generation of `update`: the synchronous step, the ages, the buffer swap, and a
      reseed from `draws` when fewer than 5% of the cells live. */
  function Tick(g: Life, draws: seq<real>): (r: Life)
    requires g.Sized() && g.width > 0 && g.height > 0
    requires |draws| == g.width * g.height
    ensures r.Sized()
    ensures r.width == g.width && r.height == g.height && r.tickAccum == g.tickAccum
    ensures r.tickRate == g.tickRate && r.seedDensity == g.seedDensity
    ensures var next := NextGeneration(g.cells, g.width, g.height);
      !Sparse(CountTrue(next), g.width * g.height) ==>
        && r.cells == next
        && r.nextCells == g.cells
        && forall i :: 0 <= i < |r.age| ==> r.age[i] == AgeStep(g.age[i], next[i])
    ensures var next := NextGeneration(g.cells, g.width, g.height);
      Sparse(CountTrue(next), g.width * g.height) ==>
        forall i :: 0 <= i < |draws| ==> r.cells[i] == (draws[i] < g.seedDensity) && r.age[i] == 0
  {
    var n := g.width * g.height;
    var next := NextGeneration(g.cells, g.width, g.height);
    var aged := seq(n, i requires 0 <= i < n => AgeStep(g.age[i], next[i]));
    var swapped := g.(cells := next, nextCells := g.cells, age := aged);
    if Sparse(CountTrue(next), n) then Seed(swapped, draws) else swapped
  }

  /** The generation loop of `update` as written: cells in row-major order, each next state
      and age computed from the current generation, live cells counted along the way. */
  method GenerationLoop(g: Life) returns (next: seq<bool>, aged: seq<U16>, alive: nat)
    requires g.Sized()
    ensures |next| == g.width * g.height
    ensures forall i :: 0 <= i < |next| ==> next[i] == CellNext(g.cells, g.width, g.height, i)
    ensures |aged| == |next| && forall i :: 0 <= i < |aged| ==> aged[i] == AgeStep(g.age[i], next[i])
    ensures alive == CountTrue(next)
  {
    var w, h, ages := g.width, g.height, g.age;
    var n := |ages|;
    next, aged, alive := [], [], 0;
    var i := 0;
    while i < n
      invariant 0 <= i <= n
      invariant |next| == i && |aged| == i
      invariant forall j :: 0 <= j < i ==> next[j] == CellNext(g.cells, w, h, j) && aged[j] == AgeStep(ages[j], next[j])
      invariant alive == CountTrue(next)
    {
      var b := CellNext(g.cells, w, h, i);
      CountTrueSnoc(next, b);
      next := next + [b];
      aged := aged + [AgeStep(ages[i], b)];
      if b {
        alive := alive + 1;
      }
      i := i + 1;
    }
  }

  /** One generation as `update` performs it: the loop, the swap, and the reseed when the
      population has become sparse. */
  method TickLoop(g: Life, draws: seq<real>) returns (r: Life)
    requires g.Sized() && g.width > 0 && g.height > 0
    requires |draws| == g.width * g.height
    ensures r == Tick(g, draws)
  {
    var next, aged, alive := GenerationLoop(g);
    var n := g.width * g.height;
    assert next == NextGeneration(g.cells, g.width, g.height);
    assert aged == seq(n, i requires 0 <= i < n => AgeStep(g.age[i], next[i]));
    r := g.(cells := next, nextCells := g.cells, age := aged);
    if Sparse(alive, n) {
      r := Seed(r, draws);
    }
  }

  /** Up to five generations, each with its own reseed draws. */
  function RunTicks(g: Life, k: nat, draws: seq<seq<real>>): (r: Life)
    requires g.Sized() && g.width > 0 && g.height > 0
    requires k <= |draws| && forall j :: 0 <= j < |draws| ==> |draws[j]| == g.width * g.height
    ensures r.Sized() && r.width == g.width && r.height == g.height && r.tickAccum == g.tickAccum
    ensures r.tickRate == g.tickRate && r.seedDensity == g.seedDensity
    decreases k
  {
    if k == 0 then g else Tick(RunTicks(g, k - 1, draws), draws[k - 1])
  }

  /** The dim violet shade of a dead cell that lived recently: `v = (clamp(age/30) * 40) as u8`
      shown as `(v/2, v/3, v)`. */
  function GhostShade(a: U16): (p: Pixel)
    ensures p.b <= 40 && p.r <= p.b && p.g <= p.b
    ensures a >= 30 ==> p == Pixel(20, 13, 40)
  {
    var v := CastU8(Clamp01(a as real / 30.0) * 40.0);
    Pixel(v / 2, v / 3, v)
  }

  /** The colour of one cell: a live cell takes the age/time hue, a dead aged cell the ghost
      shade, anything else black. */
  function CellColour(alive: bool, a: U16, t: real, hue: (U16, real) -> Pixel): (p: Pixel)
    ensures alive ==> p == hue(a, t)
    ensures !alive && a > 0 ==> p == GhostShade(a)
    ensures !alive && a == 0 ==> p == Black
  {
    if alive then hue(a, t) else if a > 0 then GhostShade(a) else Black
  }

  /** `update(t, dt, pixels)`: nothing on an empty grid; otherwise the step budget, that many
      generations, and the colouring of the first `min(|pixels|, |cells|)` pixels. */
  function Update(g: Life, t: real, dt: real, pixels: seq<Pixel>, draws: seq<seq<real>>,
                  hue: (U16, real) -> Pixel): (r: (Life, seq<Pixel>))
    requires g.Sized()
    requires |draws| == MaxStepsPerFrame && forall j :: 0 <= j < |draws| ==> |draws[j]| == g.width * g.height
    ensures |r.1| == |pixels| && r.0.Sized()
    ensures g.width == 0 || g.height == 0 ==> r == (g, pixels)
    ensures g.width > 0 && g.height > 0 ==>
      var (steps, rest) := StepBudget(g.tickAccum, dt * g.tickRate);
      && r.0 == RunTicks(g.(tickAccum := rest), steps, draws)
      && (forall i :: 0 <= i < |pixels| && i < |r.0.cells| ==> r.1[i] == CellColour(r.0.cells[i], r.0.age[i], t, hue))
      && (forall i :: |r.0.cells| <= i < |pixels| ==> r.1[i] == pixels[i])
  {
    if g.width == 0 || g.height == 0 then (g, pixels)
    else
      var (steps, rest) := StepBudget(g.tickAccum, dt * g.tickRate);
      var g1 := RunTicks(g.(tickAccum := rest), steps, draws);
      (g1, seq(|pixels|, i requires 0 <= i < |pixels| =>
              if i < |g1.cells| then CellColour(g1.cells[i], g1.age[i], t, hue) else pixels[i]))
  }

  /** `params()`: tick rate in [2, 30] and seed density in [0.1, 0.6]. */
  function Params(g: Life): (ps: seq<ParamDesc>)
    ensures WellFormedParams(ps) && |ps| == 2
    ensures ps[0] == ParamDesc("tick_rate", 2.0, 30.0, g.tickRate)
    ensures ps[1] == ParamDesc("seed_density", 0.1, 0.6, g.seedDensity)
  {
    [ParamDesc("tick_rate", 2.0, 30.0, g.tickRate), ParamDesc("seed_density", 0.1, 0.6, g.seedDensity)]
  }

  /** `set_param(name, value)`: a listed name updates its own field; other names are ignored. */
  function SetParam(g: Life, name: string, value: real): (r: Life)
    ensures name == "tick_rate" ==> r == g.(tickRate := value)
    ensures name == "seed_density" ==> r == g.(seedDensity := value)
    ensures name != "tick_rate" && name != "seed_density" ==> r == g
  {
    if name == "tick_rate" then g.(tickRate := value)
    else if name == "seed_density" then g.(seedDensity := value)
    else g
  }

  /** Setting a listed parameter is read back by `params()`, and leaves the other one alone. */
  lemma SetParamReadsBack(g: Life, k: nat, value: real)
    requires k < 2
    ensures var ps := Params(SetParam(g, Params(g)[k].name, value));
      ps[k].value == value && ps[1 - k] == Params(g)[1 - k]
  {
    assert "tick_rate" != "seed_density";
  }
}
