/** Brian's Brain: a three-state automaton (Off, On, Dying) on a torus, seeded
    deterministically from the grid's dimensions by the 64-bit LCG. */
module BriansBrain {
  import opened Pixels
  import opened Grids
  import opened Ticks
  import opened Effects
  import opened Lcg

  datatype CellState = Off | On | Dying

  datatype Brain = Brain(
    width: nat,
    height: nat,
    speed: real,
    density: real,
    grid: seq<CellState>,
    nextGrid: seq<CellState>,
    tickAccum: real)
  {
    /** Both buffers cover the grid. */
    predicate Sized() {
      |grid| == width * height && |nextGrid| == width * height
    }
  }

  /** `CellularAutomata::new`. */
  function New(): (b: Brain)
    ensures b.width == 0 && b.height == 0 && b.Sized()
    ensures b.speed == 1.0 && b.density == 0.3 && b.tickAccum == 0.0
  {
    Brain(0, 0, 1.0, 0.3, [], [], 0.0)
  }

  /** The generator's starting state `w*7919 + h*6271`; for `u32` dimensions it never wraps. */
  function SeedState(w: nat, h: nat): U64 {
    (w * 7919 + h * 6271) % Modulus
  }

  /** The draw as written: the top 31 bits of the state over `u32::MAX`. */
  function DrawAsWritten(s: U64): real {
    (s / 0x2_0000_0000) as real / U32Max as real
  }

  /** The draw as intended: the top 32 bits of the state over `u32::MAX`, a value in [0, 1]. */
  function Draw(s: U64): (v: real)
    ensures 0.0 <= v <= 1.0
  {
    (s / 0x1_0000_0000) as real / U32Max as real
  }

  /** Every draw as written stays below one half. */
  lemma DrawAsWrittenBelowHalf(s: U64)
    ensures 0.0 <= DrawAsWritten(s) < 0.5
  {
    var q := s / 0x2_0000_0000;
    assert q < 0x8000_0000;
    assert (q as real) * 2.0 < U32Max as real;
  }

  /** The corrected draw splits the state space in half at 0.5: exactly the states below
      2^63 draw less than one half. */
  lemma DrawSplitsAtHalf(s: U64)
    ensures Draw(s) < 0.5 <==> s < 0x8000_0000_0000_0000
  {
    var q := s / 0x1_0000_0000;
    assert q < 0x8000_0000 <==> s < 0x8000_0000_0000_0000;
    assert Draw(s) < 0.5 <==> (q as real) * 2.0 < U32Max as real;
  }

  /** The cell states of `seed` for a given draw: cell `i` is On iff the `i`-th state drawn
      after the dimension seed gives a value below the density. */
  function SeedGridBy(w: nat, h: nat, density: real, draw: U64 -> real): (g: seq<CellState>)
    ensures |g| == w * h
    ensures forall i :: 0 <= i < w * h ==>
      g[i] == if draw(Stream(SeedState(w, h), w * h)[i]) < density then On else Off
  {
    var states := Stream(SeedState(w, h), w * h);
    seq(w * h, i requires 0 <= i < w * h => if draw(states[i]) < density then On else Off)
  }

  /** `seed()` as written. */
  function SeedGridAsWritten(w: nat, h: nat, density: real): (g: seq<CellState>)
    ensures |g| == w * h
  {
    SeedGridBy(w, h, density, DrawAsWritten)
  }

  /** `seed()` as intended, with the full 32-bit draw. */
  function SeedGrid(w: nat, h: nat, density: real): (g: seq<CellState>)
    ensures |g| == w * h
    ensures forall i :: 0 <= i < w * h ==> g[i] != Dying
  {
    SeedGridBy(w, h, density, Draw)
  }

  /** As written, the top of the density range (0.5) turns every cell On, whatever the
      dimensions: the seeded board is saturated. */
  lemma SeedAsWrittenSaturatesAtHalf(w: nat, h: nat, density: real)
    requires density >= 0.5
    ensures forall i :: 0 <= i < w * h ==> SeedGridAsWritten(w, h, density)[i] == On
  {
    var states := Stream(SeedState(w, h), w * h);
    forall i | 0 <= i < w * h
      ensures SeedGridAsWritten(w, h, density)[i] == On
    {
      DrawAsWrittenBelowHalf(states[i]);
    }
  }

  /** As intended, density 0.5 turns On exactly the cells whose state lies in the lower half
      of the 64-bit range, so the board is not forced full. */
  lemma SeedAtHalfSplitsStates(w: nat, h: nat)
    ensures forall i :: 0 <= i < w * h ==>
      (SeedGrid(w, h, 0.5)[i] == On <==> Stream(SeedState(w, h), w * h)[i] < 0x8000_0000_0000_0000)
  {
    var states := Stream(SeedState(w, h), w * h);
    forall i | 0 <= i < w * h
      ensures SeedGrid(w, h, 0.5)[i] == On <==> states[i] < 0x8000_0000_0000_0000
    {
      DrawSplitsAtHalf(states[i]);
    }
  }

  /** `seed()` applied to the automaton: a fresh grid and an all-Off scratch buffer. */
  function Seed(b: Brain): (r: Brain)
    ensures r.(grid := b.grid, nextGrid := b.nextGrid) == b
    ensures r.Sized()
    ensures r.grid == SeedGrid(b.width, b.height, b.density)
    ensures forall i :: 0 <= i < |r.nextGrid| ==> r.nextGrid[i] == Off
  {
    b.(grid := SeedGrid(b.width, b.height, b.density), nextGrid := Repeat(Off, b.width * b.height))
  }

  /** `init(width, height)`: new dimensions, an empty accumulator, a seed that depends only on
      the dimensions and the density. */
  function Init(b: Brain, width: nat, height: nat): (r: Brain)
    ensures r.width == width && r.height == height && r.tickAccum == 0.0
    ensures r.speed == b.speed && r.density == b.density
    ensures r.Sized() && r.grid == SeedGrid(width, height, b.density)
  {
    Seed(b.(width := width, height := height, tickAccum := 0.0))
  }

  function IsOn(c: CellState): bool { c == On }

  /** The rule: On always starts dying, Dying always goes Off, and an Off cell fires exactly
      when two of its eight neighbours are On. */
  function Rule(c: CellState, n: nat): (next: CellState)
    ensures c == On ==> next == Dying
    ensures c == Dying ==> next == Off
    ensures c == Off ==> (next == On <==> n == 2) && next != Dying
  {
    match c
    case On => Dying
    case Dying => Off
    case Off => if n == 2 then On else Off
  }

  /** The next state of cell `i`, read from the current generation only. */
  function CellNext(grid: seq<CellState>, w: nat, h: nat, i: nat): CellState
    requires |grid| == w * h && i < w * h
  {
    IndexOfCoordinates(w, h, i);
    Rule(grid[i], Neighbours(grid, w, h, i % w, i / w, IsOn))
  }

  /** The next generation, every cell computed from the current one. */
  function NextGrid(grid: seq<CellState>, w: nat, h: nat): (next: seq<CellState>)
    requires |grid| == w * h
    ensures |next| == w * h
    ensures forall i :: 0 <= i < w * h ==> next[i] == CellNext(grid, w, h, i)
    ensures forall x, y :: 0 <= x < w && 0 <= y < h ==>
      next[Index(w, h, x, y)] == Rule(grid[Index(w, h, x, y)], Neighbours(grid, w, h, x, y, IsOn))
  {
    var next := seq(w * h, i requires 0 <= i < w * h => CellNext(grid, w, h, i));
    assert forall x, y :: 0 <= x < w && 0 <= y < h ==>
      next[Index(w, h, x, y)] == Rule(grid[Index(w, h, x, y)], Neighbours(grid, w, h, x, y, IsOn)) by {
      forall x, y | 0 <= x < w && 0 <= y < h
        ensures next[Index(w, h, x, y)] == Rule(grid[Index(w, h, x, y)], Neighbours(grid, w, h, x, y, IsOn))
      {
        var i := Index(w, h, x, y);
        assert i % w == x && i / w == y;
      }
    }
    next
  }

  /** `step()`: the next generation, then the two buffers swap. */
  function Step(b: Brain): (r: Brain)
    requires b.Sized()
    ensures r.Sized()
    ensures r.grid == NextGrid(b.grid, b.width, b.height) && r.nextGrid == b.grid
    ensures r.(grid := b.grid, nextGrid := b.nextGrid) == b
  {
    b.(grid := NextGrid(b.grid, b.width, b.height), nextGrid := b.grid)
  }

  /** The refractory cycle: a cell that is On now is Dying after one step and Off after two,
      whatever its neighbours do. */
  lemma OnCellsBurnOut(b: Brain, i: nat)
    requires b.Sized() && i < |b.grid| && b.grid[i] == On
    ensures Step(b).grid[i] == Dying
    ensures Step(Step(b)).grid[i] == Off
  {
  }

  /** A cell can be On after a step only if it was Off with exactly two On neighbours. */
  lemma BirthNeedsTwoNeighbours(b: Brain, x: nat, y: nat)
    requires b.Sized() && x < b.width && y < b.height
    ensures Step(b).grid[Index(b.width, b.height, x, y)] == On <==>
      b.grid[Index(b.width, b.height, x, y)] == Off && Neighbours(b.grid, b.width, b.height, x, y, IsOn) == 2
  {
  }

  /** `k` steps in a row. After at least one, the two buffers hold consecutive generations:
      the grid is the next generation of the scratch buffer it was swapped with. */
  function RunSteps(b: Brain, k: nat): (r: Brain)
    requires b.Sized()
    ensures r.Sized() && r.width == b.width && r.height == b.height
    ensures r.speed == b.speed && r.density == b.density && r.tickAccum == b.tickAccum
    ensures k > 0 ==> r.grid == NextGrid(r.nextGrid, r.width, r.height)
    decreases k
  {
    if k == 0 then b else Step(RunSteps(b, k - 1))
  }

  /** A cell that is On never stays On two steps running: On cells of the next generation
      were not On in this one. */
  lemma {:induction false} NoCellStaysOn(b: Brain, k: nat, i: nat)
    requires b.Sized() && i < |b.grid|
    ensures RunSteps(b, k + 1).grid[i] == On ==> RunSteps(b, k).grid[i] == Off
    decreases k
  {
    var c := RunSteps(b, k);
    assert RunSteps(b, k + 1) == Step(c);
    assert Step(c).grid[i] == CellNext(c.grid, c.width, c.height, i);
    IndexOfCoordinates(c.width, c.height, i);
  }

  /** The colour of each state: Off is near-black blue, On bright cyan-white, Dying orange. */
  function Colour(c: CellState): (p: Pixel) {
    match c
    case Off => Pixel(5, 5, 20)
    case On => Pixel(200, 255, 255)
    case Dying => Pixel(230, 100, 30)
  }

  /** The three colours are distinct, so the frame shows every cell's state. */
  lemma ColourIsInjective(a: CellState, b: CellState)
    ensures Colour(a) == Colour(b) <==> a == b
  {
  }

  /** `update(t, dt, pixels)`: nothing on an empty grid; otherwise `dt*speed*15` steps' worth
      of time (at most five steps), then the first `min(|pixels|, |grid|)` pixels show the
      cell states. */
  function Update(b: Brain, dt: real, pixels: seq<Pixel>): (r: (Brain, seq<Pixel>))
    requires b.Sized()
    ensures |r.1| == |pixels| && r.0.Sized()
    ensures b.width == 0 || b.height == 0 ==> r == (b, pixels)
    ensures b.width > 0 && b.height > 0 ==>
      var (steps, rest) := StepBudget(b.tickAccum, dt * b.speed * 15.0);
      && r.0 == RunSteps(b.(tickAccum := rest), steps)
      && (forall i :: 0 <= i < |pixels| && i < |r.0.grid| ==> r.1[i] == Colour(r.0.grid[i]))
      && (forall i :: |r.0.grid| <= i < |pixels| ==> r.1[i] == pixels[i])
  {
    if b.width == 0 || b.height == 0 then (b, pixels)
    else
      var (steps, rest) := StepBudget(b.tickAccum, dt * b.speed * 15.0);
      var b1 := RunSteps(b.(tickAccum := rest), steps);
      (b1, seq(|pixels|, i requires 0 <= i < |pixels| =>
              if i < |b1.grid| then Colour(b1.grid[i]) else pixels[i]))
  }

  /** `params()`: speed in [0.5, 3] and density in [0.1, 0.5]. */
  function Params(b: Brain): (ps: seq<ParamDesc>)
    ensures WellFormedParams(ps) && |ps| == 2
    ensures ps[0] == ParamDesc("speed", 0.5, 3.0, b.speed)
    ensures ps[1] == ParamDesc("density", 0.1, 0.5, b.density)
  {
    [ParamDesc("speed", 0.5, 3.0, b.speed), ParamDesc("density", 0.1, 0.5, b.density)]
  }

  /** `set_param(name, value)`: a new density reseeds the board, but only once it has
      dimensions; unknown names are ignored. */
  function SetParam(b: Brain, name: string, value: real): (r: Brain)
    ensures name == "speed" ==> r == b.(speed := value)
    ensures name == "density" && (b.width == 0 || b.height == 0) ==> r == b.(density := value)
    ensures name == "density" && b.width > 0 && b.height > 0 ==>
      r == Seed(b.(density := value)) && r.grid == SeedGrid(b.width, b.height, value)
    ensures name != "speed" && name != "density" ==> r == b
  {
    if name == "speed" then b.(speed := value)
    else if name == "density" then
      var b1 := b.(density := value);
      if b.width > 0 && b.height > 0 then Seed(b1) else b1
    else b
  }

  /** Setting a listed parameter is read back by `params()`, and leaves the other one alone. */
  lemma SetParamReadsBack(b: Brain, k: nat, value: real)
    requires k < 2
    ensures var ps := Params(SetParam(b, Params(b)[k].name, value));
      ps[k].value == value && ps[1 - k] == Params(b)[1 - k]
  {
    assert "speed" != "density";
  }
}
