/** Row-major grids of `width*height` cells with toroidal (wrap-around) neighbourhoods, as
    used by the two cellular automata. */
module Grids {

  lemma {:induction false} MulMonotone(a: nat, b: nat, w: nat)
    requires a <= b
    ensures a * w <= b * w
    decreases b - a
  {
    if a < b {
      MulMonotone(a, b - 1, w);
      assert (b - 1) * w + w == b * w;
    }
  }

  /** Row-major indexing stays inside a `width*height` grid. */
  lemma IndexInGrid(x: nat, y: nat, w: nat, h: nat, yw: nat, hw: nat)
    requires x < w && y < h && yw == y * w && hw == h * w
    ensures yw + x < hw
  {
    MulMonotone(y + 1, h, w);
    assert (y + 1) * w == y * w + w;
  }

  /** The index of cell `(x, y)`: `y * width + x`. */
  function Index(w: nat, h: nat, x: nat, y: nat): (i: nat)
    requires x < w && y < h
    ensures i < w * h
    ensures i % w == x && i / w == y
  {
    IndexInGrid(x, y, w, h, y * w, h * w);
    DivModOfIndex(x, y, w, y * w + x);
    y * w + x
  }

  lemma DivModOfIndex(x: nat, y: nat, w: nat, i: nat)
    requires x < w && i == y * w + x
    ensures i % w == x && i / w == y
  {
    DivModUnique(i, w, y, x);
  }

  /** Uniqueness of Euclidean division. */
  lemma DivModUnique(i: nat, w: nat, q: nat, r: nat)
    requires r < w && i == q * w + r
    ensures i / w == q && i % w == r
  {
    var q' := i / w;
    if q' < q {
      MulMonotone(q' + 1, q, w);
    } else if q' > q {
      MulMonotone(q + 1, q', w);
    }
  }

  /** Every index of the grid is the index of its own coordinates. */
  lemma IndexOfCoordinates(w: nat, h: nat, i: nat)
    requires i < w * h
    ensures w > 0 && i / w < h && Index(w, h, i % w, i / w) == i
  {
    assert w > 0;
    if i / w >= h {
      MulMonotone(h, i / w, w);
      assert false;
    }
  }

  /** The eight Moore offsets `(dy, dx)` in the scan order of the source (rows of `dy`,
      then `dx`, skipping the centre). */
  const Moore: seq<(int, int)> := [(-1, -1), (-1, 0), (-1, 1), (0, -1), (0, 1), (1, -1), (1, 0), (1, 1)]

  /** All nine offsets of the 3x3 window, centre included. */
  const Window: seq<(int, int)> := [(-1, -1), (-1, 0), (-1, 1), (0, -1), (0, 0), (0, 1), (1, -1), (1, 0), (1, 1)]

  /** The index of the cell at offset `(dy, dx)` from `(x, y)`, wrapping at every edge
      (`rem_euclid`, which is Dafny's `%` for a positive modulus). */
  function WrapIndex(w: nat, h: nat, x: nat, y: nat, dy: int, dx: int): (i: nat)
    requires x < w && y < h
    ensures i < w * h
  {
    Index(w, h, (x + dx) % w, (y + dy) % h)
  }

  /** How many cells at the given offsets from `(x, y)` satisfy `p`. */
  function CountAt<T>(grid: seq<T>, w: nat, h: nat, x: nat, y: nat, offs: seq<(int, int)>, p: T -> bool): (n: nat)
    requires |grid| == w * h && x < w && y < h
    ensures n <= |offs|
  {
    if |offs| == 0 then 0
    else
      (if p(grid[WrapIndex(w, h, x, y, offs[0].0, offs[0].1)]) then 1 else 0)
        + CountAt(grid, w, h, x, y, offs[1..], p)
  }

  lemma {:induction false} CountAtAppend<T>(grid: seq<T>, w: nat, h: nat, x: nat, y: nat,
                                            a: seq<(int, int)>, b: seq<(int, int)>, p: T -> bool)
    requires |grid| == w * h && x < w && y < h
    ensures CountAt(grid, w, h, x, y, a + b, p) == CountAt(grid, w, h, x, y, a, p) + CountAt(grid, w, h, x, y, b, p)
    decreases |a|
  {
    if |a| == 0 {
      assert a + b == b;
    } else {
      assert (a + b)[0] == a[0];
      assert (a + b)[1..] == a[1..] + b;
      CountAtAppend(grid, w, h, x, y, a[1..], b, p);
    }
  }

  /** The neighbour count: the wrapped Moore neighbourhood, never the cell itself. */
  function Neighbours<T>(grid: seq<T>, w: nat, h: nat, x: nat, y: nat, p: T -> bool): (n: nat)
    requires |grid| == w * h && x < w && y < h
    ensures n <= 8
  {
    CountAt(grid, w, h, x, y, Moore, p)
  }

  /** Inserting an offset into a list adds exactly that offset's contribution. */
  lemma CountAtInsert<T>(grid: seq<T>, w: nat, h: nat, x: nat, y: nat,
                         a: seq<(int, int)>, c: (int, int), b: seq<(int, int)>, p: T -> bool)
    requires |grid| == w * h && x < w && y < h
    ensures CountAt(grid, w, h, x, y, a + [c] + b, p)
      == CountAt(grid, w, h, x, y, a + b, p) + CountAt(grid, w, h, x, y, [c], p)
  {
    CountAtAppend(grid, w, h, x, y, a + [c], b, p);
    CountAtAppend(grid, w, h, x, y, a, [c], p);
    CountAtAppend(grid, w, h, x, y, a, b, p);
  }

  /** Against an independent reference: the neighbour count is the 3x3 window count minus
      the cell itself, so the centre is excluded and nothing else is. */
  lemma NeighboursAreWindowMinusCentre<T>(grid: seq<T>, w: nat, h: nat, x: nat, y: nat, p: T -> bool)
    requires |grid| == w * h && x < w && y < h
    ensures CountAt(grid, w, h, x, y, Window, p)
      == Neighbours(grid, w, h, x, y, p) + (if p(grid[Index(w, h, x, y)]) then 1 else 0)
  {
    var a, b := Moore[..4], Moore[4..];
    assert Window == a + [(0, 0)] + b;
    assert Moore == a + b;
    CountAtInsert(grid, w, h, x, y, a, (0, 0), b, p);
    WrapCentre(w, h, x, y);
    var c: seq<(int, int)> := [(0, 0)];
    assert c[1..] == [];
    assert CountAt(grid, w, h, x, y, c, p) == (if p(grid[Index(w, h, x, y)]) then 1 else 0);
  }

  lemma WrapCentre(w: nat, h: nat, x: nat, y: nat)
    requires x < w && y < h
    ensures WrapIndex(w, h, x, y, 0, 0) == Index(w, h, x, y)
  {
    assert (x + 0) % w == x && (y + 0) % h == y;
  }
}
