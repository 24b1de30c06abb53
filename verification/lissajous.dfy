/** The trail of the Lissajous figure: a ring buffer of 800 points written four at a time,
    read back oldest first, with the newest point drawn as a glowing head. */
module Lissajous {
  import opened Grids

  const TrailLength: nat := 800
  const PointsPerFrame: nat := 4

  /** A 3-D position on the curve; its coordinates come from trigonometry. */
  type Point = (real, real, real)

  /** The ring buffer: the slots, the next slot to write, and whether the head has wrapped at
      least once. */
  datatype Trail = Trail(slots: seq<Point>, head: nat, filled: bool)
  {
    predicate Valid() {
      |slots| == TrailLength && head < TrailLength
    }
  }

  /** Adding to the remainder is adding to the number. */
  lemma ModAdd(a: nat, b: nat)
    ensures (a % TrailLength + b) % TrailLength == (a + b) % TrailLength
  {
    var s := a % TrailLength + b;
    DivModUnique(a + b, TrailLength, a / TrailLength + s / TrailLength, s % TrailLength);
  }

  /** Two positions less than a ring apart fall in different slots. */
  lemma ModDistinct(k: nat, n: nat)
    requires k < n < k + TrailLength
    ensures k % TrailLength != n % TrailLength
  {
    ModAdd(k, n - k);
  }

  /** `init`: 800 zero points, the head at slot 0, nothing filled yet. */
  function Init(): (tr: Trail)
    ensures tr.Valid() && tr.head == 0 && !tr.filled
    ensures forall i :: 0 <= i < |tr.slots| ==> tr.slots[i] == (0.0, 0.0, 0.0)
  {
    Trail(seq(TrailLength, i => (0.0, 0.0, 0.0)), 0, false)
  }

  /** One point of `update`: written at the head, the head advanced modulo 800, and `filled`
      latched once the head comes back to 0. */
  function Push(tr: Trail, p: Point): (r: Trail)
    requires tr.Valid()
    ensures r.Valid()
    ensures r.slots[tr.head] == p
    ensures forall i :: 0 <= i < TrailLength && i != tr.head ==> r.slots[i] == tr.slots[i]
    ensures r.head == (tr.head + 1) % TrailLength
    ensures tr.filled ==> r.filled
  {
    var head := (tr.head + 1) % TrailLength;
    Trail(tr.slots[tr.head := p], head, tr.filled || head == 0)
  }

  /** The points of one frame, pushed in order. */
  function PushAll(tr: Trail, pts: seq<Point>): (r: Trail)
    requires tr.Valid()
    ensures r.Valid()
    decreases |pts|
  {
    if |pts| == 0 then tr else PushAll(Push(tr, pts[0]), pts[1..])
  }

  lemma {:induction false} PushAllAppend(tr: Trail, a: seq<Point>, b: seq<Point>)
    requires tr.Valid()
    ensures PushAll(tr, a + b) == PushAll(PushAll(tr, a), b)
    decreases |a|
  {
    if |a| == 0 {
      assert a + b == b;
    } else {
      assert (a + b)[0] == a[0];
      assert (a + b)[1..] == a[1..] + b;
      PushAllAppend(Push(tr, a[0]), a[1..], b);
    }
  }

  /** `update` on the trail: nothing while the effect has no area, otherwise the frame's four
      curve points (computed from `t`, the speed and the complexity) are pushed. */
  function Update(tr: Trail, width: nat, height: nat, pts: seq<Point>): (r: Trail)
    requires tr.Valid() && |pts| == PointsPerFrame
    ensures r.Valid()
    ensures width == 0 || height == 0 ==> r == tr
    ensures width > 0 && height > 0 ==> r.head == (tr.head + PointsPerFrame) % TrailLength
    ensures tr.filled ==> r.filled
  {
    if width == 0 || height == 0 then tr
    else
      AdvanceHead(tr, pts);
      PushAll(tr, pts)
  }

  /** Pushing fewer than a full ring of points moves the head by their number and fills the
      ring exactly when the head passes slot 0. */
  lemma {:induction false} AdvanceHead(tr: Trail, pts: seq<Point>)
    requires tr.Valid() && |pts| <= TrailLength
    ensures PushAll(tr, pts).head == (tr.head + |pts|) % TrailLength
    ensures PushAll(tr, pts).filled == (tr.filled || tr.head + |pts| >= TrailLength)
    decreases |pts|
  {
    if |pts| > 0 {
      AdvanceHead(Push(tr, pts[0]), pts[1..]);
      ModAdd(tr.head + 1, |pts| - 1);
    }
  }

  /** `total`: how many slots hold curve points. */
  function Total(tr: Trail): (n: nat)
    requires tr.Valid()
    ensures n <= TrailLength
    ensures tr.filled ==> n == TrailLength
  {
    if tr.filled then TrailLength else tr.head
  }

  /** The slot read at step `i` of the draw loop. */
  function ReadIndex(tr: Trail, i: nat): (j: nat)
    requires tr.Valid() && i < Total(tr)
    ensures j < TrailLength
  {
    if tr.filled then (tr.head + i) % TrailLength else i
  }

  /** The draw order: `total` slots, each visited once. */
  function DrawOrder(tr: Trail): (order: seq<nat>)
    requires tr.Valid()
    ensures |order| == Total(tr)
    ensures forall i :: 0 <= i < |order| ==> order[i] < TrailLength
    ensures forall i, j :: 0 <= i < j < |order| ==> order[i] != order[j]
  {
    seq(Total(tr), i requires 0 <= i < Total(tr) => ReadIndex(tr, i))
  }

  /** `head_idx`: the slot written last. */
  function HeadIndex(tr: Trail): (j: nat)
    requires tr.Valid()
    ensures j < TrailLength
    ensures (j + 1) % TrailLength == tr.head
  {
    if tr.head == 0 then TrailLength - 1 else tr.head - 1
  }

  /** The reference: the trail remembers the last 800 of all the points ever pushed, each in
      slot `k mod 800` for its position `k` in the history. */
  predicate Remembers(tr: Trail, hist: seq<Point>) {
    && tr.Valid()
    && tr.head == |hist| % TrailLength
    && tr.filled == (|hist| >= TrailLength)
    && forall k :: 0 <= k < |hist| && |hist| - TrailLength <= k ==> tr.slots[k % TrailLength] == hist[k]
  }

  lemma PushRemembers(tr: Trail, hist: seq<Point>, p: Point)
    requires Remembers(tr, hist)
    ensures Remembers(Push(tr, p), hist + [p])
  {
    var n := |hist|;
    var h := hist + [p];
    var r := Push(tr, p);
    ModAdd(n, 1);
    forall k | 0 <= k < |h| && |h| - TrailLength <= k
      ensures r.slots[k % TrailLength] == h[k]
    {
      if k < n {
        ModDistinct(k, n);
      }
    }
  }

  /** Starting from `init`, the ring holds exactly the recent history. */
  lemma {:induction false} RingRemembers(hist: seq<Point>)
    ensures Remembers(PushAll(Init(), hist), hist)
    decreases |hist|
  {
    if |hist| > 0 {
      var front, last := hist[..|hist| - 1], hist[|hist| - 1];
      assert hist == front + [last];
      RingRemembers(front);
      PushAllAppend(Init(), front, [last]);
      var tr := PushAll(Init(), front);
      assert PushAll(tr, [last]) == PushAll(Push(tr, last), []);
      PushRemembers(tr, front, last);
    }
  }

  /** The slot read at step `i` holds the point pushed `total - i` pushes ago. */
  lemma ReadIndexHolds(tr: Trail, hist: seq<Point>, i: nat)
    requires Remembers(tr, hist) && i < Total(tr)
    ensures Total(tr) <= |hist|
    ensures tr.slots[ReadIndex(tr, i)] == hist[|hist| - Total(tr) + i]
  {
    var n := |hist|;
    var k := n - Total(tr) + i;
    assert k % TrailLength == ReadIndex(tr, i) by {
      if tr.filled {
        ModAdd(n, i);
        ModAdd(k, TrailLength);
      }
    }
  }

  /** Reading in draw order gives the last `total` points oldest first, and the head index
      holds the newest one. */
  lemma DrawOrderIsOldestFirst(tr: Trail, hist: seq<Point>)
    requires Remembers(tr, hist)
    ensures Total(tr) == (if |hist| < TrailLength then |hist| else TrailLength)
    ensures forall i :: 0 <= i < Total(tr) ==> tr.slots[ReadIndex(tr, i)] == hist[|hist| - Total(tr) + i]
    ensures |hist| > 0 ==> tr.slots[HeadIndex(tr)] == hist[|hist| - 1]
  {
    forall i | 0 <= i < Total(tr)
      ensures tr.slots[ReadIndex(tr, i)] == hist[|hist| - Total(tr) + i]
    {
      ReadIndexHolds(tr, hist, i);
    }
    if |hist| > 0 {
      assert (|hist| - 1) % TrailLength == HeadIndex(tr) by {
        ModAdd(|hist| - 1, 1);
      }
    }
  }

  /** From `init`, after any history of pushes, the draw loop visits the most recent points
      from oldest to newest. */
  lemma TrailDrawsRecentHistory(hist: seq<Point>)
    ensures var tr := PushAll(Init(), hist);
      && Total(tr) == (if |hist| < TrailLength then |hist| else TrailLength)
      && forall i :: 0 <= i < Total(tr) ==> tr.slots[ReadIndex(tr, i)] == hist[|hist| - Total(tr) + i]
  {
    RingRemembers(hist);
    DrawOrderIsOldestFirst(PushAll(Init(), hist), hist);
  }
}
