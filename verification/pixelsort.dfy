/** Pixel sorting: in every row, each maximal run of pixels at or above a brightness threshold
    is sorted by brightness, ascending on even rows and descending on odd rows. */
module PixelSort {
  import opened Pixels
  import opened Grids

  /** The luma-weighted brightness of a pixel, in [0, 1]. */
  function Brightness(p: Pixel): (b: real)
    ensures 0.0 <= b <= 1.0
  {
    ((p.r as real) * 0.299 + (p.g as real) * 0.587 + (p.b as real) * 0.114) / 255.0
  }

  datatype Order = Ascending | Descending

  /** The sort key: sorting descending by brightness is sorting ascending by its negation,
      with the same treatment of ties. */
  function Key(o: Order, p: Pixel): real {
    if o == Ascending then Brightness(p) else -Brightness(p)
  }

  /** Odd rows sort descending, even rows ascending. */
  function RowOrder(y: nat): (o: Order)
    ensures o == Descending <==> y % 2 == 1
  {
    if y % 2 == 1 then Descending else Ascending
  }

  predicate Sorted(o: Order, s: seq<Pixel>) {
    forall i, j :: 0 <= i < j < |s| ==> Key(o, s[i]) <= Key(o, s[j])
  }

  /** Insert `x` in front of the first element whose key is not smaller: an element that was
      earlier in the input stays before equal ones, as in a stable sort. */
  function Insert(o: Order, x: Pixel, s: seq<Pixel>): (r: seq<Pixel>)
    ensures |r| == |s| + 1
    decreases |s|
  {
    if |s| == 0 then [x]
    else if Key(o, x) <= Key(o, s[0]) then [x] + s
    else [s[0]] + Insert(o, x, s[1..])
  }

  lemma {:induction false} InsertKeepsElements(o: Order, x: Pixel, s: seq<Pixel>)
    ensures multiset(Insert(o, x, s)) == multiset(s) + multiset{x}
    decreases |s|
  {
    if |s| > 0 && Key(o, x) > Key(o, s[0]) {
      InsertKeepsElements(o, x, s[1..]);
      assert s == [s[0]] + s[1..];
    }
  }

  /** Every key of `s` is at least `lo`. */
  predicate AtLeast(o: Order, lo: real, s: seq<Pixel>) {
    forall i :: 0 <= i < |s| ==> lo <= Key(o, s[i])
  }

  lemma {:induction false} InsertKeepsBound(o: Order, lo: real, x: Pixel, s: seq<Pixel>)
    requires AtLeast(o, lo, s) && lo <= Key(o, x)
    ensures AtLeast(o, lo, Insert(o, x, s))
    decreases |s|
  {
    if |s| > 0 && Key(o, x) > Key(o, s[0]) {
      InsertKeepsBound(o, lo, x, s[1..]);
    }
  }

  lemma {:induction false} InsertKeepsSorted(o: Order, x: Pixel, s: seq<Pixel>)
    requires Sorted(o, s)
    ensures Sorted(o, Insert(o, x, s))
    decreases |s|
  {
    if |s| > 0 && Key(o, x) > Key(o, s[0]) {
      InsertKeepsSorted(o, x, s[1..]);
      InsertKeepsBound(o, Key(o, s[0]), x, s[1..]);
    }
  }

  /** `sort_by` on one run: insertion sort, stable like the source's merge sort. */
  function SortBy(o: Order, s: seq<Pixel>): (r: seq<Pixel>)
    ensures |r| == |s|
    decreases |s|
  {
    if |s| == 0 then [] else Insert(o, s[0], SortBy(o, s[1..]))
  }

  /** The sorted run is ordered. */
  lemma {:induction false} SortByIsSorted(o: Order, s: seq<Pixel>)
    ensures Sorted(o, SortBy(o, s))
    decreases |s|
  {
    if |s| > 0 {
      SortByIsSorted(o, s[1..]);
      InsertKeepsSorted(o, s[0], SortBy(o, s[1..]));
    }
  }

  /** The sorted run holds exactly the pixels of the run. */
  lemma {:induction false} SortByIsPermutation(o: Order, s: seq<Pixel>)
    ensures multiset(SortBy(o, s)) == multiset(s)
    decreases |s|
  {
    if |s| > 0 {
      SortByIsPermutation(o, s[1..]);
      InsertKeepsElements(o, s[0], SortBy(o, s[1..]));
      assert s == [s[0]] + s[1..];
    }
  }

  /** The length of the run at the front of `s`: pixels at or above the threshold. */
  function RunLength(s: seq<Pixel>, thresh: real): (n: nat)
    ensures n <= |s|
    ensures n == |s| || Brightness(s[n]) < thresh
    decreases |s|
  {
    if |s| == 0 || Brightness(s[0]) < thresh then 0 else 1 + RunLength(s[1..], thresh)
  }

  /** Every pixel of the run is at or above the threshold, so with the dark pixel (or the
      row end) after it the run is maximal. */
  lemma {:induction false} RunIsBright(s: seq<Pixel>, thresh: real, i: nat)
    requires i < RunLength(s, thresh)
    ensures Brightness(s[i]) >= thresh
    decreases i
  {
    if i > 0 {
      RunIsBright(s[1..], thresh, i - 1);
    }
  }

  /** How far one step of the row scan advances: past a pixel below the threshold, or past
      the whole run starting here. */
  function Step(s: seq<Pixel>, thresh: real): (n: nat)
    requires |s| > 0
    ensures 1 <= n <= |s|
    ensures Brightness(s[0]) < thresh ==> n == 1
  {
    if Brightness(s[0]) < thresh then 1 else RunLength(s, thresh)
  }

  /** What one step of the scan leaves in place of the pixels it passed. */
  function Head(o: Order, s: seq<Pixel>, thresh: real): (r: seq<Pixel>)
    requires |s| > 0
    ensures |r| == Step(s, thresh)
  {
    if Brightness(s[0]) < thresh then [s[0]] else SortBy(o, s[..RunLength(s, thresh)])
  }

  /** The scan of one row: a pixel below the threshold is skipped, otherwise the maximal run
      starting there is sorted in place and the scan continues after it. */
  function SortRuns(o: Order, s: seq<Pixel>, thresh: real): (r: seq<Pixel>)
    ensures |r| == |s|
    decreases |s|
  {
    if |s| == 0 then [] else Head(o, s, thresh) + SortRuns(o, s[Step(s, thresh)..], thresh)
  }

  /** Dropping past the first part of a concatenation drops into the second. */
  lemma DropPast(x: seq<Pixel>, y: seq<Pixel>, k: nat)
    requires |x| <= k <= |x| + |y|
    ensures (x + y)[k..] == y[k - |x|..]
  {
  }

  /** Dropping twice is dropping once. */
  lemma DropDrop(s: seq<Pixel>, i: nat, j: nat)
    requires i + j <= |s|
    ensures s[i..][j..] == s[i + j..]
  {
  }

  /** Indexing past the first part of a concatenation indexes into the second. */
  lemma IndexPast(x: seq<Pixel>, y: seq<Pixel>, k: nat)
    requires |x| <= k < |x| + |y|
    ensures (x + y)[k] == y[k - |x|]
  {
  }

  /** A pixel below the threshold keeps its place. */
  lemma {:induction false} SortRunsFixesDarkPixel(o: Order, s: seq<Pixel>, thresh: real, i: nat)
    requires i < |s| && Brightness(s[i]) < thresh
    ensures SortRuns(o, s, thresh)[i] == s[i]
    decreases |s|
  {
    var n := Step(s, thresh);
    if i >= n {
      IndexPast(Head(o, s, thresh), SortRuns(o, s[n..], thresh), i);
      SortRunsFixesDarkPixel(o, s[n..], thresh, i - n);
    } else if Brightness(s[0]) >= thresh {
      RunIsBright(s, thresh, i);
      assert false;
    }
  }

  /** One step of the scan keeps the pixels it passed. */
  lemma HeadIsPermutation(o: Order, s: seq<Pixel>, thresh: real)
    requires |s| > 0
    ensures multiset(Head(o, s, thresh)) == multiset(s[..Step(s, thresh)])
  {
    if Brightness(s[0]) >= thresh {
      SortByIsPermutation(o, s[..RunLength(s, thresh)]);
    }
  }

  /** The pixels of a sequence are those of its two parts. */
  lemma MultisetSplit(s: seq<Pixel>, n: nat)
    requires n <= |s|
    ensures multiset(s) == multiset(s[..n]) + multiset(s[n..])
  {
    assert s == s[..n] + s[n..];
  }

  /** The sorted row holds exactly the pixels of the row. */
  lemma {:induction false} SortRunsIsPermutation(o: Order, s: seq<Pixel>, thresh: real)
    ensures multiset(SortRuns(o, s, thresh)) == multiset(s)
    decreases |s|
  {
    if |s| > 0 {
      var n := Step(s, thresh);
      var h, rest := Head(o, s, thresh), SortRuns(o, s[n..], thresh);
      assert SortRuns(o, s, thresh) == h + rest;
      SortRunsIsPermutation(o, s[n..], thresh);
      HeadIsPermutation(o, s, thresh);
      MultisetSplit(s, n);
    }
  }

  /** A maximal run: it starts at a bright pixel after a dark one (or at the row start). */
  predicate RunStart(s: seq<Pixel>, thresh: real, a: nat) {
    a < |s| && Brightness(s[a]) >= thresh && (a == 0 || Brightness(s[a - 1]) < thresh)
  }

  /** A step of the scan never passes a pixel below the threshold other than its first. */
  lemma StepStopsAtDark(s: seq<Pixel>, thresh: real, a: nat)
    requires 0 < a <= |s| && Brightness(s[a - 1]) < thresh
    ensures Step(s, thresh) <= a
  {
    if Brightness(s[0]) >= thresh && a - 1 < RunLength(s, thresh) {
      RunIsBright(s, thresh, a - 1);
    }
  }

  /** The scan is local: from the row start or just after a dark pixel, what remains of the
      sorted row is the sorted remainder of the row. */
  lemma {:induction false} SortRunsFromBoundary(o: Order, s: seq<Pixel>, thresh: real, a: nat)
    requires a <= |s| && (a == 0 || Brightness(s[a - 1]) < thresh)
    ensures SortRuns(o, s, thresh)[a..] == SortRuns(o, s[a..], thresh)
    decreases |s|
  {
    if a > 0 {
      var n := Step(s, thresh);
      StepStopsAtDark(s, thresh, a);
      var h, rest := Head(o, s, thresh), SortRuns(o, s[n..], thresh);
      assert SortRuns(o, s, thresh) == h + rest;
      DropPast(h, rest, a);
      assert SortRuns(o, s, thresh)[a..] == rest[a - n..];
      DropDrop(s, n, a - n);
      var t := s[n..];
      assert a - n > 0 ==> t[a - n - 1] == s[a - 1];
      SortRunsFromBoundary(o, t, thresh, a - n);
      assert rest[a - n..] == SortRuns(o, t[a - n..], thresh);
      assert t[a - n..] == s[a..];
    }
  }

  /** The maximal run starting at `a`. */
  function RunAt(s: seq<Pixel>, thresh: real, a: nat): (run: seq<Pixel>)
    requires a <= |s|
    ensures a + |run| <= |s|
  {
    s[a..][..RunLength(s[a..], thresh)]
  }

  /** Every maximal run is replaced by its sorted copy, in place. */
  lemma SortRunsSortsEachRun(o: Order, s: seq<Pixel>, thresh: real, a: nat)
    requires RunStart(s, thresh, a)
    ensures SortRuns(o, s, thresh)[a..a + |RunAt(s, thresh, a)|] == SortBy(o, RunAt(s, thresh, a))
  {
    SortRunsFromBoundary(o, s, thresh, a);
  }

  /** Hence each maximal run ends up ordered, and holds exactly the pixels it held. */
  lemma SortedRunIsOrderedPermutation(o: Order, s: seq<Pixel>, thresh: real, a: nat)
    requires RunStart(s, thresh, a)
    ensures var sorted := SortRuns(o, s, thresh)[a..a + |RunAt(s, thresh, a)|];
      Sorted(o, sorted) && multiset(sorted) == multiset(RunAt(s, thresh, a))
  {
    SortRunsSortsEachRun(o, s, thresh, a);
    SortByIsSorted(o, RunAt(s, thresh, a));
    SortByIsPermutation(o, RunAt(s, thresh, a));
  }

  /** The row-major row `y` of an image. */
  function Row(image: seq<Pixel>, w: nat, h: nat, y: nat): (row: seq<Pixel>)
    requires |image| == w * h && y < h
    ensures |row| == w
    ensures forall x :: 0 <= x < w ==> row[x] == image[Index(w, h, x, y)]
  {
    if w == 0 then []
    else
      IndexInGrid(w - 1, y, w, h, y * w, h * w);
      image[y * w..y * w + w]
  }

  /** Row `y` after sorting: its runs sorted in the row's direction. */
  function SortedRow(image: seq<Pixel>, w: nat, h: nat, y: nat, thresh: real): (row: seq<Pixel>)
    requires |image| == w * h && y < h
    ensures |row| == w
  {
    SortRuns(RowOrder(y), Row(image, w, h, y), thresh)
  }

  /** `update`: the plasma image (computed by trigonometry from `t` and the chaos parameter)
      with every row sorted independently; pixels past `w*h` are left alone, and nothing is
      drawn while the effect has no area. */
  function Update(pixels: seq<Pixel>, w: nat, h: nat, image: seq<Pixel>, thresh: real): (r: seq<Pixel>)
    requires |image| == w * h && |pixels| >= w * h
    ensures |r| == |pixels|
    ensures forall i :: w * h <= i < |pixels| ==> r[i] == pixels[i]
    ensures forall x, y :: 0 <= x < w && 0 <= y < h ==> r[Index(w, h, x, y)] == SortedRow(image, w, h, y, thresh)[x]
  {
    var n := w * h;
    var r := seq(|pixels|, i requires 0 <= i < |pixels| =>
      if i < n then (IndexOfCoordinates(w, h, i); SortedRow(image, w, h, i / w, thresh)[i % w]) else pixels[i]);
    assert forall x, y :: 0 <= x < w && 0 <= y < h ==> r[Index(w, h, x, y)] == SortedRow(image, w, h, y, thresh)[x] by {
      forall x, y | 0 <= x < w && 0 <= y < h
        ensures r[Index(w, h, x, y)] == SortedRow(image, w, h, y, thresh)[x]
      {
        var i := Index(w, h, x, y);
        assert i / w == y && i % w == x;
      }
    }
    r
  }
}
