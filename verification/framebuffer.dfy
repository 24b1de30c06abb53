/** The pixel framebuffer and the half-block mapping of two pixel rows onto one terminal row. */
module Framebuffers {
  import opened Pixels
  import opened Options
  import opened Grids

  datatype Framebuffer = Framebuffer(width: nat, height: nat, pixels: seq<Pixel>)
  {
    /** The buffer holds exactly one pixel per coordinate. */
    predicate Consistent() { |pixels| == width * height }
  }

  /** `PixelFramebuffer::new`: `width*height` black pixels. */
  function New(width: nat, height: nat): (fb: Framebuffer)
    ensures fb.width == width && fb.height == height
    ensures fb.Consistent()
    ensures forall i :: 0 <= i < |fb.pixels| ==> fb.pixels[i] == Black
  {
    Framebuffer(width, height, Repeat(Black, width * height))
  }

  /** `resize`: new dimensions, the old prefix kept, new slots black. */
  function Resize(fb: Framebuffer, width: nat, height: nat): (r: Framebuffer)
    ensures r.width == width && r.height == height
    ensures r.Consistent()
    ensures forall i :: 0 <= i < width * height && i < |fb.pixels| ==> r.pixels[i] == fb.pixels[i]
    ensures forall i :: |fb.pixels| <= i < width * height ==> r.pixels[i] == Black
  {
    Framebuffer(width, height, Pixels.Resize(fb.pixels, width * height, Black))
  }

  /** `clear`: every pixel black, dimensions and length unchanged. */
  function Clear(fb: Framebuffer): (r: Framebuffer)
    ensures r.width == fb.width && r.height == fb.height && |r.pixels| == |fb.pixels|
    ensures forall i :: 0 <= i < |r.pixels| ==> r.pixels[i] == Black
  {
    fb.(pixels := Repeat(Black, |fb.pixels|))
  }

  /** A resize to the current dimensions changes nothing in a consistent buffer. */
  lemma ResizeSameIsIdentity(fb: Framebuffer)
    requires fb.Consistent()
    ensures Resize(fb, fb.width, fb.height) == fb
  {
    ResizeToOwnLength(fb.pixels, Black);
  }

  /** One terminal cell: the upper half-block shows `fg`, the lower half shows `bg`. */
  datatype Cell = Cell(fg: Pixel, bg: Pixel)

  /** The pixel shown at column `x` of pixel row `y`: black below the last row or past the
      end of the buffer. */
  function PixelAt(fb: Framebuffer, x: nat, y: nat): (p: Pixel)
    ensures y >= fb.height ==> p == Black
    ensures y < fb.height && y * fb.width + x < |fb.pixels| ==> p == fb.pixels[y * fb.width + x]
    ensures y < fb.height && y * fb.width + x >= |fb.pixels| ==> p == Black
  {
    if y < fb.height then
      var idx := y * fb.width + x;
      if idx < |fb.pixels| then fb.pixels[idx] else Black
    else Black
  }

  /** `fb.width as u16`: the column bound is taken modulo 2^16. */
  function WidthU16(fb: Framebuffer): (w: nat)
    ensures w < 0x1_0000
    ensures fb.width < 0x1_0000 ==> w == fb.width
  {
    fb.width % 0x1_0000
  }

  /** `HalfBlockWidget::render` on an `areaWidth` x `areaHeight` area: nothing when the
      framebuffer is empty; otherwise every area row, over the first
      `min(areaWidth, width as u16)` columns. */
  function Render(fb: Framebuffer, areaWidth: nat, areaHeight: nat): (g: Option<seq<seq<Cell>>>)
    requires areaWidth < 0x1_0000 && areaHeight < 0x1_0000
    ensures fb.width == 0 || fb.height == 0 <==> g.None?
    ensures g.Some? ==> |g.value| == areaHeight
    ensures g.Some? ==> forall row :: 0 <= row < areaHeight ==> |g.value[row]| == Min(areaWidth, WidthU16(fb))
    ensures g.Some? ==> forall row, col :: 0 <= row < areaHeight && 0 <= col < |g.value[row]| ==>
      g.value[row][col] == Cell(PixelAt(fb, col, 2 * row), PixelAt(fb, col, 2 * row + 1))
  {
    if fb.width == 0 || fb.height == 0 then None
    else
      var cols := Min(areaWidth, WidthU16(fb));
      Some(seq(areaHeight, row requires 0 <= row =>
        seq(cols, col requires 0 <= col => Cell(PixelAt(fb, col, 2 * row), PixelAt(fb, col, 2 * row + 1)))))
  }

  /** Inside a consistent buffer, the shown pixel is the stored one. */
  lemma PixelAtInside(fb: Framebuffer, x: nat, y: nat)
    requires fb.Consistent() && x < fb.width && y < fb.height
    ensures y * fb.width + x < |fb.pixels| && PixelAt(fb, x, y) == fb.pixels[y * fb.width + x]
  {
    IndexInGrid(x, y, fb.width, fb.height, y * fb.width, fb.height * fb.width);
  }

  /** Every pixel of a consistent framebuffer that fits the area is shown exactly once:
      even rows as the upper half of cell `(x, y/2)`, odd rows as its lower half. */
  lemma RenderShowsEveryPixel(fb: Framebuffer, areaWidth: nat, areaHeight: nat, x: nat, y: nat)
    requires fb.Consistent() && fb.width > 0 && fb.height > 0
    requires fb.width <= areaWidth < 0x1_0000 && areaHeight < 0x1_0000 && fb.height <= 2 * areaHeight
    requires x < fb.width && y < fb.height
    ensures Render(fb, areaWidth, areaHeight).Some?
    ensures y / 2 < |Render(fb, areaWidth, areaHeight).value|
    ensures x < |Render(fb, areaWidth, areaHeight).value[y / 2]|
    ensures y * fb.width + x < |fb.pixels|
    ensures var cell := Render(fb, areaWidth, areaHeight).value[y / 2][x];
      (if y % 2 == 0 then cell.fg else cell.bg) == fb.pixels[y * fb.width + x]
  {
    PixelAtInside(fb, x, y);
    var row := y / 2;
    assert WidthU16(fb) == fb.width;
    var g := Render(fb, areaWidth, areaHeight).value;
    assert x < |g[row]|;
    if y % 2 == 0 {
      assert 2 * row == y;
    } else {
      assert 2 * row + 1 == y;
    }
  }

  /** A terminal row below the framebuffer's last pixel row is drawn all black. */
  lemma RenderBelowIsBlack(fb: Framebuffer, areaWidth: nat, areaHeight: nat, row: nat, col: nat)
    requires fb.width > 0 && fb.height > 0
    requires areaWidth < 0x1_0000 && areaHeight < 0x1_0000
    requires row < areaHeight && 2 * row >= fb.height
    requires col < Min(areaWidth, WidthU16(fb))
    ensures Render(fb, areaWidth, areaHeight).value[row][col] == Cell(Black, Black)
  {
  }
}
