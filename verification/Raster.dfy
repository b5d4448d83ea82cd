/** gui/fb.c: Bresenham's line and the midpoint circle. */
module Raster {
  import opened Base

  datatype Pixel = Pixel(x: int, y: int)

  function Abs(x: int): int { if x < 0 then -x else x }

  // ---- lines

  /** Point number k on the way from (x0, y0): exact in the longer direction, in the other one within half a
      pixel of the ideal line, and between the two ends. */
  predicate OnLine(p: Pixel, k: nat, x0: int, y0: int, x1: int, y1: int) {
    var dx, dy := Abs(x1 - x0), Abs(y1 - y0);
    var a, b := if x1 > x0 then p.x - x0 else x0 - p.x, if y1 > y0 then p.y - y0 else y0 - p.y;
    Offsets(dx, dy, a, b, k)
  }

  /** How far the offsets (a, b) lie off the line through (dx, dy), as an area. */
  function Dev(dx: int, dy: int, a: int, b: int): int { dx * b - dy * a }

  predicate Offsets(dx: int, dy: int, a: int, b: int, k: int) {
    && 0 <= a <= dx && 0 <= b <= dy
    && (if dx >= dy then a == k else b == k)
    && 2 * Abs(Dev(dx, dy, a, b)) <= Max(dx, dy)
  }

  /** Within half a pixel of the end is the end. */
  lemma AtEnd(dx: int, dy: int, a: int, b: int, k: int)
    requires dx >= 0 && dy >= 0 && Offsets(dx, dy, a, b, k) && k <= Max(dx, dy)
    ensures a == dx && b == dy <==> k == Max(dx, dy)
  {
    if k == Max(dx, dy) {
      if dx >= dy {
        assert Dev(dx, dy, a, b) == dx * (b - dy);
        Nearest(dx, b - dy);
      } else {
        assert Dev(dx, dy, a, b) == dy * (dx - a);
        Nearest(dy, dx - a);
      }
    }
  }

  lemma Nearest(d: int, e: int)
    requires d >= 0 && 2 * Abs(d * e) <= d
    ensures d > 0 ==> e == 0
  {
    if e > 0 { AtLeast(d, e); }
    if e < 0 { AtLeast(d, -e); }
  }

  lemma AtLeast(d: int, e: int)
    requires d >= 0 && e >= 1
    ensures d * e >= d && d * -e <= -d
  {
  }

  lemma DevSteps(dx: int, dy: int, a: int, b: int)
    ensures Dev(dx, dy, a + 1, b) == Dev(dx, dy, a, b) - dy && Dev(dx, dy, a, b + 1) == Dev(dx, dy, a, b) + dx
    ensures Dev(dx, dy, a + 1, b + 1) == Dev(dx, dy, a, b) - dy + dx
  {
  }

  /** A point near the line lies no further than its end in the shorter direction. */
  lemma Below(d: int, e: int, a: int, b: int)
    requires 0 <= e < d && a <= d && 2 * (d * b - e * a) <= d
    ensures b <= e
  {
    assert d * (b - e) == (d * b - e * a) - e * (d - a);
    Product(e, d - a);
    if b - e >= 1 { AtLeast(d, b - e); }
  }

  lemma Product(a: int, b: int)
    requires a >= 0 && b >= 0
    ensures a * b >= 0
  {
  }

  lemma DiagonalDev(d: int, a: int)
    ensures Dev(d, d, a, a) == 0
  {
  }

  lemma BelowDev(dx: int, dy: int, a: int, b: int)
    requires dx >= 0 && dy >= 0 && a <= dx && b <= dy + 1 && a <= dx + 1 && 2 * Abs(Dev(dx, dy, a, b)) <= Max(dx, dy)
    ensures dx > dy && a <= dx ==> b <= dy
  {
    if dx > dy { Below(dx, dy, a, b); }
  }

  lemma LeftDev(dx: int, dy: int, a: int, b: int)
    requires dx >= 0 && dy >= 0 && b <= dy && 2 * Abs(Dev(dx, dy, a, b)) <= Max(dx, dy)
    ensures dy > dx ==> a <= dx
  {
    if dy > dx { Below(dy, dx, b, a); }
  }

  /** One turn of the loop goes on by one in the longer direction and keeps within half a pixel. */
  lemma LineStep(dx: int, dy: int, a: int, b: int, k: int, err: int)
    requires dx >= 0 && dy >= 0 && Offsets(dx, dy, a, b, k) && k < Max(dx, dy)
    requires err == dx - dy + Dev(dx, dy, a, b) && (dx == dy ==> a == b)
    ensures var a', b' := if 2 * err > -dy then a + 1 else a, if 2 * err < dx then b + 1 else b;
      Offsets(dx, dy, a', b', k + 1) && (dx == dy ==> a' == b')
    ensures var d := if 2 * err > -dy then -dy else 0; var e := if 2 * err < dx then dx else 0;
      Dev(dx, dy, if 2 * err > -dy then a + 1 else a, if 2 * err < dx then b + 1 else b) == Dev(dx, dy, a, b) + d + e
    ensures -4 * Max(dx, dy) <= 2 * err <= 4 * Max(dx, dy)
  {
    hide Dev;
    var a', b' := if 2 * err > -dy then a + 1 else a, if 2 * err < dx then b + 1 else b;
    DevSteps(dx, dy, a, b);
    if dx == dy {
      DiagonalDev(dx, a);
    } else if dx > dy {
      BelowDev(dx, dy, a', b');
    } else {
      LeftDev(dx, dy, a', b');
    }
  }

  /** The pixel at offsets (a, b), and when it is the last one. */
  lemma Here(x0: int, y0: int, x1: int, y1: int, a: int, b: int, k: nat, x: int, y: int)
    requires var dx, dy := Abs(x1 - x0), Abs(y1 - y0); Offsets(dx, dy, a, b, k) && k <= Max(dx, dy)
    requires x == (if x1 > x0 then x0 + a else x0 - a) && y == if y1 > y0 then y0 + b else y0 - b
    ensures OnLine(Pixel(x, y), k, x0, y0, x1, y1)
    ensures x == x1 && y == y1 <==> k == Max(Abs(x1 - x0), Abs(y1 - y0))
  {
    hide Offsets;
    AtEnd(Abs(x1 - x0), Abs(y1 - y0), a, b, k);
  }

  /** fb_line: exactly max(|dx|, |dy|) + 1 pixels, from one end to the other, each within half a pixel of the
      ideal line; all arithmetic stays inside 32 bits. */
  method Line(x0: int, y0: int, x1: int, y1: int) returns (plotted: seq<Pixel>)
    requires Abs(x1 - x0) < 0x2000_0000 && Abs(y1 - y0) < 0x2000_0000
    ensures |plotted| == Max(Abs(x1 - x0), Abs(y1 - y0)) + 1
    ensures plotted[0] == Pixel(x0, y0) && plotted[|plotted| - 1] == Pixel(x1, y1)
    ensures forall k :: 0 <= k < |plotted| ==> OnLine(plotted[k], k, x0, y0, x1, y1)
  {
    hide Offsets, Dev, OnLine, Max;
    var dx, dy := x1 - x0, y1 - y0;
    var sx, sy := if dx > 0 then 1 else -1, if dy > 0 then 1 else -1;
    dx := if dx < 0 then -dx else dx;
    dy := if dy < 0 then -dy else dy;
    var err := dx - dy;
    var x, y := x0, y0;
    plotted := [];
    ghost var a, b := 0, 0;
    LineStart(dx, dy);
    MaxBound(dx, dy);
    while true
      invariant Offsets(dx, dy, a, b, |plotted|) && |plotted| <= Max(dx, dy) && (dx == dy ==> a == b)
      invariant x == (if x1 > x0 then x0 + a else x0 - a) && y == (if y1 > y0 then y0 + b else y0 - b)
      invariant err == dx - dy + Dev(dx, dy, a, b)
      invariant if |plotted| > 0 then plotted[0] == Pixel(x0, y0) else a == 0 && b == 0
      invariant forall k :: 0 <= k < |plotted| ==> OnLine(plotted[k], k, x0, y0, x1, y1)
      decreases Max(dx, dy) - |plotted|
    {
      plotted := plotted + [Pixel(x, y)];
      Here(x0, y0, x1, y1, a, b, |plotted| - 1, x, y);
      if x == x1 && y == y1 { break; }
      LineStep(dx, dy, a, b, |plotted| - 1, err);
      var e2 := 2 * err;
      assert -0x8000_0000 <= e2 < 0x8000_0000 by { MaxBound(dx, dy); }
      if e2 > -dy {
        err := err - dy;
        x := x + sx;
        a := a + 1;
      }
      if e2 < dx {
        err := err + dx;
        y := y + sy;
        b := b + 1;
      }
    }
  }

  lemma MaxBound(dx: int, dy: int)
    ensures dx <= Max(dx, dy) && dy <= Max(dx, dy) && (Max(dx, dy) == dx || Max(dx, dy) == dy)
  {
  }

  lemma LineStart(dx: int, dy: int)
    requires dx >= 0 && dy >= 0
    ensures Offsets(dx, dy, 0, 0, 0) && Dev(dx, dy, 0, 0) == 0
  {
  }

  // ---- circles

  /** How far (x, y) is from the circle, and the bound the plotted points keep. */
  predicate NearCircle(x: int, y: int, r: int) { -x <= x * x + y * y - r * r <= x }

  /** A pixel relative to the centre, up to the eight reflections. */
  predicate OnCircle(p: Pixel, cx: int, cy: int, r: int) {
    var a, b := Abs(p.x - cx), Abs(p.y - cy);
    NearCircle(Max(a, b), Min(a, b), r)
  }

  function Octants(cx: int, cy: int, x: int, y: int): seq<Pixel> {
    [Pixel(cx + x, cy + y), Pixel(cx - x, cy + y), Pixel(cx + x, cy - y), Pixel(cx - x, cy - y),
     Pixel(cx + y, cy + x), Pixel(cx - y, cy + x), Pixel(cx + y, cy - x), Pixel(cx - y, cy - x)]
  }

  lemma OctantsOn(cx: int, cy: int, x: int, y: int, r: int)
    requires 0 <= y <= x && NearCircle(x, y, r)
    ensures forall i :: 0 <= i < 8 ==> OnCircle(Octants(cx, cy, x, y)[i], cx, cy, r)
  {
    hide NearCircle;
  }

  /** The mirror images across the vertical axis, the horizontal axis and the diagonal through the centre. */
  function Across(p: Pixel, cx: int): Pixel { Pixel(2 * cx - p.x, p.y) }

  function Down(p: Pixel, cy: int): Pixel { Pixel(p.x, 2 * cy - p.y) }

  function Diagonal(p: Pixel, cx: int, cy: int): Pixel { Pixel(cx + (p.y - cy), cy + (p.x - cx)) }

  /** The pixels from k on are one pixel and its seven images. */
  predicate Reflected(ps: seq<Pixel>, k: nat, cx: int, cy: int) {
    && k + 8 <= |ps|
    && ps[k + 1] == Across(ps[k], cx) && ps[k + 2] == Down(ps[k], cy) && ps[k + 3] == Across(Down(ps[k], cy), cx)
    && ps[k + 4] == Diagonal(ps[k], cx, cy) && ps[k + 5] == Across(ps[k + 4], cx) && ps[k + 6] == Down(ps[k + 4], cy)
    && ps[k + 7] == Across(Down(ps[k + 4], cy), cx)
  }

  /** The y-th eight pixels: one in row y of the octant, and its images. */
  predicate Row(ps: seq<Pixel>, y: nat, cx: int, cy: int) {
    Reflected(ps, 8 * y, cx, cy) && ps[8 * y].y == cy + y && ps[8 * y].x >= cx + y
  }

  lemma RowAdded(ps: seq<Pixel>, n: nat, cx: int, cy: int, x: int)
    requires |ps| == 8 * n && n <= x && forall y :: 0 <= y < n ==> Row(ps, y, cx, cy)
    ensures forall y :: 0 <= y < n + 1 ==> Row(ps + Octants(cx, cy, x, n), y, cx, cy)
  {
    var o := Octants(cx, cy, x, n);
    var all := ps + o;
    assert forall j :: 0 <= j < 8 ==> all[|ps| + j] == o[j];
    forall y | 0 <= y < n + 1 ensures Row(all, y, cx, cy) {
      if y < n { assert Row(ps, y, cx, cy); }
    }
  }

  /** The decision variable tells on which side of the circle the point halfway lies. */
  lemma CircleStep(x: int, y: int, r: int, err: int)
    requires 0 <= y <= x && NearCircle(x, y, r) && err == (y + 1) * (y + 1) + x * x - x - r * r
    ensures err < 0 ==> NearCircle(x, y + 1, r)
    ensures err >= 0 && y + 1 <= x - 1 ==> NearCircle(x - 1, y + 1, r)
    ensures err + 2 * (y + 1) + 1 == (y + 2) * (y + 2) + x * x - x - r * r
    ensures err + 2 * ((y + 1) - (x - 1)) + 1 == (y + 2) * (y + 2) + (x - 1) * (x - 1) - (x - 1) - r * r
  {
    assert (y + 1) * (y + 1) == y * y + 2 * y + 1 && (y + 2) * (y + 2) == (y + 1) * (y + 1) + 2 * (y + 1) + 1;
    assert (x - 1) * (x - 1) == x * x - 2 * x + 1;
  }

  /** fb_circle: rows 0, 1, 2, ... of an octant and its reflections, every plotted pixel within its larger
      coordinate of r squared. */
  method Circle(cx: int, cy: int, r: int) returns (plotted: seq<Pixel>)
    ensures forall i :: 0 <= i < |plotted| ==> OnCircle(plotted[i], cx, cy, r)
    ensures |plotted| % 8 == 0 && (r >= 0 ==> |plotted| > 0)
    ensures forall y :: 0 <= y < |plotted| / 8 ==> Row(plotted, y, cx, cy)
  {
    hide NearCircle, OnCircle, Row;
    var x, y := r, 0;
    var err := 1 - r;
    plotted := [];
    CircleStart(r);
    while x >= y
      invariant y >= 0 && |plotted| == 8 * y && (x >= y ==> NearCircle(x, y, r))
      invariant err == (y + 1) * (y + 1) + x * x - x - r * r
      invariant r >= 0 && y == 0 ==> x == r
      invariant forall i :: 0 <= i < |plotted| ==> OnCircle(plotted[i], cx, cy, r)
      invariant forall h :: 0 <= h < y ==> Row(plotted, h, cx, cy)
      decreases x - y
    {
      OctantsOn(cx, cy, x, y, r);
      RowAdded(plotted, y, cx, cy, x);
      plotted := plotted + Octants(cx, cy, x, y);
      CircleStep(x, y, r, err);
      y := y + 1;
      if err < 0 {
        err := err + 2 * y + 1;
      } else {
        x := x - 1;
        err := err + 2 * (y - x) + 1;
      }
    }
  }

  lemma CircleStart(r: int)
    ensures r >= 0 ==> NearCircle(r, 0, r)
    ensures 1 - r == 1 * 1 + r * r - r - r * r
  {
  }
}
