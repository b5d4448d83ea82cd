/** tools/bspbuild.py: points, lines and sides, with exact arithmetic in place of floats and EPSILON. */
module BspGeometry {

  datatype Point = Point(x: real, y: real)

  /** A line through (x, y) in direction (dx, dy). */
  datatype Line = Line(x: real, y: real, dx: real, dy: real)

  function Cross2d(dx1: real, dy1: real, dx2: real, dy2: real): real { dx1 * dy2 - dy1 * dx2 }

  /** point_side: positive on the right, negative on the left. */
  function Side(p: Point, l: Line): real { Cross2d(p.x - l.x, p.y - l.y, l.dx, l.dy) }

  function Through(a: Point, b: Point): Line { Line(a.x, a.y, b.x - a.x, b.y - a.y) }

  /** The point a fraction f of the way from a to b. */
  function Along(a: Point, b: Point, f: real): Point { Point(a.x + f * (b.x - a.x), a.y + f * (b.y - a.y)) }

  lemma Distribute(f: real, u: real, v: real, w: real, z: real)
    ensures (f * u) * v - (f * w) * z == f * (u * v - w * z)
  {
    assert (f * u) * v == f * (u * v) && (f * w) * z == f * (w * z);
  }

  lemma CrossAdd(u: real, u': real, w: real, w': real, dx: real, dy: real)
    ensures Cross2d(u + u', w + w', dx, dy) == Cross2d(u, w, dx, dy) + Cross2d(u', w', dx, dy)
  {
  }

  lemma CrossScale(f: real, u: real, w: real, dx: real, dy: real)
    ensures Cross2d(f * u, f * w, dx, dy) == f * Cross2d(u, w, dx, dy) == Cross2d(u, w, f * dx, f * dy)
  {
    Distribute(f, u, dy, w, dx);
    assert u * (f * dy) == f * (u * dy) && w * (f * dx) == f * (w * dx);
  }

  /** Sides vary evenly along a segment. */
  lemma SideAlong(a: Point, b: Point, f: real, l: Line)
    ensures Side(Along(a, b, f), l) == Side(a, l) + f * (Side(b, l) - Side(a, l))
  {
    var ux, uy := b.x - a.x, b.y - a.y;
    CrossScale(f, ux, uy, l.dx, l.dy);
    CrossAdd(a.x - l.x, f * ux, a.y - l.y, f * uy, l.dx, l.dy);
    CrossAdd(a.x - l.x, ux, a.y - l.y, uy, l.dx, l.dy);
    assert (a.x - l.x) + f * ux == Along(a, b, f).x - l.x && (a.y - l.y) + f * uy == Along(a, b, f).y - l.y;
    assert (a.x - l.x) + ux == b.x - l.x && (a.y - l.y) + uy == b.y - l.y;
  }

  /** Where the segment crosses the line. */
  lemma CrossingOnLine(d1: real, d2: real)
    requires (d1 > 0.0 && d2 < 0.0) || (d1 < 0.0 && d2 > 0.0)
    ensures var f := d1 / (d1 - d2); 0.0 < f < 1.0 && d1 + f * (d2 - d1) == 0.0
  {
    var f := d1 / (d1 - d2);
    assert f * (d1 - d2) == d1;
    if d1 > 0.0 { Fraction(f, d1 - d2, d1); } else { Fraction(f, d2 - d1, -d1); }
  }

  lemma Fraction(f: real, n: real, d: real)
    requires 0.0 < d < n && f * n == d
    ensures 0.0 < f < 1.0
  {
    if f <= 0.0 { Product(-f, n); } else if f >= 1.0 { Product(f - 1.0, n); }
  }

  lemma Product(a: real, b: real)
    requires a >= 0.0 && b >= 0.0
    ensures a * b >= 0.0
  {
  }

  /** A point between two others lies on no side where neither of them lies. */
  lemma BetweenSides(d1: real, d2: real, f: real)
    requires 0.0 <= f <= 1.0
    ensures d1 >= 0.0 && d2 >= 0.0 ==> d1 + f * (d2 - d1) >= 0.0
    ensures d1 <= 0.0 && d2 <= 0.0 ==> d1 + f * (d2 - d1) <= 0.0
  {
    Weighted(d1, d2, f);
    if d1 >= 0.0 && d2 >= 0.0 {
      Product(1.0 - f, d1);
      Product(f, d2);
    }
    if d1 <= 0.0 && d2 <= 0.0 {
      Product(1.0 - f, -d1);
      Product(f, -d2);
    }
  }

  lemma Weighted(d1: real, d2: real, f: real)
    ensures d1 + f * (d2 - d1) == (1.0 - f) * d1 + f * d2
    ensures (1.0 - f) * -d1 == -((1.0 - f) * d1) && f * -d2 == -(f * d2)
  {
  }

  /** The part from a to b of a line: both ends on it, b ahead of a. */
  predicate Part(a: Point, b: Point, l: Line, scale: real) {
    scale > 0.0 && Side(a, l) == 0.0 && Side(b, l) == 0.0 && b.x - a.x == scale * l.dx && b.y - a.y == scale * l.dy
  }

  /** The line through a part of a line has the same two sides. */
  lemma SameSides(a: Point, b: Point, l: Line, scale: real, p: Point)
    requires Part(a, b, l, scale)
    ensures Side(p, Through(a, b)) == scale * Side(p, l)
  {
    var t := Through(a, b);
    assert t.dx == scale * l.dx && t.dy == scale * l.dy;
    CrossScale(scale, p.x - a.x, p.y - a.y, l.dx, l.dy);
    CrossAdd(p.x - a.x, a.x - l.x, p.y - a.y, a.y - l.y, l.dx, l.dy);
    assert (p.x - a.x) + (a.x - l.x) == p.x - l.x && (p.y - a.y) + (a.y - l.y) == p.y - l.y;
    assert Cross2d(p.x - a.x, p.y - a.y, l.dx, l.dy) == Side(p, l);
  }

  /** Both halves of a part of a line are parts of it. */
  lemma HalvesAreParts(a: Point, b: Point, l: Line, scale: real, f: real)
    requires Part(a, b, l, scale) && 0.0 < f < 1.0
    ensures Part(a, Along(a, b, f), l, f * scale) && Part(Along(a, b, f), b, l, (1.0 - f) * scale)
  {
    SideAlong(a, b, f, l);
    var n := Along(a, b, f);
    assert n.x - a.x == f * (scale * l.dx) == (f * scale) * l.dx;
    assert n.y - a.y == f * (scale * l.dy) == (f * scale) * l.dy;
    Rest(b.x - a.x, f, scale, l.dx);
    Rest(b.y - a.y, f, scale, l.dy);
    assert f * scale > 0.0 && (1.0 - f) * scale > 0.0;
  }

  lemma Rest(u: real, f: real, scale: real, d: real)
    requires u == scale * d
    ensures u - f * u == ((1.0 - f) * scale) * d
  {
    assert u - f * u == (1.0 - f) * u;
  }

  /** The sign of a positive multiple. */
  lemma SignKept(scale: real, d: real)
    requires scale > 0.0
    ensures (scale * d > 0.0 <==> d > 0.0) && (scale * d < 0.0 <==> d < 0.0)
  {
  }
}
