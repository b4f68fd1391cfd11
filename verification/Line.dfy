/** Bresenham's line on the 320 x 200 framebuffer: the incremental loop draws exactly the points of
    the rounded ideal line. */
module Line {
  const WIDTH: int := 320
  const HEIGHT: int := 200

  type Color = c: int | 0 <= c < 256

  datatype Point = Point(x: int, y: int)

  function Abs(a: int): nat {
    if a < 0 then -a else a
  }

  function Max(a: int, b: int): int {
    if a < b then b else a
  }

  /** `(d > 0) ? 1 : -1` */
  function Sign(d: int): int {
    if d > 0 then 1 else -1
  }

  /** k steps from c in the direction of d. */
  function Along(c: int, d: int, k: int): int {
    if d > 0 then c + k else c - k
  }

  // ----- The ideal line, rounded -----

  /** k * minor / major to the nearest integer, halves rounded down. */
  function Rounded(k: nat, minor: nat, major: nat): int
    requires major > 0
  {
    (2 * k * minor + major - 1) / (2 * major)
  }

  /** The k-th point: k steps along the longer axis and the rounded share of the shorter. */
  function PointAt(x0: int, y0: int, x1: int, y1: int, k: nat): Point {
    var dx, dy := x1 - x0, y1 - y0;
    if dx == 0 && dy == 0 then Point(x0, y0)
    else if Abs(dx) >= Abs(dy) then Point(Along(x0, dx, k), Along(y0, dy, Rounded(k, Abs(dy), Abs(dx))))
    else Point(Along(x0, dx, Rounded(k, Abs(dx), Abs(dy))), Along(y0, dy, k))
  }

  function Points(x0: int, y0: int, x1: int, y1: int, n: nat): (ps: seq<Point>)
    ensures |ps| == n
    ensures forall k :: 0 <= k < n ==> ps[k] == PointAt(x0, y0, x1, y1, k)
  {
    if n == 0 then [] else Points(x0, y0, x1, y1, n - 1) + [PointAt(x0, y0, x1, y1, n - 1)]
  }

  /** Rounding is characterised by its error: at most half a pixel, and a half only downwards. */
  lemma RoundedIs(k: int, minor: int, major: int, b: int)
    requires k >= 0 && minor >= 0 && major > 0
    ensures b == Rounded(k, minor, major) <==> -major <= 2 * (major * b - minor * k) < major
  {
    var d, q := 2 * major, Rounded(k, minor, major);
    assert 2 * k * minor == 2 * (minor * k) && d * q == 2 * (major * q) && d * b == 2 * (major * b);
    assert -major <= 2 * (major * q - minor * k) < major;
    if -major <= 2 * (major * b - minor * k) < major && b != q {
      assert d * (b - q) == d * b - d * q;
      NoMultipleBetween(d, b - q);
    }
  }

  lemma NoMultipleBetween(d: int, m: int)
    requires d > 0 && m != 0
    ensures !(-d < d * m < d)
  {
    if m >= 1 {
      assert d * m >= d;
    } else {
      assert d * m <= -d;
    }
  }

  // ----- The error term -----

  /** With `major` the longer side and b rounded for k steps, the test on twice the error decides the
      step along the shorter side rightly, and never holds the longer one back. */
  lemma StepDecision(k: int, b: int, minor: int, major: int)
    requires k >= 0 && 0 <= minor <= major && major > 0 && b == Rounded(k, minor, major)
    ensures 2 * (major - minor + (major * b - minor * k)) > -minor
    ensures Rounded(k + 1, minor, major) ==
      if 2 * (major - minor + (major * b - minor * k)) < major then b + 1 else b
  {
    var e := major * b - minor * k;
    RoundedIs(k, minor, major, b);
    assert minor * (k + 1) == minor * k + minor && major * (b + 1) == major * b + major;
    if minor == major && 2 * e == -major {
      assert e == major * (b - k);
      assert major * (2 * (b - k) + 1) == 2 * e + major == 0;
      assert 2 * (b - k) + 1 != 0;
      NoMultipleBetween(major, 2 * (b - k) + 1);
      assert false;
    }
    RoundedIs(k + 1, minor, major, b + 1);
    RoundedIs(k + 1, minor, major, b);
  }

  /** The same decision seen from the other sign of the error, for lines steeper than 45 degrees. */
  lemma SteepDecision(k: int, a: int, minor: int, major: int)
    requires k >= 0 && 0 <= minor < major && a == Rounded(k, minor, major)
    ensures 2 * (minor - major + (minor * k - major * a)) < minor
    ensures Rounded(k + 1, minor, major) ==
      if 2 * (minor - major + (minor * k - major * a)) > -major then a + 1 else a
  {
    var e := major * a - minor * k;
    RoundedIs(k, minor, major, a);
    assert minor * (k + 1) == minor * k + minor && major * (a + 1) == major * a + major;
    RoundedIs(k + 1, minor, major, a + 1);
    RoundedIs(k + 1, minor, major, a);
  }

  // ----- What the points are -----

  /** The share of the shorter side: between 0 and its length, all of it at the end, never off by more
      than half a pixel. */
  lemma MinorSteps(k: int, minor: int, major: int)
    requires 0 <= k <= major && 0 <= minor <= major && major > 0
    ensures 0 <= Rounded(k, minor, major) <= minor
    ensures k == major ==> Rounded(k, minor, major) == minor
    ensures 2 * Abs(major * Rounded(k, minor, major) - minor * k) <= major
  {
    var b := Rounded(k, minor, major);
    RoundedIs(k, minor, major, b);
    Products(k, minor, major);
    if b < 0 {
      Larger(major, b, -1);
    } else if b > minor {
      Larger(major, minor + 1, b);
    }
    if k == major {
      RoundedIs(k, minor, major, minor);
    }
  }

  lemma Products(k: int, minor: int, major: int)
    requires 0 <= k <= major && 0 <= minor
    ensures 0 <= minor * k <= minor * major == major * minor
    ensures major * (minor + 1) == major * minor + major && major * -1 == -major
  {}

  lemma Larger(m: int, a: int, b: int)
    requires m > 0 && a <= b
    ensures m * a <= m * b
  {}

  /** The line starts and ends where asked, after as many steps as the longer side is long, and no
      earlier point is the end. */
  lemma Endpoints(x0: int, y0: int, x1: int, y1: int, k: nat)
    requires k <= Max(Abs(x1 - x0), Abs(y1 - y0))
    ensures PointAt(x0, y0, x1, y1, 0) == Point(x0, y0)
    ensures PointAt(x0, y0, x1, y1, k) == Point(x1, y1) <==> k == Max(Abs(x1 - x0), Abs(y1 - y0))
  {
    var dx, dy := Abs(x1 - x0), Abs(y1 - y0);
    if dx >= dy && dx > 0 {
      var b := ShareOf(k, dy, dx);
      var b0 := ShareOf(0, dy, dx);
      assert PointAt(x0, y0, x1, y1, k) == Point(Along(x0, x1 - x0, k), Along(y0, y1 - y0, b));
    } else if dy > dx {
      var a := ShareOf(k, dx, dy);
      var a0 := ShareOf(0, dx, dy);
      assert PointAt(x0, y0, x1, y1, k) == Point(Along(x0, x1 - x0, a), Along(y0, y1 - y0, k));
    }
  }

  lemma ShareOf(k: int, minor: int, major: int) returns (b: int)
    requires 0 <= k <= major && 0 <= minor <= major && major > 0
    ensures b == Rounded(k, minor, major) && (k == major ==> b == minor) && (k == 0 ==> b == 0)
  {
    b := Rounded(k, minor, major);
    MinorSteps(k, minor, major);
    RoundedIs(0, minor, major, 0);
  }

  /** Every point is within half a pixel of the ideal line: with a steps taken in x and b in y,
      |dx| b and |dy| a differ by at most half the longer side. */
  lemma HalfPixel(x0: int, y0: int, x1: int, y1: int, k: nat)
    requires k <= Max(Abs(x1 - x0), Abs(y1 - y0))
    ensures var dx, dy, p := Abs(x1 - x0), Abs(y1 - y0), PointAt(x0, y0, x1, y1, k);
      2 * Abs(dx * Abs(p.y - y0) - dy * Abs(p.x - x0)) <= Max(dx, dy)
  {
    var dx, dy := Abs(x1 - x0), Abs(y1 - y0);
    if dx >= dy && dx > 0 {
      MinorSteps(k, dy, dx);
    } else if dy > dx {
      MinorSteps(k, dx, dy);
    }
  }

  // ----- The loop's state -----

  function ErrorTerm(dx: int, dy: int, a: int, b: int): int {
    dx - dy + (dx * b - dy * a)
  }

  /** After k rounds, a steps were taken in x and b in y. */
  ghost predicate InStep(dx: int, dy: int, k: nat, a: int, b: int)
    requires dx >= 0 && dy >= 0
  {
    if dx == 0 && dy == 0 then a == 0 && b == 0
    else if dx >= dy then a == k && b == Rounded(k, dy, dx)
    else b == k && a == Rounded(k, dx, dy)
  }

  lemma NextInStep(dx: int, dy: int, k: nat, a: int, b: int)
    requires dx >= 0 && dy >= 0 && InStep(dx, dy, k, a, b) && k < Max(dx, dy)
    ensures var e2 := 2 * ErrorTerm(dx, dy, a, b);
      InStep(dx, dy, k + 1, if e2 > -dy then a + 1 else a, if e2 < dx then b + 1 else b)
  {
    if dx >= dy {
      StepDecision(k, b, dy, dx);
    } else {
      SteepDecision(k, a, dx, dy);
    }
  }

  lemma ErrorSteps(dx: int, dy: int, a: int, b: int)
    ensures ErrorTerm(dx, dy, a + 1, b) == ErrorTerm(dx, dy, a, b) - dy
    ensures ErrorTerm(dx, dy, a, b + 1) == ErrorTerm(dx, dy, a, b) + dx
    ensures ErrorTerm(dx, dy, a + 1, b + 1) == ErrorTerm(dx, dy, a, b) - dy + dx
  {
    assert dy * (a + 1) == dy * a + dy && dx * (b + 1) == dx * b + dx;
  }

  /** The loop's variables after k rounds of a line from (x0, y0) to (x1, y1). */
  ghost predicate AtRound(x0: int, y0: int, x1: int, y1: int, k: nat, a: int, b: int, x: int, y: int, err: int) {
    && k <= Max(Abs(x1 - x0), Abs(y1 - y0)) && InStep(Abs(x1 - x0), Abs(y1 - y0), k, a, b)
    && err == ErrorTerm(Abs(x1 - x0), Abs(y1 - y0), a, b)
    && x == Along(x0, x1 - x0, a) && y == Along(y0, y1 - y0, b)
  }

  lemma RoundPoint(x0: int, y0: int, x1: int, y1: int, k: nat, a: int, b: int, x: int, y: int, err: int)
    requires AtRound(x0, y0, x1, y1, k, a, b, x, y, err)
    ensures Point(x, y) == PointAt(x0, y0, x1, y1, k)
    ensures x == x1 && y == y1 <==> k == Max(Abs(x1 - x0), Abs(y1 - y0))
  {
    Endpoints(x0, y0, x1, y1, k);
  }

  lemma FirstRound(x0: int, y0: int, x1: int, y1: int)
    ensures AtRound(x0, y0, x1, y1, 0, 0, 0, x0, y0, Abs(x1 - x0) - Abs(y1 - y0))
  {
    var dx, dy := Abs(x1 - x0), Abs(y1 - y0);
    if dx >= dy && dx > 0 {
      var b := ShareOf(0, dy, dx);
    } else if dy > dx {
      var a := ShareOf(0, dx, dy);
    }
  }

  lemma NextRound(x0: int, y0: int, x1: int, y1: int, k: nat, a: int, b: int, x: int, y: int, err: int)
    requires AtRound(x0, y0, x1, y1, k, a, b, x, y, err) && k < Max(Abs(x1 - x0), Abs(y1 - y0))
    ensures var dx, dy := Abs(x1 - x0) as int, Abs(y1 - y0) as int;
      var right, down := 2 * err > -dy, 2 * err < dx;
      AtRound(x0, y0, x1, y1, k + 1, if right then a + 1 else a, if down then b + 1 else b,
        if right then x + Sign(x1 - x0) else x, if down then y + Sign(y1 - y0) else y,
        err - (if right then dy else 0) + (if down then dx else 0))
  {
    NextInStep(Abs(x1 - x0), Abs(y1 - y0), k, a, b);
    ErrorSteps(Abs(x1 - x0), Abs(y1 - y0), a, b);
  }

  // ----- Drawing -----

  /** The framebuffer cell a point lands on: coordinates are cut to 16 bits, then tested. */
  function Cell(p: Point): int {
    var x, y := p.x % 0x1_0000, p.y % 0x1_0000;
    if x < WIDTH && y < HEIGHT then y * WIDTH + x else -1
  }

  /** Exactly the cells some point of the line lands on have the colour; the others are unchanged. */
  ghost predicate Drawn(before: seq<Color>, after: seq<Color>, ps: seq<Point>, color: Color) {
    && |after| == |before|
    && forall c :: 0 <= c < |after| ==> after[c] == if Hit(ps, c) then color else before[c]
  }

  ghost predicate Hit(ps: seq<Point>, c: int) {
    exists k :: 0 <= k < |ps| && Cell(ps[k]) == c
  }

  /** Every pixel of the 320x200 screen has a cell of its own, row by row; other points, once their coordinates
      are cut to 16 bits, have none. */
  lemma CellIs(x: int, y: int)
    ensures 0 <= x < 320 && 0 <= y < 200 ==> Cell(Point(x, y)) == 320 * y + x
    ensures 0 <= x < 0x1_0000 && 0 <= y < 0x1_0000 && (x >= 320 || y >= 200) ==> Cell(Point(x, y)) < 0
    ensures Cell(Point(x, y)) == Cell(Point(x + 0x1_0000, y)) == Cell(Point(x, y + 0x1_0000))
  {}

  /** For a line within 16-bit coordinates, a pixel of the screen has the colour exactly when it is a point of
      the line, and is unchanged otherwise. */
  lemma DrawnPixels(before: seq<Color>, after: seq<Color>, ps: seq<Point>, color: Color, x: int, y: int)
    requires |before| == 64000 && Drawn(before, after, ps, color) && 0 <= x < 320 && 0 <= y < 200
    requires forall k :: 0 <= k < |ps| ==> 0 <= ps[k].x < 0x1_0000 && 0 <= ps[k].y < 0x1_0000
    ensures after[320 * y + x] == if Point(x, y) in ps then color else before[320 * y + x]
  {
    CellIs(x, y);
    var c := 320 * y + x;
    if Hit(ps, c) {
      var k :| 0 <= k < |ps| && Cell(ps[k]) == c;
      CellOnce(ps[k], x, y);
    }
    if Point(x, y) in ps {
      var k :| 0 <= k < |ps| && ps[k] == Point(x, y);
      assert Cell(ps[k]) == c;
    }
  }

  lemma CellOnce(p: Point, x: int, y: int)
    requires 0 <= p.x < 0x1_0000 && 0 <= p.y < 0x1_0000 && 0 <= x < 320 && 0 <= y < 200
    requires Cell(p) == 320 * y + x
    ensures p == Point(x, y)
  {
    CellIs(p.x, p.y);
  }

  lemma HitNext(ps: seq<Point>, p: Point, c: int)
    ensures Hit(ps + [p], c) <==> Hit(ps, c) || Cell(p) == c
  {
    var more := ps + [p];
    if Hit(ps, c) {
      var k :| 0 <= k < |ps| && Cell(ps[k]) == c;
      assert Cell(more[k]) == c;
    }
    assert more[|ps|] == p;
  }

  class Screen {
    const framebuffer: array<Color>
    var enabled: bool

    constructor ()
      ensures framebuffer.Length == WIDTH * HEIGHT && fresh(framebuffer)
    {
      framebuffer := new Color[WIDTH * HEIGHT];
      enabled := false;
    }

    method PutPixel(x: int, y: int, color: Color)
      requires framebuffer.Length == WIDTH * HEIGHT
      modifies framebuffer
      ensures framebuffer[..] == if enabled && Cell(Point(x, y)) >= 0
        then old(framebuffer[..])[Cell(Point(x, y)) := color] else old(framebuffer[..])
    {
      if !enabled {
        return;
      }
      var ux, uy := x % 0x1_0000, y % 0x1_0000;
      if ux < WIDTH && uy < HEIGHT {
        framebuffer[uy * WIDTH + ux] := color;
      }
    }

    /** One more point after those drawn. */
    method PlotNext(x: int, y: int, color: Color, ghost first: seq<Color>, ghost ps: seq<Point>)
      requires framebuffer.Length == WIDTH * HEIGHT && enabled && |first| == WIDTH * HEIGHT
      requires Drawn(first, framebuffer[..], ps, color)
      modifies framebuffer
      ensures Drawn(first, framebuffer[..], ps + [Point(x, y)], color)
    {
      ghost var before := framebuffer[..];
      PutPixel(x, y, color);
      PixelDrawn(first, before, framebuffer[..], ps, Point(x, y), color);
    }

    /** The decision of one round: a step in x, in y, or in both. */
    method Advance(x: int, y: int, err: int, dx: int, dy: int, sx: int, sy: int,
                   ghost x0: int, ghost y0: int, ghost x1: int, ghost y1: int, ghost k: nat, ghost a: int, ghost b: int)
      returns (x': int, y': int, err': int, ghost a': int, ghost b': int)
      requires dx == Abs(x1 - x0) && dy == Abs(y1 - y0) && sx == Sign(x1 - x0) && sy == Sign(y1 - y0)
      requires AtRound(x0, y0, x1, y1, k, a, b, x, y, err) && k < Max(dx, dy)
      ensures AtRound(x0, y0, x1, y1, k + 1, a', b', x', y', err')
    {
      NextRound(x0, y0, x1, y1, k, a, b, x, y, err);
      x', y', err', a', b' := x, y, err, a, b;
      var e2 := 2 * err;
      if e2 > -dy {
        err' := err' - dy;
        x' := x' + sx;
        a' := a' + 1;
      }
      if e2 < dx {
        err' := err' + dx;
        y' := y' + sy;
        b' := b' + 1;
      }
    }

    /** Draws the rounded ideal line: all its points in order, from one end to the other, and nothing
        else; `steps` counts the loop's rounds. */
    method DrawLine(x0: int, y0: int, x1: int, y1: int, color: Color) returns (ghost steps: nat)
      requires framebuffer.Length == WIDTH * HEIGHT
      modifies framebuffer
      ensures !enabled ==> framebuffer[..] == old(framebuffer[..])
      ensures enabled ==>
        && steps == Max(Abs(x1 - x0), Abs(y1 - y0))
        && Drawn(old(framebuffer[..]), framebuffer[..], Points(x0, y0, x1, y1, steps + 1), color)
    {
      steps := 0;
      if !enabled {
        return;
      }
      var dx, dy := x1 - x0, y1 - y0;
      var sx, sy := Sign(dx), Sign(dy);
      if dx < 0 {
        dx := -dx;
      }
      if dy < 0 {
        dy := -dy;
      }
      var err := dx - dy;
      var x, y := x0, y0;
      ghost var a, b := 0, 0;               // steps taken in x and in y
      ghost var first, length := framebuffer[..], Max(dx, dy);
      FirstRound(x0, y0, x1, y1);
      while true
        invariant AtRound(x0, y0, x1, y1, steps, a, b, x, y, err)
        invariant Drawn(first, framebuffer[..], Points(x0, y0, x1, y1, steps), color)
        decreases length - steps
      {
        RoundPoint(x0, y0, x1, y1, steps, a, b, x, y, err);
        PlotNext(x, y, color, first, Points(x0, y0, x1, y1, steps));
        if x == x1 && y == y1 {
          break;
        }
        x, y, err, a, b := Advance(x, y, err, dx, dy, sx, sy, x0, y0, x1, y1, steps, a, b);
        steps := steps + 1;
      }
    }
  }

  lemma PixelDrawn(first: seq<Color>, before: seq<Color>, after: seq<Color>, ps: seq<Point>, p: Point, color: Color)
    requires |first| == WIDTH * HEIGHT && Drawn(first, before, ps, color)
    requires after == if Cell(p) >= 0 then before[Cell(p) := color] else before
    ensures Drawn(first, after, ps + [p], color)
  {
    forall c | 0 <= c < |after|
      ensures after[c] == if Hit(ps + [p], c) then color else first[c]
    {
      HitNext(ps, p, c);
    }
  }
}
