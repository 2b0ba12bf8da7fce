/** The integer line stepper: it plots exactly the pixels nearest to the ideal line. */
module Line {

  /** Coordinates for which no 32-bit intermediate value overflows. */
  const COORD_MAX: nat := 0x1000_0000

  function Abs(x: int): nat { if x < 0 then -x else x }

  function Max(x: nat, y: nat): nat { if x < y then y else x }

  function Sign(from: int, to: int): int { if from < to then 1 else -1 }

  /** After `a` of `major` steps along the longer axis, `b` steps along the other bring the pixel within half a
      pixel of the ideal line; a tie goes to the smaller `b`. */
  predicate Nearest(a: int, b: int, major: int, minor: int) {
    -major < 2 * (a * minor - b * major) <= major
  }

  lemma MulGap(d: int, n: int)
    requires n >= 0
    ensures d >= 1 ==> d * n >= n
    ensures d <= -1 ==> d * n <= -n
  {
    if d >= 1 {
      assert d * n == n + (d - 1) * n;
    } else if d <= -1 {
      assert d * n == -n + (d + 1) * n;
    }
  }

  /** Only one pixel of each column, or row, is that near. */
  lemma NearestUnique(a: int, b: int, c: int, major: int, minor: int)
    requires major > 0 && Nearest(a, b, major, minor) && Nearest(a, c, major, minor)
    ensures b == c
  {
    var d := b - c;
    assert b * major - c * major == d * major;
    MulGap(d, major);
  }

  /** The walk reaches the end of the minor axis together with that of the major axis. */
  lemma NearestEnd(b: int, major: int, minor: int)
    requires major > 0 && Nearest(major, b, major, minor)
    ensures b == minor
  {
    assert major * minor - minor * major == 0;
    NearestUnique(major, b, minor, major, minor);
  }

  /** One step keeps the pixel nearest: always along the longer axis, along the other if the error says so. */
  lemma StepNearest(a: int, b: int, major: int, minor: int)
    requires Nearest(a, b, major, minor) && 0 <= minor <= major
    ensures var d := a * minor - b * major;
            Nearest(a + 1, if 2 * d > major - 2 * minor then b + 1 else b, major, minor)
  {
    assert (a + 1) * minor == a * minor + minor;
    assert (b + 1) * major == b * major + major;
  }

  /** On a diagonal the stepper is exactly on the line. */
  lemma DiagonalExact(a: int, b: int, n: int)
    requires n >= 0 && Nearest(a, b, n, n)
    ensures a * n - b * n == 0
  {
    var k := a - b;
    assert a * n - b * n == k * n;
    MulGap(k, n);
  }

  /** `a` steps in x and `b` in y from the start, `err` is what the loop has made of them. */
  predicate Poised(err: int, a: int, b: int, k: nat, dx: int, dy: int) {
    && err == dx - dy - a * dy + b * dx
    && if dx >= dy then a == k && Nearest(a, b, dx, dy) else b == k && Nearest(b, a, dy, dx)
  }

  /** The error term stays small: twice it fits 32 bits. */
  lemma ErrBound(err: int, a: int, b: int, k: nat, dx: int, dy: int)
    requires 0 <= dx < COORD_MAX && 0 <= dy < COORD_MAX && Poised(err, a, b, k, dx, dy)
    ensures -0x8000_0000 <= 2 * err < 0x8000_0000
  {
    assert b * dx - a * dy == -(a * dy - b * dx);
  }

  /** The two tests of the loop take the step that keeps the pixel nearest. */
  lemma Advance(err: int, a: int, b: int, k: nat, dx: int, dy: int)
    requires 0 <= dx && 0 <= dy && Max(dx, dy) > 0 && Poised(err, a, b, k, dx, dy)
    ensures var right, down := 2 * err > -dy, 2 * err < dx;
            Poised(err - (if right then dy else 0) + (if down then dx else 0), if right then a + 1 else a,
                   if down then b + 1 else b, k + 1, dx, dy)
  {
    assert (a + 1) * dy == a * dy + dy && (b + 1) * dx == b * dx + dx;
    if dx >= dy {
      StepNearest(a, b, dx, dy);
      if dx == dy {
        DiagonalExact(a, b, dx);
      }
    } else {
      assert b * dx - a * dy == -(a * dy - b * dx);
      StepNearest(b, a, dy, dx);
    }
  }

  /** Pixel `p` is the `k`-th of the line: `k` steps along the longer axis, nearest to the ideal line. */
  predicate OnLine(p: (int, int), k: nat, x0: int, y0: int, x1: int, y1: int) {
    var dx, dy, a, b := Abs(x1 - x0), Abs(y1 - y0), Sign(x0, x1) * (p.0 - x0), Sign(y0, y1) * (p.1 - y0);
    if dx >= dy then a == k && Nearest(a, b, dx, dy) else b == k && Nearest(b, a, dy, dx)
  }

  /** Pixel `p`, the `k`-th, with the error term of the loop. */
  predicate Stands(p: (int, int), err: int, k: nat, x0: int, y0: int, x1: int, y1: int) {
    Poised(err, Sign(x0, x1) * (p.0 - x0), Sign(y0, y1) * (p.1 - y0), k, Abs(x1 - x0), Abs(y1 - y0))
  }

  /** The step from one pixel to the next. */
  function Next(p: (int, int), right: bool, down: bool, x0: int, y0: int, x1: int, y1: int): (int, int) {
    (p.0 + (if right then Sign(x0, x1) else 0), p.1 + (if down then Sign(y0, y1) else 0))
  }

  lemma StandsNext(p: (int, int), err: int, k: nat, x0: int, y0: int, x1: int, y1: int)
    requires Stands(p, err, k, x0, y0, x1, y1) && Max(Abs(x1 - x0), Abs(y1 - y0)) > 0
    ensures var dx, dy := Abs(x1 - x0), Abs(y1 - y0);
            var right, down := 2 * err > -(dy as int), 2 * err < dx;
            Stands(Next(p, right, down, x0, y0, x1, y1), err - (if right then dy else 0) + (if down then dx else 0),
                k + 1, x0, y0, x1, y1)
  {
    Advance(err, Sign(x0, x1) * (p.0 - x0), Sign(y0, y1) * (p.1 - y0), k, Abs(x1 - x0), Abs(y1 - y0));
  }

  lemma StandsOnLine(p: (int, int), err: int, k: nat, x0: int, y0: int, x1: int, y1: int)
    requires Stands(p, err, k, x0, y0, x1, y1)
    ensures OnLine(p, k, x0, y0, x1, y1)
  {
  }

  /** The pixels so far. */
  predicate Drawn(pixels: seq<(int, int)>, x0: int, y0: int, x1: int, y1: int) {
    && (|pixels| > 0 ==> pixels[0] == (x0, y0))
    && (Max(Abs(x1 - x0), Abs(y1 - y0)) > 0 ==> forall k: nat :: k < |pixels| ==> OnLine(pixels[k], k, x0, y0, x1, y1))
  }

  lemma DrawnNext(pixels: seq<(int, int)>, p: (int, int), x0: int, y0: int, x1: int, y1: int)
    requires Drawn(pixels, x0, y0, x1, y1) && (pixels == [] ==> p == (x0, y0))
    requires Max(Abs(x1 - x0), Abs(y1 - y0)) > 0 ==> OnLine(p, |pixels|, x0, y0, x1, y1)
    ensures Drawn(pixels + [p], x0, y0, x1, y1)
  {
  }

  /** The end point is met exactly when the longer axis is used up. */
  lemma Reached(p: (int, int), k: nat, x0: int, y0: int, x1: int, y1: int)
    requires OnLine(p, k, x0, y0, x1, y1) && k <= Max(Abs(x1 - x0), Abs(y1 - y0))
    requires k == 0 ==> p == (x0, y0)
    ensures p == (x1, y1) <==> k == Max(Abs(x1 - x0), Abs(y1 - y0))
  {
    var dx, dy, a, b := Abs(x1 - x0), Abs(y1 - y0), Sign(x0, x1) * (p.0 - x0), Sign(y0, y1) * (p.1 - y0);
    if k > 0 && k == Max(dx, dy) {
      if dx >= dy {
        NearestEnd(b, dx, dy);
      } else {
        NearestEnd(a, dy, dx);
      }
    }
  }

  lemma Start(x0: int, y0: int, x1: int, y1: int)
    requires Max(Abs(x1 - x0), Abs(y1 - y0)) > 0
    ensures Stands((x0, y0), Abs(x1 - x0) - Abs(y1 - y0), 0, x0, y0, x1, y1)
  {
  }

  /** `draw_line`: exactly max(|dx|, |dy|) + 1 pixels, from one end point to the other, each the nearest. */
  method DrawLine(x0: nat, y0: nat, x1: nat, y1: nat) returns (pixels: seq<(int, int)>)
    requires x0 < COORD_MAX && y0 < COORD_MAX && x1 < COORD_MAX && y1 < COORD_MAX
    ensures |pixels| == Max(Abs(x1 - x0), Abs(y1 - y0)) + 1
    ensures pixels[0] == (x0 as int, y0 as int) && pixels[|pixels| - 1] == (x1 as int, y1 as int)
    ensures |pixels| > 1 ==> forall k: nat :: k < |pixels| ==> OnLine(pixels[k], k, x0, y0, x1, y1)
  {
    hide Stands, OnLine, Abs;
    var dx, dy := x1 - x0, y1 - y0;
    if dx < 0 {
      dx := -dx;
    }
    if dy < 0 {
      dy := -dy;
    }
    Distances(x0, y0, x1, y1, dx, dy);
    var sx := if x0 < x1 then 1 else -1;
    var sy := if y0 < y1 then 1 else -1;
    var err, x, y := dx - dy, x0 as int, y0 as int;
    pixels := [];
    while true
      invariant |pixels| <= Max(dx, dy) && Drawn(pixels, x0, y0, x1, y1)
      invariant Max(dx, dy) > 0 ==> Stands((x, y), err, |pixels|, x0, y0, x1, y1)
      invariant |pixels| == 0 ==> x == x0 && y == y0
      decreases Max(dx, dy) - |pixels|
    {
      ghost var k := |pixels|;
      if Max(dx, dy) > 0 {
        StandsOnLine((x, y), err, k, x0, y0, x1, y1);
        Reached((x, y), k, x0, y0, x1, y1);
        SmallErr((x, y), err, k, x0, y0, x1, y1);
        StandsNext((x, y), err, k, x0, y0, x1, y1);
      }
      DrawnNext(pixels, (x, y), x0, y0, x1, y1);
      pixels := pixels + [(x, y)];
      if x == x1 && y == y1 {
        return;
      }
      var e2 := 2 * err;
      if e2 > -dy {
        err := err - dy;
        x := x + sx;
      }
      if e2 < dx {
        err := err + dx;
        y := y + sy;
      }
    }
  }

  lemma Distances(x0: int, y0: int, x1: int, y1: int, dx: int, dy: int)
    requires dx == (if x1 < x0 then x0 - x1 else x1 - x0) && dy == (if y1 < y0 then y0 - y1 else y1 - y0)
    ensures dx == Abs(x1 - x0) && dy == Abs(y1 - y0) && Drawn([], x0, y0, x1, y1)
    ensures Max(dx, dy) > 0 ==> Stands((x0, y0), dx - dy, 0, x0, y0, x1, y1)
    ensures Max(dx, dy) == 0 ==> x0 == x1 && y0 == y1
  {
    if Max(dx, dy) > 0 {
      Start(x0, y0, x1, y1);
    }
  }

  /** No intermediate value of the loop leaves 32 bits. */
  lemma SmallErr(p: (int, int), err: int, k: nat, x0: nat, y0: nat, x1: nat, y1: nat)
    requires x0 < COORD_MAX && y0 < COORD_MAX && x1 < COORD_MAX && y1 < COORD_MAX && Stands(p, err, k, x0, y0, x1, y1)
    ensures -0x8000_0000 <= 2 * err < 0x8000_0000
  {
    ErrBound(err, Sign(x0, x1) * (p.0 - x0), Sign(y0, y1) * (p.1 - y0), k, Abs(x1 - x0), Abs(y1 - y0));
  }
}
