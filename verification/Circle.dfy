/** The midpoint loop of examples/graphics/midpoint_circle.c. */
module Circle {
  import opened Geometry

  /** How far `(x, y)` lies outside the circle of radius `r` round the origin. */
  function Excess(x: int, y: int, r: int): int {
    x * x + y * y - r * r
  }

  /** `y >= 0` is the integer nearest to the square root of `r*r - x*x`: the circle crosses column
      `x` strictly between `y - 1/2` and `y + 1/2`. */
  ghost predicate Nearest(x: int, y: int, r: int) {
    -y <= Excess(x, y, r) && (Excess(x, y, r) < y || (y == 0 && Excess(x, y, r) == 0))
  }

  /** The offsets from the centre that a midpoint circle of radius `r` consists of: in the octant
      `0 <= x <= y` the nearest pixel of every column, everywhere else its mirror image. */
  ghost predicate OnCircle(u: int, v: int, r: int) {
    r >= 0 &&
    if Abs(u) <= Abs(v) then Nearest(Abs(u), Abs(v), r) else Nearest(Abs(v), Abs(u), r)
  }

  /** `(u, v)` is one of the eight mirror images of `(x, y)`. */
  predicate Mirror(u: int, v: int, x: int, y: int) {
    (Abs(u) == Abs(x) && Abs(v) == Abs(y)) || (Abs(u) == Abs(y) && Abs(v) == Abs(x))
  }

  /** The eight putpixel calls of one pass, in order. */
  function Octants(c: Point, x: int, y: int): seq<Point> {
    [Point(c.x + x, c.y + y), Point(c.x - x, c.y + y), Point(c.x + x, c.y - y), Point(c.x - x, c.y - y),
     Point(c.x + y, c.y + x), Point(c.x - y, c.y + x), Point(c.x + y, c.y - x), Point(c.x - y, c.y - x)]
  }

  lemma OctantsMirror(c: Point, x: int, y: int, q: Point)
    ensures q in Octants(c, x, y) <==> Mirror(q.x - c.x, q.y - c.y, x, y)
  {
    var s := Octants(c, x, y);
    if q in s {
      var i :| 0 <= i < |s| && s[i] == q;
    } else {
      assert q != s[0] && q != s[1] && q != s[2] && q != s[3];
      assert q != s[4] && q != s[5] && q != s[6] && q != s[7];
    }
  }

  /** What nearest means, where the circle of radius `r` has height `top` over column `x`. */
  lemma NearestMeaning(x: int, y: int, r: int, top: real)
    requires y >= 0 && top >= 0.0 && top * top == (r * r - x * x) as real
    ensures Nearest(x, y, r) <==> y as real - 0.5 < top < y as real + 0.5
  {
    var v := y as real;
    assert (y * y) as real == v * v;
    Squares(top, v + 0.5);
    assert (v + 0.5) * (v + 0.5) == v * v + v + 0.25;
    if y > 0 {
      Squares(v - 0.5, top);
      assert (v - 0.5) * (v - 0.5) == v * v - v + 0.25;
    }
    if y == 0 { Squares(0.0, top); }
  }

  lemma Squares(p: real, q: real)
    requires p >= 0.0 && q >= 0.0
    ensures p < q <==> p * p < q * q
  {
    SignOf(q - p, q + p);
    assert q * q - p * p == (q - p) * (q + p);
  }

  lemma SignOf(d: real, s: real)
    requires s >= 0.0
    ensures d > 0.0 && s > 0.0 ==> d * s > 0.0
    ensures d <= 0.0 ==> d * s <= 0.0
  {
  }

  /** At most one pixel per column is nearest. */
  lemma NearestUnique(x: int, y: int, z: int, r: int)
    requires y >= 0 && z >= 0 && Nearest(x, y, r) && Nearest(x, z, r)
    ensures y == z
  {
    if y < z {
      Square(y, z);
    } else if z < y {
      Square(z, y);
    }
  }

  lemma Square(a: int, b: int)
    requires 0 <= a < b
    ensures b * b >= a * a + a + b
  {
    var k := b - a;
    assert b * b == a * a + 2 * (a * k) + k * k;
    assert a * (k - 1) >= 0 && k * (k - 1) >= 0;
  }

  /** What the loop keeps. `p` is the midpoint test and `(x, y)` the next pixel to be plotted, or,
      once `x > y`, the witness that no column from `x` on has a pixel in the octant. */
  ghost predicate LoopState(x: int, y: int, p: int, r: int) {
    && 0 <= x && y >= -1
    && p == (x + 1) * (x + 1) + y * y - y - r * r
    && (x <= y ==> Nearest(x, y, r))
    && (x > y ==> 2 * x * x - x >= r * r && x >= 1)
  }

  lemma PassKeeps(x: int, y: int, p: int, r: int)
    requires r >= 0 && x <= y && LoopState(x, y, p, r)
    ensures LoopState(x + 1, if p < 0 then y else y - 1,
                      if p < 0 then p + 2 * (x + 1) + 1 else p + 2 * (x + 1 - (y - 1)) + 1, r)
  {
    assert (x + 2) * (x + 2) == (x + 1) * (x + 1) + 2 * (x + 1) + 1;
    assert (y - 1) * (y - 1) == y * y - 2 * y + 1;
    assert (x + 1) * (x + 1) == x * x + 2 * x + 1;
    if x == y {
      assert 2 * (x + 1) * (x + 1) == 2 * (x * x) + 4 * x + 2;
    } else if x == y - 1 {
      assert x * x == y * y - 2 * y + 1;
      assert 2 * (x + 1) * (x + 1) == 2 * (y * y);
    }
  }

  lemma LoopStarts(r: int)
    requires r >= 0
    ensures LoopState(0, r, 1 - r, r)
  {
  }

  /** The pass for column `x` plots exactly the pixels whose smaller coordinate is `x`. */
  lemma Column(c: Point, x: int, y: int, p: int, r: int)
    requires r >= 0 && x <= y && LoopState(x, y, p, r)
    ensures forall q :: q in Octants(c, x, y) <==>
              var u, v := q.x - c.x, q.y - c.y;
              OnCircle(u, v, r) && !(Abs(u) < x || Abs(v) < x) && (Abs(u) < x + 1 || Abs(v) < x + 1)
  {
    hide Octants, OnCircle, Nearest, Mirror, Excess;
    forall q: Point
      ensures q in Octants(c, x, y) <==>
              var u, v := q.x - c.x, q.y - c.y;
              OnCircle(u, v, r) && !(Abs(u) < x || Abs(v) < x) && (Abs(u) < x + 1 || Abs(v) < x + 1)
    {
      OctantsMirror(c, x, y, q);
      InColumn(q.x - c.x, q.y - c.y, x, y, r);
    }
  }

  lemma InColumn(u: int, v: int, x: int, y: int, r: int)
    requires 0 <= x <= y && r >= 0 && Nearest(x, y, r)
    ensures Mirror(u, v, x, y) <==>
            OnCircle(u, v, r) && !(Abs(u) < x || Abs(v) < x) && (Abs(u) < x + 1 || Abs(v) < x + 1)
  {
    if OnCircle(u, v, r) && (Abs(u) == x <= Abs(v) || Abs(v) == x <= Abs(u)) {
      NearestUnique(x, y, if Abs(u) <= Abs(v) then Abs(v) else Abs(u), r);
    }
  }

  /** Past the exit of the loop the octant is empty. */
  lemma OctantEnds(x: int, y: int, p: int, r: int)
    requires r < 0 || (LoopState(x, y, p, r) && x > y)
    ensures forall u, v :: OnCircle(u, v, r) ==> Abs(u) < x || Abs(v) < x
  {
    forall u, v | OnCircle(u, v, r)
      ensures Abs(u) < x || Abs(v) < x
    {
      if x <= Abs(u) <= Abs(v) {
        NoneBeyond(x, Abs(u), Abs(v), r);
      } else if x <= Abs(v) <= Abs(u) {
        NoneBeyond(x, Abs(v), Abs(u), r);
      }
    }
  }

  lemma NoneBeyond(n: int, x: int, y: int, r: int)
    requires 1 <= n <= x <= y && 2 * n * n - n >= r * r
    ensures !Nearest(x, y, r)
  {
    assert 2 * n * n == 2 * (n * n);
    assert x * x >= n * n by { if n < x { Square(n, x); } }
    assert y * y - y >= n * n - n by { if n < y { Square(n, y); } }
  }

  method DrawCircle(c: Point, r: int) returns (plot: seq<Point>)
    ensures forall q :: q in plot <==> OnCircle(q.x - c.x, q.y - c.y, r)
  {
    hide LoopState, OnCircle, Octants;
    var x, y := 0, r;
    var p := 1 - r;
    plot := [];
    if r >= 0 { LoopStarts(r); }
    while x <= y
      invariant x >= 0 && (r < 0 ==> x > y)
      invariant r >= 0 ==> LoopState(x, y, p, r)
      invariant forall q :: q in plot <==>
                  OnCircle(q.x - c.x, q.y - c.y, r) && (Abs(q.x - c.x) < x || Abs(q.y - c.y) < x)
      decreases y - x + 1
    {
      Column(c, x, y, p, r);
      PassKeeps(x, y, p, r);
      plot := plot + Octants(c, x, y);
      x := x + 1;
      if p < 0 {
        p := p + 2 * x + 1;
      } else {
        y := y - 1;
        p := p + 2 * (x - y) + 1;
      }
    }
    OctantEnds(x, y, p, r);
  }

  /** The plotted set is closed under the eight symmetries of the square, and every pixel of it is
      within half a pixel of the true circle along its steeper axis. */
  lemma EightfoldSymmetry(u: int, v: int, r: int)
    requires OnCircle(u, v, r)
    ensures OnCircle(-u, v, r) && OnCircle(u, -v, r) && OnCircle(-u, -v, r)
    ensures OnCircle(v, u, r) && OnCircle(-v, u, r) && OnCircle(v, -u, r) && OnCircle(-v, -u, r)
    ensures Abs(Excess(u, v, r)) <= Abs(u) || Abs(Excess(u, v, r)) <= Abs(v)
  {
    assert Abs(u) * Abs(u) == u * u && Abs(v) * Abs(v) == v * v;
  }

  /** From one column to the previous one the pixel stays or rises by one: the octant has no gap. */
  lemma NoGap(x: int, y: int, r: int)
    requires 0 < x <= y && Nearest(x, y, r)
    ensures Nearest(x - 1, y, r) || Nearest(x - 1, y + 1, r)
  {
    assert (x - 1) * (x - 1) == x * x - 2 * x + 1;
    assert (y + 1) * (y + 1) == y * y + 2 * y + 1;
  }
}
