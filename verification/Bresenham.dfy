/** The error-driven line loop of examples/graphics/bresenham_line.c.

    The loop is proved against a closed form: after `i` steps along the longer axis the pixel sits
    at the integer nearest to the ideal line, halves rounded towards the start point. */
module Bresenham {
  import opened Geometry

  function Sign(from: int, to: int): int {
    if from < to then 1 else -1
  }

  /** The coordinate `k` steps from `from` on the way to `to`. */
  function Toward(from: int, to: int, k: int): int {
    if from < to then from + k else from - k
  }

  function Max(a: int, b: int): int {
    if a < b then b else a
  }

  function Min(a: int, b: int): int {
    if a < b then a else b
  }

  /** Minor steps taken after `i` major steps of a line with extents `long >= short`. */
  function Offset(i: int, short: int, long: int): int
    requires long > 0
  {
    (2 * i * short + long - 1) / (2 * long)
  }

  /** The pixel the ideal line from `p` to `q` is rounded to after `i` major steps. */
  function IdealPixel(p: Point, q: Point, i: int): Point {
    var dx, dy := Abs(q.x - p.x), Abs(q.y - p.y);
    if dx == 0 && dy == 0 then p
    else if dx >= dy then Point(Toward(p.x, q.x, i), Toward(p.y, q.y, Offset(i, dy, dx)))
    else Point(Toward(p.x, q.x, Offset(i, dx, dy)), Toward(p.y, q.y, i))
  }

  function Length(p: Point, q: Point): (r: nat) {
    Max(Abs(q.x - p.x), Abs(q.y - p.y)) + 1
  }

  function IdealPrefix(p: Point, q: Point, n: nat): (s: seq<Point>)
    ensures |s| == n
  {
    seq(n, i => IdealPixel(p, q, i))
  }

  function IdealLine(p: Point, q: Point): (s: seq<Point>)
    ensures |s| == Length(p, q)
  {
    IdealPrefix(p, q, Length(p, q))
  }

  lemma IdealPrefixGrows(p: Point, q: Point, n: nat)
    ensures IdealPrefix(p, q, n + 1) == IdealPrefix(p, q, n) + [IdealPixel(p, q, n)]
  {
  }

  /** `m` is the rounding of `i * short / long` to the nearest integer, halves down, where
      `gap` is `m * long - i * short`. */
  ghost predicate Rounds(gap: int, long: int) {
    -long <= 2 * gap < long
  }

  lemma OffsetRounds(i: int, short: int, long: int)
    requires long > 0
    ensures Rounds(Offset(i, short, long) * long - i * short, long)
  {
    var t := 2 * i * short;
    var k := (t + long - 1) / (2 * long);
    assert t + long - 1 == k * (2 * long) + (t + long - 1) % (2 * long);
    assert k * (2 * long) == 2 * (k * long);
    assert t == 2 * (i * short);
  }

  lemma OffsetUnique(m: int, i: int, short: int, long: int)
    requires long > 0 && Rounds(m * long - i * short, long)
    ensures m == Offset(i, short, long)
  {
    OffsetRounds(i, short, long);
    var k := Offset(i, short, long);
    assert (m - k) * long == m * long - k * long;
    Multiple(m - k, long);
  }

  /** What the loop keeps: `a` steps along x and `b` along y, with `d` the running deviation. */
  ghost predicate OnTrack(dx: int, dy: int, a: int, b: int, d: int) {
    && 0 <= a && 0 <= b && d == b * dx - a * dy
    && (dx == dy ==> a == b)
    && (dx >= dy ==> a <= dx && (dx > 0 ==> Rounds(d, dx)))
    && (dx < dy ==> b <= dy && Rounds(-d, dy))
  }

  /** One pass of the loop, as it changes `a`, `b` and `d`. */
  function StepA(dx: int, dy: int, d: int, a: int): int {
    if 2 * (dx - dy + d) > -dy then a + 1 else a
  }

  function StepB(dx: int, dy: int, d: int, b: int): int {
    if 2 * (dx - dy + d) < dx then b + 1 else b
  }

  function StepD(dx: int, dy: int, d: int): int {
    d - (if 2 * (dx - dy + d) > -dy then dy else 0) + (if 2 * (dx - dy + d) < dx then dx else 0)
  }

  /** The loop of `main`; `plot` is the sequence of pixels handed to putpixel. */
  method DrawLine(p: Point, q: Point) returns (plot: seq<Point>)
    ensures plot == IdealLine(p, q)
  {
    hide OnTrack, IdealPixel;
    var x1, y1 := p.x, p.y;
    var dx, dy := Abs(q.x - x1), Abs(q.y - y1);
    var sx, sy := Sign(x1, q.x), Sign(y1, q.y);
    var err := dx - dy;
    plot := [];
    ghost var a, b, d := 0, 0, 0;
    StartsOnTrack(dx, dy);
    while true
      invariant OnTrack(dx, dy, a, b, d)
      invariant x1 == Toward(p.x, q.x, a) && y1 == Toward(p.y, q.y, b) && err == dx - dy + d
      invariant |plot| == (if dx >= dy then a else b) <= Max(dx, dy)
      invariant plot == IdealPrefix(p, q, |plot|)
      decreases Max(dx, dy) - |plot|
    {
      IdealPrefixGrows(p, q, |plot|);
      OnIdealLine(p, q, a, b, d);
      Arrival(dx, dy, a, b, d);
      plot := plot + [Point(x1, y1)];
      if x1 == q.x && y1 == q.y { break; }
      StepKeepsTrack(dx, dy, a, b, d);
      var e2 := 2 * err;
      if e2 > -dy {
        err := err - dy;
        x1 := x1 + sx;
      }
      if e2 < dx {
        err := err + dx;
        y1 := y1 + sy;
      }
      a, b, d := StepA(dx, dy, d, a), StepB(dx, dy, d, b), StepD(dx, dy, d);
    }
  }

  lemma StartsOnTrack(dx: int, dy: int)
    requires dx >= 0 && dy >= 0
    ensures OnTrack(dx, dy, 0, 0, 0)
  {
  }

  /** The two tests on `e2` always step the longer axis, and step the shorter one when rounding asks. */
  lemma StepKeepsTrack(dx: int, dy: int, a: int, b: int, d: int)
    requires dx >= 0 && dy >= 0 && OnTrack(dx, dy, a, b, d)
    requires if dx >= dy then a < dx else b < dy
    ensures OnTrack(dx, dy, StepA(dx, dy, d, a), StepB(dx, dy, d, b), StepD(dx, dy, d))
    ensures if dx >= dy then StepA(dx, dy, d, a) == a + 1 else StepB(dx, dy, d, b) == b + 1
  {
    assert (a + 1) * dy == a * dy + dy;
    assert (b + 1) * dx == b * dx + dx;
  }

  /** The loop state names the ideal pixel. */
  lemma OnIdealLine(p: Point, q: Point, a: int, b: int, d: int)
    requires OnTrack(Abs(q.x - p.x), Abs(q.y - p.y), a, b, d)
    ensures var dx, dy := Abs(q.x - p.x), Abs(q.y - p.y);
            Point(Toward(p.x, q.x, a), Toward(p.y, q.y, b))
            == IdealPixel(p, q, if dx >= dy then a else b)
  {
    var dx, dy := Abs(q.x - p.x), Abs(q.y - p.y);
    if dx >= dy && dx > 0 {
      OffsetUnique(b, a, dy, dx);
    } else if dx < dy {
      OffsetUnique(a, b, dx, dy);
    }
  }

  /** Both coordinates arrive exactly when the longer axis is used up. */
  lemma Arrival(dx: int, dy: int, a: int, b: int, d: int)
    requires dx >= 0 && dy >= 0 && OnTrack(dx, dy, a, b, d)
    ensures a == dx && b == dy <==> (if dx >= dy then a == dx else b == dy)
  {
    if dx >= dy && a == dx && dx > 0 {
      assert b * dx - dx * dy == (b - dy) * dx;
      Multiple(b - dy, dx);
    } else if dx < dy && b == dy {
      assert dy * dx - a * dy == (dx - a) * dy;
      Multiple(dx - a, dy);
    }
  }

  /** What the closed form means: never more than half a pixel from the ideal line, half a pixel only on
      the side of the start, and no other choice of the minor coordinate is nearer. */
  lemma NearestPixel(p: Point, q: Point, i: nat, other: int)
    requires i < Length(p, q)
    ensures var dx, dy := Abs(q.x - p.x), Abs(q.y - p.y);
            var r := IdealLine(p, q)[i];
            var a, b := Abs(r.x - p.x), Abs(r.y - p.y);
            && 2 * Abs(b * dx - a * dy) <= Max(dx, dy)
            && (p != q ==> if dx >= dy then 2 * (b * dx - a * dy) < dx else 2 * (a * dy - b * dx) < dy)
            && (dx >= dy ==> a == i && Abs(b * dx - a * dy) <= Abs(other * dx - a * dy))
            && (dx < dy ==> b == i && Abs(b * dx - a * dy) <= Abs(b * dx - other * dy))
  {
    var dx, dy := Abs(q.x - p.x), Abs(q.y - p.y);
    if dx >= dy && dx > 0 {
      OffsetRounds(i, dy, dx);
      OffsetSign(i, dy, dx);
      Nearer(Offset(i, dy, dx), other, dx, i * dy);
    } else if dx < dy {
      OffsetRounds(i, dx, dy);
      OffsetSign(i, dx, dy);
      Nearer(Offset(i, dx, dy), other, dy, i * dx);
    }
  }

  lemma OffsetSign(i: int, short: int, long: int)
    requires i >= 0 && short >= 0 && long > 0
    ensures Offset(i, short, long) >= 0
  {
    assert i * short >= 0;
    OffsetRounds(i, short, long);
    Multiple(Offset(i, short, long), long);
  }

  lemma Nearer(m: int, other: int, long: int, t: int)
    requires long > 0 && Rounds(m * long - t, long)
    ensures Abs(m * long - t) <= Abs(other * long - t)
  {
    assert (other - m) * long == other * long - m * long;
    Multiple(other - m, long);
  }

  lemma OffsetSteps(i: int, short: int, long: int)
    requires 0 <= short <= long && long > 0
    ensures Offset(i - 1, short, long) <= Offset(i, short, long) <= Offset(i - 1, short, long) + 1
  {
    var m, n := Offset(i - 1, short, long), Offset(i, short, long);
    OffsetRounds(i - 1, short, long);
    OffsetRounds(i, short, long);
    assert (i - 1) * short == i * short - short;
    assert (n - m) * long == n * long - m * long;
    Multiple(n - m, long);
  }

  /** First pixel, last pixel, and steps of at most one in each axis, never backwards. */
  lemma Connected(p: Point, q: Point)
    ensures IdealLine(p, q)[0] == p && IdealLine(p, q)[Length(p, q) - 1] == q
    ensures forall i :: 0 < i < Length(p, q) ==>
              var r, s := IdealLine(p, q)[i - 1], IdealLine(p, q)[i];
              && r != s
              && (s.x == r.x || s.x == r.x + Sign(p.x, q.x))
              && (s.y == r.y || s.y == r.y + Sign(p.y, q.y))
  {
    hide Offset;
    var dx, dy := Abs(q.x - p.x), Abs(q.y - p.y);
    var long, short := Max(dx, dy), Min(dx, dy);
    if long > 0 {
      assert 0 * long - 0 * short == 0 && short * long - long * short == 0;
      OffsetUnique(0, 0, short, long);
      OffsetUnique(short, long, short, long);
      forall i | 0 < i <= long
        ensures Offset(i - 1, short, long) <= Offset(i, short, long) <= Offset(i - 1, short, long) + 1
      {
        OffsetSteps(i, short, long);
      }
    }
  }

  /** After `i` major steps the ideal line passes half-way between two pixels. */
  predicate Tie(i: int, short: int, long: int)
    requires long > 0
  {
    (2 * i * short) % (2 * long) == long
  }

  /** The line drawn from `q` to `p` visits the same pixel, counted from the other end, exactly when
      the ideal line does not pass half-way between two pixels at that step. */
  lemma ReverseAgrees(p: Point, q: Point, i: nat)
    requires i < Length(p, q) && p != q
    ensures var long, short := Length(p, q) - 1, Min(Abs(q.x - p.x), Abs(q.y - p.y));
            IdealLine(q, p)[long - i] == IdealLine(p, q)[i]
            <==> !Tie(i, short, long)
  {
    hide Offset, Tie;
    var dx, dy := Abs(q.x - p.x), Abs(q.y - p.y);
    var long, short := Max(dx, dy), Min(dx, dy);
    ReverseOffset(i, short, long);
    OffsetSign(i, short, long);
    OffsetSign(long - i, short, long);
  }

  lemma ReverseOffset(i: int, short: int, long: int)
    requires long > 0
    ensures short - Offset(long - i, short, long) == Offset(i, short, long)
            <==> !Tie(i, short, long)
    ensures short - Offset(long - i, short, long) != Offset(i, short, long)
            ==> short - Offset(long - i, short, long) == Offset(i, short, long) + 1
  {
    var m := Offset(i, short, long);
    var gap := m * long - i * short;
    OffsetRounds(i, short, long);
    Mirrored(m, i, short, long);
    hide Offset;
    if gap == 0 {
      OffsetUnique(short - m, long - i, short, long);
      Residue(2 * i * short, 2 * long, m, 0);
    } else if 2 * gap == -long {
      OffsetUnique(short - m - 1, long - i, short, long);
      Residue(2 * i * short, 2 * long, m, long);
    } else {
      OffsetUnique(short - m, long - i, short, long);
      Residue(2 * i * short, 2 * long, if gap < 0 then m else m - 1, if gap < 0 then -2 * gap else 2 * long - 2 * gap);
    }
  }

  /** The gaps seen from the other end. */
  lemma Mirrored(m: int, i: int, short: int, long: int)
    ensures var gap := m * long - i * short;
            && (short - m) * long - (long - i) * short == -gap
            && (short - m - 1) * long - (long - i) * short == -gap - long
            && 2 * i * short == (2 * long) * m - 2 * gap && (2 * long) * (m - 1) == (2 * long) * m - 2 * long
  {
    assert (short - m) * long == short * long - m * long;
    assert (long - i) * short == long * short - i * short;
    assert 2 * i * short == 2 * (i * short);
    assert (2 * long) * m == 2 * (m * long);
  }

  lemma Residue(t: int, n: int, k: int, r: int)
    requires n > 0 && t == n * k + r && 0 <= r < n
    ensures t % n == r
  {
    var e := t / n;
    assert t == n * e + t % n;
    assert (k - e) * n == t % n - r;
    Multiple(k - e, n);
  }
}
