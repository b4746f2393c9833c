/** Cohen-Sutherland clipping, examples/graphics/line_clipping.c.

    The program works on `int`, with C's division. The same steps over the rationals (here `real`)
    are the algorithm it approximates; the two are modelled side by side and tied together. */
module Clip {
  import opened Geometry

  const XMIN := 120
  const YMIN := 120
  const XMAX := 520
  const YMAX := 360

  datatype RPoint = RPoint(x: real, y: real)

  datatype Segment<P> = Rejected | Drawn(from: P, to: P)

  datatype Edge = Top | Bottom | Right | Left

  // ---------------------------------------------------------------- outcodes

  type Code = bv4

  function Bit(e: Edge): Code {
    match e
    case Left => 1
    case Right => 2
    case Bottom => 4
    case Top => 8
  }

  function Bits(c: Code): nat {
    (if c & 1 != 0 then 1 else 0) + (if c & 2 != 0 then 1 else 0)
    + (if c & 4 != 0 then 1 else 0) + (if c & 8 != 0 then 1 else 0)
  }

  /** The order in which the if-chain of the loop looks at the bits of `code_out`. */
  function FirstEdge(c: Code): (e: Edge)
    requires c != 0
    ensures c & Bit(e) != 0
  {
    if c & 8 != 0 then Top else if c & 4 != 0 then Bottom else if c & 2 != 0 then Right else Left
  }

  /** Signed distance beyond an edge of the window: positive outside. */
  function Beyond(e: Edge, p: Point): int {
    match e
    case Top => p.y - YMAX
    case Bottom => YMIN - p.y
    case Right => p.x - XMAX
    case Left => XMIN - p.x
  }

  function BeyondR(e: Edge, p: RPoint): real {
    match e
    case Top => p.y - YMAX as real
    case Bottom => YMIN as real - p.y
    case Right => p.x - XMAX as real
    case Left => XMIN as real - p.x
  }

  function CodeOf(left: bool, right: bool, bottom: bool, top: bool): (c: Code)
    ensures (c & 1 != 0 <==> left) && (c & 2 != 0 <==> right)
    ensures (c & 4 != 0 <==> bottom) && (c & 8 != 0 <==> top)
    ensures c == 0 <==> !left && !right && !bottom && !top
  {
    (if left then 1 else 0) | (if right then 2 else 0) | (if bottom then 4 else 0) | (if top then 8 else 0)
  }

  function Outcode(p: Point): (c: Code)
    ensures forall e :: c & Bit(e) != 0 <==> Beyond(e, p) > 0
    ensures c == 0 <==> XMIN <= p.x <= XMAX && YMIN <= p.y <= YMAX
  {
    CodeOf(p.x < XMIN, p.x > XMAX, p.y < YMIN, p.y > YMAX)
  }

  function OutcodeR(p: RPoint): (c: Code)
    ensures forall e :: c & Bit(e) != 0 <==> BeyondR(e, p) > 0.0
    ensures c == 0 <==> InWindow(p)
  {
    CodeOf(p.x < XMIN as real, p.x > XMAX as real, p.y < YMIN as real, p.y > YMAX as real)
  }

  method ComputeCode(x: int, y: int) returns (code: Code)
    ensures code == Outcode(Point(x, y))
    ensures forall e :: code & Bit(e) != 0 <==> Beyond(e, Point(x, y)) > 0
    ensures code == 0 <==> XMIN <= x <= XMAX && YMIN <= y <= YMAX
  {
    code := 0;
    if x < XMIN { code := code | 1; }
    if x > XMAX { code := code | 2; }
    if y < YMIN { code := code | 4; }
    if y > YMAX { code := code | 8; }
  }

  /** Work left for a pair of codes: nothing once they share a bit, else the bits still set. */
  function Measure(c1: Code, c2: Code): nat {
    if c1 & c2 != 0 then 0 else Bits(c1) + Bits(c2)
  }

  /** Replacing an outside end by a point between the two ends and on edge `e` makes progress: a bit
      that appears anew is one the other end has too, so the next test rejects. */
  lemma Progress(c: Code, other: Code, e: Edge, c': Code)
    requires c & other == 0 && c & Bit(e) != 0 && c' & Bit(e) == 0
    requires forall f :: c' & Bit(f) != 0 ==> c & Bit(f) != 0 || other & Bit(f) != 0
    ensures Measure(c', other) < Measure(c, other) && Measure(other, c') < Measure(other, c)
  {
    assert c' & Bit(Left) != 0 ==> c & Bit(Left) != 0 || other & Bit(Left) != 0;
    assert c' & Bit(Right) != 0 ==> c & Bit(Right) != 0 || other & Bit(Right) != 0;
    assert c' & Bit(Bottom) != 0 ==> c & Bit(Bottom) != 0 || other & Bit(Bottom) != 0;
    assert c' & Bit(Top) != 0 ==> c & Bit(Top) != 0 || other & Bit(Top) != 0;
    assert c' & other == 0 ==> c' & !c == 0;
    assert c & other == other & c && c' & other == other & c';
  }

  lemma AtMostFour(c1: Code, c2: Code)
    ensures Measure(c1, c2) <= 4
  {
  }

  // ---------------------------------------------------------------- exact arithmetic

  /** The coordinate reached from `a` after the fraction `t` of the displacement `d`. */
  function Mix(a: real, d: real, t: real): real {
    a + t * d
  }

  function Lerp(a: RPoint, b: RPoint, t: real): RPoint {
    RPoint(Mix(a.x, b.x - a.x, t), Mix(a.y, b.y - a.y, t))
  }

  ghost predicate OnSegment(p: RPoint, a: RPoint, b: RPoint) {
    exists t :: 0.0 <= t <= 1.0 && p == Lerp(a, b, t)
  }

  ghost predicate InWindow(p: RPoint) {
    XMIN as real <= p.x <= XMAX as real && YMIN as real <= p.y <= YMAX as real
  }

  /** `a` and `b` lie on different sides of the line through edge `e`, at least one of them outside. */
  ghost predicate Straddles(e: Edge, a: RPoint, b: RPoint) {
    (BeyondR(e, a) > 0.0 && BeyondR(e, b) <= 0.0) || (BeyondR(e, a) <= 0.0 && BeyondR(e, b) > 0.0)
  }

  function Along(p: real, q: real, d: real): real
    requires d != 0.0
  {
    p * q / d
  }

  /** The intersection the loop computes, with exact division. */
  function CrossR(e: Edge, a: RPoint, b: RPoint): RPoint
    requires Straddles(e, a, b)
  {
    match e
    case Top => RPoint(a.x + Along(b.x - a.x, YMAX as real - a.y, b.y - a.y), YMAX as real)
    case Bottom => RPoint(a.x + Along(b.x - a.x, YMIN as real - a.y, b.y - a.y), YMIN as real)
    case Right => RPoint(XMAX as real, a.y + Along(b.y - a.y, XMAX as real - a.x, b.x - a.x))
    case Left => RPoint(XMIN as real, a.y + Along(b.y - a.y, XMIN as real - a.x, b.x - a.x))
  }

  /** Where on the way from `a` to `b` the edge is met. */
  function CutAt(e: Edge, a: RPoint, b: RPoint): real
    requires Straddles(e, a, b)
  {
    BeyondR(e, a) / (BeyondR(e, a) - BeyondR(e, b))
  }

  lemma CutAtBounds(v: real, w: real)
    requires (v > 0.0 && w <= 0.0) || (v <= 0.0 && w > 0.0)
    ensures 0.0 <= v / (v - w) <= 1.0
    ensures v + (v / (v - w)) * (w - v) == 0.0
  {
    var s := v / (v - w);
    assert s * (v - w) == v;
    assert (1.0 - s) * (v - w) == -w;
    assert v > 0.0 && s < 0.0 ==> s * (v - w) < 0.0;
    assert v <= 0.0 && s < 0.0 ==> s * (v - w) > 0.0;
    assert v > 0.0 && s > 1.0 ==> (1.0 - s) * (v - w) < 0.0;
    assert v <= 0.0 && s > 1.0 ==> (1.0 - s) * (v - w) > 0.0;
  }

  function Rise(e: Edge, a: RPoint, b: RPoint): real {
    BeyondR(e, b) - BeyondR(e, a)
  }

  lemma BeyondLerp(e: Edge, a: RPoint, b: RPoint, t: real)
    ensures BeyondR(e, Lerp(a, b, t)) == BeyondR(e, a) + t * Rise(e, a, b)
  {
    Flip(t, b.x - a.x);
    Flip(t, b.y - a.y);
  }

  lemma Flip(t: real, d: real)
    ensures t * (-d) == -(t * d)
  {
  }

  lemma CrossAxis(x0: real, p: real, y0: real, d: real, q: real, s: real)
    requires d != 0.0 && s * d == q
    ensures x0 + Along(p, q, d) == Mix(x0, p, s) && Mix(y0, d, s) == y0 + q
  {
    Associate(p, s, d);
    assert (p * s) * d / d == p * s;
  }

  /** The program's quotient is the point of the segment that lies on the edge. */
  lemma CrossIsCut(e: Edge, a: RPoint, b: RPoint)
    requires Straddles(e, a, b)
    ensures CrossR(e, a, b) == Lerp(a, b, CutAt(e, a, b))
    ensures BeyondR(e, CrossR(e, a, b)) == 0.0 && 0.0 <= CutAt(e, a, b) <= 1.0
  {
    hide CutAt, Along, Mix;
    var s := CutAt(e, a, b);
    CutMeets(e, a, b);
    Flip(s, b.x - a.x);
    Flip(s, b.y - a.y);
    match e
    case Top => CrossAxis(a.x, b.x - a.x, a.y, b.y - a.y, YMAX as real - a.y, s);
    case Bottom => CrossAxis(a.x, b.x - a.x, a.y, b.y - a.y, YMIN as real - a.y, s);
    case Right => CrossAxis(a.y, b.y - a.y, a.x, b.x - a.x, XMAX as real - a.x, s);
    case Left => CrossAxis(a.y, b.y - a.y, a.x, b.x - a.x, XMIN as real - a.x, s);
  }

  lemma CutMeets(e: Edge, a: RPoint, b: RPoint)
    requires Straddles(e, a, b)
    ensures 0.0 <= CutAt(e, a, b) <= 1.0
    ensures CutAt(e, a, b) * Rise(e, a, b) == -BeyondR(e, a)
  {
    CutAtBounds(BeyondR(e, a), BeyondR(e, b));
  }

  lemma Distribute(x: real, y: real, z: real)
    ensures x * (y - z) == x * y - x * z && (y - z) * x == y * x - z * x && (y + z) * x == y * x + z * x
  {
  }

  lemma Associate(x: real, y: real, z: real)
    ensures x * (y * z) == (x * y) * z
  {
  }

  lemma LerpTail(a: RPoint, b: RPoint, s: real, u: real)
    ensures Lerp(Lerp(a, b, s), b, u) == Lerp(a, b, s + u * (1.0 - s))
  {
    MixTail(a.x, b.x, s, u);
    MixTail(a.y, b.y, s, u);
  }

  lemma MixTail(a: real, b: real, s: real, u: real)
    ensures Mix(Mix(a, b - a, s), b - Mix(a, b - a, s), u) == Mix(a, b - a, s + u * (1.0 - s))
  {
    var d := b - a;
    Distribute(u, d, s * d);
    Associate(u, s, d);
    Distribute(u, 1.0, s);
    Distribute(d, s, u * (1.0 - s));
    Distribute(d, u, u * s);
  }

  lemma LerpHead(a: RPoint, b: RPoint, s: real, u: real)
    ensures Lerp(a, Lerp(a, b, s), u) == Lerp(a, b, u * s)
  {
    Associate(u, s, b.x - a.x);
    Associate(u, s, b.y - a.y);
  }

  lemma UnitProduct(u: real, s: real)
    requires 0.0 <= u <= 1.0 && 0.0 <= s
    ensures 0.0 <= u * s <= s
  {
    assert (1.0 - u) * s >= 0.0;
  }

  lemma Between(v: real, w: real, t: real)
    requires 0.0 <= t <= 1.0
    ensures v <= 0.0 && w <= 0.0 ==> v + t * (w - v) <= 0.0
    ensures v > 0.0 && w > 0.0 ==> v + t * (w - v) > 0.0
  {
    Distribute(t, w, v);
    Distribute(v, 1.0, t);
    Scale(1.0 - t, v);
    Scale(t, w);
  }

  lemma Scale(t: real, v: real)
    requires 0.0 <= t
    ensures v <= 0.0 ==> t * v <= 0.0
    ensures v > 0.0 ==> t * v >= 0.0 && (t > 0.0 ==> t * v > 0.0)
  {
  }

  lemma Ratio(n: real, d: real)
    requires 0.0 <= n <= d && d > 0.0
    ensures 0.0 <= n / d <= 1.0 && (n / d) * d == n
  {
    var r := n / d;
    assert r * d == n && (1.0 - r) * d == d - n;
    assert r < 0.0 ==> r * d < 0.0;
    assert r > 1.0 ==> (1.0 - r) * d < 0.0;
  }

  /** A point on the inner side of the edge comes after the cut when the first end is outside, and
      before it when the second is. */
  lemma InnerSide(e: Edge, a: RPoint, b: RPoint, t: real)
    requires Straddles(e, a, b) && BeyondR(e, Lerp(a, b, t)) <= 0.0
    ensures if BeyondR(e, a) > 0.0 then CutAt(e, a, b) <= t else t <= CutAt(e, a, b)
  {
    assert BeyondR(e, a) > 0.0 <==> Rise(e, a, b) < 0.0;
    assert BeyondR(e, a) <= 0.0 <==> Rise(e, a, b) > 0.0;
    InnerOrder(e, a, b, t);
  }

  lemma InnerOrder(e: Edge, a: RPoint, b: RPoint, t: real)
    requires Straddles(e, a, b) && BeyondR(e, Lerp(a, b, t)) <= 0.0
    ensures Rise(e, a, b) < 0.0 ==> CutAt(e, a, b) <= t
    ensures Rise(e, a, b) > 0.0 ==> t <= CutAt(e, a, b)
  {
    hide Rise, BeyondR, CutAt, Lerp;
    CutMeets(e, a, b);
    BeyondLerp(e, a, b, t);
    Ordered(BeyondR(e, a), Rise(e, a, b), CutAt(e, a, b), t);
  }

  lemma Ordered(v: real, d: real, s: real, t: real)
    requires s * d == -v && v + t * d <= 0.0
    ensures d < 0.0 ==> s <= t
    ensures d > 0.0 ==> t <= s
  {
    var x := t - s;
    Distribute(d, t, s);
    assert x * d <= 0.0;
    Opposite(x, d);
  }

  lemma Opposite(x: real, d: real)
    requires x * d <= 0.0
    ensures d < 0.0 ==> x >= 0.0
    ensures d > 0.0 ==> x <= 0.0
  {
  }

  /** Cutting off the outside end at the edge loses no point on the inner side and adds none. */
  lemma CutKeeps(e: Edge, a: RPoint, b: RPoint, p: RPoint)
    requires Straddles(e, a, b) && BeyondR(e, p) <= 0.0
    ensures BeyondR(e, a) > 0.0 ==> (OnSegment(p, a, b) <==> OnSegment(p, CrossR(e, a, b), b))
    ensures BeyondR(e, a) <= 0.0 ==> (OnSegment(p, a, b) <==> OnSegment(p, a, CrossR(e, a, b)))
  {
    hide Lerp, CutAt, CrossR, BeyondR;
    CrossIsCut(e, a, b);
    var s := CutAt(e, a, b);
    if OnSegment(p, a, b) {
      var t :| 0.0 <= t <= 1.0 && p == Lerp(a, b, t);
      InnerSide(e, a, b, t);
      if BeyondR(e, a) > 0.0 { InnerTail(a, b, s, t); } else { InnerHead(a, b, s, t); }
    }
    if BeyondR(e, a) > 0.0 && OnSegment(p, CrossR(e, a, b), b) {
      TailInside(a, b, s, p);
    }
    if BeyondR(e, a) <= 0.0 && OnSegment(p, a, CrossR(e, a, b)) {
      HeadInside(a, b, s, p);
    }
  }

  lemma TailInside(a: RPoint, b: RPoint, s: real, p: RPoint)
    requires 0.0 <= s <= 1.0 && OnSegment(p, Lerp(a, b, s), b)
    ensures OnSegment(p, a, b)
  {
    hide Lerp;
    var u :| 0.0 <= u <= 1.0 && p == Lerp(Lerp(a, b, s), b, u);
    LerpTail(a, b, s, u);
    AtParameter(a, b, TailPoint(s, u), p);
  }

  lemma HeadInside(a: RPoint, b: RPoint, s: real, p: RPoint)
    requires 0.0 <= s <= 1.0 && OnSegment(p, a, Lerp(a, b, s))
    ensures OnSegment(p, a, b)
  {
    hide Lerp;
    var u :| 0.0 <= u <= 1.0 && p == Lerp(a, Lerp(a, b, s), u);
    LerpHead(a, b, s, u);
    AtParameter(a, b, Part(s, u), p);
  }

  /** The fraction `u` of `s`. */
  function Part(s: real, u: real): (t: real)
    requires 0.0 <= s <= 1.0 && 0.0 <= u <= 1.0
    ensures 0.0 <= t <= s && t == u * s
  {
    UnitProduct(u, s);
    u * s
  }

  /** Where the fraction `u` of the rest after `s` is. */
  function TailPoint(s: real, u: real): (t: real)
    requires 0.0 <= s <= 1.0 && 0.0 <= u <= 1.0
    ensures 0.0 <= t <= 1.0 && t == s + u * (1.0 - s)
  {
    s + Part(1.0 - s, u)
  }

  lemma AtParameter(a: RPoint, b: RPoint, t: real, p: RPoint)
    requires 0.0 <= t <= 1.0 && p == Lerp(a, b, t)
    ensures OnSegment(p, a, b)
  {
  }

  lemma InnerTail(a: RPoint, b: RPoint, s: real, t: real)
    requires 0.0 <= s <= t <= 1.0
    ensures OnSegment(Lerp(a, b, t), Lerp(a, b, s), b)
  {
    hide Lerp;
    var u := TailParameter(s, t);
    LerpTail(a, b, s, u);
  }

  lemma TailParameter(s: real, t: real) returns (u: real)
    requires 0.0 <= s <= t <= 1.0
    ensures 0.0 <= u <= 1.0 && s + u * (1.0 - s) == t
  {
    u := 1.0;
    if s < 1.0 {
      u := (t - s) / (1.0 - s);
      Ratio(t - s, 1.0 - s);
    }
  }

  lemma InnerHead(a: RPoint, b: RPoint, s: real, t: real)
    requires 0.0 <= t <= s <= 1.0
    ensures OnSegment(Lerp(a, b, t), a, Lerp(a, b, s))
  {
    hide Lerp;
    var u := HeadParameter(s, t);
    LerpHead(a, b, s, u);
  }

  lemma HeadParameter(s: real, t: real) returns (u: real)
    requires 0.0 <= t <= s <= 1.0
    ensures 0.0 <= u <= 1.0 && u * s == t
  {
    u := 1.0;
    if s > 0.0 {
      u := t / s;
      Ratio(t, s);
    }
  }

  /** A half-plane that holds both ends holds the whole segment. */
  lemma Convex(e: Edge, a: RPoint, b: RPoint, p: RPoint)
    requires OnSegment(p, a, b)
    ensures BeyondR(e, a) <= 0.0 && BeyondR(e, b) <= 0.0 ==> BeyondR(e, p) <= 0.0
    ensures BeyondR(e, a) > 0.0 && BeyondR(e, b) > 0.0 ==> BeyondR(e, p) > 0.0
  {
    hide BeyondR, Lerp;
    var t :| 0.0 <= t <= 1.0 && p == Lerp(a, b, t);
    BeyondLerp(e, a, b, t);
    Between(BeyondR(e, a), BeyondR(e, b), t);
  }

  lemma OtherSide(c: Code, other: Code, e: Edge)
    requires c & other == 0 && c & Bit(e) != 0
    ensures other & Bit(e) == 0
  {
  }

  /** One pass of the loop over exact numbers. */
  function NextR(a: RPoint, b: RPoint): (RPoint, RPoint)
    requires OutcodeR(a) | OutcodeR(b) != 0 && OutcodeR(a) & OutcodeR(b) == 0
  {
    var c1, c2 := OutcodeR(a), OutcodeR(b);
    var e := FirstEdge(if c1 != 0 then c1 else c2);
    StraddlesR(a, b);
    if c1 != 0 then (CrossR(e, a, b), b) else (a, CrossR(e, a, b))
  }

  lemma StraddlesR(a: RPoint, b: RPoint)
    requires OutcodeR(a) | OutcodeR(b) != 0 && OutcodeR(a) & OutcodeR(b) == 0
    ensures Straddles(FirstEdge(if OutcodeR(a) != 0 then OutcodeR(a) else OutcodeR(b)), a, b)
  {
    var c1, c2 := OutcodeR(a), OutcodeR(b);
    if c1 != 0 {
      OtherSide(c1, c2, FirstEdge(c1));
    }
  }

  lemma ProgressR(a: RPoint, b: RPoint)
    requires OutcodeR(a) | OutcodeR(b) != 0 && OutcodeR(a) & OutcodeR(b) == 0
    ensures var (a', b') := NextR(a, b);
            Measure(OutcodeR(a'), OutcodeR(b')) < Measure(OutcodeR(a), OutcodeR(b))
  {
    var c1, c2 := OutcodeR(a), OutcodeR(b);
    var e := FirstEdge(if c1 != 0 then c1 else c2);
    StraddlesR(a, b);
    CrossIsCut(e, a, b);
    var m := CrossR(e, a, b);
    assert OnSegment(m, a, b);
    forall f ensures OutcodeR(m) & Bit(f) != 0 ==> c1 & Bit(f) != 0 || c2 & Bit(f) != 0 {
      Convex(f, a, b, m);
    }
    if c1 != 0 {
      Progress(c1, c2, e, OutcodeR(m));
    } else {
      assert c2 & c1 == 0;
      Progress(c2, c1, e, OutcodeR(m));
    }
  }

  /** The whole of `clip_line` over exact numbers. */
  function ClippedR(a: RPoint, b: RPoint): Segment<RPoint>
    decreases Measure(OutcodeR(a), OutcodeR(b))
  {
    if OutcodeR(a) | OutcodeR(b) == 0 then Drawn(a, b)
    else if OutcodeR(a) & OutcodeR(b) != 0 then Rejected
    else
      ProgressR(a, b);
      ClippedR(NextR(a, b).0, NextR(a, b).1)
  }

  /** With exact division the drawn segment is precisely the part of the input inside the window,
      and nothing is drawn only when that part is empty. */
  lemma {:induction false} ExactlyTheVisiblePart(a: RPoint, b: RPoint, p: RPoint)
    ensures OnSegment(p, a, b) && InWindow(p)
            <==> ClippedR(a, b).Drawn? && OnSegment(p, ClippedR(a, b).from, ClippedR(a, b).to)
    decreases Measure(OutcodeR(a), OutcodeR(b))
  {
    hide OnSegment, CrossR, Measure;
    var c1, c2 := OutcodeR(a), OutcodeR(b);
    if c1 | c2 == 0 {
      assert c1 == 0 && c2 == 0;
      if OnSegment(p, a, b) {
        Convex(Top, a, b, p);
        Convex(Bottom, a, b, p);
        Convex(Left, a, b, p);
        Convex(Right, a, b, p);
      }
    } else if c1 & c2 != 0 {
      var e := FirstEdge(c1 & c2);
      assert c1 & Bit(e) != 0 && c2 & Bit(e) != 0;
      if OnSegment(p, a, b) { Convex(e, a, b, p); }
    } else {
      ProgressR(a, b);
      StraddlesR(a, b);
      var e := FirstEdge(if c1 != 0 then c1 else c2);
      ExactlyTheVisiblePart(NextR(a, b).0, NextR(a, b).1, p);
      if BeyondR(e, p) <= 0.0 { CutKeeps(e, a, b, p); }
    }
  }

  // ---------------------------------------------------------------- the program's integers

  /** C's integer division: section 6.5.5 of ISO/IEC 9899:1999 discards the fractional part. */
  function TDiv(n: int, d: int): int
    requires d != 0
  {
    if n >= 0 then (if d > 0 then n / d else -(n / -d))
    else (if d > 0 then -(-n / d) else -n / -d)
  }

  lemma TDivMagnitude(n: int, d: int)
    requires d != 0
    ensures TDiv(n, d) == if (n >= 0) == (d > 0) then Abs(n) / Abs(d) else -(Abs(n) / Abs(d))
  {
  }

  lemma ProductMagnitude(p: int, q: int)
    ensures Abs(p * q) == Abs(p) * Abs(q)
    ensures p >= 0 && q >= 0 ==> p * q >= 0
    ensures p <= 0 && q <= 0 ==> p * q >= 0
    ensures p < 0 && q > 0 ==> p * q < 0
    ensures p > 0 && q < 0 ==> p * q < 0
  {
    if p >= 0 {
      if q >= 0 { assert p * q >= 0; } else { assert p * -q >= 0; assert p * q == -(p * -q); }
    } else {
      if q >= 0 { assert -p * q >= 0; assert p * q == -(-p * q); } else { assert -p * -q == p * q; assert -p * -q >= 0; }
    }
  }

  lemma TDivBetween(p: int, q: int, d: int)
    requires 0 <= q <= d || d <= q <= 0
    requires d != 0
    ensures p >= 0 ==> 0 <= TDiv(p * q, d) <= p
    ensures p <= 0 ==> p <= TDiv(p * q, d) <= 0
  {
    hide TDiv;
    TDivMagnitude(p * q, d);
    ProductMagnitude(p, q);
    Dominated(Abs(p), Abs(q), Abs(d));
  }

  lemma Dominated(n: int, k: int, m: int)
    requires 0 <= n && 0 <= k <= m && m > 0
    ensures 0 <= n * k / m <= n
    ensures k == 0 ==> n * k / m == 0
  {
    assert n * k >= 0 && n * (m - k) >= 0;
    assert n * (m - k) == n * m - n * k;
    Bounded(n * k, m, n);
  }

  lemma Bounded(v: int, m: int, n: int)
    requires 0 <= v <= n * m && m > 0
    ensures 0 <= v / m <= n
  {
    var q := v / m;
    assert v == m * q + v % m;
    assert (q - n) * m == q * m - n * m;
    Multiple(q - n, m);
  }

  /** The two ends are on different sides of edge `e`. */
  ghost predicate Across(e: Edge, a: Point, b: Point) {
    (Beyond(e, a) > 0 && Beyond(e, b) <= 0) || (Beyond(e, a) <= 0 && Beyond(e, b) > 0)
  }

  /** The intersection the loop computes. */
  function Cross(e: Edge, a: Point, b: Point): Point
    requires Across(e, a, b)
  {
    match e
    case Top => Point(a.x + TDiv((b.x - a.x) * (YMAX - a.y), b.y - a.y), YMAX)
    case Bottom => Point(a.x + TDiv((b.x - a.x) * (YMIN - a.y), b.y - a.y), YMIN)
    case Right => Point(XMAX, a.y + TDiv((b.y - a.y) * (XMAX - a.x), b.x - a.x))
    case Left => Point(XMIN, a.y + TDiv((b.y - a.y) * (XMIN - a.x), b.x - a.x))
  }

  predicate InBox(p: Point, a: Point, b: Point) {
    && (a.x <= p.x <= b.x || b.x <= p.x <= a.x)
    && (a.y <= p.y <= b.y || b.y <= p.y <= a.y)
  }

  lemma CrossInBox(e: Edge, a: Point, b: Point)
    requires Across(e, a, b)
    ensures InBox(Cross(e, a, b), a, b) && Beyond(e, Cross(e, a, b)) == 0
  {
    hide TDiv;
    match e
    case Top => TDivBetween(b.x - a.x, YMAX - a.y, b.y - a.y);
    case Bottom => TDivBetween(b.x - a.x, YMIN - a.y, b.y - a.y);
    case Right => TDivBetween(b.y - a.y, XMAX - a.x, b.x - a.x);
    case Left => TDivBetween(b.y - a.y, XMIN - a.x, b.x - a.x);
  }

  ghost predicate Undecided(a: Point, b: Point) {
    Outcode(a) | Outcode(b) != 0 && Outcode(a) & Outcode(b) == 0
  }

  /** The edge one pass of the loop clips against. */
  function EdgeOf(a: Point, b: Point): (e: Edge)
    requires Undecided(a, b)
    ensures Across(e, a, b)
    ensures Beyond(e, a) > 0 <==> Outcode(a) != 0
  {
    var c1, c2 := Outcode(a), Outcode(b);
    if c1 != 0 then
      OtherSide(c1, c2, FirstEdge(c1));
      FirstEdge(c1)
    else FirstEdge(c2)
  }

  /** One pass of the loop. */
  function Next(a: Point, b: Point): (Point, Point)
    requires Undecided(a, b)
  {
    var m := Cross(EdgeOf(a, b), a, b);
    if Outcode(a) != 0 then (m, b) else (a, m)
  }

  /** The first end is moved as long as it lies outside, then the second; and of an end above and beside
      the window the height is set first: top before bottom before right before left. */
  lemma WhichCut(a: Point, b: Point)
    requires Undecided(a, b)
    ensures var (c, d) := Next(a, b);
            var outside := !(XMIN <= a.x <= XMAX && YMIN <= a.y <= YMAX);
            var p, m := if outside then a else b, if outside then c else d;
            && (if outside then d == b else c == a)
            && (p.y > YMAX ==> m.y == YMAX)
            && (p.y < YMIN ==> m.y == YMIN)
            && (YMIN <= p.y <= YMAX && p.x > XMAX ==> m.x == XMAX)
            && (YMIN <= p.y <= YMAX && p.x <= XMAX ==> p.x < XMIN && m.x == XMIN)
  {
    hide TDiv;
    Codes(if Outcode(a) != 0 then Outcode(a) else Outcode(b));
    hide FirstEdge;
  }

  /** Which bits are set when a given one is the first. */
  lemma Codes(c: Code)
    requires c != 0
    ensures FirstEdge(c) == Top <==> c & Bit(Top) != 0
    ensures FirstEdge(c) == Bottom <==> c & Bit(Top) == 0 && c & Bit(Bottom) != 0
    ensures FirstEdge(c) == Right <==> c & Bit(Top) == 0 && c & Bit(Bottom) == 0 && c & Bit(Right) != 0
  {
  }

  lemma ProgressZ(a: Point, b: Point)
    requires Undecided(a, b)
    ensures Measure(Outcode(Next(a, b).0), Outcode(Next(a, b).1)) < Measure(Outcode(a), Outcode(b))
  {
    var c1, c2, e := Outcode(a), Outcode(b), EdgeOf(a, b);
    var m := Cross(e, a, b);
    CrossInBox(e, a, b);
    forall f ensures Outcode(m) & Bit(f) != 0 ==> c1 & Bit(f) != 0 || c2 & Bit(f) != 0 {
    }
    if c1 != 0 {
      Progress(c1, c2, e, Outcode(m));
    } else {
      assert c2 & c1 == 0;
      Progress(c2, c1, e, Outcode(m));
    }
  }

  /** The successive segments `clip_line` works on, the input first. */
  ghost function Trail(a: Point, b: Point): (t: seq<(Point, Point)>)
    ensures |t| >= 1 && t[0] == (a, b)
    ensures !Undecided(t[|t| - 1].0, t[|t| - 1].1)
    decreases Measure(Outcode(a), Outcode(b))
  {
    if Undecided(a, b) then
      ProgressZ(a, b);
      [(a, b)] + Trail(Next(a, b).0, Next(a, b).1)
    else [(a, b)]
  }

  /** What `clip_line` hands to `line`, if anything. */
  ghost function Clipped(a: Point, b: Point): Segment<Point> {
    var (p, q) := Trail(a, b)[|Trail(a, b)| - 1];
    if Outcode(p) | Outcode(q) == 0 then Drawn(p, q) else Rejected
  }

  method ClipLine(x1: int, y1: int, x2: int, y2: int) returns (line: Segment<Point>)
    ensures line == Clipped(Point(x1, y1), Point(x2, y2))
  {
    hide Cross, Measure, Trail, Clipped;
    var x1, y1, x2, y2 := x1, y1, x2, y2;
    ghost var a, b := Point(x1, y1), Point(x2, y2);
    var c1 := ComputeCode(x1, y1);
    var c2 := ComputeCode(x2, y2);
    var accept := false;
    while true
      invariant c1 == Outcode(Point(x1, y1)) && c2 == Outcode(Point(x2, y2)) && !accept
      invariant Clipped(Point(x1, y1), Point(x2, y2)) == Clipped(a, b)
      decreases Measure(c1, c2)
    {
      ghost var p, q := Point(x1, y1), Point(x2, y2);
      ClippedUnfolds(p, q);
      if c1 | c2 == 0 {
        accept := true;
        break;
      } else if c1 & c2 != 0 {
        break;
      } else {
        ProgressZ(p, q);
        var x, y := Intersect(c1, c2, x1, y1, x2, y2);
        if c1 != 0 {
          x1, y1 := x, y;
          c1 := ComputeCode(x1, y1);
        } else {
          x2, y2 := x, y;
          c2 := ComputeCode(x2, y2);
        }
        assert Next(p, q) == (Point(x1, y1), Point(x2, y2));
      }
    }
    line := if accept then Drawn(Point(x1, y1), Point(x2, y2)) else Rejected;
  }

  /** The if-chain over the bits of `code_out`. */
  method Intersect(c1: Code, c2: Code, x1: int, y1: int, x2: int, y2: int) returns (x: int, y: int)
    requires c1 == Outcode(Point(x1, y1)) && c2 == Outcode(Point(x2, y2))
    requires Undecided(Point(x1, y1), Point(x2, y2))
    ensures Point(x, y) == Cross(EdgeOf(Point(x1, y1), Point(x2, y2)), Point(x1, y1), Point(x2, y2))
  {
    hide TDiv;
    ghost var e := EdgeOf(Point(x1, y1), Point(x2, y2));
    var codeOut := if c1 != 0 then c1 else c2;
    x, y := 0, 0;
    if codeOut & 8 != 0 {
      x := x1 + TDiv((x2 - x1) * (YMAX - y1), y2 - y1);
      y := YMAX;
    } else if codeOut & 4 != 0 {
      x := x1 + TDiv((x2 - x1) * (YMIN - y1), y2 - y1);
      y := YMIN;
    } else if codeOut & 2 != 0 {
      y := y1 + TDiv((y2 - y1) * (XMAX - x1), x2 - x1);
      x := XMAX;
    } else if codeOut & 1 != 0 {
      y := y1 + TDiv((y2 - y1) * (XMIN - x1), x2 - x1);
      x := XMIN;
    }
  }

  lemma ClippedUnfolds(a: Point, b: Point)
    ensures Undecided(a, b) ==> Clipped(a, b) == Clipped(Next(a, b).0, Next(a, b).1)
    ensures Outcode(a) | Outcode(b) == 0 ==> Clipped(a, b) == Drawn(a, b)
    ensures Outcode(a) & Outcode(b) != 0 ==> Clipped(a, b) == Rejected
  {
    hide Outcode, Next, Measure;
    if Undecided(a, b) {
      var rest := Trail(Next(a, b).0, Next(a, b).1);
      assert Trail(a, b)[|Trail(a, b)| - 1] == rest[|rest| - 1];
    }
  }

  /** At most four clips, whatever the input. */
  lemma {:induction false} FewClips(a: Point, b: Point)
    ensures |Trail(a, b)| <= 1 + Measure(Outcode(a), Outcode(b)) <= 5
    decreases Measure(Outcode(a), Outcode(b))
  {
    AtMostFour(Outcode(a), Outcode(b));
    if Undecided(a, b) {
      ProgressZ(a, b);
      FewClips(Next(a, b).0, Next(a, b).1);
    }
  }

  lemma NextInBox(a: Point, b: Point)
    requires Undecided(a, b)
    ensures InBox(Next(a, b).0, a, b) && InBox(Next(a, b).1, a, b)
  {
    CrossInBox(EdgeOf(a, b), a, b);
  }

  lemma InBoxTrans(s: Point, p: Point, q: Point, a: Point, b: Point)
    requires InBox(p, a, b) && InBox(q, a, b) && InBox(s, p, q)
    ensures InBox(s, a, b)
  {
  }

  /** Every intermediate segment stays in the bounding box of the input. */
  lemma {:induction false} TrailInBox(a: Point, b: Point)
    ensures forall s :: s in Trail(a, b) ==> InBox(s.0, a, b) && InBox(s.1, a, b)
    decreases Measure(Outcode(a), Outcode(b))
  {
    if Undecided(a, b) {
      hide Undecided, Measure, Next, Outcode;
      ProgressZ(a, b);
      NextInBox(a, b);
      var (p, q) := Next(a, b);
      TrailInBox(p, q);
      forall s | s in Trail(a, b)
        ensures InBox(s.0, a, b) && InBox(s.1, a, b)
      {
        if s in Trail(p, q) {
          InBoxTrans(s.0, p, q, a, b);
          InBoxTrans(s.1, p, q, a, b);
        }
      }
    }
  }

  /** A drawn segment lies in the window and in the bounding box of the input. */
  lemma DrawnInside(a: Point, b: Point)
    ensures match Clipped(a, b)
            case Rejected => true
            case Drawn(p, q) => && XMIN <= p.x <= XMAX && YMIN <= p.y <= YMAX && InBox(p, a, b)
                                && XMIN <= q.x <= XMAX && YMIN <= q.y <= YMAX && InBox(q, a, b)
  {
    TrailInBox(a, b);
    var s := Trail(a, b)[|Trail(a, b)| - 1];
    assert s in Trail(a, b);
    if Outcode(s.0) | Outcode(s.1) == 0 {
      assert Outcode(s.0) == 0 && Outcode(s.1) == 0;
    }
  }

  // ---------------------------------------------------------------- integers against exact numbers

  function Lift(p: Point): RPoint {
    RPoint(p.x as real, p.y as real)
  }

  /** The quotient taken against edge `e` leaves no remainder. */
  ghost predicate EvenAt(e: Edge, a: Point, b: Point)
    requires Across(e, a, b)
  {
    match e
    case Top => Abs((b.x - a.x) * (YMAX - a.y)) % Abs(b.y - a.y) == 0
    case Bottom => Abs((b.x - a.x) * (YMIN - a.y)) % Abs(b.y - a.y) == 0
    case Right => Abs((b.y - a.y) * (XMAX - a.x)) % Abs(b.x - a.x) == 0
    case Left => Abs((b.y - a.y) * (XMIN - a.x)) % Abs(b.x - a.x) == 0
  }

  ghost predicate EvenPass(a: Point, b: Point)
    requires Undecided(a, b)
  {
    EvenAt(EdgeOf(a, b), a, b)
  }

  ghost predicate EvenPasses(a: Point, b: Point) {
    forall i :: 0 <= i < |Trail(a, b)| && Undecided(Trail(a, b)[i].0, Trail(a, b)[i].1)
                ==> EvenPass(Trail(a, b)[i].0, Trail(a, b)[i].1)
  }

  /** The successive segments of the exact loop. */
  ghost function TrailR(a: RPoint, b: RPoint): (t: seq<(RPoint, RPoint)>)
    ensures |t| >= 1 && t[0] == (a, b)
    ensures var (p, q) := t[|t| - 1]; ClippedR(a, b) == if OutcodeR(p) | OutcodeR(q) == 0 then Drawn(p, q) else Rejected
    decreases Measure(OutcodeR(a), OutcodeR(b))
  {
    if OutcodeR(a) | OutcodeR(b) != 0 && OutcodeR(a) & OutcodeR(b) == 0 then
      ProgressR(a, b);
      [(a, b)] + TrailR(NextR(a, b).0, NextR(a, b).1)
    else [(a, b)]
  }

  function LiftAll(t: seq<(Point, Point)>): (r: seq<(RPoint, RPoint)>)
    ensures |r| == |t|
  {
    seq(|t|, i requires 0 <= i < |t| => (Lift(t[i].0), Lift(t[i].1)))
  }

  lemma TDivExact(n: int, d: int)
    requires d != 0
    ensures TDiv(n, d) as real == n as real / d as real <==> Abs(n) % Abs(d) == 0
  {
    hide TDiv;
    TDivMagnitude(n, d);
    Exactly(TDiv(n, d), d, n);
    Magnitudes(Abs(n) / Abs(d), Abs(d), n, d, TDiv(n, d));
    Remainder(Abs(n), Abs(d));
  }

  lemma Remainder(m: int, n: int)
    requires n > 0
    ensures m == n * (m / n) + m % n
  {
  }

  /** The quotient has the sign that makes its product with `d` one with the sign of `n`. */
  lemma Magnitudes(k: int, m: int, n: int, d: int, q: int)
    requires d != 0 && m == Abs(d) && q == if (n >= 0) == (d > 0) then k else -k
    ensures q * d == if n >= 0 then m * k else -(m * k)
  {
  }

  lemma Exactly(k: int, d: int, n: int)
    requires d != 0
    ensures k as real == n as real / d as real <==> n == k * d
  {
    assert (k * d) as real == k as real * d as real;
    assert n as real == (n as real / d as real) * d as real;
  }

  lemma SameCode(p: Point)
    ensures OutcodeR(Lift(p)) == Outcode(p)
  {
  }

  lemma LiftsCodes(a: Point, b: Point)
    requires Undecided(a, b)
    ensures OutcodeR(Lift(a)) | OutcodeR(Lift(b)) != 0 && OutcodeR(Lift(a)) & OutcodeR(Lift(b)) == 0
  {
    SameCode(a);
    SameCode(b);
  }

  /** A pass of the program is the exact one exactly when its quotient leaves no remainder. */
  lemma ExactPass(a: Point, b: Point)
    requires Undecided(a, b)
    ensures OutcodeR(Lift(a)) | OutcodeR(Lift(b)) != 0 && OutcodeR(Lift(a)) & OutcodeR(Lift(b)) == 0
    ensures NextR(Lift(a), Lift(b)) == (Lift(Next(a, b).0), Lift(Next(a, b).1)) <==> EvenPass(a, b)
  {
    hide Cross, CrossR, EvenAt;
    LiftsCodes(a, b);
    SameCode(a);
    SameCode(b);
    StraddlesR(Lift(a), Lift(b));
    ExactCross(EdgeOf(a, b), a, b);
  }

  /** So is each intersection. */
  lemma ExactCross(e: Edge, a: Point, b: Point)
    requires Across(e, a, b)
    ensures Straddles(e, Lift(a), Lift(b))
    ensures CrossR(e, Lift(a), Lift(b)) == Lift(Cross(e, a, b)) <==> EvenAt(e, a, b)
  {
    hide TDiv, Along;
    match e
    case Top => ExactQuotient(b.x - a.x, YMAX - a.y, b.y - a.y);
    case Bottom => ExactQuotient(b.x - a.x, YMIN - a.y, b.y - a.y);
    case Right => ExactQuotient(b.y - a.y, XMAX - a.x, b.x - a.x);
    case Left => ExactQuotient(b.y - a.y, XMIN - a.x, b.x - a.x);
  }

  lemma ExactQuotient(p: int, q: int, d: int)
    requires d != 0
    ensures TDiv(p * q, d) as real == Along(p as real, q as real, d as real) <==> Abs(p * q) % Abs(d) == 0
  {
    hide TDiv;
    TDivExact(p * q, d);
    assert (p * q) as real == p as real * q as real;
  }

  lemma EvenUnfolds(a: Point, b: Point)
    requires Undecided(a, b)
    ensures EvenPasses(a, b) <==> EvenPass(a, b) && EvenPasses(Next(a, b).0, Next(a, b).1)
  {
    hide EvenPass, Undecided, Next, Measure, Outcode;
    var t, rest := Trail(a, b), Trail(Next(a, b).0, Next(a, b).1);
    assert t == [(a, b)] + rest;
    if EvenPasses(a, b) {
      assert EvenPass(t[0].0, t[0].1);
      forall i | 0 <= i < |rest| && Undecided(rest[i].0, rest[i].1)
        ensures EvenPass(rest[i].0, rest[i].1)
      {
        assert t[i + 1] == rest[i];
      }
    }
  }

  lemma TrailsUnfold(a: Point, b: Point)
    requires Undecided(a, b) && OutcodeR(Lift(a)) | OutcodeR(Lift(b)) != 0 && OutcodeR(Lift(a)) & OutcodeR(Lift(b)) == 0
    ensures Trail(a, b) == [(a, b)] + Trail(Next(a, b).0, Next(a, b).1)
    ensures TrailR(Lift(a), Lift(b))
            == [(Lift(a), Lift(b))] + TrailR(NextR(Lift(a), Lift(b)).0, NextR(Lift(a), Lift(b)).1)
  {
    hide Outcode, OutcodeR, Next, NextR, Measure, ClippedR;
  }

  lemma LiftCons(s: (Point, Point), t: seq<(Point, Point)>)
    ensures LiftAll([s] + t) == [(Lift(s.0), Lift(s.1))] + LiftAll(t)
  {
  }

  lemma ConsEqual<T>(s: T, a: seq<T>, t: T, b: seq<T>)
    ensures [s] + a == [t] + b <==> s == t && a == b
  {
    if [s] + a == [t] + b {
      assert s == ([s] + a)[0] && a == ([s] + a)[1..];
      assert t == ([t] + b)[0] && b == ([t] + b)[1..];
    }
  }

  lemma HeadsAgree(a: Point, b: Point, c: RPoint, d: RPoint)
    ensures LiftAll(Trail(a, b)) == TrailR(c, d) ==> c == Lift(a) && d == Lift(b)
  {
    hide Trail, TrailR, Lift;
    var t, u := LiftAll(Trail(a, b)), TrailR(c, d);
    if t == u { assert t[0] == u[0]; }
  }

  /** The program goes through the very segments of the exact loop exactly when no quotient leaves a
      remainder. */
  lemma {:induction false} ExactTrail(a: Point, b: Point)
    ensures LiftAll(Trail(a, b)) == TrailR(Lift(a), Lift(b)) <==> EvenPasses(a, b)
    decreases Measure(Outcode(a), Outcode(b))
  {
    if Undecided(a, b) {
      ExactPass(a, b);
      TrailsUnfold(a, b);
      EvenUnfolds(a, b);
      ProgressZ(a, b);
      var (p, q) := Next(a, b);
      var (c, d) := NextR(Lift(a), Lift(b));
      hide Undecided, Outcode, OutcodeR, Next, NextR, EvenPass, EvenPasses, Measure, Trail, TrailR, Lift, LiftAll;
      LiftCons((a, b), Trail(p, q));
      ConsEqual((Lift(a), Lift(b)), LiftAll(Trail(p, q)), (Lift(a), Lift(b)), TrailR(c, d));
      HeadsAgree(p, q, c, d);
      ExactTrail(p, q);
    } else {
      SameCode(a);
      SameCode(b);
    }
  }

  /** Then it draws exactly the visible part, or nothing when that is empty. */
  lemma EvenClipIsExact(a: Point, b: Point)
    requires EvenPasses(a, b)
    ensures ClippedR(Lift(a), Lift(b)) == match Clipped(a, b)
                                          case Rejected => Rejected
                                          case Drawn(p, q) => Drawn(Lift(p), Lift(q))
  {
    hide Outcode, OutcodeR, Lift, EvenPasses, ClippedR, Trail, TrailR, Undecided, Measure;
    ExactTrail(a, b);
    var t := Trail(a, b);
    var u := TrailR(Lift(a), Lift(b));
    assert u[|u| - 1] == (Lift(t[|t| - 1].0), Lift(t[|t| - 1].1));
    SameCode(t[|t| - 1].0);
    SameCode(t[|t| - 1].1);
  }

  /** With a remainder it need not: this line misses the window, yet a pixel of it is drawn. */
  lemma TruncationDrawsTooMuch()
    ensures Clipped(Point(520, 361), Point(521, 359)) == Drawn(Point(520, 360), Point(520, 360))
    ensures forall p :: OnSegment(p, Lift(Point(520, 361)), Lift(Point(521, 359))) ==> !InWindow(p)
  {
    var a, b := Point(520, 361), Point(521, 359);
    assert Next(a, b) == (Point(520, 360), b);
    ClippedUnfolds(a, b);
    assert Next(Point(520, 360), b) == (Point(520, 360), Point(520, 360));
    ClippedUnfolds(Point(520, 360), b);
    ClippedUnfolds(Point(520, 360), Point(520, 360));
    forall p | OnSegment(p, Lift(a), Lift(b))
      ensures !InWindow(p)
    {
      var t :| 0.0 <= t <= 1.0 && p == Lerp(Lift(a), Lift(b), t);
      assert p == RPoint(520.0 + t, 361.0 - 2.0 * t);
    }
  }

  lemma RejectedByTruncation()
    ensures Clipped(Point(97, 408), Point(141, -139)) == Rejected
  {
    hide Clipped;
    var a, b := Point(97, 408), Point(141, -139);
    assert Next(a, b) == (Point(100, 360), b);
    ClippedUnfolds(a, b);
    assert Next(Point(100, 360), b) == (Point(120, 117), b);
    ClippedUnfolds(Point(100, 360), b);
    ClippedUnfolds(Point(120, 117), b);
  }

  /** And a visible line can be lost: cut at the left edge it falls below the window by truncation alone. */
  lemma TruncationLosesALine()
    ensures Clipped(Point(97, 408), Point(141, -139)) == Rejected
    ensures exists p :: OnSegment(p, Lift(Point(97, 408)), Lift(Point(141, -139))) && InWindow(p)
  {
    var a, b := Point(97, 408), Point(141, -139);
    RejectedByTruncation();
    var t := 286.0 / 547.0;
    var p := Lerp(Lift(a), Lift(b), t);
    assert OnSegment(p, Lift(a), Lift(b));
    assert p == RPoint(97.0 + t * 44.0, 408.0 + t * -547.0);
  }

  /** A line with an end in the window is always drawn, and from or to that very end. */
  lemma {:induction false} EndInsideIsDrawn(a: Point, b: Point)
    ensures Outcode(a) == 0 ==> Clipped(a, b).Drawn? && Clipped(a, b).from == a
    ensures Outcode(b) == 0 ==> Clipped(a, b).Drawn? && Clipped(a, b).to == b
    decreases Measure(Outcode(a), Outcode(b))
  {
    var c1, c2 := Outcode(a), Outcode(b);
    ClippedUnfolds(a, b);
    OneInside(c1, c2);
    if (c1 == 0 || c2 == 0) && c1 | c2 != 0 {
      ProgressZ(a, b);
      var (p, q) := Next(a, b);
      assert c1 == 0 ==> p == a;
      assert c2 == 0 ==> q == b;
      hide Outcode, Clipped, Cross, Measure;
      EndInsideIsDrawn(p, q);
    }
  }

  lemma OneInside(c: Code, d: Code)
    ensures c == 0 || d == 0 ==> c & d == 0
    ensures c | d == 0 <==> c == 0 && d == 0
  {
  }

  /** Truncation moves a quotient by less than one. */
  lemma TDivNear(n: int, d: int)
    requires d != 0
    ensures -1.0 < Gap(TDiv(n, d), n, d) < 1.0
  {
    hide TDiv, Gap;
    TDivMagnitude(n, d);
    Magnitudes(Abs(n) / Abs(d), Abs(d), n, d, TDiv(n, d));
    Remainder(Abs(n), Abs(d));
    QuotientNear(TDiv(n, d), n, d);
  }

  /** How far `k` lies from the exact quotient. */
  function Gap(k: int, n: int, d: int): real
    requires d != 0
  {
    k as real - n as real / d as real
  }

  lemma QuotientNear(k: int, n: int, d: int)
    requires d != 0 && Abs(n - k * d) < Abs(d)
    ensures -1.0 < Gap(k, n, d) < 1.0
  {
    hide Gap;
    GapTimes(k, n, d);
    Small(Gap(k, n, d), d as real, (k * d - n) as real);
  }

  lemma GapTimes(k: int, n: int, d: int)
    requires d != 0
    ensures Gap(k, n, d) * d as real == (k * d - n) as real
  {
    Distribute(d as real, k as real, n as real / d as real);
    assert (k * d) as real == k as real * d as real;
    assert (n as real / d as real) * d as real == n as real;
  }

  lemma Small(e: real, y: real, m: real)
    requires e * y == m && (if y > 0.0 then -y < m < y else y < m < -y)
    ensures -1.0 < e < 1.0
  {
    if e >= 1.0 {
      SignOf(e - 1.0, y);
      Distribute(y, e, 1.0);
    } else if e <= -1.0 {
      SignOf(-1.0 - e, y);
      Distribute(y, -1.0, e);
    }
  }

  lemma SignOf(x: real, y: real)
    requires x >= 0.0
    ensures if y > 0.0 then x * y >= 0.0 else x * y <= 0.0
  {
  }

  /** And always towards zero. */
  lemma TDivToward(n: int, d: int)
    requires d != 0
    ensures Closer(TDiv(n, d) as real, n as real / d as real, 0.0)
  {
    TDivSigns(n, d);
    GapTimes(TDiv(n, d), n, d);
    Toward(TDiv(n, d), n, d);
  }

  lemma TDivSigns(n: int, d: int)
    requires d != 0
    ensures if (n >= 0) == (d > 0) then TDiv(n, d) >= 0 else TDiv(n, d) <= 0
    ensures if n >= 0 then TDiv(n, d) * d - n <= 0 else TDiv(n, d) * d - n >= 0
  {
    hide TDiv;
    TDivMagnitude(n, d);
    QuotientBelow(Abs(n), Abs(d));
    SignedBelow(Abs(n) / Abs(d), Abs(d), n, d, TDiv(n, d));
  }

  lemma QuotientBelow(m: int, n: int)
    requires m >= 0 && n > 0
    ensures m / n >= 0 && n * (m / n) <= m
  {
    Remainder(m, n);
  }

  lemma SignedBelow(k: int, m: int, n: int, d: int, q: int)
    requires d != 0 && m == Abs(d) && k >= 0 && m * k <= Abs(n)
    requires q == if (n >= 0) == (d > 0) then k else -k
    ensures if (n >= 0) == (d > 0) then q >= 0 else q <= 0
    ensures if n >= 0 then q * d - n <= 0 else q * d - n >= 0
  {
    Magnitudes(k, m, n, d, q);
  }

  lemma Toward(k: int, n: int, d: int)
    requires d != 0 && (if (n >= 0) == (d > 0) then k >= 0 else k <= 0)
    requires if n >= 0 then k * d - n <= 0 else k * d - n >= 0
    ensures Closer(k as real, n as real / d as real, 0.0)
  {
    GapTimes(k, n, d);
    GapIs(k, n, d);
    hide Gap;
    var g := Gap(k, n, d);
    GapSign(g, d as real);
    QuotientSign(n as real, d as real);
  }

  lemma GapIs(k: int, n: int, d: int)
    requires d != 0
    ensures k as real == n as real / d as real + Gap(k, n, d)
  {
  }

  lemma GapSign(g: real, y: real)
    requires y != 0.0
    ensures g * y <= 0.0 ==> if y > 0.0 then g <= 0.0 else g >= 0.0
    ensures g * y >= 0.0 ==> if y > 0.0 then g >= 0.0 else g <= 0.0
  {
  }

  lemma QuotientSign(n: real, y: real)
    requires y != 0.0
    ensures n / y >= 0.0 <==> n == 0.0 || (n > 0.0) == (y > 0.0)
    ensures n == 0.0 ==> n / y == 0.0
  {
    var x := n / y;
    assert x * y == n;
    GapSign(x, y);
  }

  /** `p` lies between `q` and `o`. */
  predicate Closer(p: real, q: real, o: real) {
    o <= p <= q || q <= p <= o
  }

  /** Each intersection the program computes is on the edge and less than one unit from the exact one, on
      the side of the first end. */
  lemma CrossIsNear(e: Edge, a: Point, b: Point)
    requires Across(e, a, b)
    ensures Straddles(e, Lift(a), Lift(b))
    ensures var p, q := Cross(e, a, b), CrossR(e, Lift(a), Lift(b));
            && -1.0 < p.x as real - q.x < 1.0 && -1.0 < p.y as real - q.y < 1.0
            && Closer(p.x as real, q.x, a.x as real) && Closer(p.y as real, q.y, a.y as real)
  {
    hide TDiv, Along;
    match e
    case Top => AlongNear(b.x - a.x, YMAX - a.y, b.y - a.y);
    case Bottom => AlongNear(b.x - a.x, YMIN - a.y, b.y - a.y);
    case Right => AlongNear(b.y - a.y, XMAX - a.x, b.x - a.x);
    case Left => AlongNear(b.y - a.y, XMIN - a.x, b.x - a.x);
  }

  lemma AlongNear(p: int, q: int, d: int)
    requires d != 0
    ensures -1.0 < TDiv(p * q, d) as real - Along(p as real, q as real, d as real) < 1.0
    ensures Closer(TDiv(p * q, d) as real, Along(p as real, q as real, d as real), 0.0)
  {
    hide TDiv;
    TDivNear(p * q, d);
    TDivToward(p * q, d);
    AlongIs(p, q, d);
    hide Along;
  }

  lemma AlongIs(p: int, q: int, d: int)
    requires d != 0
    ensures Along(p as real, q as real, d as real) == (p * q) as real / d as real
  {
    assert (p * q) as real == p as real * q as real;
  }
}
