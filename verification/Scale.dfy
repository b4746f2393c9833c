/** The bilinear scaling of packaging/make_icon.py over exact numbers. */
module Scale {

  type Channel = x: int | 0 <= x < 256

  type Image = seq<seq<seq<Channel>>>  // rows, columns, channels

  ghost predicate Sized(img: Image, w: nat, h: nat) {
    && |img| == h
    && forall y :: 0 <= y < h ==> |img[y]| == w && forall x :: 0 <= x < w ==> |img[y][x]| == 4
  }

  // ---------------------------------------------------------------- where a target pixel falls

  /** The centre of target pixel `i` of `n`, in source pixels of `o`. */
  function Source(i: nat, o: nat, n: nat): real
    requires n > 0
  {
    Ratio(i as real + 0.5, o as real, n as real) - 0.5
  }

  function Ratio(c: real, q: real, m: real): real
    requires m != 0.0
  {
    c * q / m
  }

  /** int(v): towards zero. */
  function Trunc(v: real): int {
    if v >= 0.0 then v.Floor else -((-v).Floor)
  }

  function First(i: nat, o: nat, n: nat): int
    requires n > 0
  {
    var f := Trunc(Source(i, o, n));
    if f > 0 then f else 0
  }

  function Second(i: nat, o: nat, n: nat): int
    requires n > 0
  {
    var f := First(i, o, n) + 1;
    if f < o - 1 then f else o - 1
  }

  function Offset(i: nat, o: nat, n: nat): real
    requires n > 0
  {
    Source(i, o, n) - First(i, o, n) as real
  }

  /** The target pixel lies outside the centres of the source pixels, on the top or left. */
  predicate OnBorder(i: nat, o: nat, n: nat) {
    (2 * i + 1) * o < n
  }

  lemma SourceBounds(i: nat, o: nat, n: nat)
    requires i < n && o > 0
    ensures -0.5 < Source(i, o, n) < o as real - 0.5
    ensures Source(i, o, n) < 0.0 <==> OnBorder(i, o, n)
    ensures o == n ==> Source(i, o, n) == i as real
  {
    hide Ratio, OnBorder;
    var c, q, m := i as real + 0.5, o as real, n as real;
    RatioBounds(c, q, m);
    BorderTest(i, o, n, c, q);
    if o == n { Cancel(c, q); }
  }

  lemma BorderTest(i: nat, o: nat, n: nat, c: real, q: real)
    requires c == i as real + 0.5 && o as real == q
    ensures OnBorder(i, o, n) <==> 2.0 * (c * q) < n as real
  {
    var e := 2 * i + 1;
    Term(2.0, c, q);
    assert e as real == 2.0 * c;
    assert (e * o) as real == e as real * o as real;
  }

  lemma RatioBounds(c: real, q: real, m: real)
    requires 0.0 < c < m && 0.0 < q
    ensures 0.0 < Ratio(c, q, m) < q
    ensures Ratio(c, q, m) < 0.5 <==> 2.0 * (c * q) < m
  {
    Positive(c, q);
    Positive(m - c, q);
    Factor(c, m - c, q);
    Fraction(c * q, q, m);
  }

  lemma Positive(x: real, q: real)
    requires x > 0.0 && q > 0.0
    ensures x * q > 0.0
  {
  }

  lemma Fraction(v: real, q: real, m: real)
    requires 0.0 < v < m * q && m > 0.0
    ensures 0.0 < v / m < q
    ensures v / m < 0.5 <==> 2.0 * v < m
  {
    var s := v / m;
    assert s * m == v;
    Compare(s, 0.0, m);
    Compare(q, s, m);
    Compare(2.0 * s, 1.0, m);
    Compare(1.0, 2.0 * s, m);
    assert (2.0 * s) * m == 2.0 * v;
  }

  lemma Cancel(c: real, q: real)
    requires q != 0.0
    ensures Ratio(c, q, q) == c
  {
  }

  lemma Compare(a: real, b: real, m: real)
    requires m > 0.0
    ensures a * m > b * m <==> a > b
    ensures a * m == b * m <==> a == b
  {
    assert (a - b) * m == a * m - b * m;
  }

  /** Both source rows exist; away from the border they are neighbours and the offset is a proper
      fraction, on the border it is negative. */
  lemma IndicesInside(i: nat, o: nat, n: nat)
    requires i < n && o > 0
    ensures 0 <= First(i, o, n) <= Second(i, o, n) < o
    ensures OnBorder(i, o, n) ==> First(i, o, n) == 0 && -0.5 < Offset(i, o, n) < 0.0
    ensures !OnBorder(i, o, n) ==> 0.0 <= Offset(i, o, n) < 1.0
    ensures o == n ==> First(i, o, n) == i && Offset(i, o, n) == 0.0
  {
    SourceBounds(i, o, n);
  }

  // ---------------------------------------------------------------- blending

  function Blend(a: real, b: real, t: real): real {
    a * (1.0 - t) + b * t
  }

  /** The four weighted terms in the order of the loops. */
  function Mixed(a: real, b: real, c: real, d: real, tx: real, ty: real): real {
    a * ((1.0 - tx) * (1.0 - ty)) + b * (tx * (1.0 - ty)) + c * ((1.0 - tx) * ty) + d * (tx * ty)
  }

  lemma WeightsSumToOne(tx: real, ty: real)
    ensures (1.0 - tx) * (1.0 - ty) + tx * (1.0 - ty) + (1.0 - tx) * ty + tx * ty == 1.0
  {
  }

  /** The sum blends the rows' blends. */
  lemma Separable(a: real, b: real, c: real, d: real, tx: real, ty: real)
    ensures Mixed(a, b, c, d, tx, ty) == Blend(Blend(a, b, tx), Blend(c, d, tx), ty)
  {
    Term(a, 1.0 - tx, 1.0 - ty);
    Term(b, tx, 1.0 - ty);
    Term(c, 1.0 - tx, ty);
    Term(d, tx, ty);
    Factor(a * (1.0 - tx), b * tx, 1.0 - ty);
    Factor(c * (1.0 - tx), d * tx, ty);
  }

  lemma Term(a: real, u: real, v: real)
    ensures a * (u * v) == (a * u) * v
  {
  }

  lemma Factor(p: real, q: real, v: real)
    ensures (p + q) * v == p * v + q * v
  {
  }

  lemma BlendBetween(a: real, b: real, t: real, lo: real, hi: real)
    requires 0.0 <= t <= 1.0 && lo <= a <= hi && lo <= b <= hi
    ensures lo <= Blend(a, b, t) <= hi
  {
    Shifted(a, b, t, lo);
    Shifted(a, b, t, hi);
    Signs(a - lo, 1.0 - t);
    Signs(b - lo, t);
    Signs(a - hi, 1.0 - t);
    Signs(b - hi, t);
  }

  lemma Shifted(a: real, b: real, t: real, c: real)
    ensures Blend(a, b, t) == c + ((a - c) * (1.0 - t) + (b - c) * t)
  {
  }

  lemma Signs(x: real, t: real)
    requires t >= 0.0
    ensures x >= 0.0 ==> x * t >= 0.0
    ensures x <= 0.0 ==> x * t <= 0.0
  {
  }

  /** With a negative offset the first value is overshot, away from the second. */
  lemma BlendOvershoots(a: real, b: real, t: real)
    requires t < 0.0
    ensures a < b ==> Blend(a, b, t) < a
    ensures a > b ==> Blend(a, b, t) > a
    ensures a == b ==> Blend(a, b, t) == a
  {
    Expand(a, b, t);
    Opposite(b - a, t);
  }

  lemma Expand(a: real, b: real, t: real)
    ensures Blend(a, b, t) == a + (b - a) * t
  {
  }

  lemma Opposite(x: real, t: real)
    requires t < 0.0
    ensures x > 0.0 ==> x * t < 0.0
    ensures x < 0.0 ==> x * t > 0.0
  {
  }

  /** round(v): to the nearest integer, halves to the even one. */
  function Round(v: real): int {
    var f := v.Floor;
    var d := v - f as real;
    if d < 0.5 || (d == 0.5 && f % 2 == 0) then f else f + 1
  }

  function Clamped(v: real): Channel {
    var r := Round(v);
    if r < 0 then 0 else if r > 255 then 255 else r
  }

  lemma ClampedBetween(v: real, lo: Channel, hi: Channel)
    requires lo as real <= v <= hi as real
    ensures lo <= Clamped(v) <= hi
  {
  }

  // ---------------------------------------------------------------- the scaled image

  /** Channel `k` of the four source pixels that target pixel `(x, y)` is made from, row by row. */
  function Corners(img: Image, ow: nat, oh: nat, nw: nat, nh: nat, y: nat, x: nat, k: nat): (c: seq<Channel>)
    requires Sized(img, ow, oh) && ow > 0 && oh > 0 && y < nh && x < nw && k < 4
    ensures |c| == 4
  {
    IndicesInside(y, oh, nh);
    IndicesInside(x, ow, nw);
    var y0, y1 := First(y, oh, nh), Second(y, oh, nh);
    var x0, x1 := First(x, ow, nw), Second(x, ow, nw);
    [img[y0][x0][k], img[y0][x1][k], img[y1][x0][k], img[y1][x1][k]]
  }

  /** Their weighted sum. */
  function Value(img: Image, ow: nat, oh: nat, nw: nat, nh: nat, y: nat, x: nat, k: nat): real
    requires Sized(img, ow, oh) && ow > 0 && oh > 0 && y < nh && x < nw && k < 4
  {
    var c := Corners(img, ow, oh, nw, nh, y, x, k);
    Mixed(c[0] as real, c[1] as real, c[2] as real, c[3] as real, Offset(x, ow, nw), Offset(y, oh, nh))
  }

  /** Channel `k` of target pixel `(x, y)`. */
  function Sample(img: Image, ow: nat, oh: nat, nw: nat, nh: nat, y: nat, x: nat, k: nat): Channel
    requires Sized(img, ow, oh) && ow > 0 && oh > 0 && y < nh && x < nw && k < 4
  {
    Clamped(Value(img, ow, oh, nw, nh, y, x, k))
  }

  function ScaledPixel(img: Image, ow: nat, oh: nat, nw: nat, nh: nat, y: nat, x: nat): (p: seq<Channel>)
    requires Sized(img, ow, oh) && ow > 0 && oh > 0 && y < nh && x < nw
    ensures |p| == 4
  {
    seq(4, k requires 0 <= k < 4 => Sample(img, ow, oh, nw, nh, y, x, k))
  }

  function ScaledRow(img: Image, ow: nat, oh: nat, nw: nat, nh: nat, y: nat): (r: seq<seq<Channel>>)
    requires Sized(img, ow, oh) && ow > 0 && oh > 0 && y < nh
    ensures |r| == nw
  {
    seq(nw, x requires 0 <= x < nw => ScaledPixel(img, ow, oh, nw, nh, y, x))
  }

  method ScaleImage(img: Image, ow: nat, oh: nat, nw: nat, nh: nat) returns (out: Image)
    requires Sized(img, ow, oh) && ow > 0 && oh > 0
    ensures out == seq(nh, y requires 0 <= y < nh => ScaledRow(img, ow, oh, nw, nh, y))
    ensures Sized(out, nw, nh)
    ensures forall y, x, k :: 0 <= y < nh && 0 <= x < nw && 0 <= k < 4 ==> out[y][x][k] == Sample(img, ow, oh, nw, nh, y, x, k)
  {
    hide Source, Trunc, Mixed, Clamped, First, Second, Offset, Sample;
    out := [];
    for y := 0 to nh
      invariant out == seq(y, j requires 0 <= j < y => ScaledRow(img, ow, oh, nw, nh, j))
    {
      var row: seq<seq<Channel>> := [];
      for x := 0 to nw
        invariant row == ScaledRow(img, ow, oh, nw, nh, y)[..x]
      {
        var pixel := ScalePixel(img, ow, oh, nw, nh, y, x);
        row := row + [pixel];
      }
      assert row == ScaledRow(img, ow, oh, nw, nh, y);
      out := out + [row];
    }
  }

  /** What the loops over rows and columns have added up of channel `k` after `n` of their passes. */
  function Partial(px: seq<seq<Channel>>, ws: seq<real>, k: nat, n: nat): real
    requires n <= |px| == |ws| && forall m :: 0 <= m < |px| ==> k < |px[m]|
  {
    if n == 0 then 0.0 else Partial(px, ws, k, n - 1) + px[n - 1][k] as real * ws[n - 1]
  }

  function Weights(tx: real, ty: real): seq<real> {
    [(1.0 - tx) * (1.0 - ty), tx * (1.0 - ty), (1.0 - tx) * ty, tx * ty]
  }

  lemma PartialIsMixed(px: seq<seq<Channel>>, tx: real, ty: real, k: nat)
    requires |px| == 4 && forall m :: 0 <= m < |px| ==> k < |px[m]|
    ensures Partial(px, Weights(tx, ty), k, 4)
            == Mixed(px[0][k] as real, px[1][k] as real, px[2][k] as real, px[3][k] as real, tx, ty)
  {
    var ws := Weights(tx, ty);
    assert Partial(px, ws, k, 0) == 0.0;
    assert Partial(px, ws, k, 2) == px[0][k] as real * ws[0] + px[1][k] as real * ws[1];
  }

  /** The body of the loops: one target pixel. */
  method ScalePixel(img: Image, ow: nat, oh: nat, nw: nat, nh: nat, y: nat, x: nat) returns (pixel: seq<Channel>)
    requires Sized(img, ow, oh) && ow > 0 && oh > 0 && y < nh && x < nw
    ensures pixel == ScaledPixel(img, ow, oh, nw, nh, y, x)
  {
    hide Mixed, Clamped, First, Second, Offset, Partial, Weights;
    IndicesInside(y, oh, nh);
    IndicesInside(x, ow, nw);
    var y0, y1, ty := First(y, oh, nh), Second(y, oh, nh), Offset(y, oh, nh);
    var x0, x1, tx := First(x, ow, nw), Second(x, ow, nw), Offset(x, ow, nw);
    ghost var px := [img[y0][x0], img[y0][x1], img[y1][x0], img[y1][x1]];
    var p := Gather(img, ow, oh, [y0, y1], [x0, x1], tx, ty);
    pixel := [];
    for k := 0 to 4
      invariant pixel == ScaledPixel(img, ow, oh, nw, nh, y, x)[..k]
    {
      PartialIsMixed(px, tx, ty, k);
      assert Value(img, ow, oh, nw, nh, y, x, k) == p[k];
      pixel := pixel + [Clamped(p[k])];
    }
  }

  /** The loops over the two rows, the two columns and the channels. */
  method Gather(img: Image, ow: nat, oh: nat, ys: seq<int>, xs: seq<int>, tx: real, ty: real) returns (p: seq<real>)
    requires Sized(img, ow, oh) && |ys| == |xs| == 2
    requires 0 <= ys[0] < oh && 0 <= ys[1] < oh && 0 <= xs[0] < ow && 0 <= xs[1] < ow
    ensures |p| == 4
    ensures var px := [img[ys[0]][xs[0]], img[ys[0]][xs[1]], img[ys[1]][xs[0]], img[ys[1]][xs[1]]];
            forall k :: 0 <= k < 4 ==> p[k] == Partial(px, Weights(tx, ty), k, 4)
  {
    ghost var px := [img[ys[0]][xs[0]], img[ys[0]][xs[1]], img[ys[1]][xs[0]], img[ys[1]][xs[1]]];
    ghost var ws := Weights(tx, ty);
    p := [0.0, 0.0, 0.0, 0.0];
    for i := 0 to 2
      invariant |p| == 4 && forall k :: 0 <= k < 4 ==> p[k] == Partial(px, ws, k, 2 * i)
    {
      var yy, wy := ys[i], if i == 0 then 1.0 - ty else ty;
      for j := 0 to 2
        invariant |p| == 4 && forall k :: 0 <= k < 4 ==> p[k] == Partial(px, ws, k, 2 * i + j)
      {
        var xx, wx := xs[j], if j == 0 then 1.0 - tx else tx;
        var wgt := wx * wy;
        assert img[yy][xx] == px[2 * i + j] && wgt == ws[2 * i + j];
        p := AddWeighted(p, img[yy][xx], wgt);
      }
    }
  }

  method AddWeighted(p: seq<real>, c: seq<Channel>, wgt: real) returns (q: seq<real>)
    requires |p| == |c| == 4
    ensures |q| == 4 && forall k :: 0 <= k < 4 ==> q[k] == p[k] + c[k] as real * wgt
  {
    q := p;
    for k := 0 to 4
      invariant |q| == 4 && forall m :: 0 <= m < 4 ==> q[m] == if m < k then p[m] + c[m] as real * wgt else p[m]
    {
      q := q[k := q[k] + c[k] as real * wgt];
    }
  }

  // ---------------------------------------------------------------- what it keeps

  /** Scaling to the same size changes nothing. */
  lemma SameSizeIsIdentity(img: Image, w: nat, h: nat, y: nat, x: nat, k: nat)
    requires Sized(img, w, h) && y < h && x < w && k < 4
    ensures Sample(img, w, h, w, h, y, x, k) == img[y][x][k]
  {
    IndicesInside(y, h, h);
    IndicesInside(x, w, w);
    ClampedBetween(img[y][x][k] as real, img[y][x][k], img[y][x][k]);
  }

  /** A channel that is the same everywhere stays so, borders included. */
  lemma ConstantStaysConstant(img: Image, ow: nat, oh: nat, nw: nat, nh: nat, y: nat, x: nat, k: nat, c: Channel)
    requires Sized(img, ow, oh) && ow > 0 && oh > 0 && y < nh && x < nw && k < 4
    requires forall j, i :: 0 <= j < oh && 0 <= i < ow ==> img[j][i][k] == c
    ensures Sample(img, ow, oh, nw, nh, y, x, k) == c
  {
    hide First, Second, Offset, Clamped;
    IndicesInside(y, oh, nh);
    IndicesInside(x, ow, nw);
    var v, tx, ty := c as real, Offset(x, ow, nw), Offset(y, oh, nh);
    Separable(v, v, v, v, tx, ty);
    assert Blend(v, v, tx) == v && Blend(v, v, ty) == v;
    ClampedBetween(v, c, c);
  }

  // ---------------------------------------------------------------- interpolation

  /** Rounding goes to the nearest integer, from half-way to the even one. */
  lemma RoundMeaning(v: real)
    ensures var r := Round(v);
            r as real - 0.5 <= v <= r as real + 0.5 && (v == r as real - 0.5 || v == r as real + 0.5 ==> r % 2 == 0)
  {
  }

  /** Where target pixel `i` of `n` falls between the `o` source pixels, and between which two. */
  lemma FallsBetween(i: nat, o: nat, n: nat, f: real)
    requires i < n && o > 0 && f == (i as real + 0.5) * o as real / n as real - 0.5 && 0.0 <= f <= (o - 1) as real
    ensures First(i, o, n) as real + Offset(i, o, n) == f && 0.0 <= Offset(i, o, n) < 1.0
    ensures Second(i, o, n) == First(i, o, n) + 1 || (Second(i, o, n) == First(i, o, n) && Offset(i, o, n) == 0.0)
  {
    IndicesInside(i, o, n);
    assert Source(i, o, n) == f;
    SourceBounds(i, o, n);
    hide Source;
  }

  /** A blend along a ramp is the ramp. */
  lemma BlendRamp(p: real, d: real, u: int, v: int, t: real, f: real)
    requires (v == u + 1 || (v == u && t == 0.0)) && f == u as real + t
    ensures Blend(p + d * u as real, p + d * v as real, t) == p + d * f
  {
    hide Blend;
    Expand(p + d * u as real, p + d * v as real, t);
    Along(d, u as real, v as real, t, f);
  }

  lemma Along(d: real, u: real, v: real, t: real, f: real)
    requires (v == u + 1.0 || (v == u && t == 0.0)) && f == u + t
    ensures d * u + (d * v - d * u) * t == d * f
  {
    assert d * f == d * u + d * t;
    assert d * v - d * u == d * (v - u);
  }

  function RampAt(a: real, b: real, c: real, i: int, j: int): real {
    a + b * i as real + c * j as real
  }

  /** The image rises by `b` from column to column and by `c` from row to row. */
  ghost predicate Ramp(img: Image, w: nat, h: nat, k: nat, a: real, b: real, c: real)
    requires Sized(img, w, h) && k < 4
  {
    forall j, i :: 0 <= j < h && 0 <= i < w ==> img[j][i][k] as real == RampAt(a, b, c, i, j)
  }

  /** Linear ramps are reproduced: away from the borders the weighted sum is the ramp at the place of the
      target pixel. */
  lemma RampsKept(img: Image, ow: nat, oh: nat, nw: nat, nh: nat, y: nat, x: nat, k: nat, a: real, b: real, c: real, fx: real, fy: real)
    requires Sized(img, ow, oh) && ow > 0 && oh > 0 && y < nh && x < nw && k < 4 && Ramp(img, ow, oh, k, a, b, c)
    requires fx == (x as real + 0.5) * ow as real / nw as real - 0.5 && 0.0 <= fx <= (ow - 1) as real
    requires fy == (y as real + 0.5) * oh as real / nh as real - 0.5 && 0.0 <= fy <= (oh - 1) as real
    ensures Value(img, ow, oh, nw, nh, y, x, k) == a + b * fx + c * fy
  {
    FallsBetween(x, ow, nw, fx);
    FallsBetween(y, oh, nh, fy);
    hide First, Second, Offset, Ramp, Value;
    RampBetween(img, ow, oh, nw, nh, y, x, k, a, b, c, fx, fy);
  }

  lemma RampBetween(img: Image, ow: nat, oh: nat, nw: nat, nh: nat, y: nat, x: nat, k: nat, a: real, b: real, c: real, fx: real, fy: real)
    requires Sized(img, ow, oh) && ow > 0 && oh > 0 && y < nh && x < nw && k < 4 && Ramp(img, ow, oh, k, a, b, c)
    requires First(x, ow, nw) as real + Offset(x, ow, nw) == fx && First(y, oh, nh) as real + Offset(y, oh, nh) == fy
    requires Second(x, ow, nw) == First(x, ow, nw) + 1 || (Second(x, ow, nw) == First(x, ow, nw) && Offset(x, ow, nw) == 0.0)
    requires Second(y, oh, nh) == First(y, oh, nh) + 1 || (Second(y, oh, nh) == First(y, oh, nh) && Offset(y, oh, nh) == 0.0)
    ensures Value(img, ow, oh, nw, nh, y, x, k) == a + b * fx + c * fy
  {
    CornersOfRamp(img, ow, oh, nw, nh, y, x, k, a, b, c);
    hide First, Second, Offset, Mixed, Ramp, Corners, Sized, RampAt;
    RampCorners(Corners(img, ow, oh, nw, nh, y, x, k), a, b, c, First(x, ow, nw), Second(x, ow, nw),
                First(y, oh, nh), Second(y, oh, nh), Offset(x, ow, nw), Offset(y, oh, nh), fx, fy);
  }

  lemma CornersOfRamp(img: Image, ow: nat, oh: nat, nw: nat, nh: nat, y: nat, x: nat, k: nat, a: real, b: real, c: real)
    requires Sized(img, ow, oh) && ow > 0 && oh > 0 && y < nh && x < nw && k < 4 && Ramp(img, ow, oh, k, a, b, c)
    ensures var v := Corners(img, ow, oh, nw, nh, y, x, k);
            var x0, x1, y0, y1 := First(x, ow, nw), Second(x, ow, nw), First(y, oh, nh), Second(y, oh, nh);
            && v[0] as real == RampAt(a, b, c, x0, y0) && v[1] as real == RampAt(a, b, c, x1, y0)
            && v[2] as real == RampAt(a, b, c, x0, y1) && v[3] as real == RampAt(a, b, c, x1, y1)
  {
    IndicesInside(x, ow, nw);
    IndicesInside(y, oh, nh);
    hide First, Second, RampAt, Offset, OnBorder;
  }

  lemma RampCorners(v: seq<Channel>, a: real, b: real, c: real, x0: int, x1: int, y0: int, y1: int, tx: real, ty: real, fx: real, fy: real)
    requires |v| == 4
    requires v[0] as real == RampAt(a, b, c, x0, y0) && v[1] as real == RampAt(a, b, c, x1, y0)
    requires v[2] as real == RampAt(a, b, c, x0, y1) && v[3] as real == RampAt(a, b, c, x1, y1)
    requires x1 == x0 + 1 || (x1 == x0 && tx == 0.0)
    requires y1 == y0 + 1 || (y1 == y0 && ty == 0.0)
    requires fx == x0 as real + tx && fy == y0 as real + ty
    ensures Mixed(v[0] as real, v[1] as real, v[2] as real, v[3] as real, tx, ty) == a + b * fx + c * fy
  {
    hide Mixed, Blend;
    Separable(v[0] as real, v[1] as real, v[2] as real, v[3] as real, tx, ty);
    var p, q, r := a + c * y0 as real, a + c * y1 as real, a + b * fx;
    BlendRamp(p, b, x0, x1, tx, fx);
    BlendRamp(q, b, x0, x1, tx, fx);
    BlendRamp(r, c, y0, y1, ty, fy);
    assert v[0] as real == p + b * x0 as real && v[1] as real == p + b * x1 as real;
    assert v[2] as real == q + b * x0 as real && v[3] as real == q + b * x1 as real;
    assert p + b * fx == r + c * y0 as real && q + b * fx == r + c * y1 as real;
  }

  // ---------------------------------------------------------------- the range of the source pixels

  ghost predicate InRange(c: seq<Channel>, lo: int, hi: int) {
    forall m :: 0 <= m < |c| ==> lo <= c[m] <= hi
  }

  /** How far target pixel `i` lies before the centre of the first source pixel, where there is a second
      one to be pushed away from. */
  function Push(i: nat, o: nat, n: nat): real
    requires n > 0
  {
    if o == 1 || Offset(i, o, n) >= 0.0 then 0.0 else -Offset(i, o, n)
  }

  /** The sum of the negative weights. */
  function Excess(a: real, b: real): real {
    a + b + 2.0 * (a * b)
  }

  /** A blend stays within `n` times the range `d` of its two values. */
  lemma BlendWithin(u: real, v: real, t: real, n: real, lo: real, d: real)
    requires lo <= u <= lo + d && lo <= v <= lo + d && n >= 0.0 && (u == v || -n <= t <= 1.0)
    ensures lo - n * d <= Blend(u, v, t) <= lo + d + n * d
  {
    hide Blend;
    Signs(d, n);
    assert d * n == n * d;
    if u == v {
      Expand(u, u, t);
    } else if t >= 0.0 {
      BlendBetween(u, v, t, lo, lo + d);
    } else {
      Expand(u, v, t);
      Reach(v - u, -t, d, n);
      Negated(v - u, t);
      Toward(u, (v - u) * t, lo, d, n * d);
    }
  }

  lemma Toward(u: real, w: real, lo: real, d: real, e: real)
    requires lo <= u <= lo + d && -e <= w <= e
    ensures lo - e <= u + w <= lo + d + e
  {
  }

  lemma Negated(x: real, t: real)
    ensures x * t == -(x * (-t))
  {
  }

  lemma Reach(x: real, s: real, d: real, n: real)
    requires -d <= x <= d && 0.0 <= s <= n
    ensures -(n * d) <= x * s <= n * d
  {
    Signs(d - x, s);
    Signs(d + x, s);
    Signs(d, n - s);
    Factor(d, -x, s);
    Factor(d, x, s);
    assert d * (n - s) == n * d - d * s;
    assert (-x) * s == -(x * s);
  }

  /** Two blends of blends add up to the excess. */
  lemma MixedWithin(c: seq<real>, tx: real, ty: real, a: real, b: real, lo: real, d: real)
    requires |c| == 4 && (forall m :: 0 <= m < 4 ==> lo <= c[m] <= lo + d) && a >= 0.0 && b >= 0.0
    requires (c[0] == c[1] && c[2] == c[3]) || -a <= tx <= 1.0
    requires (c[0] == c[2] && c[1] == c[3]) || -b <= ty <= 1.0
    ensures var v := Mixed(c[0], c[1], c[2], c[3], tx, ty);
            lo - Excess(a, b) * d <= v <= lo + d + Excess(a, b) * d
  {
    hide Blend, Mixed, Excess;
    Separable(c[0], c[1], c[2], c[3], tx, ty);
    BlendWithin(c[0], c[1], tx, a, lo, d);
    BlendWithin(c[2], c[3], tx, a, lo, d);
    var e := a * d;
    BlendWithin(Blend(c[0], c[1], tx), Blend(c[2], c[3], tx), ty, b, lo - e, d + 2.0 * e);
    ExcessAdds(a, b, d);
  }

  lemma ExcessAdds(a: real, b: real, d: real)
    ensures a * d + b * (d + 2.0 * (a * d)) == Excess(a, b) * d
  {
    Term(b, a, d);
    assert b * (2.0 * (a * d)) == 2.0 * (b * (a * d));
    assert (a * b) * d == b * (a * d);
    assert (2.0 * (a * b)) * d == 2.0 * ((a * b) * d);
    Factor(a, b, d);
    Factor(a + b, 2.0 * (a * b), d);
  }

  lemma ClampedNear(v: real, e: real, lo: Channel, hi: Channel)
    requires lo <= hi && e >= 0.0 && 508.0 * e < 1.0
    requires lo as real - e * (hi - lo) as real <= v <= hi as real + e * (hi - lo) as real
    ensures lo <= Clamped(v) <= hi
  {
    if lo > 0 || hi < 255 {
      var d := (hi - lo) as real;
      Signs(254.0 - d, e);
      assert e * d <= 254.0 * e;
    }
    RoundNear(v, lo, hi);
  }

  lemma RoundNear(v: real, lo: Channel, hi: Channel)
    requires lo > 0 ==> v > lo as real - 0.5
    requires hi < 255 ==> v < hi as real + 0.5
    ensures lo <= Clamped(v) <= hi || lo > hi
  {
  }

  lemma PushBounds(i: nat, o: nat, n: nat)
    requires i < n && o > 0
    ensures 0.0 <= Push(i, o, n) < 0.5
    ensures o == 1 ==> First(i, o, n) == Second(i, o, n) == 0
    ensures o > 1 ==> -Push(i, o, n) <= Offset(i, o, n) <= 1.0
    ensures Push(i, o, n) > 0.0 ==> First(i, o, n) == 0 && Second(i, o, n) == 1 && Offset(i, o, n) == -Push(i, o, n)
    ensures Push(i, o, n) > 0.0 <==> o > 1 && OnBorder(i, o, n)
  {
    IndicesInside(i, o, n);
  }

  lemma CornersCollapse(img: Image, ow: nat, oh: nat, nw: nat, nh: nat, y: nat, x: nat, k: nat)
    requires Sized(img, ow, oh) && ow > 0 && oh > 0 && y < nh && x < nw && k < 4
    ensures var c := Corners(img, ow, oh, nw, nh, y, x, k);
            (ow == 1 ==> c[0] == c[1] && c[2] == c[3]) && (oh == 1 ==> c[0] == c[2] && c[1] == c[3])
  {
    PushBounds(y, oh, nh);
    PushBounds(x, ow, nw);
    hide First, Second, Push, Offset;
  }

  lemma ClampedMix(c: seq<Channel>, tx: real, ty: real, a: real, b: real, lo: Channel, hi: Channel)
    requires |c| == 4 && InRange(c, lo, hi) && a >= 0.0 && b >= 0.0 && 508.0 * Excess(a, b) < 1.0
    requires (c[0] == c[1] && c[2] == c[3]) || -a <= tx <= 1.0
    requires (c[0] == c[2] && c[1] == c[3]) || -b <= ty <= 1.0
    ensures lo <= Clamped(Mixed(c[0] as real, c[1] as real, c[2] as real, c[3] as real, tx, ty)) <= hi
  {
    hide Clamped, Mixed, Excess;
    assert lo <= c[0] <= hi;
    MixedWithin([c[0] as real, c[1] as real, c[2] as real, c[3] as real], tx, ty, a, b, lo as real, (hi - lo) as real);
    ExcessPositive(a, b);
    ClampedNear(Mixed(c[0] as real, c[1] as real, c[2] as real, c[3] as real, tx, ty), Excess(a, b), lo, hi);
  }

  lemma WithinRange(img: Image, ow: nat, oh: nat, nw: nat, nh: nat, y: nat, x: nat, k: nat, lo: Channel, hi: Channel)
    requires Sized(img, ow, oh) && ow > 0 && oh > 0 && y < nh && x < nw && k < 4
    requires InRange(Corners(img, ow, oh, nw, nh, y, x, k), lo, hi)
    requires 508.0 * Excess(Push(x, ow, nw), Push(y, oh, nh)) < 1.0
    ensures lo <= Sample(img, ow, oh, nw, nh, y, x, k) <= hi
  {
    PushBounds(y, oh, nh);
    PushBounds(x, ow, nw);
    CornersCollapse(img, ow, oh, nw, nh, y, x, k);
    hide Push, Offset, First, Second, Clamped, Mixed, Excess, Corners, InRange;
    ClampedMix(Corners(img, ow, oh, nw, nh, y, x, k), Offset(x, ow, nw), Offset(y, oh, nh),
               Push(x, ow, nw), Push(y, oh, nh), lo, hi);
  }

  lemma ExcessPositive(a: real, b: real)
    requires a >= 0.0 && b >= 0.0
    ensures Excess(a, b) >= 0.0
  {
    Signs(a, b);
  }

  /** 255 where the weight is negative, 1 elsewhere. */
  function WorstPixel(j: nat, i: nat, b: real, a: real): (p: seq<Channel>)
    ensures |p| == 4
  {
    seq(4, m => if (b > 0.0 && j == 1) != (a > 0.0 && i == 1) then 255 else 1)
  }

  function Worst(ow: nat, oh: nat, b: real, a: real): (img: Image)
    ensures Sized(img, ow, oh)
    ensures forall j, i :: 0 <= j < oh && 0 <= i < ow ==> img[j][i] == WorstPixel(j, i, b, a)
  {
    seq(oh, j requires 0 <= j < oh => seq(ow, i requires 0 <= i < ow => WorstPixel(j, i, b, a)))
  }

  /** A row of that image: its value goes down from 1 or up from 255 by 254 times the push. */
  lemma WorstBlend(p: real, q: real, t: real, a: real)
    requires (p == 1.0 && q == 255.0) || (p == 255.0 && q == 1.0)
    ensures a > 0.0 && t == -a ==> Blend(p, q, t) == if p == 1.0 then 1.0 - 254.0 * a else 255.0 + 254.0 * a
    ensures Blend(p, p, t) == p
  {
    Expand(p, q, t);
    Expand(p, p, t);
  }

  lemma WorstSum(u: real, v: real, t: real, a: real, b: real)
    requires u == 1.0 - 254.0 * a && v == 255.0 + 254.0 * a && t == -b
    ensures Blend(u, v, t) == 1.0 - 254.0 * Excess(a, b)
  {
    Expand(u, v, t);
    assert v - u == 254.0 + 508.0 * a;
    assert (254.0 + 508.0 * a) * (-b) == -(254.0 * b) - 508.0 * (a * b);
  }

  lemma WorstValue(ow: nat, oh: nat, nw: nat, nh: nat, y: nat, x: nat, k: nat)
    requires ow > 0 && oh > 0 && y < nh && x < nw && k < 4
    ensures var a, b := Push(x, ow, nw), Push(y, oh, nh);
            && InRange(Corners(Worst(ow, oh, b, a), ow, oh, nw, nh, y, x, k), 1, 255)
            && Value(Worst(ow, oh, b, a), ow, oh, nw, nh, y, x, k) == 1.0 - 254.0 * Excess(a, b)
  {
    PushBounds(y, oh, nh);
    PushBounds(x, ow, nw);
    IndicesInside(y, oh, nh);
    IndicesInside(x, ow, nw);
    var a, b := Push(x, ow, nw), Push(y, oh, nh);
    var tx, ty := Offset(x, ow, nw), Offset(y, oh, nh);
    var c := Corners(Worst(ow, oh, b, a), ow, oh, nw, nh, y, x, k);
    hide Push, Offset, First, Second, Mixed, Blend, Excess;
    assert c[0] == 1 && c[1] == (if a > 0.0 then 255 else 1);
    assert c[2] == (if b > 0.0 then 255 else 1) && c[3] == (if (a > 0.0) == (b > 0.0) then 1 else 255);
    WorstCorners(c, tx, ty, a, b);
  }

  lemma WorstCorners(c: seq<Channel>, tx: real, ty: real, a: real, b: real)
    requires |c| == 4 && a >= 0.0 && b >= 0.0
    requires c[0] == 1 && c[1] == (if a > 0.0 then 255 else 1)
    requires c[2] == (if b > 0.0 then 255 else 1) && c[3] == (if (a > 0.0) == (b > 0.0) then 1 else 255)
    requires (a > 0.0 ==> tx == -a) && (b > 0.0 ==> ty == -b)
    ensures Mixed(c[0] as real, c[1] as real, c[2] as real, c[3] as real, tx, ty) == 1.0 - 254.0 * Excess(a, b)
  {
    hide Mixed, Blend;
    Separable(c[0] as real, c[1] as real, c[2] as real, c[3] as real, tx, ty);
    WorstBlend(1.0, 255.0, tx, a);
    WorstBlend(255.0, 1.0, tx, a);
    var u := Blend(c[0] as real, c[1] as real, tx);
    var v := Blend(c[2] as real, c[3] as real, tx);
    assert u == 1.0 - 254.0 * a;
    if b > 0.0 {
      assert v == 255.0 + 254.0 * a;
      WorstSum(u, v, ty, a, b);
    } else {
      Expand(u, u, ty);
    }
  }

  lemma BelowHalf(v: real)
    requires v <= 0.5
    ensures Clamped(v) == 0
  {
  }

  ghost predicate StaysInRange(ow: nat, oh: nat, nw: nat, nh: nat, y: nat, x: nat, k: nat)
    requires ow > 0 && oh > 0 && y < nh && x < nw && k < 4
  {
    forall img: Image, lo: Channel, hi: Channel ::
      Sized(img, ow, oh) && InRange(Corners(img, ow, oh, nw, nh, y, x, k), lo, hi) ==>
        lo <= Sample(img, ow, oh, nw, nh, y, x, k) <= hi
  }

  /** Whatever the image, a channel stays in the range of the four source pixels exactly where the sizes
      and the place of the target pixel make the negative weights add up to less than 1/508. */
  lemma RangeKept(ow: nat, oh: nat, nw: nat, nh: nat, y: nat, x: nat, k: nat)
    requires ow > 0 && oh > 0 && y < nh && x < nw && k < 4
    ensures StaysInRange(ow, oh, nw, nh, y, x, k) <==> 508.0 * Excess(Push(x, ow, nw), Push(y, oh, nh)) < 1.0
  {
    hide InRange, Corners, Value, Sample, Push, Excess;
    var a, b := Push(x, ow, nw), Push(y, oh, nh);
    if 508.0 * Excess(a, b) < 1.0 {
      forall img: Image, lo: Channel, hi: Channel |
        Sized(img, ow, oh) && InRange(Corners(img, ow, oh, nw, nh, y, x, k), lo, hi)
        ensures lo <= Sample(img, ow, oh, nw, nh, y, x, k) <= hi
      {
        WithinRange(img, ow, oh, nw, nh, y, x, k, lo, hi);
      }
    } else {
      WorstLeaves(ow, oh, nw, nh, y, x, k);
    }
  }

  lemma WorstLeaves(ow: nat, oh: nat, nw: nat, nh: nat, y: nat, x: nat, k: nat)
    requires ow > 0 && oh > 0 && y < nh && x < nw && k < 4
    requires 508.0 * Excess(Push(x, ow, nw), Push(y, oh, nh)) >= 1.0
    ensures var img := Worst(ow, oh, Push(y, oh, nh), Push(x, ow, nw));
            InRange(Corners(img, ow, oh, nw, nh, y, x, k), 1, 255) && Sample(img, ow, oh, nw, nh, y, x, k) == 0
  {
    hide InRange, Corners, Value, Push, Excess, Clamped;
    WorstValue(ow, oh, nw, nh, y, x, k);
    BelowHalf(1.0 - 254.0 * Excess(Push(x, ow, nw), Push(y, oh, nh)));
  }

  /** In particular away from the top and left border. */
  lemma StaysBetweenNeighbours(img: Image, ow: nat, oh: nat, nw: nat, nh: nat, y: nat, x: nat, k: nat, lo: Channel, hi: Channel)
    requires Sized(img, ow, oh) && ow > 0 && oh > 0 && y < nh && x < nw && k < 4
    requires !OnBorder(y, oh, nh) && !OnBorder(x, ow, nw)
    requires InRange(Corners(img, ow, oh, nw, nh, y, x, k), lo, hi)
    ensures lo <= Sample(img, ow, oh, nw, nh, y, x, k) <= hi
  {
    hide Sample, Corners, OnBorder;
    PushBounds(y, oh, nh);
    PushBounds(x, ow, nw);
    assert Push(x, ow, nw) == 0.0 && Push(y, oh, nh) == 0.0;
    WithinRange(img, ow, oh, nw, nh, y, x, k, lo, hi);
  }

  /** On the top border the value is pushed from the first row's away from the second row's. */
  lemma TopBorderOvershoots(img: Image, ow: nat, oh: nat, nw: nat, nh: nat, y: nat, x: nat, k: nat)
    requires Sized(img, ow, oh) && ow > 0 && oh > 0 && y < nh && x < nw && k < 4 && OnBorder(y, oh, nh)
    ensures var c := Corners(img, ow, oh, nw, nh, y, x, k);
            var tx := Offset(x, ow, nw);
            var top, next := Blend(c[0] as real, c[1] as real, tx), Blend(c[2] as real, c[3] as real, tx);
            var v := Value(img, ow, oh, nw, nh, y, x, k);
            (top == next ==> v == top) && (top < next ==> v < top) && (top > next ==> v > top)
  {
    hide Offset, Blend, Mixed, Corners;
    IndicesInside(y, oh, nh);
    var c := Corners(img, ow, oh, nw, nh, y, x, k);
    var tx, ty := Offset(x, ow, nw), Offset(y, oh, nh);
    Separable(c[0] as real, c[1] as real, c[2] as real, c[3] as real, tx, ty);
    BlendOvershoots(Blend(c[0] as real, c[1] as real, tx), Blend(c[2] as real, c[3] as real, tx), ty);
  }

  lemma SeparableByColumns(a: real, b: real, c: real, d: real, tx: real, ty: real)
    ensures Mixed(a, b, c, d, tx, ty) == Blend(Blend(a, c, ty), Blend(b, d, ty), tx)
  {
    Separable(a, c, b, d, ty, tx);
    assert (1.0 - tx) * (1.0 - ty) == (1.0 - ty) * (1.0 - tx) && tx * ty == ty * tx;
    assert tx * (1.0 - ty) == (1.0 - ty) * tx && (1.0 - tx) * ty == ty * (1.0 - tx);
  }

  /** On the left border, from the first column's away from the second column's. */
  lemma LeftBorderOvershoots(img: Image, ow: nat, oh: nat, nw: nat, nh: nat, y: nat, x: nat, k: nat)
    requires Sized(img, ow, oh) && ow > 0 && oh > 0 && y < nh && x < nw && k < 4 && OnBorder(x, ow, nw)
    ensures var c := Corners(img, ow, oh, nw, nh, y, x, k);
            var ty := Offset(y, oh, nh);
            var left, next := Blend(c[0] as real, c[2] as real, ty), Blend(c[1] as real, c[3] as real, ty);
            var v := Value(img, ow, oh, nw, nh, y, x, k);
            (left == next ==> v == left) && (left < next ==> v < left) && (left > next ==> v > left)
  {
    hide Offset, Blend, Mixed, Corners;
    IndicesInside(x, ow, nw);
    var c := Corners(img, ow, oh, nw, nh, y, x, k);
    var tx, ty := Offset(x, ow, nw), Offset(y, oh, nh);
    SeparableByColumns(c[0] as real, c[1] as real, c[2] as real, c[3] as real, tx, ty);
    BlendOvershoots(Blend(c[0] as real, c[2] as real, ty), Blend(c[1] as real, c[3] as real, ty), tx);
  }

  /** It can leave the range of all the pixels it is made from: 75 from 100 and 200. */
  lemma BorderLeavesNeighbours(low: seq<Channel>, high: seq<Channel>, k: nat)
    requires |low| == |high| == 4 && k < 4 && low[k] == 100 && high[k] == 200
    ensures Sample([[low], [high]], 1, 2, 1, 4, 0, 0, k) == 75
  {
    assert Source(0, 2, 4) == -0.25 && Source(0, 1, 1) == 0.0;
    assert First(0, 2, 4) == 0 && Second(0, 2, 4) == 1 && Offset(0, 2, 4) == -0.25;
    assert First(0, 1, 1) == 0 && Second(0, 1, 1) == 0 && Offset(0, 1, 1) == 0.0;
    assert Mixed(100.0, 100.0, 200.0, 200.0, 0.0, -0.25) == 75.0;
  }
}
