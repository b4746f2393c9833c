/** Saving and restoring screen rectangles in runtime/bgilite.c: `getimage`, `putimage` and the
    palette they go through. */
module Sprite {
  import opened Bytes

  datatype Rgb = Rgb(r: Byte, g: Byte, b: Byte)

  const PALETTE: seq<Rgb> := [
    Rgb(0, 0, 0), Rgb(0, 0, 170), Rgb(0, 170, 0), Rgb(0, 170, 170),
    Rgb(170, 0, 0), Rgb(170, 0, 170), Rgb(170, 85, 0), Rgb(170, 170, 170),
    Rgb(85, 85, 85), Rgb(85, 85, 255), Rgb(85, 255, 85), Rgb(85, 255, 255),
    Rgb(255, 85, 85), Rgb(255, 85, 255), Rgb(255, 255, 85), Rgb(255, 255, 255)]

  /** What GetPixel answers outside the bitmap, CLR_INVALID, read as a colour. */
  const OUTSIDE := Rgb(255, 255, 255)

  // ---------------------------------------------------------------- colours and indices

  /** The squared difference of two channels. */
  function Apart(x: int, y: int): (r: nat)
    ensures r == 0 <==> x == y
  {
    var d := x - y;
    if d == 0 then 0 else
      assert d * d > 0;
      d * d
  }

  function Distance(c: Rgb, d: Rgb): nat {
    Apart(c.r, d.r) + Apart(c.g, d.g) + Apart(c.b, d.b)
  }

  lemma ApartBelow(x: int, y: int)
    requires 0 <= x < 256 && 0 <= y < 256
    ensures Apart(x, y) < 65536
  {
    var d := x - y;
    SquareBelow(if d < 0 then -d else d);
    assert -d * -d == d * d;
  }

  lemma SquareBelow(d: int)
    requires 0 <= d < 256
    ensures d * d <= 255 * 255
  {
    assert d * (255 - d) >= 0;
  }

  lemma DistanceBelow(c: Rgb, d: Rgb)
    ensures Distance(c, d) < 0x7fffffff
  {
    ApartBelow(c.r, d.r);
    ApartBelow(c.g, d.g);
    ApartBelow(c.b, d.b);
  }

  /** The nearest of the first `n` palette entries, the first of them when several are as near. */
  function Nearest(c: Rgb, n: nat): (best: nat)
    requires 1 <= n <= 16
    ensures best < n
    ensures forall i :: 0 <= i < n ==> Distance(c, PALETTE[best]) <= Distance(c, PALETTE[i])
    ensures forall i :: 0 <= i < best ==> Distance(c, PALETTE[best]) < Distance(c, PALETTE[i])
  {
    hide Distance;
    if n == 1 then 0
    else
      var best := Nearest(c, n - 1);
      if Distance(c, PALETTE[n - 1]) < Distance(c, PALETTE[best]) then n - 1 else best
  }

  function Index(c: Rgb): (i: nat)
    ensures i < 16
  {
    Nearest(c, 16)
  }

  method BgiIndex(c: Rgb) returns (best: nat)
    ensures best == Index(c)
  {
    hide Distance;
    best := 0;
    var bestd := 0x7fffffff;
    DistanceBelow(c, PALETTE[0]);
    for i := 0 to 16
      invariant i == 0 ==> best == 0 && bestd == 0x7fffffff
      invariant i > 0 ==> best == Nearest(c, i) && bestd == Distance(c, PALETTE[best])
    {
      var d := Distance(c, PALETTE[i]);
      if d < bestd { bestd, best := d, i; }
    }
  }

  /** The distance is the squared Euclidean one. */
  lemma DistanceMeaning(c: Rgb, d: Rgb)
    ensures Distance(c, d) == (c.r - d.r) * (c.r - d.r) + (c.g - d.g) * (c.g - d.g) + (c.b - d.b) * (c.b - d.b)
  {
  }

  /** The colours of the classic adapters: blue, green and red at two thirds and their mixtures, the same
      with a third added to every channel; only colour 6, brown, has half the green. */
  function Classic(k: nat): Rgb
    requires k < 16
  {
    var low, bright := if k < 8 then k else k - 8, if k < 8 then 0 else 85;
    Rgb((if low in {4, 5, 6, 7} then 170 else 0) + bright,
        if k == 6 then 85 else (if low in {2, 3, 6, 7} then 170 else 0) + bright,
        (if low in {1, 3, 5, 7} then 170 else 0) + bright)
  }

  lemma PaletteMeaning(k: nat)
    requires k < 16
    ensures PALETTE[k] == Classic(k)
  {
  }

  lemma PaletteDistinct(i: nat, j: nat)
    requires i < 16 && j < 16 && PALETTE[i] == PALETTE[j]
    ensures i == j
  {
  }

  /** Every palette colour maps back to its own index. */
  lemma IndexOfPalette(k: nat)
    requires k < 16
    ensures Index(PALETTE[k]) == k
  {
    var best := Index(PALETTE[k]);
    assert Distance(PALETTE[k], PALETTE[k]) == 0;
    assert Distance(PALETTE[k], PALETTE[best]) <= Distance(PALETTE[k], PALETTE[k]);
    PaletteDistinct(k, best);
  }

  ghost predicate InPalette(c: Rgb) {
    c in PALETTE
  }

  // ---------------------------------------------------------------- bit operations

  function Xor(a: nat, b: nat): nat {
    if a == 0 && b == 0 then 0 else 2 * Xor(a / 2, b / 2) + (if a % 2 == b % 2 then 0 else 1)
  }

  function Or(a: nat, b: nat): nat {
    if a == 0 && b == 0 then 0 else 2 * Or(a / 2, b / 2) + (if a % 2 == 0 && b % 2 == 0 then 0 else 1)
  }

  function And(a: nat, b: nat): nat {
    if a == 0 && b == 0 then 0 else 2 * And(a / 2, b / 2) + (if a % 2 == 1 && b % 2 == 1 then 1 else 0)
  }

  lemma {:induction false} XorTwice(a: nat, b: nat)
    ensures Xor(a, Xor(a, b)) == b
  {
    if a != 0 || b != 0 {
      XorTwice(a / 2, b / 2);
      var x := Xor(a, b);
      assert x / 2 == Xor(a / 2, b / 2) && x % 2 == (if a % 2 == b % 2 then 0 else 1);
      assert b == 2 * (b / 2) + b % 2;
    }
  }

  /** The three operations work bit by bit, as C's do. */
  lemma Bitwise(a: nat, b: nat, k: nat)
    ensures BitAt(Xor(a, b), k) == 1 <==> BitAt(a, k) != BitAt(b, k)
    ensures BitAt(Or(a, b), k) == 1 <==> BitAt(a, k) == 1 || BitAt(b, k) == 1
    ensures BitAt(And(a, b), k) == 1 <==> BitAt(a, k) == 1 && BitAt(b, k) == 1
  {
    hide Xor, Or, And, BitAt;
    XorBitwise(a, b, k);
    OrBitwise(a, b, k);
    AndBitwise(a, b, k);
  }

  lemma {:induction false} XorBitwise(a: nat, b: nat, k: nat)
    ensures BitAt(Xor(a, b), k) == 1 <==> BitAt(a, k) != BitAt(b, k)
  {
    assert Xor(a, b) / 2 == Xor(a / 2, b / 2);
    if k > 0 { XorBitwise(a / 2, b / 2, k - 1); }
  }

  lemma {:induction false} OrBitwise(a: nat, b: nat, k: nat)
    ensures BitAt(Or(a, b), k) == 1 <==> BitAt(a, k) == 1 || BitAt(b, k) == 1
  {
    assert Or(a, b) / 2 == Or(a / 2, b / 2);
    if k > 0 { OrBitwise(a / 2, b / 2, k - 1); }
  }

  lemma {:induction false} AndBitwise(a: nat, b: nat, k: nat)
    ensures BitAt(And(a, b), k) == 1 <==> BitAt(a, k) == 1 && BitAt(b, k) == 1
  {
    assert And(a, b) / 2 == And(a / 2, b / 2);
    if k > 0 { AndBitwise(a / 2, b / 2, k - 1); }
  }

  lemma {:induction false} XorBelow(a: nat, b: nat, n: nat)
    requires a < Pow2(n) && b < Pow2(n)
    ensures Xor(a, b) < Pow2(n)
  {
    if n > 0 { XorBelow(a / 2, b / 2, n - 1); }
  }

  // ---------------------------------------------------------------- images

  const COPY_PUT := 0
  const XOR_PUT := 1
  const OR_PUT := 2
  const AND_PUT := 3
  const NOT_PUT := 4

  function Combine(op: int, c: Byte, existing: nat): nat {
    if op == XOR_PUT then Xor(c, existing)
    else if op == OR_PUT then Or(c, existing)
    else if op == AND_PUT then And(c, existing)
    else if op == NOT_PUT then 255 - c
    else c
  }

  /** What each operation of graphics.h makes of bit `k`: 1 is exclusive or, 2 or, 3 and, 4 not, and any
      other copies. */
  lemma CombineMeaning(op: int, c: Byte, existing: nat, k: nat)
    requires k < 8
    ensures var bit, was, now := BitAt(c, k), BitAt(existing, k), BitAt(Combine(op, c, existing), k);
            && (op == 1 ==> (now == 1 <==> bit != was)) && (op == 2 ==> (now == 1 <==> bit == 1 || was == 1))
            && (op == 3 ==> (now == 1 <==> bit == 1 && was == 1)) && (op == 4 ==> now == 1 - bit)
            && (op < 1 || op > 4 ==> now == bit)
  {
    hide Xor, Or, And, BitAt;
    Bitwise(c, existing, k);
    if op == 4 { Complement(c, k, 8); }
  }

  lemma {:induction false} Complement(c: nat, k: nat, n: nat)
    requires k < n && c < Pow2(n)
    ensures BitAt(Pow2(n) - 1 - c, k) == 1 - BitAt(c, k)
    ensures n == 8 ==> Pow2(n) == 256
  {
    if n == 8 { assert Pow2(8) == 256; }
    if k > 0 {
      assert (Pow2(n) - 1 - c) / 2 == Pow2(n - 1) - 1 - c / 2;
      Complement(c / 2, k - 1, n - 1);
    }
  }

  function LowByte(v: int): Byte {
    v % 256
  }

  function HighByte(v: int): Byte {
    v / 256 % 256
  }

  function Word(low: nat, high: nat): nat {
    low + 256 * high
  }

  /** Where the pixel `(x, y)` of a `w` wide image at `(left, top)` is kept in its buffer. */
  function Cell(left: int, top: int, w: int, x: int, y: int): int {
    4 + (y - top) * w + (x - left)
  }

  predicate InRect(left: int, top: int, w: int, h: int, x: int, y: int) {
    left <= x < left + w && top <= y < top + h
  }

  lemma CellInside(left: int, top: int, w: int, h: int, x: int, y: int)
    requires InRect(left, top, w, h, x, y)
    ensures 4 <= Cell(left, top, w, x, y) < 4 + w * h
  {
    var k := y - top;
    var m := h - 1 - k;
    assert k * w >= 0 && m * w >= 0;
    assert k * w + m * w + w == (k + m + 1) * w;
  }

  lemma CellsApart(left: int, top: int, w: int, x: int, y: int, x': int, y': int)
    requires left <= x < left + w && left <= x' < left + w
    requires y < y' || (y == y' && x < x')
    ensures Cell(left, top, w, x, y) < Cell(left, top, w, x', y')
  {
    if y < y' {
      var k, m := y - top, y' - y - 1;
      assert m * w >= 0;
      assert k * w + m * w + w == (y' - top) * w;
    }
  }

  /** `imagesize`: C's unsigned conversion keeps 32 bits. */
  function ImageSize(left: int, top: int, right: int, bottom: int): nat {
    var w, h := right - left + 1, bottom - top + 1;
    if w <= 0 || h <= 0 then 0 else (w * h + 8) % 0x1_0000_0000
  }

  lemma SideProduct(w: int, h: int)
    requires 1 <= w <= 65535 && 1 <= h <= 65535
    ensures 0 <= w * h <= 65535 * 65535
  {
    var d := 65535 - w;
    assert d * h >= 0;
    assert w * h + d * h == 65535 * h;
  }

  /** `imagesize` asks for four bytes more than the 4 + w * h that `getimage` writes. */
  lemma ImageFits(left: int, top: int, right: int, bottom: int)
    requires 1 <= right - left + 1 <= 65535 && 1 <= bottom - top + 1 <= 65535
    ensures ImageSize(left, top, right, bottom) == 4 + (right - left + 1) * (bottom - top + 1) + 4
  {
    var w, h := right - left + 1, bottom - top + 1;
    SideProduct(w, h);
  }

  // ---------------------------------------------------------------- the device

  class Device {
    const pix: array2<Rgb>      // the memory bitmap, indexed by column and row
    const wheel: int -> Rgb     // colours beyond the palette
    var vpX: int
    var vpY: int

    constructor (pix: array2<Rgb>, wheel: int -> Rgb)
      ensures this.pix == pix && this.wheel == wheel && vpX == vpY == 0
    {
      this.pix, this.wheel := pix, wheel;
      vpX, vpY := 0, 0;
    }

    predicate OnDevice(x: int, y: int) {
      0 <= x < pix.Length0 && 0 <= y < pix.Length1
    }

    /** GetPixel of the device. */
    function Look(x: int, y: int): Rgb
      reads pix
    {
      if OnDevice(x, y) then pix[x, y] else OUTSIDE
    }

    function Color(c: int): Rgb {
      PaletteOr(wheel, c)
    }

    method PutPixel(x: int, y: int, color: int)
      modifies pix
      ensures forall i, j :: OnDevice(i, j) ==>
                pix[i, j] == if i == x + vpX && j == y + vpY then Color(color) else old(pix[i, j])
    {
      var i, j := x + vpX, y + vpY;
      if OnDevice(i, j) { pix[i, j] := Color(color); }
    }

    method GetPixel(x: int, y: int) returns (c: nat)
      ensures c == Index(Look(x + vpX, y + vpY))
      ensures !OnDevice(x + vpX, y + vpY) ==> c == 15
    {
      hide Index, Nearest;
      IndexOfPalette(15);
      c := BgiIndex(Look(x + vpX, y + vpY));
    }

    /** Bytes 0 to 3 hold the sides, low byte first; then one palette index per pixel, row by row. */
    method GetImage(left: int, top: int, right: int, bottom: int, b: array<Byte>)
      requires b.Length >= 4
      requires right >= left && bottom >= top ==> b.Length >= 4 + (right - left + 1) * (bottom - top + 1)
      modifies b
      ensures var w, h := right - left + 1, bottom - top + 1;
              && b[0] == LowByte(w) && b[1] == HighByte(w) && b[2] == LowByte(h) && b[3] == HighByte(h)
              && b[0] == w % 256 && b[1] == w / 256 % 256 && b[2] == h % 256 && b[3] == h / 256 % 256
              && forall x, y :: InRect(left, top, w, h, x, y) ==>
                   0 <= Cell(left, top, w, x, y) < b.Length
                   && b[Cell(left, top, w, x, y)] == Index(Look(x + vpX, y + vpY))
    {
      hide Cell, Index;
      var w, h := right - left + 1, bottom - top + 1;
      b[0], b[1], b[2], b[3] := LowByte(w), HighByte(w), LowByte(h), HighByte(h);
      var p := 4;
      if w > 0 { CellStart(left, top, w); }
      forall x, y | InRect(left, top, w, h, x, y)
        ensures 4 <= Cell(left, top, w, x, y) < b.Length
      {
        CellInside(left, top, w, h, x, y);
      }
      var y := top;
      while y <= bottom
        invariant top <= y && (h > 0 ==> y <= bottom + 1)
        invariant w > 0 ==> p == Cell(left, top, w, left, y)
        invariant b[0] == LowByte(w) && b[1] == HighByte(w) && b[2] == LowByte(h) && b[3] == HighByte(h)
        invariant forall i, j :: InRect(left, top, w, h, i, j) && j < y ==>
                    b[Cell(left, top, w, i, j)] == Index(Look(i + vpX, j + vpY))
      {
        var x := left;
        while x <= right
          invariant left <= x && (w > 0 ==> x <= right + 1)
          invariant w > 0 ==> p == Cell(left, top, w, x, y)
          invariant b[0] == LowByte(w) && b[1] == HighByte(w) && b[2] == LowByte(h) && b[3] == HighByte(h)
          invariant forall i, j :: InRect(left, top, w, h, i, j) && (j < y || (j == y && i < x)) ==>
                      b[Cell(left, top, w, i, j)] == Index(Look(i + vpX, j + vpY))
        {
          forall i, j | InRect(left, top, w, h, i, j) && (j < y || (j == y && i < x))
            ensures Cell(left, top, w, i, j) != p
          {
            CellsApart(left, top, w, i, j, x, y);
          }
          assert InRect(left, top, w, h, x, y);
          CellNext(left, top, w, x, y);
          b[p] := GetPixel(x, y);
          p := p + 1;
          x := x + 1;
        }
        if w > 0 { CellWraps(left, top, w, y); }
        y := y + 1;
      }
    }

    /** Each pixel of the rectangle is combined with what is there and written back. */
    method PutImage(left: int, top: int, b: array<Byte>, op: int)
      requires b.Length >= 4 && b.Length >= 4 + Width(b[..]) * Height(b[..])
      modifies pix
      ensures forall i, j :: OnDevice(i, j) ==>
                pix[i, j] == Painted(wheel, left, top, b[..], op, i - vpX, j - vpY, old(pix[i, j]))
    {
      hide Cell, Index, Painted, Combine, Xor, Or, And, PaletteOr;
      var w := Word(b[0], b[1]);
      var h := Word(b[2], b[3]);
      var p := 4;
      ghost var img := b[..];
      if w > 0 { CellStart(left, top, w); }
      forall x, y | InRect(left, top, w, h, x, y)
        ensures 4 <= Cell(left, top, w, x, y) < b.Length
      {
        CellInside(left, top, w, h, x, y);
      }
      Unpainted(wheel, left, top, img, op);
      var y := top;
      while y < top + h
        invariant top <= y <= top + h
        invariant w > 0 ==> p == Cell(left, top, w, left, y)
        invariant forall i, j :: OnDevice(i, j) ==>
                    pix[i, j] == if j - vpY < y then Painted(wheel, left, top, img, op, i - vpX, j - vpY, old(pix[i, j]))
                                 else old(pix[i, j])
      {
        var x := left;
        while x < left + w
          invariant left <= x <= left + w
          invariant w > 0 ==> p == Cell(left, top, w, x, y)
          invariant forall i, j :: OnDevice(i, j) ==>
                      pix[i, j] == if j - vpY < y || (j - vpY == y && i - vpX < x)
                                   then Painted(wheel, left, top, img, op, i - vpX, j - vpY, old(pix[i, j]))
                                   else old(pix[i, j])
        {
          assert InRect(left, top, w, h, x, y);
          CellNext(left, top, w, x, y);
          var c := b[p];
          p := p + 1;
          var existing := GetPixel(x, y);
          var nc: int := c;
          if op == XOR_PUT {
            nc := Xor(c, existing);
          } else if op == OR_PUT {
            nc := Or(c, existing);
          } else if op == AND_PUT {
            nc := And(c, existing);
          } else if op == NOT_PUT {
            nc := 255 - c;
          }
          IsCombine(op, c, existing, nc);
          if OnDevice(x + vpX, y + vpY) {
            PaintedInside(wheel, left, top, img, op, x, y, old(pix[x + vpX, y + vpY]));
          }
          PutPixel(x, y, nc);
          x := x + 1;
        }
        if w > 0 { CellWraps(left, top, w, y); }
        y := y + 1;
      }
    }
  }

  /** The sides as `putimage` reads them. */
  function Width(img: seq<Byte>): nat
    requires |img| >= 4
  {
    Word(img[0], img[1])
  }

  function Height(img: seq<Byte>): nat
    requires |img| >= 4
  {
    Word(img[2], img[3])
  }

  function PaletteOr(wheel: int -> Rgb, c: int): Rgb {
    if 0 <= c < 16 then PALETTE[c] else wheel(c)
  }

  /** What `putimage` makes of the colour `old` at `(x, y)`. */
  function Painted(wheel: int -> Rgb, left: int, top: int, img: seq<Byte>, op: int, x: int, y: int, old': Rgb): Rgb
    requires |img| >= 4 && |img| >= 4 + Width(img) * Height(img)
  {
    var w, h := Width(img), Height(img);
    if InRect(left, top, w, h, x, y) then
      CellInside(left, top, w, h, x, y);
      PaletteOr(wheel, Combine(op, img[Cell(left, top, w, x, y)], Index(old')))
    else old'
  }

  lemma Unpainted(wheel: int -> Rgb, left: int, top: int, img: seq<Byte>, op: int)
    requires |img| >= 4 && |img| >= 4 + Width(img) * Height(img)
    ensures forall x, y, c :: !InRect(left, top, Width(img), Height(img), x, y)
                              ==> Painted(wheel, left, top, img, op, x, y, c) == c
  {
  }

  lemma PaintedInside(wheel: int -> Rgb, left: int, top: int, img: seq<Byte>, op: int, x: int, y: int, c: Rgb)
    requires |img| >= 4 && |img| >= 4 + Width(img) * Height(img)
    requires InRect(left, top, Width(img), Height(img), x, y)
    ensures 4 <= Cell(left, top, Width(img), x, y) < |img|
    ensures Painted(wheel, left, top, img, op, x, y, c)
            == PaletteOr(wheel, Combine(op, img[Cell(left, top, Width(img), x, y)], Index(c)))
  {
    CellInside(left, top, Width(img), Height(img), x, y);
  }

  lemma IsCombine(op: int, c: Byte, existing: nat, nc: int)
    requires nc == if op == XOR_PUT then Xor(c, existing) else if op == OR_PUT then Or(c, existing)
                   else if op == AND_PUT then And(c, existing) else if op == NOT_PUT then 255 - c else c
    ensures nc == Combine(op, c, existing)
  {
  }

  lemma CellStart(left: int, top: int, w: int)
    ensures Cell(left, top, w, left, top) == 4
  {
  }

  lemma CellNext(left: int, top: int, w: int, x: int, y: int)
    ensures Cell(left, top, w, x + 1, y) == Cell(left, top, w, x, y) + 1
  {
  }

  lemma CellWraps(left: int, top: int, w: int, y: int)
    ensures Cell(left, top, w, left, y + 1) == Cell(left, top, w, left + w, y)
  {
    assert (y + 1 - top) * w == (y - top) * w + w;
  }

  // ---------------------------------------------------------------- what is restored

  lemma HeaderRoundTrip(v: int)
    requires 0 <= v < 65536
    ensures Word(LowByte(v), HighByte(v)) == v
  {
  }

  /** Putting back a pixel of the palette that was got from the same place changes nothing. */
  lemma CopyRestores(wheel: int -> Rgb, left: int, top: int, img: seq<Byte>, x: int, y: int, c: Rgb)
    requires |img| >= 4 && |img| >= 4 + Width(img) * Height(img) && InPalette(c)
    requires InRect(left, top, Width(img), Height(img), x, y) ==>
               0 <= Cell(left, top, Width(img), x, y) < |img| && img[Cell(left, top, Width(img), x, y)] == Index(c)
    ensures Painted(wheel, left, top, img, COPY_PUT, x, y, c) == c
  {
    var k :| 0 <= k < |PALETTE| && PALETTE[k] == c;
    IndexOfPalette(k);
  }

  /** XOR-ing the same 4-bit image twice restores a pixel of the palette; once leaves it in the palette. */
  lemma XorTwiceRestores(wheel: int -> Rgb, left: int, top: int, img: seq<Byte>, x: int, y: int, c: Rgb)
    requires |img| >= 4 && |img| >= 4 + Width(img) * Height(img) && InPalette(c)
    requires forall k :: 4 <= k < 4 + Width(img) * Height(img) ==> img[k] < 16
    ensures var once := Painted(wheel, left, top, img, XOR_PUT, x, y, c);
            InPalette(once) && Painted(wheel, left, top, img, XOR_PUT, x, y, once) == c
  {
    if InRect(left, top, Width(img), Height(img), x, y) {
      var k: nat :| k < |PALETTE| && PALETTE[k] == c;
      IndexOfPalette(k);
      PaintedInside(wheel, left, top, img, XOR_PUT, x, y, c);
      CellInside(left, top, Width(img), Height(img), x, y);
      var v := img[Cell(left, top, Width(img), x, y)];
      var m := Xor(v, k);
      assert Pow2(4) == 16;
      XorBelow(v, k, 4);
      XorTwice(v, k);
      IndexOfPalette(m);
      PaintedInside(wheel, left, top, img, XOR_PUT, x, y, PALETTE[m]);
    }
  }

  /** getimage, then putimage with COPY_PUT at the same place: the screen is as before. */
  method SaveThenRestore(d: Device, left: int, top: int, right: int, bottom: int, b: array<Byte>)
    requires 0 <= right - left + 1 < 65536 && 0 <= bottom - top + 1 < 65536
    requires b.Length >= 4 + (right - left + 1) * (bottom - top + 1) >= 4
    requires forall i, j :: d.OnDevice(i, j) ==> InPalette(d.pix[i, j])
    modifies b, d.pix
    ensures forall i, j :: d.OnDevice(i, j) ==> d.pix[i, j] == old(d.pix[i, j])
  {
    hide InPalette, Painted, Cell, Index, InRect, Width, Height, LowByte, HighByte;
    ghost var w, h := right - left + 1, bottom - top + 1;
    d.GetImage(left, top, right, bottom, b);
    ghost var img := b[..];
    GotSides(img, w, h);
    assert Got(d, left, top, w, h, img);
    forall i, j | d.OnDevice(i, j)
      ensures Painted(d.wheel, left, top, img, COPY_PUT, i - d.vpX, j - d.vpY, d.pix[i, j]) == d.pix[i, j]
    {
      GotPixel(d, left, top, w, h, img, i, j);
    }
    d.PutImage(left, top, b, COPY_PUT);
  }

  /** Each cell of the image holds the index of its pixel. */
  ghost predicate Got(d: Device, left: int, top: int, w: int, h: int, img: seq<Byte>)
    reads d, d.pix
  {
    forall x, y :: InRect(left, top, w, h, x, y) ==>
      0 <= Cell(left, top, w, x, y) < |img| && img[Cell(left, top, w, x, y)] == Index(d.Look(x + d.vpX, y + d.vpY))
  }

  lemma GotSides(img: seq<Byte>, w: int, h: int)
    requires 0 <= w < 65536 && 0 <= h < 65536 && |img| >= 4
    requires img[0] == LowByte(w) && img[1] == HighByte(w) && img[2] == LowByte(h) && img[3] == HighByte(h)
    ensures Width(img) == w && Height(img) == h
  {
    HeaderRoundTrip(w);
    HeaderRoundTrip(h);
  }

  /** One pixel of a device whose rectangle has just been got. */
  lemma GotPixel(d: Device, left: int, top: int, w: int, h: int, img: seq<Byte>, i: int, j: int)
    requires |img| >= 4 && Width(img) == w && Height(img) == h && |img| >= 4 + w * h
    requires Got(d, left, top, w, h, img) && d.OnDevice(i, j) && InPalette(d.pix[i, j])
    ensures Painted(d.wheel, left, top, img, COPY_PUT, i - d.vpX, j - d.vpY, d.pix[i, j]) == d.pix[i, j]
  {
    hide InPalette, Painted, Cell, Index, Width, Height;
    assert d.Look(i - d.vpX + d.vpX, j - d.vpY + d.vpY) == d.pix[i, j];
    CopyRestores(d.wheel, left, top, img, i - d.vpX, j - d.vpY, d.pix[i, j]);
  }

  /** The way animations move a sprite: drawing it with XOR_PUT a second time erases it. */
  method DrawThenErase(d: Device, left: int, top: int, b: array<Byte>)
    requires b.Length >= 4 && b.Length >= 4 + Width(b[..]) * Height(b[..])
    requires forall k :: 4 <= k < 4 + Width(b[..]) * Height(b[..]) ==> b[k] < 16
    requires forall i, j :: d.OnDevice(i, j) ==> InPalette(d.pix[i, j])
    modifies d.pix
    ensures forall i, j :: d.OnDevice(i, j) ==> d.pix[i, j] == old(d.pix[i, j])
  {
    hide InPalette, Painted, Index;
    forall i, j | d.OnDevice(i, j)
      ensures var once := Painted(d.wheel, left, top, b[..], XOR_PUT, i - d.vpX, j - d.vpY, d.pix[i, j]);
              Painted(d.wheel, left, top, b[..], XOR_PUT, i - d.vpX, j - d.vpY, once) == d.pix[i, j]
    {
      XorTwiceRestores(d.wheel, left, top, b[..], i - d.vpX, j - d.vpY, d.pix[i, j]);
    }
    d.PutImage(left, top, b, XOR_PUT);
    d.PutImage(left, top, b, XOR_PUT);
  }
}
