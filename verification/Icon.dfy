/** The icon files of packaging/make_icon.py: the bitmap codec (`bmp_icon_bytes`, `decode_bmp_icon`)
    and the directory of the .ico container (`write_ico`). */
module Icon {
  import opened Bytes

  /** The channels of a pixel in the order they are stored: blue, green, red, alpha. */
  type Pixel = seq<Byte>

  datatype Result<+T> = Ok(value: T) | StructError

  const U16 := 0x1_0000
  const U32 := 0x1_0000_0000

  // ---------------------------------------------------------------- little-endian integers

  function Le16(v: int): (s: seq<Byte>)
    requires 0 <= v < U16
    ensures |s| == 2
  {
    [v % 256, v / 256]
  }

  function Le32(v: int): (s: seq<Byte>)
    requires 0 <= v < U32
    ensures |s| == 4
  {
    [v % 256, v / 256 % 256, v / 65536 % 256, v / 16777216]
  }

  /** The low byte first. */
  lemma LittleEndian(v: int, k: nat)
    requires 0 <= v < U32 && k < 4
    ensures Le32(v)[k] == v / Pow256(k) % 256
    ensures v < U16 && k < 2 ==> Le16(v)[k] == v / Pow256(k) % 256
  {
    assert Pow256(0) == 1 && Pow256(1) == 256 && Pow256(2) == 65536 && Pow256(3) == 16777216;
  }

  function Pow256(k: nat): (p: nat)
    ensures p > 0
  {
    if k == 0 then 1 else 256 * Pow256(k - 1)
  }

  function Word(b0: int, b1: int, b2: int, b3: int): int {
    b0 + 256 * b1 + 65536 * b2 + 16777216 * b3
  }

  /** unpack_from("<I", s, at) */
  function U32At(s: seq<Byte>, at: nat): int
    requires at + 4 <= |s|
  {
    Word(s[at], s[at + 1], s[at + 2], s[at + 3])
  }

  /** unpack_from("<i", s, at): two's complement. */
  function I32At(s: seq<Byte>, at: nat): int
    requires at + 4 <= |s|
  {
    var v := U32At(s, at);
    if v < 0x8000_0000 then v else v - U32
  }

  lemma Le32RoundTrip(v: int, s: seq<Byte>, at: nat)
    requires 0 <= v < U32 && at + 4 <= |s| && s[at..at + 4] == Le32(v)
    ensures U32At(s, at) == v
  {
    var q := s[at..at + 4];
    assert q[0] == s[at] && q[1] == s[at + 1] && q[2] == s[at + 2] && q[3] == s[at + 3];
    assert v / 256 == 256 * (v / 65536) + v / 256 % 256;
    assert v / 65536 == 256 * (v / 16777216) + v / 65536 % 256;
  }

  // ---------------------------------------------------------------- the bitmap codec

  type Image = seq<seq<Pixel>>  // rows from the top

  ghost predicate Sized(px: Image, w: nat, h: nat) {
    && |px| == h
    && forall y :: 0 <= y < h ==> |px[y]| == w && forall x :: 0 <= x < w ==> |px[y][x]| == 4
  }

  function RowBytes(row: seq<Pixel>): seq<Byte> {
    if row == [] then [] else RowBytes(row[..|row| - 1]) + row[|row| - 1]
  }

  /** The colour plane: the rows from the bottom up. */
  function Plane(px: Image): seq<Byte> {
    if px == [] then [] else Plane(px[1..]) + RowBytes(px[0])
  }

  function Bit(p: Pixel): int
    requires |p| == 4
  {
    if p[3] >= 128 then 0 else 1
  }

  /** `n` mask bits from `s` on, first bit highest. */
  function Bits(row: seq<Pixel>, s: nat, n: nat): (r: nat)
    requires s + n <= |row| && forall x :: 0 <= x < |row| ==> |row[x]| == 4
    ensures r < Pow2(n)
  {
    if n == 0 then 0 else 2 * Bits(row, s, n - 1) + Bit(row[s + n - 1])
  }

  function Zeros(n: nat): (s: seq<Byte>)
    ensures |s| == n
  {
    seq(n, i => 0)
  }

  /** The padded length of a mask row in the format: a multiple of four bytes. */
  function AndRow(w: nat): nat {
    (w + 31) / 32 * 4
  }

  /** The least multiple of four bytes that has a bit for every pixel. */
  lemma AndRowMeaning(w: nat, n: nat)
    ensures n == AndRow(w) <==> n % 4 == 0 && w <= 8 * n && (n >= 4 ==> 8 * (n - 4) < w)
  {
  }

  /** The whole bytes of a mask row. */
  function FullBytes(row: seq<Pixel>, n: nat): (s: seq<Byte>)
    requires 8 * n <= |row| && forall x :: 0 <= x < |row| ==> |row[x]| == 4
    ensures |s| == n
  {
    if n == 0 then []
    else
      ByteBits(row, 8 * (n - 1), 8);
      FullBytes(row, n - 1) + [Bits(row, 8 * (n - 1), 8)]
  }

  lemma ByteBits(row: seq<Pixel>, s: nat, n: nat)
    requires s + n <= |row| && n <= 8 && forall x :: 0 <= x < |row| ==> |row[x]| == 4
    ensures Bits(row, s, n) * Pow2(8 - n) < 256
  {
    ProductOfPowers(n, 8 - n);
    assert Pow2(8) == 256;
    Below(Bits(row, s, n), Pow2(n), Pow2(8 - n));
  }

  lemma Below(v: nat, a: nat, b: nat)
    requires v < a && b > 0
    ensures v * b < a * b
  {
    assert (a - v) * b > 0;
  }

  lemma {:induction false} ProductOfPowers(m: nat, n: nat)
    ensures Pow2(m) * Pow2(n) == Pow2(m + n)
  {
    if m > 0 {
      ProductOfPowers(m - 1, n);
      Doubled(Pow2(m - 1), Pow2(n));
    }
  }

  lemma Doubled(a: nat, b: nat)
    ensures (2 * a) * b == 2 * (a * b)
  {
  }

  /** The last `n` bits of a row, at the top of a byte. */
  function LastByte(row: seq<Pixel>, n: nat): Byte
    requires 0 < n < 8 && n <= |row| && forall x :: 0 <= x < |row| ==> |row[x]| == 4
  {
    ByteBits(row, |row| - n, n);
    Bits(row, |row| - n, n) * Pow2(8 - n)
  }

  /** A mask row as it is written. */
  function MaskRow(row: seq<Pixel>): seq<Byte>
    requires forall x :: 0 <= x < |row| ==> |row[x]| == 4
  {
    var n := |row| % 8;
    var nbytes := if n > 0 then 1 else 0;
    FullBytes(row, |row| / 8)
    + (if n > 0 then [LastByte(row, n)] else [])
    + Zeros(if AndRow(|row|) > nbytes then AndRow(|row|) - nbytes else 0)
  }

  /** The padding counts only the last byte of the row: the row has the length the format asks for
      exactly when it has no whole byte. */
  lemma MaskRowLength(row: seq<Pixel>)
    requires forall x :: 0 <= x < |row| ==> |row[x]| == 4
    ensures |MaskRow(row)| == |row| / 8 + AndRow(|row|)
    ensures |MaskRow(row)| == AndRow(|row|) <==> |row| < 8
  {
  }

  lemma {:induction false} BitsAt(row: seq<Pixel>, s: nat, n: nat, k: nat)
    requires s + n <= |row| && k < n && forall x :: 0 <= x < |row| ==> |row[x]| == 4
    ensures BitAt(Bits(row, s, n), n - 1 - k) == Bit(row[s + k])
  {
    if k < n - 1 {
      assert Bits(row, s, n) / 2 == Bits(row, s, n - 1);
      BitsAt(row, s, n - 1, k);
    }
  }

  lemma {:induction false} BitShifted(v: nat, m: nat, k: nat)
    ensures BitAt(v * Pow2(m), m + k) == BitAt(v, k)
  {
    if m > 0 {
      var d := v * Pow2(m - 1);
      assert v * Pow2(m) == 2 * d;
      assert (2 * d) / 2 == d;
      BitShifted(v, m - 1, k);
    }
  }

  lemma {:induction false} FullByteAt(row: seq<Pixel>, n: nat, k: nat)
    requires k < n && 8 * n <= |row| && forall x :: 0 <= x < |row| ==> |row[x]| == 4
    ensures FullBytes(row, n)[k] == Bits(row, 8 * k, 8)
  {
    if k < n - 1 { FullByteAt(row, n - 1, k); }
  }

  lemma MaskBytes(row: seq<Pixel>)
    requires forall k :: 0 <= k < |row| ==> |row[k]| == 4
    ensures |row| / 8 <= |MaskRow(row)|
    ensures forall q :: 0 <= q < |row| / 8 ==> MaskRow(row)[q] == FullBytes(row, |row| / 8)[q]
    ensures |row| % 8 > 0 ==> |row| / 8 < |MaskRow(row)| && MaskRow(row)[|row| / 8] == LastByte(row, |row| % 8)
  {
    hide FullBytes, LastByte, AndRow;
  }

  lemma BitOfFullByte(row: seq<Pixel>, m: nat, q: nat, r: nat)
    requires q < m && 8 * m <= |row| && r < 8 && forall k :: 0 <= k < |row| ==> |row[k]| == 4
    ensures BitAt(FullBytes(row, m)[q], 7 - r) == Bit(row[8 * q + r])
  {
    hide Bits, FullBytes, BitAt;
    FullByteAt(row, m, q);
    BitsAt(row, 8 * q, 8, r);
  }

  lemma BitOfLastByte(row: seq<Pixel>, n: nat, r: nat)
    requires r < n < 8 && n <= |row| && forall k :: 0 <= k < |row| ==> |row[k]| == 4
    ensures BitAt(LastByte(row, n), 7 - r) == Bit(row[|row| - n + r])
  {
    hide Bits, BitAt, Pow2;
    BitsAt(row, |row| - n, n, r);
    BitShifted(Bits(row, |row| - n, n), 8 - n, n - 1 - r);
  }

  /** Each pixel has its own bit of the mask row, from the highest bit of the first byte on: clear
      when the pixel's alpha is 128 or more. */
  lemma MaskBit(row: seq<Pixel>, x: nat)
    requires x < |row| && forall k :: 0 <= k < |row| ==> |row[k]| == 4
    ensures x / 8 < |MaskRow(row)|
    ensures BitAt(MaskRow(row)[x / 8], 7 - x % 8) == 0 <==> row[x][3] >= 128
  {
    MaskBytes(row);
    hide MaskRow, FullBytes, LastByte, BitAt;
    var q, r, m, n := x / 8, x % 8, |row| / 8, |row| % 8;
    assert x == 8 * q + r && |row| == 8 * m + n;
    if q < m {
      BitOfFullByte(row, m, q, r);
    } else {
      BitOfLastByte(row, n, r);
    }
  }

  function Mask(px: Image): seq<Byte>
    requires forall y :: 0 <= y < |px| ==> forall x :: 0 <= x < |px[y]| ==> |px[y][x]| == 4
  {
    if px == [] then [] else Mask(px[1..]) + MaskRow(px[0])
  }

  /** The bytes a row takes in the mask. */
  function Stride(w: nat): nat {
    w / 8 + AndRow(w)
  }

  /** Where stored row `k` of the mask starts. */
  function RowStart(w: nat, k: nat): nat {
    k * Stride(w)
  }

  lemma RowStartNext(w: nat, k: nat)
    ensures RowStart(w, k + 1) == RowStart(w, k) + Stride(w) && RowStart(w, 0) == 0
  {
  }

  lemma MaskRowFits(row: seq<Pixel>, w: nat)
    requires |row| == w && forall x :: 0 <= x < w ==> |row[x]| == 4
    ensures |MaskRow(row)| == Stride(w)
  {
  }

  /** `r` stands in `s` at `i`. */
  ghost predicate Holds(s: seq<Byte>, i: nat, r: seq<Byte>) {
    i + |r| <= |s| && s[i..i + |r|] == r
  }

  lemma EarlierPiece(a: seq<Byte>, b: seq<Byte>, i: nat, r: seq<Byte>)
    requires Holds(a, i, r)
    ensures Holds(a + b, i, r)
  {
  }

  lemma LastPiece(a: seq<Byte>, b: seq<Byte>)
    ensures Holds(a + b, |a|, b)
  {
  }

  lemma SizedTail(px: Image, w: nat, h: nat)
    requires Sized(px, w, h) && h > 0
    ensures Sized(px[1..], w, h - 1)
  {
  }

  lemma {:induction false} MaskLength(px: Image, w: nat, h: nat)
    requires Sized(px, w, h)
    ensures |Mask(px)| == RowStart(w, h)
  {
    if px != [] {
      MaskLength(px[1..], w, h - 1);
      MaskRowFits(px[0], w);
      RowStartNext(w, h - 1);
      hide MaskRow, RowStart, Stride;
    }
  }

  lemma MaskUnfolds(px: Image, w: nat, h: nat)
    requires Sized(px, w, h) && h > 0
    ensures Mask(px) == Mask(px[1..]) + MaskRow(px[0])
  {
    hide MaskRow;
  }

  /** The rows of the mask, too, are stored from the bottom up. */
  lemma {:induction false} MaskAt(px: Image, w: nat, h: nat, y: nat)
    requires Sized(px, w, h) && y < h
    ensures Holds(Mask(px), RowStart(w, h - 1 - y), MaskRow(px[y]))
  {
    hide Mask, MaskRow, RowStart, Holds;
    SizedTail(px, w, h);
    MaskUnfolds(px, w, h);
    var below, row := Mask(px[1..]), MaskRow(px[0]);
    if y > 0 {
      MaskAt(px[1..], w, h - 1, y - 1);
      EarlierPiece(below, row, RowStart(w, h - 1 - y), MaskRow(px[y]));
    } else {
      MaskLength(px[1..], w, h - 1);
      LastPiece(below, row);
    }
  }

  /** The 40-byte header; struct.pack refuses values out of range. */
  function Header(w: nat, h: nat, size: nat): (r: Result<seq<Byte>>)
    ensures r.Ok? ==> |r.value| == 40
  {
    if w < 0x8000_0000 && h * 2 < 0x8000_0000 && size < U32 then
      Ok(Le32(40) + Le32(w) + Le32(h * 2) + Le16(1) + Le16(32) + Le32(0) + Le32(size)
         + Le32(0) + Le32(0) + Le32(0) + Le32(0))
    else StructError
  }

  function Encoded(px: Image, w: nat, h: nat): Result<seq<Byte>>
    requires Sized(px, w, h)
  {
    match Header(w, h, |Plane(px)| + |Mask(px)|)
    case Ok(header) => Ok(header + Plane(px) + Mask(px))
    case StructError => StructError
  }

  method BmpIconBytes(px: Image, w: nat, h: nat) returns (r: Result<seq<Byte>>)
    requires Sized(px, w, h)
    ensures r == Encoded(px, w, h)
  {
    hide MaskRow;
    var xor: seq<Byte> := [];
    var y := h;
    while y > 0
      invariant 0 <= y <= h && xor == Plane(px[y..])
    {
      y := y - 1;
      assert px[y..][1..] == px[y + 1..] && px[y..][0] == px[y];
      ghost var below := xor;
      for x := 0 to w
        invariant xor == below + RowBytes(px[y][..x])
      {
        assert px[y][..x + 1][..x] == px[y][..x];
        xor := xor + px[y][x];
      }
      assert px[y][..w] == px[y];
    }
    assert px[0..] == px;
    var andmask: seq<Byte> := [];
    y := h;
    while y > 0
      invariant 0 <= y <= h && andmask == Mask(px[y..])
    {
      y := y - 1;
      assert px[y..][1..] == px[y + 1..] && px[y..][0] == px[y];
      var row := PackRow(px[y], w);
      andmask := andmask + row;
    }
    match Header(w, h, |xor| + |andmask|)
    case Ok(header) => r := Ok(header + xor + andmask);
    case StructError => r := StructError;
  }

  /** The bits of one row. */
  method PackRow(row: seq<Pixel>, w: nat) returns (mask: seq<Byte>)
    requires |row| == w && forall x :: 0 <= x < w ==> |row[x]| == 4
    ensures mask == MaskRow(row)
  {
    hide Bits, FullBytes, Pow2;
    mask := [];
    var acc, n := 0, 0;
    RowStarts(row);
    for x := 0 to w
      invariant n == x % 8 && acc == Bits(row, x - n, n) && mask == FullBytes(row, x / 8)
    {
      acc := 2 * acc + Bit(row[x]);
      n := n + 1;
      BitsGrow(row, x - (n - 1), n);
      if n == 8 {
        ByteFills(row, x / 8);
        mask := mask + [acc];
        acc, n := 0, 0;
        assert (x + 1) % 8 == 0 && (x + 1) / 8 == x / 8 + 1;
      }
    }
    var nbytes := 0;
    if n > 0 {
      ByteBits(row, w - n, n);
      mask := mask + [acc * Pow2(8 - n)];
      nbytes := (n + 7) / 8;
    }
    mask := mask + Zeros(if AndRow(w) > nbytes then AndRow(w) - nbytes else 0);
  }

  lemma RowStarts(row: seq<Pixel>)
    requires forall x :: 0 <= x < |row| ==> |row[x]| == 4
    ensures FullBytes(row, 0) == [] && forall s :: 0 <= s <= |row| ==> Bits(row, s, 0) == 0
  {
  }

  lemma BitsGrow(row: seq<Pixel>, s: nat, n: nat)
    requires n > 0 && s + n <= |row| && forall x :: 0 <= x < |row| ==> |row[x]| == 4
    ensures Bits(row, s, n) == 2 * Bits(row, s, n - 1) + Bit(row[s + n - 1])
  {
  }

  lemma ByteFills(row: seq<Pixel>, k: nat)
    requires 8 * k + 8 <= |row| && forall x :: 0 <= x < |row| ==> |row[x]| == 4
    ensures Bits(row, 8 * k, 8) < 256 && FullBytes(row, k + 1) == FullBytes(row, k) + [Bits(row, 8 * k, 8)]
  {
    ByteBits(row, 8 * k, 8);
  }

  // ---------------------------------------------------------------- reading it back

  function Least(a: int, b: int): int {
    if a < b then a else b
  }

  /** s[a:b] for offsets that are not negative: slices stop at the end of the data. */
  function Slice(s: seq<Byte>, a: nat, b: nat): seq<Byte>
    requires a <= b
  {
    s[Least(a, |s|)..Least(b, |s|)]
  }

  /** Row `y` of the colour plane, counted in stored order. */
  function StoredRow(xor: seq<Byte>, w: nat, y: nat): seq<Pixel> {
    seq(w, x requires 0 <= x < w => Slice(xor, Cell(w, y, x), Cell(w, y, x) + 4))
  }

  function Area(w: nat, h: nat): nat {
    w * h
  }

  function Cell(w: nat, y: nat, x: nat): nat {
    (y * w + x) * 4
  }

  datatype Decoding = Decoding(width: int, height: int, rows: Image)

  function Decode(raw: seq<Byte>): Result<Decoding> {
    if |raw| < 12 then StructError
    else
      var w, h := I32At(raw, 4), I32At(raw, 8) / 2;
      if w < 0 || h < 0 then
        Ok(Decoding(w, h, if h < 0 then [] else seq(h, y => [])))
      else
        var xor := Slice(raw, 40, 40 + Area(w, h) * 4);
        Ok(Decoding(w, h, seq(h, y requires 0 <= y < h => StoredRow(xor, w, h - 1 - y))))
  }

  lemma {:induction false} RowAt(row: seq<Pixel>, x: nat)
    requires forall k :: 0 <= k < |row| ==> |row[k]| == 4
    ensures |RowBytes(row)| == 4 * |row|
    ensures x < |row| ==> RowBytes(row)[4 * x..4 * x + 4] == row[x]
  {
    if row != [] {
      var init, last := row[..|row| - 1], row[|row| - 1];
      assert RowBytes(row) == RowBytes(init) + last;
      RowAt(init, if x < |row| - 1 then x else 0);
      PieceOf(RowBytes(init), last, if x < |row| - 1 then 4 * x else 0);
    }
  }

  lemma {:induction false} PlaneLength(px: Image, w: nat, h: nat)
    requires Sized(px, w, h)
    ensures |Plane(px)| == 4 * Area(w, h)
  {
    if px != [] {
      RowAt(px[0], 0);
      PlaneLength(px[1..], w, h - 1);
      AreaGrows(w, h);
      hide Area;
    }
  }

  lemma AreaGrows(w: nat, h: nat)
    requires h > 0
    ensures Area(w, h) == Area(w, h - 1) + w
  {
  }

  /** Pixel `(x, y)` is stored `h - 1 - y` rows down. */
  lemma {:induction false} PlaneAt(px: Image, w: nat, h: nat, y: nat, x: nat)
    requires Sized(px, w, h) && y < h && x < w
    ensures Cell(w, h - 1 - y, x) + 4 <= |Plane(px)|
    ensures Plane(px)[Cell(w, h - 1 - y, x)..Cell(w, h - 1 - y, x) + 4] == px[y][x]
  {
    var c, below, row := Cell(w, h - 1 - y, x), Plane(px[1..]), RowBytes(px[0]);
    assert Plane(px) == below + row;
    hide Cell, Area, Plane, RowBytes;
    if y > 0 {
      PlaneAt(px[1..], w, h - 1, y - 1, x);
      PieceOf(below, row, c);
    } else {
      RowAt(px[0], x);
      PlaneLength(px[1..], w, h - 1);
      CellInLastRow(w, h - 1, x);
      PieceOf(below, row, 4 * x);
    }
  }

  /** Four bytes of a concatenation. */
  lemma PieceOf(a: seq<Byte>, b: seq<Byte>, i: nat)
    ensures i + 4 <= |a| ==> (a + b)[i..i + 4] == a[i..i + 4]
    ensures i + 4 <= |b| ==> (a + b)[|a| + i..|a| + i + 4] == b[i..i + 4]
  {
  }

  lemma CellInLastRow(w: nat, y: nat, x: nat)
    ensures Cell(w, y, x) == 4 * Area(w, y) + 4 * x
  {
  }

  lemma HeaderFields(w: nat, h: nat, size: nat, raw: seq<Byte>)
    requires Header(w, h, size).Ok? && |raw| >= 40 && raw[..40] == Header(w, h, size).value
    ensures I32At(raw, 4) == w && I32At(raw, 8) == h * 2
  {
    var header := Header(w, h, size).value;
    assert raw[4..8] == header[4..8] == Le32(w);
    assert raw[8..12] == header[8..12] == Le32(h * 2);
    Le32RoundTrip(w, raw, 4);
    Le32RoundTrip(h * 2, raw, 8);
  }

  lemma HeaderSlices(w: nat, h: nat, size: nat, s: seq<Byte>)
    requires |s| == 40 && Header(w, h, size) == Ok(s)
    ensures w < U32 && h * 2 < U32 && size < U32
    ensures s[0..4] == Le32(40) && s[4..8] == Le32(w) && s[8..12] == Le32(h * 2)
    ensures s[12..14] == Le16(1) && s[14..16] == Le16(32) && s[16..20] == Le32(0) && s[20..24] == Le32(size)
    ensures s[24..28] == s[28..32] == s[32..36] == s[36..40] == Le32(0)
  {
    hide Le32, Le16;
  }

  /** The fields of the header, where BITMAPINFOHEADER has them: its own size, the width, twice the height,
      one plane, 32 bits, no compression, the size of the data, and zeros. */
  lemma HeaderLayout(w: nat, h: nat, size: nat, s: seq<Byte>)
    requires |s| == 40 && Header(w, h, size) == Ok(s)
    ensures && U32At(s, 0) == 40 && U32At(s, 4) == w && U32At(s, 8) == 2 * h
            && s[12..14] == [1, 0] && s[14..16] == [32, 0] && U32At(s, 16) == 0 && U32At(s, 20) == size
            && U32At(s, 24) == U32At(s, 28) == U32At(s, 32) == U32At(s, 36) == 0
  {
    hide Header, U32At, Le32, Le16;
    HeaderSlices(w, h, size, s);
    FieldsOf(s, w, h * 2, size);
  }

  lemma FieldsOf(s: seq<Byte>, w: nat, h2: nat, size: nat)
    requires |s| == 40 && w < U32 && h2 < U32 && size < U32
    requires s[0..4] == Le32(40) && s[4..8] == Le32(w) && s[8..12] == Le32(h2)
    requires s[12..14] == Le16(1) && s[14..16] == Le16(32) && s[16..20] == Le32(0) && s[20..24] == Le32(size)
    requires s[24..28] == s[28..32] == s[32..36] == s[36..40] == Le32(0)
    ensures U32At(s, 0) == 40 && U32At(s, 4) == w && U32At(s, 8) == h2
    ensures s[12..14] == [1, 0] && s[14..16] == [32, 0] && U32At(s, 16) == 0 && U32At(s, 20) == size
    ensures U32At(s, 24) == U32At(s, 28) == U32At(s, 32) == U32At(s, 36) == 0
  {
    assert Le16(1) == [1, 0] && Le16(32) == [32, 0];
    hide Le32, Le16, U32At;
    Le32RoundTrip(40, s, 0);
    Le32RoundTrip(w, s, 4);
    Le32RoundTrip(h2, s, 8);
    Le32RoundTrip(0, s, 16);
    Le32RoundTrip(size, s, 20);
    Le32RoundTrip(0, s, 24);
    Le32RoundTrip(0, s, 28);
    Le32RoundTrip(0, s, 32);
    Le32RoundTrip(0, s, 36);
  }

  /** Where the mask bit of a pixel is in the file: clear when its alpha is 128 or more. */
  lemma MaskBitAt(px: Image, w: nat, h: nat, y: nat, x: nat)
    requires Sized(px, w, h) && Encoded(px, w, h).Ok? && y < h && x < w
    ensures var raw := Encoded(px, w, h).value;
            var at := 40 + 4 * Area(w, h) + RowStart(w, h - 1 - y) + x / 8;
            at < |raw| && (BitAt(raw[at], 7 - x % 8) == 0 <==> px[y][x][3] >= 128)
  {
    MaskBit(px[y], x);
    MaskRowInFile(px, w, h, y);
    hide MaskRow, RowStart, Area, BitAt, Encoded, Holds;
    HeldByte(Encoded(px, w, h).value, 40 + 4 * Area(w, h) + RowStart(w, h - 1 - y), MaskRow(px[y]), x / 8);
  }

  lemma FileParts(px: Image, w: nat, h: nat) returns (head: seq<Byte>)
    requires Sized(px, w, h) && Encoded(px, w, h).Ok?
    ensures |head| == 40 && Encoded(px, w, h).value == head + Plane(px) + Mask(px) && |Plane(px)| == 4 * Area(w, h)
  {
    PlaneLength(px, w, h);
    hide Plane, Mask, Header, Area;
    head := Header(w, h, |Plane(px)| + |Mask(px)|).value;
  }

  /** Where the mask rows are in the file. */
  lemma MaskRowInFile(px: Image, w: nat, h: nat, y: nat)
    requires Sized(px, w, h) && Encoded(px, w, h).Ok? && y < h
    ensures Holds(Encoded(px, w, h).value, 40 + 4 * Area(w, h) + RowStart(w, h - 1 - y), MaskRow(px[y]))
  {
    hide Plane, Mask, MaskRow, RowStart, Area, Encoded, Header, Holds;
    MaskAt(px, w, h, y);
    var head := FileParts(px, w, h);
    var start, row := RowStart(w, h - 1 - y), MaskRow(px[y]);
    LaterPiece(head + Plane(px), Mask(px), start, row);
  }

  lemma LaterPiece(a: seq<Byte>, b: seq<Byte>, i: nat, r: seq<Byte>)
    requires Holds(b, i, r)
    ensures Holds(a + b, |a| + i, r)
  {
  }

  lemma HeldByte(s: seq<Byte>, i: nat, r: seq<Byte>, k: nat)
    requires Holds(s, i, r) && k < |r|
    ensures i + k < |s| && s[i + k] == r[k]
  {
    assert r[k] == s[i..i + |r|][k];
  }

  /** Every image that can be encoded is decoded again, pixel by pixel. */
  lemma DecodeEncoded(px: Image, w: nat, h: nat)
    requires Sized(px, w, h) && Encoded(px, w, h).Ok?
    ensures Decode(Encoded(px, w, h).value) == Ok(Decoding(w, h, px))
  {
    hide I32At, Header, Mask, Cell, Area, StoredRow;
    var raw, plane := Encoded(px, w, h).value, Plane(px);
    HeaderFields(w, h, |plane| + |Mask(px)|, raw);
    PlaneLength(px, w, h);
    assert Slice(raw, 40, 40 + Area(w, h) * 4) == plane;
    forall y | 0 <= y < h
      ensures StoredRow(plane, w, h - 1 - y) == px[y]
    {
      RowRestored(px, w, h, y);
    }
    var rows := seq(h, y requires 0 <= y < h => StoredRow(plane, w, h - 1 - y));
    assert rows == px;
    assert Decode(raw) == Ok(Decoding(w, h, rows));
  }

  lemma RowRestored(px: Image, w: nat, h: nat, y: nat)
    requires Sized(px, w, h) && y < h
    ensures StoredRow(Plane(px), w, h - 1 - y) == px[y]
  {
    hide Cell, Plane;
    forall x | 0 <= x < w
      ensures StoredRow(Plane(px), w, h - 1 - y)[x] == px[y][x]
    {
      PlaneAt(px, w, h, y, x);
    }
  }

  /** Encoding fails exactly when a header field does not fit its width. */
  lemma EncodableSizes(px: Image, w: nat, h: nat)
    requires Sized(px, w, h)
    ensures Encoded(px, w, h).Ok? <==> w < 0x8000_0000 && h < 0x4000_0000 && 4 * Area(w, h) + |Mask(px)| < U32
  {
    PlaneLength(px, w, h);
  }

  // ---------------------------------------------------------------- the container

  /** A directory entry: 16 bytes. */
  function Entry(dim: Byte, len: nat, offset: nat): (s: seq<Byte>)
    requires len < U32 && offset < U32
    ensures |s| == 16
  {
    [dim, dim, 0, 0] + Le16(1) + Le16(32) + Le32(len) + Le32(offset)
  }

  function SizeBefore(blobs: seq<seq<Byte>>, k: nat): nat
    requires k <= |blobs|
  {
    if k == 0 then 0 else SizeBefore(blobs, k - 1) + |blobs[k - 1]|
  }

  /** Where blob `k` of `n` starts. */
  function OffsetOf(blobs: seq<seq<Byte>>, n: nat, k: nat): nat
    requires k <= |blobs|
  {
    6 + 16 * n + SizeBefore(blobs, k)
  }

  ghost predicate Fits(dims: seq<int>, blobs: seq<seq<Byte>>, n: nat, k: nat)
    requires k < |dims| == |blobs|
  {
    0 <= dims[k] < 256 && |blobs[k]| < U32 && OffsetOf(blobs, n, k) < U32
  }

  ghost predicate AllFit(dims: seq<int>, blobs: seq<seq<Byte>>, n: nat, k: nat)
    requires k <= |dims| == |blobs|
  {
    forall i :: 0 <= i < k ==> Fits(dims, blobs, n, i)
  }

  /** The container: header, one entry per blob that selects exactly that blob, and the blobs one
      after the other up to the end of the file. */
  ghost predicate IsIco(f: seq<Byte>, dims: seq<int>, blobs: seq<seq<Byte>>)
    requires |dims| == |blobs|
  {
    var n := |blobs|;
    && |f| == OffsetOf(blobs, n, n)
    && n < U16 && f[..6] == Le16(0) + Le16(1) + Le16(n)
    && forall k :: 0 <= k < n ==> Selects(f, dims, blobs, n, k)
  }

  ghost predicate Selects(f: seq<Byte>, dims: seq<int>, blobs: seq<seq<Byte>>, n: nat, k: nat)
    requires k < |dims| == |blobs|
  {
    var at := 6 + 16 * k;
    var offset := OffsetOf(blobs, n, k);
    && at + 16 <= |f| && f[at] == f[at + 1] == dims[k] && f[at + 2..at + 8] == [0, 0, 1, 0, 32, 0]
    && U32At(f, at + 8) == |blobs[k]| && U32At(f, at + 12) == offset
    && offset + |blobs[k]| <= |f| && f[offset..offset + |blobs[k]|] == blobs[k]
  }

  function Dims(bmp: seq<(int, seq<Byte>)>, png: seq<(int, seq<Byte>)>): (d: seq<int>)
    ensures |d| == |bmp| + |png|
  {
    seq(|bmp| + |png|, k requires 0 <= k < |bmp| + |png| =>
      if k < |bmp| then (if bmp[k].0 < 256 then bmp[k].0 else 0) else 0)
  }

  function BlobsOf(bmp: seq<(int, seq<Byte>)>, png: seq<(int, seq<Byte>)>): (b: seq<seq<Byte>>)
    ensures |b| == |bmp| + |png|
  {
    seq(|bmp| + |png|, k requires 0 <= k < |bmp| + |png| => if k < |bmp| then bmp[k].1 else png[k - |bmp|].1)
  }

  /** A side of 256 is written as 0, as readers of the format expect; smaller ones as they are. */
  lemma DimMeans(bmp: seq<(int, seq<Byte>)>, png: seq<(int, seq<Byte>)>, k: nat)
    requires k < |bmp| + |png| && (k < |bmp| ==> 1 <= bmp[k].0 <= 256)
    ensures var d := Dims(bmp, png)[k];
            (if d == 0 then 256 else d) == if k < |bmp| then bmp[k].0 else 256
    ensures BlobsOf(bmp, png)[k] == if k < |bmp| then bmp[k].1 else png[k - |bmp|].1
  {
  }

  /** The first `k` directory entries. */
  function Directory(dims: seq<int>, blobs: seq<seq<Byte>>, n: nat, k: nat): (s: seq<Byte>)
    requires k <= |dims| == |blobs| && AllFit(dims, blobs, n, k)
    ensures |s| == 16 * k
  {
    if k == 0 then []
    else
      assert Fits(dims, blobs, n, k - 1);
      Directory(dims, blobs, n, k - 1) + Entry(dims[k - 1], |blobs[k - 1]|, OffsetOf(blobs, n, k - 1))
  }

  function Joined(blobs: seq<seq<Byte>>, k: nat): (s: seq<Byte>)
    requires k <= |blobs|
    ensures |s| == SizeBefore(blobs, k)
  {
    if k == 0 then [] else Joined(blobs, k - 1) + blobs[k - 1]
  }

  lemma {:induction false} DirectoryAt(dims: seq<int>, blobs: seq<seq<Byte>>, n: nat, k: nat, i: nat)
    requires i < k <= |dims| == |blobs| && AllFit(dims, blobs, n, k)
    ensures Fits(dims, blobs, n, i)
    ensures Directory(dims, blobs, n, k)[16 * i..16 * i + 16] == Entry(dims[i], |blobs[i]|, OffsetOf(blobs, n, i))
  {
    if i < k - 1 { DirectoryAt(dims, blobs, n, k - 1, i); }
  }

  lemma {:induction false} JoinedAt(blobs: seq<seq<Byte>>, k: nat, i: nat)
    requires i < k <= |blobs|
    ensures SizeBefore(blobs, i) + |blobs[i]| <= SizeBefore(blobs, k)
    ensures Joined(blobs, k)[SizeBefore(blobs, i)..SizeBefore(blobs, i) + |blobs[i]|] == blobs[i]
  {
    if i < k - 1 { JoinedAt(blobs, k - 1, i); }
  }

  lemma EntryParts(dim: Byte, len: nat, offset: nat)
    requires len < U32 && offset < U32
    ensures var e := Entry(dim, len, offset);
            e[0] == e[1] == dim && e[2..8] == [0, 0, 1, 0, 32, 0] && e[8..12] == Le32(len) && e[12..16] == Le32(offset)
  {
  }

  lemma SliceOfSlice(f: seq<Byte>, at: nat, to: nat, i: nat, j: nat)
    requires i <= j && at + j <= to <= |f|
    ensures f[at..to][i..j] == f[at + i..at + j]
  {
    var s, t := f[at..to][i..j], f[at + i..at + j];
    forall k | 0 <= k < j - i
      ensures s[k] == t[k]
    {
      assert f[at..to][i + k] == f[at + (i + k)];
    }
  }

  lemma EntrySelects(dims: seq<int>, blobs: seq<seq<Byte>>, n: nat, k: nat, at: nat, f: seq<Byte>)
    requires k < |dims| == |blobs| && Fits(dims, blobs, n, k)
    requires at == 6 + 16 * k && at + 16 <= |f|
    requires f[at..at + 16] == Entry(dims[k], |blobs[k]|, OffsetOf(blobs, n, k))
    requires OffsetOf(blobs, n, k) + |blobs[k]| <= |f|
    requires f[OffsetOf(blobs, n, k)..OffsetOf(blobs, n, k) + |blobs[k]|] == blobs[k]
    ensures Selects(f, dims, blobs, n, k)
  {
    hide OffsetOf, U32At, Entry, Le32;
    var e := f[at..at + 16];
    EntryParts(dims[k], |blobs[k]|, OffsetOf(blobs, n, k));
    assert f[at] == e[0] && f[at + 1] == e[1];
    SliceOfSlice(f, at, at + 16, 2, 8);
    SliceOfSlice(f, at, at + 16, 8, 12);
    SliceOfSlice(f, at, at + 16, 12, 16);
    Le32RoundTrip(|blobs[k]|, f, at + 8);
    Le32RoundTrip(OffsetOf(blobs, n, k), f, at + 12);
  }

  lemma FileIsIco(dims: seq<int>, blobs: seq<seq<Byte>>, f: seq<Byte>)
    requires |dims| == |blobs| < U16 && AllFit(dims, blobs, |blobs|, |blobs|)
    requires f == Le16(0) + Le16(1) + Le16(|blobs|) + Directory(dims, blobs, |blobs|, |blobs|) + Joined(blobs, |blobs|)
    ensures IsIco(f, dims, blobs)
  {
    hide Entry, Selects, Directory, Joined, Fits, Le16;
    var start := Le16(0) + Le16(1) + Le16(|blobs|);
    assert f[..6] == start;
    forall k | 0 <= k < |blobs|
      ensures Selects(f, dims, blobs, |blobs|, k)
    {
      SelectedAt(dims, blobs, start, f, k);
    }
  }

  lemma SelectedAt(dims: seq<int>, blobs: seq<seq<Byte>>, start: seq<Byte>, f: seq<Byte>, k: nat)
    requires k < |dims| == |blobs| && AllFit(dims, blobs, |blobs|, |blobs|) && |start| == 6
    requires f == start + Directory(dims, blobs, |blobs|, |blobs|) + Joined(blobs, |blobs|)
    ensures Selects(f, dims, blobs, |blobs|, k)
  {
    hide Entry, Selects, Directory, Joined, Fits, AllFit, OffsetOf;
    DirectoryAt(dims, blobs, |blobs|, |blobs|, k);
    EntryInFile(dims, blobs, start, f, k);
    BlobInFile(blobs, start, Directory(dims, blobs, |blobs|, |blobs|), f, k);
    EntrySelects(dims, blobs, |blobs|, k, 6 + 16 * k, f);
  }

  lemma EntryInFile(dims: seq<int>, blobs: seq<seq<Byte>>, start: seq<Byte>, f: seq<Byte>, k: nat)
    requires k < |dims| == |blobs| && AllFit(dims, blobs, |blobs|, |blobs|) && |start| == 6
    requires f == start + Directory(dims, blobs, |blobs|, |blobs|) + Joined(blobs, |blobs|)
    ensures Fits(dims, blobs, |blobs|, k) && 6 + 16 * k + 16 <= |f|
    ensures f[6 + 16 * k..6 + 16 * k + 16] == Entry(dims[k], |blobs[k]|, OffsetOf(blobs, |blobs|, k))
  {
    hide Entry, Directory, Joined, Fits, AllFit, OffsetOf;
    var n := |blobs|;
    DirectoryAt(dims, blobs, n, n, k);
    Parts(start, Directory(dims, blobs, n, n), Joined(blobs, n), f, 16 * k, 16 * k + 16, 6 + 16 * k, 6 + 16 * k + 16);
  }

  lemma BlobInFile(blobs: seq<seq<Byte>>, start: seq<Byte>, d: seq<Byte>, f: seq<Byte>, k: nat)
    requires k < |blobs| && |start| == 6 && |d| == 16 * |blobs| && f == start + d + Joined(blobs, |blobs|)
    ensures OffsetOf(blobs, |blobs|, k) + |blobs[k]| <= |f|
    ensures f[OffsetOf(blobs, |blobs|, k)..OffsetOf(blobs, |blobs|, k) + |blobs[k]|] == blobs[k]
  {
    hide Joined, SizeBefore;
    var n, o, len := |blobs|, SizeBefore(blobs, k), |blobs[k]|;
    JoinedAt(blobs, n, k);
    assert f == (start + d) + Joined(blobs, n) + [];
    Parts(start + d, Joined(blobs, n), [], f, o, o + len, OffsetOf(blobs, n, k), OffsetOf(blobs, n, k) + len);
  }

  /** A piece of the middle part of a concatenation. */
  lemma Parts(a: seq<Byte>, b: seq<Byte>, c: seq<Byte>, f: seq<Byte>, i: nat, j: nat, at: nat, to: nat)
    requires f == a + b + c && i <= j <= |b| && at == |a| + i && to == |a| + j
    ensures to <= |f| && f[at..to] == b[i..j]
  {
    var s, t := f[at..to], b[i..j];
    forall k | 0 <= k < j - i
      ensures s[k] == t[k]
    {
      assert f[at + k] == b[i + k];
    }
  }

  lemma AddEntry(dims: seq<int>, blobs: seq<seq<Byte>>, n: nat, k: nat)
    requires k < |dims| == |blobs| && AllFit(dims, blobs, n, k) && Fits(dims, blobs, n, k)
    ensures AllFit(dims, blobs, n, k + 1)
    ensures Directory(dims, blobs, n, k + 1)
            == Directory(dims, blobs, n, k) + Entry(dims[k], |blobs[k]|, OffsetOf(blobs, n, k))
    ensures OffsetOf(blobs, n, k + 1) == OffsetOf(blobs, n, k) + |blobs[k]|
  {
  }

  /** `bmp` and `png` are the two dictionaries' items, sorted. The result is what is written to the
      file; struct.pack raises exactly when a field does not fit its width. */
  method WriteIco(bmp: seq<(int, seq<Byte>)>, png: seq<(int, seq<Byte>)>) returns (r: Result<seq<Byte>>)
    ensures r.Ok? <==> |bmp| + |png| < U16
                       && AllFit(Dims(bmp, png), BlobsOf(bmp, png), |bmp| + |png|, |bmp| + |png|)
    ensures r.Ok? ==> IsIco(r.value, Dims(bmp, png), BlobsOf(bmp, png))
  {
    hide Entry, IsIco, Directory, Joined, OffsetOf, AllFit, Le16, Dims, BlobsOf;
    var total := |bmp| + |png|;
    if total >= U16 { return StructError; }
    ghost var dims, all := Dims(bmp, png), BlobsOf(bmp, png);
    ghost var start := Le16(0) + Le16(1) + Le16(total);
    var out := Le16(0) + Le16(1) + Le16(total);
    var offset := 6 + 16 * total;
    var blobs: seq<seq<Byte>> := [];
    WriteStarts(dims, all, total);
    for i := 0 to |bmp|
      invariant blobs == all[..i] && offset == OffsetOf(all, total, i)
      invariant AllFit(dims, all, total, i) && out == start + Directory(dims, all, total, i)
    {
      var (size, blob) := bmp[i];
      var dim := if size < 256 then size else 0;
      BmpItem(bmp, png, i);
      if dim < 0 || |blob| >= U32 || offset >= U32 {
        Unfit(dims, all, total, i);
        return StructError;
      }
      AddEntry(dims, all, total, i);
      out := out + Entry(dim, |blob|, offset);
      offset := offset + |blob|;
      blobs := blobs + [blob];
    }
    for i := 0 to |png|
      invariant blobs == all[..|bmp| + i] && offset == OffsetOf(all, total, |bmp| + i)
      invariant AllFit(dims, all, total, |bmp| + i) && out == start + Directory(dims, all, total, |bmp| + i)
    {
      var blob := png[i].1;
      PngItem(bmp, png, i);
      if |blob| >= U32 || offset >= U32 {
        Unfit(dims, all, total, |bmp| + i);
        return StructError;
      }
      AddEntry(dims, all, total, |bmp| + i);
      out := out + Entry(0, |blob|, offset);
      offset := offset + |blob|;
      blobs := blobs + [blob];
    }
    ghost var head := out;
    assert blobs == all;
    for i := 0 to |blobs|
      invariant out == head + Joined(all, i)
    {
      JoinedNext(all, i);
      out := out + blobs[i];
    }
    FileIsIco(dims, all, out);
    r := Ok(out);
  }

  lemma BmpItem(bmp: seq<(int, seq<Byte>)>, png: seq<(int, seq<Byte>)>, i: nat)
    requires i < |bmp|
    ensures Dims(bmp, png)[i] == (if bmp[i].0 < 256 then bmp[i].0 else 0) && BlobsOf(bmp, png)[i] == bmp[i].1
  {
  }

  lemma PngItem(bmp: seq<(int, seq<Byte>)>, png: seq<(int, seq<Byte>)>, i: nat)
    requires i < |png|
    ensures Dims(bmp, png)[|bmp| + i] == 0 && BlobsOf(bmp, png)[|bmp| + i] == png[i].1
  {
  }

  lemma WriteStarts(dims: seq<int>, blobs: seq<seq<Byte>>, n: nat)
    requires |dims| == |blobs|
    ensures AllFit(dims, blobs, n, 0) && Directory(dims, blobs, n, 0) == []
    ensures OffsetOf(blobs, n, 0) == 6 + 16 * n && Joined(blobs, 0) == []
  {
  }

  lemma Unfit(dims: seq<int>, blobs: seq<seq<Byte>>, n: nat, k: nat)
    requires k < |dims| == |blobs| && !Fits(dims, blobs, n, k)
    ensures !AllFit(dims, blobs, n, |blobs|)
  {
  }

  lemma JoinedNext(blobs: seq<seq<Byte>>, k: nat)
    requires k < |blobs|
    ensures Joined(blobs, k + 1) == Joined(blobs, k) + blobs[k]
  {
  }
}
