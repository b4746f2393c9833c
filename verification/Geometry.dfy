/** Screen points and a little arithmetic, shared by the raster examples. */
module Geometry {

  datatype Point = Point(x: int, y: int)

  function Abs(v: int): (r: int)
    ensures r >= 0
  {
    if v < 0 then -v else v
  }

  lemma Multiple(k: int, m: int)
    requires m > 0
    ensures k >= 1 ==> k * m >= m
    ensures k >= 2 ==> k * m >= 2 * m
    ensures k <= -1 ==> k * m <= -m
  {
    if k >= 1 {
      assert (k - 1) * m >= 0;
      if k >= 2 { assert (k - 2) * m >= 0; }
    } else if k <= -1 {
      assert (-1 - k) * m >= 0;
    }
  }
}
