/** Frames and sample points. A frame is the 8-bit grayscale image the reader
    probes (the processed capture) or tracks against (the plain grayscale capture);
    a sample point is a pair of real coordinates, as clicks and drift leave them. */
module Imaging {

  datatype Point = Point(x: real, y: real)

  /** A grayscale image `height x width`, stored row by row, every pixel a byte. */
  datatype Frame = Frame(width: nat, rows: seq<seq<int>>)
  {
    function Height(): nat { |rows| }

    ghost predicate Valid()
    {
      forall r :: 0 <= r < |rows| ==>
        |rows[r]| == width && forall c :: 0 <= c < width ==> 0 <= rows[r][c] < 256
    }

    predicate Contains(col: int, row: int)
    {
      0 <= col < width && 0 <= row < |rows|
    }
  }

  /** Python's `int()` on a float: rounds toward zero. */
  function Trunc(r: real): (n: int)
    ensures r >= 0.0 ==> 0 <= n && n as real <= r < n as real + 1.0
    ensures r < 0.0 ==> n <= 0 && n as real - 1.0 < r <= n as real
  {
    if r >= 0.0 then r.Floor else -((-r).Floor)
  }

  /** The luminosity of the pixel under a sample point: the point's coordinates are
      truncated toward zero, and a point whose truncated coordinates fall outside
      the frame reads as 0, i.e. as dark, rather than failing. */
  function Luminosity(f: Frame, p: Point): (lum: int)
    requires f.Valid()
    ensures 0 <= lum < 256
    ensures f.Contains(Trunc(p.x), Trunc(p.y)) ==> lum == f.rows[Trunc(p.y)][Trunc(p.x)]
    ensures !f.Contains(Trunc(p.x), Trunc(p.y)) ==> lum == 0
  {
    var col, row := Trunc(p.x), Trunc(p.y);
    if 0 <= col < f.width && 0 <= row < f.Height() then f.rows[row][col] else 0
  }

  /** A point with non-negative coordinates reads the pixel whose unit square
      [col, col + 1) x [row, row + 1) holds it. */
  lemma LuminosityOfCoveringPixel(f: Frame, p: Point, col: nat, row: nat)
    requires f.Valid() && col < f.width && row < f.Height()
    requires col as real <= p.x < col as real + 1.0 && row as real <= p.y < row as real + 1.0
    ensures Luminosity(f, p) == f.rows[row][col]
  {
  }

  /** Truncation lets a point up to one pixel left of or above the frame read
      the first column or row instead of the dark default: only points at or
      beyond -1 (or at or beyond the width and height) read as 0. */
  lemma LuminosityNearNegativeEdge(f: Frame, p: Point)
    requires f.Valid() && f.width > 0 && f.Height() > 0
    requires -1.0 < p.x < 0.0 && -1.0 < p.y < 0.0
    ensures Luminosity(f, p) == f.rows[0][0]
  {
  }

  lemma LuminosityOutsideIsDark(f: Frame, p: Point)
    requires f.Valid()
    requires p.x <= -1.0 || p.y <= -1.0 || p.x >= f.width as real || p.y >= f.Height() as real
    ensures Luminosity(f, p) == 0
  {
  }

  // ---------------------------------------------------------------- crops

  /** Python's `s[lo:hi]`: negative bounds count from the end, and both bounds are
      clamped to the sequence, so slicing never fails. */
  function PySlice<T>(s: seq<T>, lo: int, hi: int): (r: seq<T>)
    ensures |r| <= |s|
    ensures 0 <= lo <= hi <= |s| ==> r == s[lo..hi]
    ensures 0 <= hi <= lo ==> r == []
  {
    var n := |s|;
    var a := if lo < 0 then (if lo + n < 0 then 0 else lo + n) else (if lo < n then lo else n);
    var b := if hi < 0 then (if hi + n < 0 then 0 else hi + n) else (if hi < n then hi else n);
    if a < b then s[a..b] else []
  }

  /** A negative bound counts from the end: it stands for the index it denotes
      after adding the length. */
  lemma PySliceNegative<T>(s: seq<T>, lo: int, hi: int)
    ensures -|s| <= lo < 0 ==> PySlice(s, lo, hi) == PySlice(s, lo + |s|, hi)
    ensures -|s| <= hi < 0 ==> PySlice(s, lo, hi) == PySlice(s, lo, hi + |s|)
  {
  }

  /** Bounds beyond either end are clamped to the sequence: a start before the
      beginning acts as 0 and an end past the end acts as the length. */
  lemma PySliceClamped<T>(s: seq<T>, lo: int, hi: int)
    ensures lo < -|s| ==> PySlice(s, lo, hi) == PySlice(s, 0, hi)
    ensures hi < -|s| ==> PySlice(s, lo, hi) == []
    ensures hi > |s| ==> PySlice(s, lo, hi) == PySlice(s, lo, |s|)
  {
  }

  /** `frame[y:y+h, x:x+w]`: the rectangle of pixels with its top-left corner at
      (x, y), clipped to the frame. */
  function Crop(f: Frame, x: int, y: int, w: int, h: int): (patch: seq<seq<int>>)
  {
    var band := PySlice(f.rows, y, y + h);
    seq(|band|, i requires 0 <= i < |band| => PySlice(band[i], x, x + w))
  }

  /** A rectangle that lies inside the frame is copied exactly: `h` rows of `w`
      pixels, pixel (i, j) of the patch being pixel (x + j, y + i) of the frame. */
  lemma CropInside(f: Frame, x: int, y: int, w: int, h: int)
    requires f.Valid()
    requires 0 <= x && 0 <= w && x + w <= f.width
    requires 0 <= y && 0 <= h && y + h <= f.Height()
    ensures |Crop(f, x, y, w, h)| == h
    ensures forall i :: 0 <= i < h ==> |Crop(f, x, y, w, h)[i]| == w
    ensures forall i, j :: 0 <= i < h && 0 <= j < w ==> Crop(f, x, y, w, h)[i][j] == f.rows[y + i][x + j]
  {
    var band := PySlice(f.rows, y, y + h);
    assert band == f.rows[y..y + h];
    forall i | 0 <= i < h
      ensures PySlice(band[i], x, x + w) == f.rows[y + i][x..x + w]
    {
      assert band[i] == f.rows[y + i];
    }
  }
}
