/** The geometry of drift tracking in MultiRead.py: the tracking rectangle chosen
    from four clicks or defaulted to the central half of the frame, and the
    translation of every digit template by the displacement the tracker detects. */
module Tracking {
  import opened Imaging

  /** A tracking rectangle `(x, y, w, h)`: top-left corner, width and height. */
  datatype Box = Box(x: int, y: int, w: int, h: int)

  /** Python's `min` over a non-empty list of numbers. */
  function MinOf(xs: seq<real>): (m: real)
    requires |xs| > 0
    ensures m in xs && forall i :: 0 <= i < |xs| ==> m <= xs[i]
  {
    if |xs| == 1 then xs[0]
    else
      var rest := MinOf(xs[1..]);
      if xs[0] <= rest then xs[0] else rest
  }

  /** Python's `max` over a non-empty list of numbers. */
  function MaxOf(xs: seq<real>): (m: real)
    requires |xs| > 0
    ensures m in xs && forall i :: 0 <= i < |xs| ==> xs[i] <= m
  {
    if |xs| == 1 then xs[0]
    else
      var rest := MaxOf(xs[1..]);
      if xs[0] >= rest then xs[0] else rest
  }

  function Xs(ps: seq<Point>): (xs: seq<real>)
    ensures |xs| == |ps| && forall i :: 0 <= i < |ps| ==> xs[i] == ps[i].x
  {
    seq(|ps|, i requires 0 <= i < |ps| => ps[i].x)
  }

  function Ys(ps: seq<Point>): (ys: seq<real>)
    ensures |ys| == |ps| && forall i :: 0 <= i < |ps| ==> ys[i] == ps[i].y
  {
    seq(|ps|, i requires 0 <= i < |ps| => ps[i].y)
  }

  /** The rectangle spanned by the clicked corner points (four of them in the
      source): its corner is the truncated leftmost x and topmost y, and its width
      and height are the truncated distances to the rightmost x and bottommost y
      (`BoundingBoxWidth`, `BoundingBoxHeight`); every click lies within it, up to truncation. */
  function BoundingBox(clicks: seq<Point>): (b: Box)
    requires |clicks| > 0
    ensures b.w >= 0 && b.h >= 0
    ensures forall k :: 0 <= k < |clicks| ==>
      b.x <= Trunc(clicks[k].x) <= b.x + b.w + 1 && b.y <= Trunc(clicks[k].y) <= b.y + b.h + 1
    ensures exists k :: 0 <= k < |clicks| && Trunc(clicks[k].x) == b.x
    ensures exists k :: 0 <= k < |clicks| && Trunc(clicks[k].y) == b.y
  {
    var xs, ys := Xs(clicks), Ys(clicks);
    var xMin, yMin := MinOf(xs), MinOf(ys);
    var xMax, yMax := MaxOf(xs), MaxOf(ys);
    TruncSpan(xs, xMin, xMax);
    TruncSpan(ys, yMin, yMax);
    Box(Trunc(xMin), Trunc(yMin), Trunc(xMax - xMin), Trunc(yMax - yMin))
  }

  /** The rectangle's width is pinned by the clicks themselves: some click `i` is
      leftmost and some click `j` rightmost, the corner is `int(x_i)` and the width
      is `int(x_j - x_i)`. */
  lemma BoundingBoxWidth(clicks: seq<Point>)
    requires |clicks| > 0
    ensures exists i, j ::
      && 0 <= i < |clicks| && 0 <= j < |clicks| && SpansX(clicks, i, j)
      && BoundingBox(clicks).x == Trunc(clicks[i].x) && BoundingBox(clicks).w == Trunc(clicks[j].x - clicks[i].x)
  {
    var i, j := HorizontalExtremes(clicks);
    assert SpansX(clicks, i, j);
    assert BoundingBox(clicks).x == Trunc(clicks[i].x) && BoundingBox(clicks).w == Trunc(clicks[j].x - clicks[i].x);
  }

  /** Likewise the height: the corner is `int(y_i)` of a topmost click `i` and the
      height `int(y_j - y_i)` for a bottommost click `j`. */
  lemma BoundingBoxHeight(clicks: seq<Point>)
    requires |clicks| > 0
    ensures exists i, j ::
      && 0 <= i < |clicks| && 0 <= j < |clicks| && SpansY(clicks, i, j)
      && BoundingBox(clicks).y == Trunc(clicks[i].y) && BoundingBox(clicks).h == Trunc(clicks[j].y - clicks[i].y)
  {
    var i, j := VerticalExtremes(clicks);
    assert SpansY(clicks, i, j);
    assert BoundingBox(clicks).y == Trunc(clicks[i].y) && BoundingBox(clicks).h == Trunc(clicks[j].y - clicks[i].y);
  }

  /** Click `i` has the smallest and click `j` the largest x of all clicks. */
  predicate SpansX(clicks: seq<Point>, i: nat, j: nat)
    requires i < |clicks| && j < |clicks|
  {
    forall k :: 0 <= k < |clicks| ==> clicks[i].x <= clicks[k].x <= clicks[j].x
  }

  /** Click `i` has the smallest and click `j` the largest y of all clicks. */
  predicate SpansY(clicks: seq<Point>, i: nat, j: nat)
    requires i < |clicks| && j < |clicks|
  {
    forall k :: 0 <= k < |clicks| ==> clicks[i].y <= clicks[k].y <= clicks[j].y
  }

  /** The clicks holding the smallest and the largest x. */
  lemma HorizontalExtremes(clicks: seq<Point>) returns (i: nat, j: nat)
    requires |clicks| > 0
    ensures i < |clicks| && j < |clicks|
    ensures clicks[i].x == MinOf(Xs(clicks)) && clicks[j].x == MaxOf(Xs(clicks))
    ensures forall k :: 0 <= k < |clicks| ==> clicks[i].x <= clicks[k].x <= clicks[j].x
  {
    var xs := Xs(clicks);
    i :| 0 <= i < |xs| && xs[i] == MinOf(xs);
    j :| 0 <= j < |xs| && xs[j] == MaxOf(xs);
    forall k | 0 <= k < |clicks| ensures clicks[i].x <= clicks[k].x <= clicks[j].x {
      assert xs[k] == clicks[k].x && xs[i] == clicks[i].x && xs[j] == clicks[j].x;
      assert MinOf(xs) <= xs[k] <= MaxOf(xs);
    }
  }

  /** The clicks holding the smallest and the largest y. */
  lemma VerticalExtremes(clicks: seq<Point>) returns (i: nat, j: nat)
    requires |clicks| > 0
    ensures i < |clicks| && j < |clicks|
    ensures clicks[i].y == MinOf(Ys(clicks)) && clicks[j].y == MaxOf(Ys(clicks))
    ensures forall k :: 0 <= k < |clicks| ==> clicks[i].y <= clicks[k].y <= clicks[j].y
  {
    var ys := Ys(clicks);
    i :| 0 <= i < |ys| && ys[i] == MinOf(ys);
    j :| 0 <= j < |ys| && ys[j] == MaxOf(ys);
    forall k | 0 <= k < |clicks| ensures clicks[i].y <= clicks[k].y <= clicks[j].y {
      assert ys[k] == clicks[k].y && ys[i] == clicks[i].y && ys[j] == clicks[j].y;
      assert MinOf(ys) <= ys[k] <= MaxOf(ys);
    }
  }

  /** Truncation is monotone and loses less than one on either side, so the
      truncated span from the smallest to the largest value covers every truncated
      value, with at most one to spare. */
  lemma TruncSpan(xs: seq<real>, lo: real, hi: real)
    requires lo in xs && hi in xs
    requires forall i :: 0 <= i < |xs| ==> lo <= xs[i] <= hi
    ensures Trunc(hi - lo) >= 0
    ensures forall i :: 0 <= i < |xs| ==> Trunc(lo) <= Trunc(xs[i]) <= Trunc(lo) + Trunc(hi - lo) + 1
  {
    forall i | 0 <= i < |xs| ensures Trunc(lo) <= Trunc(xs[i]) {
      TruncMonotone(lo, xs[i]);
    }
  }

  lemma TruncMonotone(a: real, b: real)
    requires a <= b
    ensures Trunc(a) <= Trunc(b)
  {
  }

  /** The corners may be clicked in any order: the rectangle depends only on which
      points were clicked. */
  lemma BoundingBoxOrderFree(clicks: seq<Point>, others: seq<Point>)
    requires |clicks| > 0 && |others| > 0 && multiset(clicks) == multiset(others)
    ensures BoundingBox(clicks) == BoundingBox(others)
  {
    assert |others| == |multiset(others)| == |multiset(clicks)| == |clicks|;
    var xs, xs', ys, ys' := Xs(clicks), Xs(others), Ys(clicks), Ys(others);
    forall p | p in clicks ensures p in others { assert p in multiset(others); }
    forall p | p in others ensures p in clicks { assert p in multiset(clicks); }
    SameXs(clicks, others);
    SameYs(clicks, others);
    SameExtremes(xs, xs');
    SameExtremes(ys, ys');
  }

  /** Clicks holding the same points hold the same x coordinates. */
  lemma SameXs(clicks: seq<Point>, others: seq<Point>)
    requires forall p :: p in clicks <==> p in others
    ensures forall v :: v in Xs(clicks) <==> v in Xs(others)
  {
    var xs, xs' := Xs(clicks), Xs(others);
    forall v | v in xs ensures v in xs' {
      var i :| 0 <= i < |xs| && xs[i] == v;
      assert clicks[i] in others;
      var j :| 0 <= j < |others| && others[j] == clicks[i];
      assert xs'[j] == v;
    }
    forall v | v in xs' ensures v in xs {
      var j :| 0 <= j < |xs'| && xs'[j] == v;
      assert others[j] in clicks;
      var i :| 0 <= i < |clicks| && clicks[i] == others[j];
      assert xs[i] == v;
    }
  }

  /** Clicks holding the same points hold the same y coordinates. */
  lemma SameYs(clicks: seq<Point>, others: seq<Point>)
    requires forall p :: p in clicks <==> p in others
    ensures forall v :: v in Ys(clicks) <==> v in Ys(others)
  {
    var ys, ys' := Ys(clicks), Ys(others);
    forall v | v in ys ensures v in ys' {
      var i :| 0 <= i < |ys| && ys[i] == v;
      assert clicks[i] in others;
      var j :| 0 <= j < |others| && others[j] == clicks[i];
      assert ys'[j] == v;
    }
    forall v | v in ys' ensures v in ys {
      var j :| 0 <= j < |ys'| && ys'[j] == v;
      assert others[j] in clicks;
      var i :| 0 <= i < |clicks| && clicks[i] == others[j];
      assert ys[i] == v;
    }
  }

  /** Two lists holding the same values have the same minimum and maximum. */
  lemma SameExtremes(xs: seq<real>, ys: seq<real>)
    requires |xs| > 0 && |ys| > 0
    requires forall v :: v in xs <==> v in ys
    ensures MinOf(xs) == MinOf(ys) && MaxOf(xs) == MaxOf(ys)
  {
    var m, n := MinOf(xs), MinOf(ys);
    var i :| 0 <= i < |ys| && ys[i] == m;
    var j :| 0 <= j < |xs| && xs[j] == n;
    var M, N := MaxOf(xs), MaxOf(ys);
    var i' :| 0 <= i' < |ys| && ys[i'] == M;
    var j' :| 0 <= j' < |xs| && xs[j'] == N;
  }

  /** The default rectangle when tracking starts without one: the central half of
      the frame, `(w//4, h//4, w//2, h//2)`. It is centred: the margin on the right
      (below) is at least the margin on the left (above) and at most two more. */
  function CentralBox(f: Frame): (b: Box)
    ensures 0 <= b.x && 0 <= b.w && b.x + b.w <= f.width && 2 * b.w <= f.width < 2 * b.w + 2
    ensures 0 <= b.y && 0 <= b.h && b.y + b.h <= f.Height() && 2 * b.h <= f.Height() < 2 * b.h + 2
    ensures b.x <= f.width - (b.x + b.w) <= b.x + 2
    ensures b.y <= f.Height() - (b.y + b.h) <= b.y + 2
  {
    Box(f.width / 4, f.Height() / 4, f.width / 2, f.Height() / 2)
  }

  /** The reference patch of a rectangle: the frame's pixels under it. */
  function PatchOf(f: Frame, b: Box): seq<seq<int>>
  {
    Crop(f, b.x, b.y, b.w, b.h)
  }

  /** The default rectangle lies inside the frame, so its patch is exactly the
      central `h//2` rows of `w//2` pixels. */
  lemma CentralPatch(f: Frame)
    requires f.Valid()
    ensures |PatchOf(f, CentralBox(f))| == f.Height() / 2
    ensures forall i :: 0 <= i < f.Height() / 2 ==> |PatchOf(f, CentralBox(f))[i]| == f.width / 2
    ensures forall i, j :: 0 <= i < f.Height() / 2 && 0 <= j < f.width / 2 ==>
      PatchOf(f, CentralBox(f))[i][j] == f.rows[f.Height() / 4 + i][f.width / 4 + j]
  {
    var b := CentralBox(f);
    CropInside(f, b.x, b.y, b.w, b.h);
  }

  // ---------------------------------------------------------------- drift

  /** `atualizar_template`: every point of a template moved by (dx, dy). */
  function Translate(template: seq<Point>, dx: int, dy: int): seq<Point>
  {
    seq(|template|, i requires 0 <= i < |template| =>
      Point(template[i].x + dx as real, template[i].y + dy as real))
  }

  /** The four `if template_dN: template_dN = atualizar_template(template_dN)`
      statements: each non-empty template is translated, an empty one left alone. */
  function TranslateAll(templates: seq<seq<Point>>, dx: int, dy: int): seq<seq<Point>>
  {
    seq(|templates|, k requires 0 <= k < |templates| =>
      if templates[k] != [] then Translate(templates[k], dx, dy) else templates[k])
  }

  /** Every template keeps its length, and every point of every template moves by
      exactly (dx, dy). */
  lemma TranslateAllMovesEveryPoint(templates: seq<seq<Point>>, dx: int, dy: int)
    ensures |TranslateAll(templates, dx, dy)| == |templates|
    ensures forall k :: 0 <= k < |templates| ==> |TranslateAll(templates, dx, dy)[k]| == |templates[k]|
    ensures forall k, i :: 0 <= k < |templates| && 0 <= i < |templates[k]| ==>
      TranslateAll(templates, dx, dy)[k][i] == Point(templates[k][i].x + dx as real, templates[k][i].y + dy as real)
  {
  }

  /** Tracking a rectangle from origin `b` to the match location `(mx, my)` keeps
      every sample point at the same offset from the rectangle's origin: the
      calibration stays locked to the display. */
  lemma DriftKeepsOffsetsToBox(templates: seq<seq<Point>>, b: Box, mx: int, my: int)
    ensures forall k, i :: 0 <= k < |templates| && 0 <= i < |templates[k]| ==>
      TranslateAll(templates, mx - b.x, my - b.y)[k][i].x - mx as real == templates[k][i].x - b.x as real &&
      TranslateAll(templates, mx - b.x, my - b.y)[k][i].y - my as real == templates[k][i].y - b.y as real
  {
  }

  /** Drift is integrated step by step: two translations add up to one. */
  lemma {:induction false} TranslateAllComposes(templates: seq<seq<Point>>, dx1: int, dy1: int, dx2: int, dy2: int)
    ensures TranslateAll(TranslateAll(templates, dx1, dy1), dx2, dy2) == TranslateAll(templates, dx1 + dx2, dy1 + dy2)
  {
    var once := TranslateAll(templates, dx1, dy1);
    forall k | 0 <= k < |templates|
      ensures TranslateAll(once, dx2, dy2)[k] == TranslateAll(templates, dx1 + dx2, dy1 + dy2)[k]
    {
      if templates[k] != [] {
        assert once[k] != [] by { assert |once[k]| == |templates[k]|; }
      }
    }
  }

  /** Two tracking steps, from origin `b` to `(m1x, m1y)` and then to `(m2x, m2y)`,
      move the templates as one step from `b` straight to the second location would. */
  lemma TwoStepsTelescope(templates: seq<seq<Point>>, b: Box, m1x: int, m1y: int, m2x: int, m2y: int)
    ensures TranslateAll(TranslateAll(templates, m1x - b.x, m1y - b.y), m2x - m1x, m2y - m1y)
         == TranslateAll(templates, m2x - b.x, m2y - b.y)
  {
    TranslateAllComposes(templates, m1x - b.x, m1y - b.y, m2x - m1x, m2y - m1y);
  }
}
