/** Rectangles, cropping against a scissor and pre-rotation of a source crop.

    The meaning of a crop is the map that sends a point of the displayed frame to the point
    of the source buffer that is shown there (`Sample`). Ratios are exact reals here. */
module Geometry {
  import Bits

  datatype Rect = Rect(l: int, t: int, r: int, b: int) {
    function W(): int { r - l }
    function H(): int { b - t }
  }

  datatype Whf = Whf(w: int, h: int, format: int)
  datatype Dim = Dim(x: int, y: int, w: int, h: int)

  /** The eight values of eTransform: FLIP_H = 1, FLIP_V = 2, ROT_90 = 4. */
  datatype Transform = Transform(flipH: bool, flipV: bool, rot90: bool)

  const IDENTITY := Transform(false, false, false)

  predicate IsValidRect(r: Rect)
  {
    r.b > r.t && r.r > r.l
  }

  function Max(a: int, b: int): int { if a > b then a else b }
  function Min(a: int, b: int): int { if a < b then a else b }
  function Abs(a: int): nat { if a < 0 then -a else a }

  /** Conversion of a double to int: toward zero. */
  function Trunc(x: real): int
  {
    if x >= 0.0 then x.Floor else -(-x).Floor
  }

  // ---------------------------------------------------------------- crop ratios

  /** The cut ratios of the four edges. */
  datatype Cuts = Cuts(l: real, t: real, r: real, b: real)

  /** calc_cut: the flips, then the anticlockwise turn. */
  function CalcCut(c: Cuts, tr: Transform): Cuts
  {
    var c1 := if tr.flipH then Cuts(c.r, c.t, c.l, c.b) else c;
    var c2 := if tr.flipV then Cuts(c1.l, c1.b, c1.r, c1.t) else c1;
    if tr.rot90 then Cuts(c2.t, c2.r, c2.b, c2.l) else c2
  }

  function CutRatio(inside: int, outside: int, size: nat): real
    requires inside < outside ==> size > 0
  {
    if inside < outside then (outside - inside) as real / size as real else 0.0
  }

  /** An edge of an empty frame is cut off, for which the source divides by the frame's size. */
  predicate DividesByZero(dst: Rect, sci: Rect)
  {
    || (dst.W() == 0 && (dst.l < sci.l || sci.r < dst.r))
    || (dst.H() == 0 && (dst.t < sci.t || sci.b < dst.b))
  }

  function DisplayCuts(dst: Rect, sci: Rect): Cuts
    requires !DividesByZero(dst, sci)
  {
    Cuts(CutRatio(dst.l, sci.l, Abs(dst.W())), CutRatio(dst.t, sci.t, Abs(dst.H())),
         CutRatio(sci.r, dst.r, Abs(dst.W())), CutRatio(sci.b, dst.b, Abs(dst.H())))
  }

  function Clip(dst: Rect, sci: Rect): Rect
  {
    Rect(Max(dst.l, sci.l), Max(dst.t, sci.t), Min(dst.r, sci.r), Min(dst.b, sci.b))
  }

  /** An edge moved by a part of the crop's size. */
  function Moved(edge: int, size: int, ratio: real): int
  {
    Trunc(edge as real + size as real * ratio)
  }

  function CutCrop(crop: Rect, c: Cuts): Rect
  {
    Rect(Moved(crop.l, crop.W(), c.l), Moved(crop.t, crop.H(), c.t),
         Moved(crop.r, -crop.W(), c.r), Moved(crop.b, -crop.H(), c.b))
  }

  /** calculate_crop_rects: the cropped source and the clipped destination. */
  function CropRects(crop: Rect, dst: Rect, sci: Rect, tr: Transform): (Rect, Rect)
    requires !DividesByZero(dst, sci)
  {
    (CutCrop(crop, CalcCut(DisplayCuts(dst, sci), tr)), Clip(dst, sci))
  }

  /** calculate_crop_rects as the source computes it, edge by edge. */
  method CalculateCropRects(crop: Rect, dst: Rect, sci: Rect, tr: Transform) returns (crop': Rect, dst': Rect)
    requires !DividesByZero(dst, sci)
    ensures (crop', dst') == CropRects(crop, dst, sci, tr)
  {
    var cropW, cropH := crop.r - crop.l, crop.b - crop.t;
    var dstW, dstH := Abs(dst.r - dst.l), Abs(dst.b - dst.t);
    var left, right, top, bottom;
    dst' := dst;
    var edge;
    edge, left := ClipLow(dst'.l, sci.l, dstW);
    dst' := dst'.(l := edge);
    edge, right := ClipHigh(dst'.r, sci.r, dstW);
    dst' := dst'.(r := edge);
    edge, top := ClipLow(dst'.t, sci.t, dstH);
    dst' := dst'.(t := edge);
    edge, bottom := ClipHigh(dst'.b, sci.b, dstH);
    dst' := dst'.(b := edge);
    left, top, right, bottom := CalcCutInPlace(left, top, right, bottom, tr);
    crop' := crop.(l := Moved(crop.l, cropW, left));
    crop' := crop'.(t := Moved(crop'.t, cropH, top));
    crop' := crop'.(r := Moved(crop'.r, -cropW, right));
    crop' := crop'.(b := Moved(crop'.b, -cropH, bottom));
  }

  method ClipLow(edge: int, clip: int, size: nat) returns (edge': int, ratio: real)
    requires edge < clip ==> size > 0
    ensures edge' == Max(edge, clip) && ratio == CutRatio(edge, clip, size)
  {
    edge', ratio := edge, 0.0;
    if edge < clip {
      ratio := (clip - edge) as real / size as real;
      edge' := clip;
    }
  }

  method ClipHigh(edge: int, clip: int, size: nat) returns (edge': int, ratio: real)
    requires clip < edge ==> size > 0
    ensures edge' == Min(edge, clip) && ratio == CutRatio(clip, edge, size)
  {
    edge', ratio := edge, 0.0;
    if edge > clip {
      ratio := (edge - clip) as real / size as real;
      edge' := clip;
    }
  }

  method CalcCutInPlace(l: real, t: real, r: real, b: real, tr: Transform)
    returns (left: real, top: real, right: real, bottom: real)
    ensures Cuts(left, top, right, bottom) == CalcCut(Cuts(l, t, r, b), tr)
  {
    left, top, right, bottom := l, t, r, b;
    if tr.flipH { left, right := right, left; }
    if tr.flipV { top, bottom := bottom, top; }
    if tr.rot90 {
      var tmp := left;
      left := top;
      top := right;
      right := bottom;
      bottom := tmp;
    }
  }

  // ---------------------------------------------------------------- what is shown where

  /** Along one axis: the position in [lo, hi] that is shown at x of the frame [from, to],
      in reverse direction if `rev`. */
  function AxisSample(lo: int, hi: int, from: int, to: int, rev: bool, x: real): real
    requires from < to
  {
    var u := (x - from as real) / (to - from) as real;
    lo as real + (if rev then 1.0 - u else u) * (hi - lo) as real
  }

  /** The source point shown at the point (x, y) of the frame: the flips are undone, then
      the clockwise turn. */
  function Sample(crop: Rect, dst: Rect, tr: Transform, x: real, y: real): (real, real)
    requires IsValidRect(dst)
  {
    if tr.rot90 then
      (AxisSample(crop.l, crop.r, dst.t, dst.b, tr.flipV, y), AxisSample(crop.t, crop.b, dst.l, dst.r, !tr.flipH, x))
    else
      (AxisSample(crop.l, crop.r, dst.l, dst.r, tr.flipH, x), AxisSample(crop.t, crop.b, dst.t, dst.b, tr.flipV, y))
  }

  /** How much of the frame's axis lies outside the scissor at its low and high end. */
  function Low(from: int, clip: int): nat { if from < clip then clip - from else 0 }
  function High(to: int, clip: int): nat { if clip < to then to - clip else 0 }

  /** The cut at one end of an axis falls on a whole source pixel. */
  predicate Divides(size: int, cut: nat, frame: int)
    requires frame > 0
  {
    (size * cut) % frame == 0
  }

  predicate AxisExact(size: int, from: int, to: int, low: int, high: int)
    requires from < to
  {
    Divides(size, Low(from, low), to - from) && Divides(size, High(to, high), to - from)
  }

  /** All cuts fall on whole source pixels. */
  predicate ExactCut(crop: Rect, dst: Rect, sci: Rect, tr: Transform)
    requires IsValidRect(dst)
  {
    if tr.rot90 then
      AxisExact(crop.W(), dst.t, dst.b, sci.t, sci.b) && AxisExact(crop.H(), dst.l, dst.r, sci.l, sci.r)
    else
      AxisExact(crop.W(), dst.l, dst.r, sci.l, sci.r) && AxisExact(crop.H(), dst.t, dst.b, sci.t, sci.b)
  }

  /** No scaling: crop and frame have the same size, the crop being turned first. */
  predicate Unscaled(crop: Rect, dst: Rect, tr: Transform)
  {
    if tr.rot90 then crop.W() == dst.H() && crop.H() == dst.W() else crop.W() == dst.W() && crop.H() == dst.H()
  }

  lemma {:induction false} UnscaledIsExact(crop: Rect, dst: Rect, sci: Rect, tr: Transform)
    requires IsValidRect(dst) && Unscaled(crop, dst, tr)
    ensures ExactCut(crop, dst, sci, tr)
  {
    var w, h := dst.W(), dst.H();
    MultipleDivides(w, Low(dst.l, sci.l));
    MultipleDivides(w, High(dst.r, sci.r));
    MultipleDivides(h, Low(dst.t, sci.t));
    MultipleDivides(h, High(dst.b, sci.b));
  }

  lemma {:induction false} MultipleDivides(n: int, k: nat)
    requires n > 0
    ensures Divides(n, k, n)
  {
    var q := k;
    assert n * k == q * n + 0;
    ModIsUnique(n * k, n, q, 0);
  }

  lemma {:induction false} ModIsUnique(x: int, n: int, q: int, r: int)
    requires n > 0 && 0 <= r < n && x == q * n + r
    ensures x / n == q && x % n == r
  {
    var d := x / n - q;
    assert d * n == r - x % n;
    assert d >= 1 ==> d * n >= n;
    assert d <= -1 ==> d * n <= -n;
  }

  /** The exact position of a cut edge is a whole number exactly if the cut divides. */
  lemma WholeQuotient(p: int, frame: int, k: int)
    requires frame > 0
    ensures p % frame == 0 ==> p as real / frame as real == (p / frame) as real
    ensures p as real / frame as real == k as real ==> p % frame == 0 && p == k * frame
  {
    if p % frame == 0 {
      var q := p / frame;
      assert p == q * frame;
      assert p as real == q as real * frame as real;
    }
    if p as real / frame as real == k as real {
      assert p as real == k as real * frame as real;
      assert p as real == (k * frame) as real;
      ModIsUnique(p, frame, k, 0);
    }
  }

  lemma {:induction false} TimesQuotient(size: int, cut: int, frame: int)
    requires frame > 0
    ensures size as real * (cut as real / frame as real) == (size * cut) as real / frame as real
  {
    assert (size * cut) as real == size as real * cut as real;
  }

  lemma TruncWhole(a: int, y: real, k: int)
    ensures y == k as real ==> Trunc(a as real + y) == a + k
    ensures Trunc(a as real + y) as real == a as real + y ==> (Trunc(a as real + y) - a) as real == y
  {
  }

  /** A moved edge stays where the exact ratio puts it if and only if the cut divides. */
  lemma MovedExactly(edge: int, size: int, cut: nat, frame: int)
    requires frame > 0
    ensures Divides(size, cut, frame) <==>
            Moved(edge, size, cut as real / frame as real) as real ==
              edge as real + (size * cut) as real / frame as real
  {
    TimesQuotient(size, cut, frame);
    var y := (size * cut) as real / frame as real;
    assert Moved(edge, size, cut as real / frame as real) == Trunc(edge as real + y);
    var k := Trunc(edge as real + y) - edge;
    WholeQuotient(size * cut, frame, k);
    TruncWhole(edge, y, if Divides(size, cut, frame) then (size * cut) / frame else k);
  }

  lemma {:induction false} NegationDivides(size: int, cut: nat, frame: int)
    requires frame > 0
    ensures Divides(-size, cut, frame) <==> Divides(size, cut, frame)
  {
    var p := size * cut;
    assert -size * cut == -p;
    if p % frame == 0 { ModIsUnique(-p, frame, -(p / frame), 0); }
    if (-p) % frame == 0 { ModIsUnique(p, frame, -((-p) / frame), 0); }
  }

  /** The crop of one axis after its frame lost `a` at the low and `b` at the high end. */
  function AxisCrop(lo: int, hi: int, frame: int, a: nat, b: nat, rev: bool): (int, int)
    requires frame > 0
  {
    var (first, last) := if rev then (b, a) else (a, b);
    (Moved(lo, hi - lo, first as real / frame as real), Moved(hi, -(hi - lo), last as real / frame as real))
  }

  /** Two crops of one axis show the same everywhere. */
  ghost predicate AxisSame(lo: int, hi: int, from: int, to: int, lo': int, hi': int, from': int, to': int, rev: bool)
    requires from < to && from' < to'
  {
    forall x: real :: AxisSample(lo', hi', from', to', rev, x) == AxisSample(lo, hi, from, to, rev, x)
  }

  lemma {:induction false} ScaleCancels(s: real, a: real, t: real, d: real, d': real)
    requires d > 0.0 && d' > 0.0
    ensures s * a / d + ((t - a) / d') * (s * d' / d) == s * t / d
  {
    var q := s / d;
    assert s * a / d == q * a && s * t / d == q * t && s * d' / d == q * d';
    var v := (t - a) / d';
    assert v * d' == t - a;
    assert v * (q * d') == q * (v * d');
    assert q * (t - a) == q * t - q * a;
  }

  /** The part c / d of s. */
  function Part(s: real, c: real, d: real): real
    requires d != 0.0
  {
    s * c / d
  }

  /** Distance of x from the end of the frame that shows the low end of the crop. */
  function FromLow(from: int, to: int, rev: bool, x: real): real
  {
    if rev then to as real - x else x - from as real
  }

  lemma {:induction false} SampleForm(lo: int, hi: int, from: int, to: int, rev: bool, x: real)
    requires from < to
    ensures AxisSample(lo, hi, from, to, rev, x) ==
            lo as real + Part((hi - lo) as real, FromLow(from, to, rev, x), (to - from) as real)
  {
    var d, s, u := (to - from) as real, (hi - lo) as real, (x - from as real) / (to - from) as real;
    var t := FromLow(from, to, rev, x);
    assert (if rev then 1.0 - u else u) == t / d by {
      if rev {
        assert u * d == x - from as real;
        assert (1.0 - u) * d == t;
      }
    }
    assert (t / d) * s == s * t / d;
  }

  /** The cut edges are where the exact ratios put them. */
  ghost predicate EdgesExact(lo: int, hi: int, lo': int, hi': int, first: int, last: int, frame: int)
    requires frame > 0
  {
    && lo' as real == lo as real + Part((hi - lo) as real, first as real, frame as real)
    && hi' as real == hi as real - Part((hi - lo) as real, last as real, frame as real)
  }

  lemma LowEdgeExact(lo: int, size: int, cut: nat, frame: int)
    requires frame > 0
    ensures Divides(size, cut, frame) <==>
            Moved(lo, size, cut as real / frame as real) as real ==
              lo as real + Part(size as real, cut as real, frame as real)
  {
    MovedExactly(lo, size, cut, frame);
    ProductReal(size, cut, frame);
  }

  lemma HighEdgeExact(hi: int, size: int, cut: nat, frame: int)
    requires frame > 0
    ensures Divides(size, cut, frame) <==>
            Moved(hi, -size, cut as real / frame as real) as real ==
              hi as real - Part(size as real, cut as real, frame as real)
  {
    MovedExactly(hi, -size, cut, frame);
    NegationDivides(size, cut, frame);
    ProductReal(size, cut, frame);
  }

  lemma {:induction false} EdgesExactIfDivides(lo: int, hi: int, frame: int, a: nat, b: nat, rev: bool)
    requires frame > 0
    ensures var (lo', hi') := AxisCrop(lo, hi, frame, a, b, rev);
            EdgesExact(lo, hi, lo', hi', if rev then b else a, if rev then a else b, frame)
            <==> Divides(hi - lo, a, frame) && Divides(hi - lo, b, frame)
  {
    if rev {
      LowEdgeExact(lo, hi - lo, b, frame);
      HighEdgeExact(hi, hi - lo, a, frame);
    } else {
      LowEdgeExact(lo, hi - lo, a, frame);
      HighEdgeExact(hi, hi - lo, b, frame);
    }
  }

  /** The size of the exactly cut crop. */
  lemma {:induction false} CutSize(s: real, first: real, last: real, d: real)
    requires d > 0.0
    ensures s - Part(s, last, d) - Part(s, first, d) == Part(s, d - first - last, d)
  {
    var q := s / d;
    assert s * last / d == q * last && s * first / d == q * first && s == q * d;
    assert s * (d - first - last) / d == q * (d - first - last);
  }

  lemma {:induction false} CutAxisKeepsSample(
    lo: int, hi: int, from: int, to: int, a: nat, b: nat, rev: bool, lo': int, hi': int, x: real)
    requires from < to && from + a < to - b
    requires EdgesExact(lo, hi, lo', hi', if rev then b else a, if rev then a else b, to - from)
    ensures AxisSample(lo', hi', from + a, to - b, rev, x) == AxisSample(lo, hi, from, to, rev, x)
  {
    SampleForm(lo, hi, from, to, rev, x);
    SampleForm(lo', hi', from + a, to - b, rev, x);
    var first, last := (if rev then b else a) as real, (if rev then a else b) as real;
    var d, s, t := (to - from) as real, (hi - lo) as real, FromLow(from, to, rev, x);
    assert d - first - last == (to - b - (from + a)) as real && FromLow(from + a, to - b, rev, x) == t - first;
    CutSize(s, first, last, d);
    CutForm(lo as real, s, first, last, t, d, (hi' - lo') as real);
  }

  lemma {:induction false} CutForm(lo: real, s: real, first: real, last: real, t: real, d: real, s': real)
    requires d > 0.0 && d - first - last > 0.0 && s' == Part(s, d - first - last, d)
    ensures lo + Part(s, first, d) + Part(s', t - first, d - first - last) == lo + Part(s, t, d)
  {
    var d' := d - first - last;
    ScaleCancels(s, first, t, d, d');
    assert s' * (t - first) / d' == ((t - first) / d') * s';
  }

  /** Two crops that show the same agree at the ends of the smaller frame. */
  lemma SameSampleFixesEdges(lo: int, hi: int, from: int, to: int, a: nat, b: nat, rev: bool, lo': int, hi': int)
    requires from < to && from + a < to - b
    requires AxisSame(lo, hi, from, to, lo', hi', from + a, to - b, rev)
    ensures EdgesExact(lo, hi, lo', hi', if rev then b else a, if rev then a else b, to - from)
  {
    SameSampleFixesEdge(lo, hi, from, to, a, b, rev, lo', hi', true);
    SameSampleFixesEdge(lo, hi, from, to, a, b, rev, lo', hi', false);
  }

  /** One edge: the low one of the crop or the high one. */
  lemma SameSampleFixesEdge(
    lo: int, hi: int, from: int, to: int, a: nat, b: nat, rev: bool, lo': int, hi': int, low: bool)
    requires from < to && from + a < to - b
    requires AxisSame(lo, hi, from, to, lo', hi', from + a, to - b, rev)
    ensures low ==>
              lo' as real == lo as real + Part((hi - lo) as real, (if rev then b else a) as real, (to - from) as real)
    ensures !low ==>
              hi' as real == hi as real - Part((hi - lo) as real, (if rev then a else b) as real, (to - from) as real)
  {
    var x: real := (if rev == low then to - b else from + a) as real;
    SampleForm(lo, hi, from, to, rev, x);
    SampleForm(lo', hi', from + a, to - b, rev, x);
    var s, d, n := (hi - lo) as real, (to - from) as real, (to - b - from - a) as real;
    WholeScale((hi' - lo') as real, n);
    if low {
      assert FromLow(from + a, to - b, rev, x) == 0.0;
    } else {
      assert FromLow(from + a, to - b, rev, x) == n;
      WholeScale(s, d);
      CutSize(s, 0.0, (if rev then a else b) as real, d);
    }
    assert AxisSample(lo', hi', from + a, to - b, rev, x) == AxisSample(lo, hi, from, to, rev, x);
  }

  lemma WholeScale(s: real, n: real)
    requires n > 0.0
    ensures Part(s, n, n) == s && Part(s, 0.0, n) == 0.0
  {
  }

  /** Cutting one axis keeps what is shown if and only if both cuts fall on whole pixels. */
  lemma {:induction false} AxisCutIsExact(lo: int, hi: int, from: int, to: int, a: nat, b: nat, rev: bool)
    requires from < to && from + a < to - b
    ensures var (lo', hi') := AxisCrop(lo, hi, to - from, a, b, rev);
            AxisSame(lo, hi, from, to, lo', hi', from + a, to - b, rev)
            <==> Divides(hi - lo, a, to - from) && Divides(hi - lo, b, to - from)
  {
    var (lo', hi') := AxisCrop(lo, hi, to - from, a, b, rev);
    EdgesExactIfDivides(lo, hi, to - from, a, b, rev);
    if Divides(hi - lo, a, to - from) && Divides(hi - lo, b, to - from) {
      forall x: real
        ensures AxisSample(lo', hi', from + a, to - b, rev, x) == AxisSample(lo, hi, from, to, rev, x)
      {
        CutAxisKeepsSample(lo, hi, from, to, a, b, rev, lo', hi', x);
      }
    }
    if AxisSame(lo, hi, from, to, lo', hi', from + a, to - b, rev) {
      SameSampleFixesEdges(lo, hi, from, to, a, b, rev, lo', hi');
    }
  }

  lemma SignOfProduct(x: real, y: real)
    requires y > 0.0
    ensures (x * y == 0.0 <==> x == 0.0) && (x * y > 0.0 <==> x > 0.0)
  {
    if x > 0.0 { assert x * y > 0.0; }
    if x < 0.0 { assert x * y < 0.0; }
  }

  lemma InnerFraction(u: real, t: real, n: real)
    requires 0.0 < t < n && u == t / n
    ensures 0.0 < u < 1.0
  {
    assert u * n == t;
    assert (1.0 - u) * n == n - t;
    SignOfProduct(u, n);
    SignOfProduct(1.0 - u, n);
  }

  /** A crop edge that is off by some amount moves every inner point by a part of it. */
  lemma {:induction false} ErrorAtPoint(lo: real, hi: real, lo': real, hi': real, t: real, n: real)
    requires 0.0 < t < n && (lo' == lo || hi' == hi)
    ensures lo' + Part(hi' - lo', t, n) == lo + Part(hi - lo, t, n) <==> lo' == lo && hi' == hi
  {
    var u := t / n;
    InnerFraction(u, t, n);
    assert Part(hi' - lo', t, n) == (hi' - lo') * u && Part(hi - lo, t, n) == (hi - lo) * u;
    if lo' == lo {
      assert (hi' - lo') * u - (hi - lo) * u == (hi' - hi) * u;
      SignOfProduct(hi' - hi, u);
    } else {
      assert (hi' - lo') * u - (hi - lo) * u == -(lo' - lo) * u;
      assert (lo' - lo) - (lo' - lo) * u == (lo' - lo) * (1.0 - u);
      SignOfProduct(lo' - lo, 1.0 - u);
    }
  }

  /** The exact edges show at x what the uncut crop shows there. */
  lemma {:induction false} ExactEdgesKeepSample(
    lo: int, hi: int, from: int, to: int, a: nat, b: nat, rev: bool, low: real, high: real, x: real)
    requires from < to && from + a < to - b
    requires low == lo as real + Part((hi - lo) as real, (if rev then b else a) as real, (to - from) as real)
    requires high == hi as real - Part((hi - lo) as real, (if rev then a else b) as real, (to - from) as real)
    ensures low + Part(high - low, FromLow(from + a, to - b, rev, x), (to - b - (from + a)) as real) ==
            AxisSample(lo, hi, from, to, rev, x)
  {
    SampleForm(lo, hi, from, to, rev, x);
    var first, last := (if rev then b else a) as real, (if rev then a else b) as real;
    var d, s, t := (to - from) as real, (hi - lo) as real, FromLow(from, to, rev, x);
    assert d - first - last == (to - b - (from + a)) as real && FromLow(from + a, to - b, rev, x) == t - first;
    CutSize(s, first, last, d);
    CutForm(lo as real, s, first, last, t, d, high - low);
  }

  /** If one end of an axis is cut, it shows the same at any one inner point if and only if
      the cut falls on a whole pixel. */
  lemma {:induction false} AxisPointIff(lo: int, hi: int, from: int, to: int, a: nat, b: nat, rev: bool, x: real)
    requires from < to && (from + a) as real < x < (to - b) as real && (a == 0 || b == 0)
    ensures var (lo', hi') := AxisCrop(lo, hi, to - from, a, b, rev);
            AxisSample(lo', hi', from + a, to - b, rev, x) == AxisSample(lo, hi, from, to, rev, x)
            <==> Divides(hi - lo, a, to - from) && Divides(hi - lo, b, to - from)
  {
    var (lo', hi') := AxisCrop(lo, hi, to - from, a, b, rev);
    var first, last := if rev then b else a, if rev then a else b;
    var d, s := (to - from) as real, (hi - lo) as real;
    var low, high := lo as real + Part(s, first as real, d), hi as real - Part(s, last as real, d);
    EdgesExactIfDivides(lo, hi, to - from, a, b, rev);
    UncutEdge(lo, hi, to - from, first, last);
    ExactEdgesKeepSample(lo, hi, from, to, a, b, rev, low, high, x);
    SampleForm(lo', hi', from + a, to - b, rev, x);
    var t, n := FromLow(from + a, to - b, rev, x), (to - b - (from + a)) as real;
    ErrorAtPoint(low, high, lo' as real, hi' as real, t, n);
  }

  /** An edge that is not cut stays where it is. */
  lemma UncutEdge(lo: int, hi: int, frame: int, first: nat, last: nat)
    requires frame > 0
    ensures var (lo', hi') := (Moved(lo, hi - lo, first as real / frame as real),
                               Moved(hi, -(hi - lo), last as real / frame as real));
            && (first == 0 ==> lo' == lo && Part((hi - lo) as real, 0.0, frame as real) == 0.0)
            && (last == 0 ==> hi' == hi && Part((hi - lo) as real, 0.0, frame as real) == 0.0)
  {
    WholeScale((hi - lo) as real, frame as real);
  }

  lemma {:induction false} ProductReal(size: int, cut: int, frame: int)
    requires frame > 0
    ensures (size * cut) as real / frame as real == size as real * cut as real / frame as real
    ensures (-size * cut) as real / frame as real == -(size as real * cut as real / frame as real)
  {
    assert (size * cut) as real == size as real * cut as real;
    assert (-size * cut) as real == -(size as real * cut as real);
  }

  // ---------------------------------------------------------------- both axes

  ghost predicate SameSamples(crop: Rect, dst: Rect, crop': Rect, dst': Rect, tr: Transform)
    requires IsValidRect(dst) && IsValidRect(dst')
  {
    forall x: real, y: real :: Sample(crop', dst', tr, x, y) == Sample(crop, dst, tr, x, y)
  }

  lemma RatioIsCut(inside: int, outside: int, size: int)
    requires size > 0
    ensures CutRatio(inside, outside, size) == Low(inside, outside) as real / size as real
    ensures CutRatio(inside, outside, size) == High(outside, inside) as real / size as real
  {
  }

  /** calculate_crop_rects cuts the two axes of the crop independently: each of its edges
      loses the part of the frame's edge that shows it. */
  lemma {:induction false} CropIsByAxis(crop: Rect, dst: Rect, sci: Rect, tr: Transform)
    requires IsValidRect(dst)
    ensures var (crop', dst') := CropRects(crop, dst, sci, tr);
            && dst'.l == dst.l + Low(dst.l, sci.l) && dst'.r == dst.r - High(dst.r, sci.r)
            && dst'.t == dst.t + Low(dst.t, sci.t) && dst'.b == dst.b - High(dst.b, sci.b)
            && (tr.rot90 ==>
                  && (crop'.l, crop'.r) ==
                       AxisCrop(crop.l, crop.r, dst.b - dst.t, Low(dst.t, sci.t), High(dst.b, sci.b), tr.flipV)
                  && (crop'.t, crop'.b) ==
                       AxisCrop(crop.t, crop.b, dst.r - dst.l, Low(dst.l, sci.l), High(dst.r, sci.r), !tr.flipH))
            && (!tr.rot90 ==>
                  && (crop'.l, crop'.r) ==
                       AxisCrop(crop.l, crop.r, dst.r - dst.l, Low(dst.l, sci.l), High(dst.r, sci.r), tr.flipH)
                  && (crop'.t, crop'.b) ==
                       AxisCrop(crop.t, crop.b, dst.b - dst.t, Low(dst.t, sci.t), High(dst.b, sci.b), tr.flipV))
  {
    RatioIsCut(dst.l, sci.l, dst.W());
    RatioIsCut(sci.r, dst.r, dst.W());
    RatioIsCut(dst.t, sci.t, dst.H());
    RatioIsCut(sci.b, dst.b, dst.H());
  }

  /** Cropping against a scissor keeps, for all eight transforms, what every remaining point
      of the frame shows if and only if every cut falls on a whole source pixel. */
  lemma {:induction false} CropKeepsSamples(crop: Rect, dst: Rect, sci: Rect, tr: Transform)
    requires IsValidRect(dst) && IsValidRect(Clip(dst, sci))
    ensures var (crop', dst') := CropRects(crop, dst, sci, tr);
            SameSamples(crop, dst, crop', dst', tr) <==> ExactCut(crop, dst, sci, tr)
  {
    var (crop', dst') := CropRects(crop, dst, sci, tr);
    AxesSameIff(crop, dst, sci, tr);
    SamplesByAxis(crop, dst, crop', dst', tr);
  }

  /** The same for an axis that is clipped to [low, high]. */
  lemma {:induction false} AxisPixelIff(
    lo: int, hi: int, from: int, to: int, low: int, high: int, rev: bool, x: real)
    requires from < to && Max(from, low) as real < x < Min(to, high) as real
    requires Low(from, low) == 0 || High(to, high) == 0
    ensures var (lo', hi') := AxisCrop(lo, hi, to - from, Low(from, low), High(to, high), rev);
            AxisSample(lo', hi', Max(from, low), Min(to, high), rev, x) == AxisSample(lo, hi, from, to, rev, x)
            <==> AxisExact(hi - lo, from, to, low, high)
  {
    AxisPointIff(lo, hi, from, to, Low(from, low), High(to, high), rev, x);
  }

  /** If each axis loses at most one end, the remaining frame shows the same in any one of
      its pixels if and only if the cuts fall on whole source pixels. */
  lemma {:induction false} PixelIsKeptIff(crop: Rect, dst: Rect, sci: Rect, tr: Transform, x: int, y: int)
    requires IsValidRect(dst) && Clip(dst, sci).l <= x < Clip(dst, sci).r && Clip(dst, sci).t <= y < Clip(dst, sci).b
    requires (Low(dst.l, sci.l) == 0 || High(dst.r, sci.r) == 0) && (Low(dst.t, sci.t) == 0 || High(dst.b, sci.b) == 0)
    ensures var (crop', dst') := CropRects(crop, dst, sci, tr);
            Sample(crop', dst', tr, x as real + 0.5, y as real + 0.5) ==
              Sample(crop, dst, tr, x as real + 0.5, y as real + 0.5)
            <==> ExactCut(crop, dst, sci, tr)
  {
    CropIsByAxis(crop, dst, sci, tr);
    var px, py := x as real + 0.5, y as real + 0.5;
    if tr.rot90 {
      AxisPixelIff(crop.l, crop.r, dst.t, dst.b, sci.t, sci.b, tr.flipV, py);
      AxisPixelIff(crop.t, crop.b, dst.l, dst.r, sci.l, sci.r, !tr.flipH, px);
    } else {
      AxisPixelIff(crop.l, crop.r, dst.l, dst.r, sci.l, sci.r, tr.flipH, px);
      AxisPixelIff(crop.t, crop.b, dst.t, dst.b, sci.t, sci.b, tr.flipV, py);
    }
  }

  lemma {:induction false} AxesSameIff(crop: Rect, dst: Rect, sci: Rect, tr: Transform)
    requires IsValidRect(dst) && IsValidRect(Clip(dst, sci))
    ensures var (crop', dst') := CropRects(crop, dst, sci, tr);
            IsValidRect(dst') && (AxesSame(crop, dst, crop', dst', tr) <==> ExactCut(crop, dst, sci, tr))
  {
    CropIsByAxis(crop, dst, sci, tr);
    var (a, b, c, d) := (Low(dst.l, sci.l), High(dst.r, sci.r), Low(dst.t, sci.t), High(dst.b, sci.b));
    if tr.rot90 {
      AxisCutIsExact(crop.l, crop.r, dst.t, dst.b, c, d, tr.flipV);
      AxisCutIsExact(crop.t, crop.b, dst.l, dst.r, a, b, !tr.flipH);
    } else {
      AxisCutIsExact(crop.l, crop.r, dst.l, dst.r, a, b, tr.flipH);
      AxisCutIsExact(crop.t, crop.b, dst.t, dst.b, c, d, tr.flipV);
    }
  }

  /** The two axes of a crop show the same, each seen through the axis of the frame that shows it. */
  ghost predicate AxesSame(crop: Rect, dst: Rect, crop': Rect, dst': Rect, tr: Transform)
    requires IsValidRect(dst) && IsValidRect(dst')
  {
    if tr.rot90 then
      AxisSame(crop.l, crop.r, dst.t, dst.b, crop'.l, crop'.r, dst'.t, dst'.b, tr.flipV) &&
      AxisSame(crop.t, crop.b, dst.l, dst.r, crop'.t, crop'.b, dst'.l, dst'.r, !tr.flipH)
    else
      AxisSame(crop.l, crop.r, dst.l, dst.r, crop'.l, crop'.r, dst'.l, dst'.r, tr.flipH) &&
      AxisSame(crop.t, crop.b, dst.t, dst.b, crop'.t, crop'.b, dst'.t, dst'.b, tr.flipV)
  }

  lemma SamplesByAxis(crop: Rect, dst: Rect, crop': Rect, dst': Rect, tr: Transform)
    requires IsValidRect(dst) && IsValidRect(dst')
    ensures SameSamples(crop, dst, crop', dst', tr) <==> AxesSame(crop, dst, crop', dst', tr)
  {
    if SameSamples(crop, dst, crop', dst', tr) {
      if tr.rot90 {
        forall x: real
          ensures AxisSample(crop'.l, crop'.r, dst'.t, dst'.b, tr.flipV, x) ==
                  AxisSample(crop.l, crop.r, dst.t, dst.b, tr.flipV, x)
        {
          assert Sample(crop', dst', tr, x, x) == Sample(crop, dst, tr, x, x);
        }
        var rev := !tr.flipH;
        forall x: real
          ensures AxisSample(crop'.t, crop'.b, dst'.l, dst'.r, rev, x) ==
                  AxisSample(crop.t, crop.b, dst.l, dst.r, rev, x)
        {
          assert Sample(crop', dst', tr, x, x) == Sample(crop, dst, tr, x, x);
        }
      } else {
        forall x: real
          ensures AxisSample(crop'.l, crop'.r, dst'.l, dst'.r, tr.flipH, x) ==
                  AxisSample(crop.l, crop.r, dst.l, dst.r, tr.flipH, x)
        {
          assert Sample(crop', dst', tr, x, x) == Sample(crop, dst, tr, x, x);
        }
        forall x: real
          ensures AxisSample(crop'.t, crop'.b, dst'.t, dst'.b, tr.flipV, x) ==
                  AxisSample(crop.t, crop.b, dst.t, dst.b, tr.flipV, x)
        {
          assert Sample(crop', dst', tr, x, x) == Sample(crop, dst, tr, x, x);
        }
      }
    }
  }

  // ---------------------------------------------------------------- where the edges go

  /** k is x without its fraction. */
  predicate TowardZero(k: int, x: real)
  {
    if x >= 0.0 then k as real <= x < k as real + 1.0 else k as real - 1.0 < x <= k as real
  }

  lemma {:induction false} PartIsProduct(s: real, c: real, d: real)
    requires d > 0.0
    ensures s * (c / d) == Part(s, c, d)
  {
  }

  lemma {:induction false} PartOfNegative(s: real, c: real, d: real)
    requires d > 0.0
    ensures Part(-s, c, d) == -Part(s, c, d)
  {
    assert -s * c == -(s * c);
  }

  lemma TruncTowardZero(x: real)
    ensures TowardZero(Trunc(x), x)
  {
  }

  lemma {:induction false} EdgeRounds(edge: int, size: int, cut: nat, frame: int)
    requires frame > 0
    ensures TowardZero(Moved(edge, size, cut as real / frame as real),
                       edge as real + Part(size as real, cut as real, frame as real))
  {
    var ratio := cut as real / frame as real;
    PartIsProduct(size as real, cut as real, frame as real);
    assert Moved(edge, size, ratio) == Trunc(edge as real + Part(size as real, cut as real, frame as real));
    TruncTowardZero(edge as real + Part(size as real, cut as real, frame as real));
  }

  /** What the frame shows at the distance `cut` from the end that shows the crop's low end, or
      from the other end. */
  lemma {:induction false} SampleAtCut(lo: int, hi: int, from: int, to: int, rev: bool, cut: nat)
    requires from < to
    ensures var (s, d) := ((hi - lo) as real, (to - from) as real);
            && AxisSample(lo, hi, from, to, rev, (if rev then to - cut else from + cut) as real) ==
                 lo as real + Part(s, cut as real, d)
            && AxisSample(lo, hi, from, to, rev, (if rev then from + cut else to - cut) as real) ==
                 hi as real + Part(-s, cut as real, d)
  {
    var (s, d) := ((hi - lo) as real, (to - from) as real);
    SampleForm(lo, hi, from, to, rev, (if rev then to - cut else from + cut) as real);
    SampleForm(lo, hi, from, to, rev, (if rev then from + cut else to - cut) as real);
    PartsAdd(s, cut as real, d - cut as real, d);
    PartOfNegative(s, cut as real, d);
  }

  /** An edge of the crop goes where the new edge of the frame shows the source. */
  lemma {:induction false} AxisEdgesRound(lo: int, hi: int, from: int, to: int, a: nat, b: nat, rev: bool)
    requires from < to
    ensures var (lo', hi') := AxisCrop(lo, hi, to - from, a, b, rev);
            && TowardZero(lo', AxisSample(lo, hi, from, to, rev, (if rev then to - b else from + a) as real))
            && TowardZero(hi', AxisSample(lo, hi, from, to, rev, (if rev then from + a else to - b) as real))
  {
    var (first, last) := if rev then (b, a) else (a, b);
    SampleAtCut(lo, hi, from, to, rev, first);
    SampleAtCut(lo, hi, from, to, rev, last);
    EdgeRounds(lo, hi - lo, first, to - from);
    EdgeRounds(hi, -(hi - lo), last, to - from);
  }

  lemma {:induction false} PartOfLess(s: real, c: real, c': real, d: real)
    requires d > 0.0 && s >= 0.0 && c <= c'
    ensures Part(s, c, d) <= Part(s, c', d)
  {
    var q := s / d;
    assert q >= 0.0 && Part(s, c, d) == q * c && Part(s, c', d) == q * c';
    assert q * (c' - c) >= 0.0;
  }

  lemma {:induction false} AxisSampleOrder(lo: int, hi: int, from: int, to: int, rev: bool, x: real, y: real)
    requires from < to && lo <= hi && x <= y
    ensures if rev then AxisSample(lo, hi, from, to, rev, y) <= AxisSample(lo, hi, from, to, rev, x)
            else AxisSample(lo, hi, from, to, rev, x) <= AxisSample(lo, hi, from, to, rev, y)
  {
    SampleForm(lo, hi, from, to, rev, x);
    SampleForm(lo, hi, from, to, rev, y);
    var (s, d) := ((hi - lo) as real, (to - from) as real);
    if rev {
      PartOfLess(s, FromLow(from, to, rev, y), FromLow(from, to, rev, x), d);
    } else {
      PartOfLess(s, FromLow(from, to, rev, x), FromLow(from, to, rev, y), d);
    }
  }

  /** An axis is cut to the span between the points shown at the two new edges of the frame. */
  predicate SpansTo(lo: int, hi: int, p: real, q: real)
  {
    if p <= q then TowardZero(lo, p) && TowardZero(hi, q) else TowardZero(lo, q) && TowardZero(hi, p)
  }

  lemma {:induction false} AxisSpan(lo: int, hi: int, from: int, to: int, a: nat, b: nat, rev: bool)
    requires from < to && lo <= hi && from + a <= to - b
    ensures var (lo', hi') := AxisCrop(lo, hi, to - from, a, b, rev);
            SpansTo(lo', hi', AxisSample(lo, hi, from, to, rev, (from + a) as real),
                    AxisSample(lo, hi, from, to, rev, (to - b) as real))
  {
    AxisEdgesRound(lo, hi, from, to, a, b, rev);
    AxisSampleOrder(lo, hi, from, to, rev, (from + a) as real, (to - b) as real);
  }

  /** Cropping keeps the part of the frame inside the scissor; and the corners of the cropped
      source are the source points shown at the corners of that part, without their fractions,
      for all eight transforms and whether or not the cuts fall on whole pixels. */
  lemma {:induction false} CropCornersRoundTowardZero(crop: Rect, dst: Rect, sci: Rect, tr: Transform, x: int, y: int)
    requires IsValidRect(dst) && crop.W() >= 0 && crop.H() >= 0 && Clip(dst, sci).W() >= 0 && Clip(dst, sci).H() >= 0
    ensures var (c, d) := CropRects(crop, dst, sci, tr);
            && (d.l <= x < d.r <==> dst.l <= x < dst.r && sci.l <= x < sci.r)
            && (d.t <= y < d.b <==> dst.t <= y < dst.b && sci.t <= y < sci.b)
            && var p := Sample(crop, dst, tr, d.l as real, d.t as real);
               var q := Sample(crop, dst, tr, d.r as real, d.b as real);
               SpansTo(c.l, c.r, p.0, q.0) && SpansTo(c.t, c.b, p.1, q.1)
  {
    CropIsByAxis(crop, dst, sci, tr);
    var (a, b, c, d) := (Low(dst.l, sci.l), High(dst.r, sci.r), Low(dst.t, sci.t), High(dst.b, sci.b));
    if tr.rot90 {
      AxisSpan(crop.l, crop.r, dst.t, dst.b, c, d, tr.flipV);
      AxisSpan(crop.t, crop.b, dst.l, dst.r, a, b, !tr.flipH);
    } else {
      AxisSpan(crop.l, crop.r, dst.l, dst.r, a, b, tr.flipH);
      AxisSpan(crop.t, crop.b, dst.t, dst.b, c, d, tr.flipV);
    }
  }

  // ---------------------------------------------------------------- pre-rotation

  const WORD := Bits.MAX_WORD

  /** compute(): unsigned 32-bit arithmetic. */
  function Compute(x: int, y: int, z: int): (r: int)
    ensures 0 <= x - (y + z) < WORD ==> r == x - (y + z)
    ensures Bits.IsWord(r) && (x - (y + z) - r) % WORD == 0
  {
    (x - (y + z)) % WORD
  }

  /** getMdpOrient: with a 90 degree turn the flips change places. */
  function MdpOrient(tr: Transform): Transform
  {
    if tr.rot90 then Transform(tr.flipV, tr.flipH, true) else tr
  }

  /** preRotateSource: the crop of the buffer once the rotator has flipped and turned it. */
  function PreRotate(tr: Transform, whf: Whf, c: Dim): (Whf, Dim)
  {
    var x := if tr.flipH then Compute(whf.w, c.x, c.w) else c.x;
    var y := if tr.flipV then Compute(whf.h, c.y, c.h) else c.y;
    if tr.rot90 then
      (Whf(whf.h, whf.w, whf.format), Dim(Compute(whf.h, y, c.h), x, c.h, c.w))
    else
      (whf, Dim(x, y, c.w, c.h))
  }

  method PreRotateSource(tr: Transform, whf: Whf, srcCrop: Dim) returns (whf': Whf, crop': Dim)
    ensures (whf', crop') == PreRotate(tr, whf, srcCrop)
  {
    whf', crop' := whf, srcCrop;
    if tr.flipH { crop' := crop'.(x := Compute(whf'.w, crop'.x, crop'.w)); }
    if tr.flipV { crop' := crop'.(y := Compute(whf'.h, crop'.y, crop'.h)); }
    if tr.rot90 {
      var tmp := crop'.x;
      crop' := crop'.(x := Compute(whf'.h, crop'.y, crop'.h));
      crop' := crop'.(y := tmp);
      whf' := whf'.(w := whf'.h, h := whf'.w);
      crop' := crop'.(w := crop'.h, h := crop'.w);
    }
  }

  /** updateSource, for a crop given by its edges. */
  function UpdateSource(tr: Transform, whf: Whf, crop: Rect): (Whf, Rect)
  {
    var (whf', d) := PreRotate(MdpOrient(tr), whf, Dim(crop.l, crop.t, crop.W(), crop.H()));
    (whf', Rect(d.x, d.y, d.x + d.w, d.y + d.h))
  }

  /** The crop lies in a buffer that 32-bit arithmetic can address. */
  predicate InBuffer(crop: Rect, whf: Whf)
  {
    0 <= crop.l <= crop.r <= whf.w < WORD && 0 <= crop.t <= crop.b <= whf.h < WORD
  }

  /** The buffer and the crop's edges after pre-rotation, without wrap-around. */
  predicate EdgesAre(tr: Transform, whf: Whf, crop: Rect, whf': Whf, c: Rect)
  {
    if tr.rot90 then
      whf' == Whf(whf.h, whf.w, whf.format) &&
      c == Rect(if tr.flipH then crop.t else whf.h - crop.b, if tr.flipV then whf.w - crop.r else crop.l,
                if tr.flipH then crop.b else whf.h - crop.t, if tr.flipV then whf.w - crop.l else crop.r)
    else
      whf' == whf &&
      c == Rect(if tr.flipH then whf.w - crop.r else crop.l, if tr.flipV then whf.h - crop.b else crop.t,
                if tr.flipH then whf.w - crop.l else crop.r, if tr.flipV then whf.h - crop.t else crop.b)
  }

  lemma UpdatedEdges(tr: Transform, whf: Whf, crop: Rect)
    requires InBuffer(crop, whf)
    ensures var (whf', c) := UpdateSource(tr, whf, crop); EdgesAre(tr, whf, crop, whf', c)
  {
  }

  /** The point of the original buffer that the rotator puts at (x, y). */
  function Unrotate(tr: Transform, whf: Whf, p: (real, real)): (real, real)
  {
    if tr.rot90 then
      (if tr.flipV then whf.w as real - p.1 else p.1, if tr.flipH then p.0 else whf.h as real - p.0)
    else
      (if tr.flipH then whf.w as real - p.0 else p.0, if tr.flipV then whf.h as real - p.1 else p.1)
  }

  lemma {:induction false} MirroredAxis(lo: int, hi: int, size: int, from: int, to: int, rev: bool, x: real)
    requires from < to
    ensures size as real - AxisSample(lo, hi, from, to, rev, x) == AxisSample(size - hi, size - lo, from, to, !rev, x)
  {
    SampleForm(lo, hi, from, to, rev, x);
    SampleForm(size - hi, size - lo, from, to, !rev, x);
    PartsAdd((hi - lo) as real, FromLow(from, to, rev, x), FromLow(from, to, !rev, x), (to - from) as real);
  }

  lemma {:induction false} PartsAdd(s: real, c: real, c': real, d: real)
    requires d > 0.0 && c + c' == d
    ensures Part(s, c, d) + Part(s, c', d) == s
  {
    var q := s / d;
    assert Part(s, c, d) == q * c && Part(s, c', d) == q * c' && q * d == s;
    assert q * (c + c') == q * c + q * c';
  }

  /** Pre-rotating the source and showing it untransformed shows, at every point of the
      frame, the same source point as the transform did. */
  lemma PreRotationShowsTheSame(tr: Transform, whf: Whf, crop: Rect, dst: Rect, x: real, y: real)
    requires InBuffer(crop, whf) && IsValidRect(dst)
    ensures var (whf', c) := UpdateSource(tr, whf, crop);
            Unrotate(tr, whf, Sample(c, dst, IDENTITY, x, y)) == Sample(crop, dst, tr, x, y)
  {
    UpdatedEdges(tr, whf, crop);
    var (whf', c) := UpdateSource(tr, whf, crop);
    if tr.rot90 {
      TurnedShowsTheSame(tr, whf, crop, whf', c, dst, x, y);
    } else {
      FlippedShowsTheSame(tr, whf, crop, whf', c, dst, x, y);
    }
  }

  lemma TurnedShowsTheSame(tr: Transform, whf: Whf, crop: Rect, whf': Whf, c: Rect, dst: Rect, x: real, y: real)
    requires tr.rot90 && IsValidRect(dst) && EdgesAre(tr, whf, crop, whf', c)
    ensures Unrotate(tr, whf, Sample(c, dst, IDENTITY, x, y)) == Sample(crop, dst, tr, x, y)
  {
    MirroredAxis(c.l, c.r, whf.h, dst.l, dst.r, false, x);
    MirroredAxis(c.t, c.b, whf.w, dst.t, dst.b, false, y);
  }

  lemma FlippedShowsTheSame(tr: Transform, whf: Whf, crop: Rect, whf': Whf, c: Rect, dst: Rect, x: real, y: real)
    requires !tr.rot90 && IsValidRect(dst) && EdgesAre(tr, whf, crop, whf', c)
    ensures Unrotate(tr, whf, Sample(c, dst, IDENTITY, x, y)) == Sample(crop, dst, tr, x, y)
  {
    MirroredAxis(c.l, c.r, whf.w, dst.l, dst.r, false, x);
    MirroredAxis(c.t, c.b, whf.h, dst.t, dst.b, false, y);
  }

  /** Crop and rotation commute: scissoring and then pre-rotating the crop gives the same
      rectangles as pre-rotating and then scissoring, for all eight transforms, whenever the
      cuts fall on whole pixels; layers that are not scaled always do. */
  lemma {:induction false} CropAndRotationCommute(tr: Transform, whf: Whf, crop: Rect, dst: Rect, sci: Rect)
    requires InBuffer(crop, whf) && IsValidRect(dst) && IsValidRect(Clip(dst, sci)) && IsValidRect(crop)
    requires ExactCut(crop, dst, sci, tr)
    ensures var (crop1, dst1) := CropRects(crop, dst, sci, tr);
            var (whf2, rotated) := UpdateSource(tr, whf, crop);
            && InBuffer(crop1, whf) && crop.l <= crop1.l && crop.t <= crop1.t && crop1.r <= crop.r && crop1.b <= crop.b
            && UpdateSource(tr, whf, crop1) == (whf2, CropRects(rotated, dst, sci, IDENTITY).0)
            && dst1 == CropRects(rotated, dst, sci, IDENTITY).1
  {
    var (whf2, rotated) := UpdateSource(tr, whf, crop);
    var k := LostPixels(if tr.rot90 then crop.H() else crop.W(), if tr.rot90 then crop.W() else crop.H(), dst, sci);
    ExactCropRects(crop, dst, sci, tr);
    CutThenTurn(tr, whf, crop, k);
    ExactCropRects(rotated, dst, sci, IDENTITY);
  }

  /** The source pixels lost at the frame's four edges. */
  function LostPixels(w: int, h: int, dst: Rect, sci: Rect): Rect
    requires IsValidRect(dst)
  {
    Rect(Share(w, Low(dst.l, sci.l), dst.W()), Share(h, Low(dst.t, sci.t), dst.H()),
         Share(w, High(dst.r, sci.r), dst.W()), Share(h, High(dst.b, sci.b), dst.H()))
  }

  /** The crop whose edges lose what the edges of the frame lose that show them. */
  function CutBy(crop: Rect, tr: Transform, k: Rect): Rect
  {
    if tr.rot90 then
      Rect(crop.l + (if tr.flipV then k.b else k.t), crop.t + (if tr.flipH then k.l else k.r),
           crop.r - (if tr.flipV then k.t else k.b), crop.b - (if tr.flipH then k.r else k.l))
    else
      Rect(crop.l + (if tr.flipH then k.r else k.l), crop.t + (if tr.flipV then k.b else k.t),
           crop.r - (if tr.flipH then k.l else k.r), crop.b - (if tr.flipV then k.t else k.b))
  }

  /** The pixels lost fit a crop of width w and height h as the frame shows it. */
  predicate Fits(k: Rect, w: int, h: int)
  {
    k.l >= 0 && k.t >= 0 && k.r >= 0 && k.b >= 0 && k.l + k.r <= w && k.t + k.b <= h
  }

  lemma {:induction false} CutThenTurn(tr: Transform, whf: Whf, crop: Rect, k: Rect)
    requires InBuffer(crop, whf)
    requires if tr.rot90 then Fits(k, crop.H(), crop.W()) else Fits(k, crop.W(), crop.H())
    ensures var (whf2, rotated) := UpdateSource(tr, whf, crop);
            && InBuffer(CutBy(crop, tr, k), whf)
            && UpdateSource(tr, whf, CutBy(crop, tr, k)) == (whf2, CutBy(rotated, IDENTITY, k))
            && rotated.W() == (if tr.rot90 then crop.H() else crop.W())
            && rotated.H() == (if tr.rot90 then crop.W() else crop.H())
  {
    CutStaysInBuffer(tr, whf, crop, k);
    UpdatedEdges(tr, whf, crop);
    UpdatedEdges(tr, whf, CutBy(crop, tr, k));
    var (whf2, rotated) := UpdateSource(tr, whf, crop);
    var (whf3, turned) := UpdateSource(tr, whf, CutBy(crop, tr, k));
    TurnThenCut(tr, whf, crop, k, whf2, rotated, whf3, turned);
  }

  lemma TurnThenCut(tr: Transform, whf: Whf, crop: Rect, k: Rect, whf2: Whf, rotated: Rect, whf3: Whf, turned: Rect)
    requires EdgesAre(tr, whf, crop, whf2, rotated) && EdgesAre(tr, whf, CutBy(crop, tr, k), whf3, turned)
    ensures whf3 == whf2 && turned == CutBy(rotated, IDENTITY, k)
    ensures rotated.W() == (if tr.rot90 then crop.H() else crop.W())
    ensures rotated.H() == (if tr.rot90 then crop.W() else crop.H())
  {
  }

  lemma CutStaysInBuffer(tr: Transform, whf: Whf, crop: Rect, k: Rect)
    requires InBuffer(crop, whf)
    requires if tr.rot90 then Fits(k, crop.H(), crop.W()) else Fits(k, crop.W(), crop.H())
    ensures InBuffer(CutBy(crop, tr, k), whf)
  {
  }

  /** An exact crop in whole numbers: each edge of the crop loses what the edge of the frame
      loses that shows it. */
  lemma {:induction false} ExactCropRects(crop: Rect, dst: Rect, sci: Rect, tr: Transform)
    requires IsValidRect(dst) && IsValidRect(crop) && ExactCut(crop, dst, sci, tr)
    requires Clip(dst, sci).W() >= 0 && Clip(dst, sci).H() >= 0
    ensures var w, h := (if tr.rot90 then crop.H() else crop.W()), (if tr.rot90 then crop.W() else crop.H());
            var k := LostPixels(w, h, dst, sci);
            Fits(k, w, h) && CropRects(crop, dst, sci, tr).0 == CutBy(crop, tr, k)
  {
    CropIsByAxis(crop, dst, sci, tr);
    var (a, b, c, d) := (Low(dst.l, sci.l), High(dst.r, sci.r), Low(dst.t, sci.t), High(dst.b, sci.b));
    if tr.rot90 {
      ExactAxisCrop(crop.l, crop.r, dst.H(), c, d, tr.flipV);
      ExactAxisCrop(crop.t, crop.b, dst.W(), a, b, !tr.flipH);
    } else {
      ExactAxisCrop(crop.l, crop.r, dst.W(), a, b, tr.flipH);
      ExactAxisCrop(crop.t, crop.b, dst.H(), c, d, tr.flipV);
    }
  }

  /** The whole number of source pixels that a cut of the frame takes. */
  function Share(size: int, cut: nat, frame: int): int
    requires frame > 0
  {
    (size * cut) / frame
  }

  lemma LowShare(lo: int, size: int, cut: nat, frame: int)
    requires frame > 0 && Divides(size, cut, frame)
    ensures Moved(lo, size, cut as real / frame as real) == lo + Share(size, cut, frame)
  {
    TimesQuotient(size, cut, frame);
    WholeQuotient(size * cut, frame, 0);
    TruncWhole(lo, (size * cut) as real / frame as real, Share(size, cut, frame));
  }

  lemma HighShare(hi: int, size: int, cut: nat, frame: int)
    requires frame > 0 && Divides(size, cut, frame)
    ensures Moved(hi, -size, cut as real / frame as real) == hi - Share(size, cut, frame)
  {
    NegationDivides(size, cut, frame);
    LowShare(hi, -size, cut, frame);
    assert -size * cut == -(size * cut);
    ModIsUnique(-(size * cut), frame, -Share(size, cut, frame), 0);
  }

  /** An exact crop of one axis in whole numbers. */
  lemma {:induction false} ExactAxisCrop(lo: int, hi: int, frame: int, a: nat, b: nat, rev: bool)
    requires frame > 0 && lo <= hi && a + b <= frame
    requires Divides(hi - lo, a, frame) && Divides(hi - lo, b, frame)
    ensures AxisCrop(lo, hi, frame, a, b, rev) ==
            (lo + Share(hi - lo, if rev then b else a, frame), hi - Share(hi - lo, if rev then a else b, frame))
    ensures 0 <= Share(hi - lo, a, frame) && 0 <= Share(hi - lo, b, frame)
    ensures Share(hi - lo, a, frame) + Share(hi - lo, b, frame) <= hi - lo
  {
    LowShare(lo, hi - lo, if rev then b else a, frame);
    HighShare(hi, hi - lo, if rev then a else b, frame);
    ShareBound(hi - lo, a, b, frame);
  }

  lemma {:induction false} ShareBound(s: nat, a: nat, b: nat, frame: int)
    requires frame > 0 && a + b <= frame && Divides(s, a, frame) && Divides(s, b, frame)
    ensures 0 <= Share(s, a, frame) && 0 <= Share(s, b, frame) && Share(s, a, frame) + Share(s, b, frame) <= s
  {
    var p, q := Share(s, a, frame), Share(s, b, frame);
    assert p * frame == s * a && q * frame == s * b;
    SumOfShares(s, a, b, p, q, frame);
    NonNegativeFactor(s, a, p, frame);
    NonNegativeFactor(s, b, q, frame);
  }

  lemma {:induction false} SumOfShares(s: nat, a: nat, b: nat, p: int, q: int, frame: int)
    requires frame > 0 && a + b <= frame && p * frame == s * a && q * frame == s * b
    ensures p + q <= s
  {
    assert (p + q) * frame == s * (a + b);
    MulLeft(s, a + b, frame);
    CancelFactor(p + q, s, frame);
  }

  lemma {:induction false} NonNegativeFactor(s: nat, a: nat, p: int, frame: int)
    requires frame > 0 && p * frame == s * a
    ensures p >= 0
  {
    MulLeft(s, 0, a);
    CancelFactor(0, p, frame);
  }

  lemma MulLeft(s: nat, a: int, b: int)
    requires a <= b
    ensures s * a <= s * b
  {
  }

  lemma CancelFactor(x: int, y: int, n: int)
    requires n > 0 && x * n <= y * n
    ensures x <= y
  {
  }
}
