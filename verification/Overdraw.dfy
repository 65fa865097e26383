/** Removal of overdraw: layers under an opaque layer lose the strip that it hides, if what
    is left is a single rectangle. The picture must stay the same, pixel by pixel. */
module Overdraw {
  import opened Geometry

  /** One layer of the list. `solid` means HWC_BLENDING_NONE. The crop is one whole-number
      rectangle. */
  datatype Layer = Layer(frame: Rect, crop: Rect, tr: Transform, solid: bool)

  /** What two rectangles have in common, or an empty rectangle at the origin. */
  function GetIntersection(a: Rect, b: Rect): Rect
  {
    if !IsValidRect(a) || !IsValidRect(b) then Rect(0, 0, 0, 0)
    else
      var res := Rect(Max(a.l, b.l), Max(a.t, b.t), Min(a.r, b.r), Min(a.b, b.b));
      if IsValidRect(res) then res else Rect(0, 0, 0, 0)
  }

  /** rect1 without rect2, where that leaves one rectangle; else rect1 as it is. */
  function DeductRect(rect1: Rect, rect2: Rect): Rect
  {
    if rect1.l == rect2.l && rect1.r == rect2.r then
      if rect1.t == rect2.t && rect2.b <= rect1.b then rect1.(t := rect2.b)
      else if rect1.b == rect2.b && rect2.t >= rect1.t then rect1.(b := rect2.t)
      else rect1
    else if rect1.t == rect2.t && rect1.b == rect2.b then
      if rect1.l == rect2.l && rect2.r <= rect1.r then rect1.(l := rect2.r)
      else if rect1.r == rect2.r && rect2.l >= rect1.l then rect1.(r := rect2.l)
      else rect1
    else rect1
  }

  predicate Covers(r: Rect, x: int, y: int)
  {
    r.l <= x < r.r && r.t <= y < r.b
  }

  /** The intersection covers exactly the common pixels. */
  lemma IntersectionIsCommon(a: Rect, b: Rect, x: int, y: int)
    ensures Covers(GetIntersection(a, b), x, y) <==> Covers(a, x, y) && Covers(b, x, y)
  {
  }

  /** r covers exactly the pixels of a that b does not cover. */
  ghost predicate IsDifference(r: Rect, a: Rect, b: Rect)
  {
    forall x, y :: Covers(r, x, y) <==> Covers(a, x, y) && !Covers(b, x, y)
  }

  /** If some rectangle is the difference of a rectangle and a part of it, then deductRect
      finds it; otherwise deductRect changes nothing. */
  lemma DeductIsDifference(a: Rect, b: Rect, r: Rect)
    requires IsValidRect(a) && IsValidRect(b) && a.l <= b.l && a.t <= b.t && b.r <= a.r && b.b <= a.b
    ensures IsDifference(DeductRect(a, b), a, b) || DeductRect(a, b) == a
    ensures IsDifference(r, a, b) ==> IsDifference(DeductRect(a, b), a, b)
  {
    if IsDifference(r, a, b) {
      // The corners of a that b leaves, and the pixels of b next to them, pin r down.
      assert Covers(r, a.l, a.t) <==> !Covers(b, a.l, a.t);
      assert Covers(r, a.r - 1, a.t) <==> !Covers(b, a.r - 1, a.t);
      assert Covers(r, a.l, a.b - 1) <==> !Covers(b, a.l, a.b - 1);
      assert Covers(r, a.r - 1, a.b - 1) <==> !Covers(b, a.r - 1, a.b - 1);
      assert !Covers(r, b.l, b.t) && !Covers(r, b.r - 1, b.b - 1);
      assert !Covers(r, b.l, b.b - 1) && !Covers(r, b.r - 1, b.t);
      assert Covers(r, b.l, a.t) <==> !Covers(b, b.l, a.t);
      assert Covers(r, b.l, a.b - 1) <==> !Covers(b, b.l, a.b - 1);
      assert Covers(r, a.l, b.t) <==> !Covers(b, a.l, b.t);
      assert Covers(r, a.r - 1, b.t) <==> !Covers(b, a.r - 1, b.t);
    }
  }

  // ---------------------------------------------------------------- scaling

  function Screen(w: int, h: int): Rect { Rect(0, 0, w, h) }

  predicate OnScreen(r: Rect, w: int, h: int)
  {
    0 <= r.l && 0 <= r.t && r.r <= w && r.b <= h
  }

  /** trimLayer: cuts off what lies outside the screen. */
  function TrimLayer(l: Layer, w: int, h: int): (Rect, Rect)
    requires !DividesByZero(l.frame, Screen(w, h))
  {
    if OnScreen(l.frame, w, h) then (l.crop, l.frame) else CropRects(l.crop, l.frame, Screen(w, h), l.tr)
  }

  predicate NeedsScaling(l: Layer, w: int, h: int)
    requires !DividesByZero(l.frame, Screen(w, h))
  {
    var (crop, frame) := TrimLayer(l, w, h);
    crop.W() != frame.W() || crop.H() != frame.H()
  }

  /** The layers that are cut: those with a frame that needsScaling takes for unscaled. */
  predicate IsCut(l: Layer, w: int, h: int)
  {
    IsValidRect(l.frame) && !NeedsScaling(l, w, h)
  }

  /** needsScaling does not take the layer for an unscaled one although it is scaled. It is
      wrong about a layer that is turned by 90 degrees and not square, since it compares width
      with width, and about one that has the size of its frame only after trimming and
      truncation. */
  predicate Plain(l: Layer, w: int, h: int)
  {
    IsCut(l, w, h) ==> Unscaled(l.crop, l.frame, l.tr)
  }

  // ---------------------------------------------------------------- the picture

  /** The source point that layer l shows in the middle of pixel (x, y). */
  function PixelSample(l: Layer, x: int, y: int): (real, real)
    requires Covers(l.frame, x, y)
  {
    Sample(l.crop, l.frame, l.tr, x as real + 0.5, y as real + 0.5)
  }

  /** What is visible at pixel (x, y) of the first n layers, from the bottom up: the layer
      and its source point. An opaque layer hides everything below it. */
  function Painted(ls: seq<Layer>, n: nat, x: int, y: int): seq<(nat, (real, real))>
    requires n <= |ls|
  {
    if n == 0 then []
    else if !Covers(ls[n - 1].frame, x, y) then Painted(ls, n - 1, x, y)
    else if ls[n - 1].solid then [(n - 1, PixelSample(ls[n - 1], x, y))]
    else Painted(ls, n - 1, x, y) + [(n - 1, PixelSample(ls[n - 1], x, y))]
  }

  ghost predicate SamePicture(ls: seq<Layer>, ms: seq<Layer>)
  {
    |ls| == |ms| && forall x, y :: Painted(ls, |ls|, x, y) == Painted(ms, |ms|, x, y)
  }

  /** What one step does to layer j: its frame is cut against an opaque frame. */
  function CutLayer(l: Layer, top: Rect): Layer
  {
    var irect := GetIntersection(l.frame, top);
    if IsValidRect(irect) then
      var (crop, frame) := CropRects(l.crop, l.frame, DeductRect(l.frame, irect), l.tr);
      l.(crop := crop, frame := frame)
    else l
  }

  /** The cut falls on whole source pixels. */
  predicate CutExact(l: Layer, top: Rect)
  {
    var irect := GetIntersection(l.frame, top);
    IsValidRect(irect) ==> ExactCut(l.crop, l.frame, DeductRect(l.frame, irect), l.tr)
  }

  /** Deducting an intersection moves at most one edge, and loses nothing but covered pixels. */
  lemma DeductIsPart(a: Rect, top: Rect, x: int, y: int)
    requires IsValidRect(GetIntersection(a, top))
    ensures var dest := DeductRect(a, GetIntersection(a, top));
            && IsValidRect(a) && Clip(a, dest) == dest && dest.W() >= 0 && dest.H() >= 0
            && (Low(a.l, dest.l) == 0 || High(a.r, dest.r) == 0) && (Low(a.t, dest.t) == 0 || High(a.b, dest.b) == 0)
            && (Covers(dest, x, y) ==> Covers(a, x, y))
            && (Covers(a, x, y) && !Covers(dest, x, y) ==> Covers(top, x, y))
  {
  }

  /** Both layers, where they cover the pixel, show the same source point there. */
  predicate SameAt(l: Layer, m: Layer, x: int, y: int)
  {
    Covers(l.frame, x, y) && Covers(m.frame, x, y) ==> PixelSample(m, x, y) == PixelSample(l, x, y)
  }

  /** A cut layer keeps pixels of its frame and loses only pixels of the opaque one. In any
      one pixel that it keeps it shows what it showed before if and only if the cut falls on
      whole source pixels. */
  lemma {:induction false} CutLayerKeepsPixelIff(l: Layer, top: Rect, x: int, y: int)
    ensures var m := CutLayer(l, top);
            && m.tr == l.tr && m.solid == l.solid
            && (Covers(m.frame, x, y) ==> Covers(l.frame, x, y) && (SameAt(l, m, x, y) <==> CutExact(l, top)))
            && (Covers(l.frame, x, y) && !Covers(m.frame, x, y) ==> Covers(top, x, y))
  {
    var irect := GetIntersection(l.frame, top);
    if IsValidRect(irect) {
      var dest := DeductRect(l.frame, irect);
      DeductIsPart(l.frame, top, x, y);
      if Covers(dest, x, y) { PixelIsKeptIff(l.crop, l.frame, dest, l.tr, x, y); }
    }
  }

  // ---------------------------------------------------------------- cut lists

  /** An opaque layer between j and n covers the pixel. */
  predicate HiddenAt(ls: seq<Layer>, j: int, n: nat, x: int, y: int)
    requires -1 <= j && n <= |ls|
  {
    exists k :: j < k < n && ls[k].solid && Covers(ls[k].frame, x, y)
  }

  /** Layer k lost the pixel only if an opaque layer above it still covers it. */
  predicate LostIsHidden(ls: seq<Layer>, ms: seq<Layer>, k: nat, x: int, y: int)
    requires k < |ls| == |ms|
  {
    && ms[k].solid == ls[k].solid
    && (Covers(ms[k].frame, x, y) ==> Covers(ls[k].frame, x, y))
    && (Covers(ls[k].frame, x, y) ==> Covers(ms[k].frame, x, y) || HiddenAt(ms, k, |ms|, x, y))
  }

  /** Frames have shrunk, and only where opaque layers above them still are. */
  ghost predicate Shrunk(ls: seq<Layer>, ms: seq<Layer>)
  {
    |ls| == |ms| && forall k, x, y :: 0 <= k < |ls| ==> LostIsHidden(ls, ms, k, x, y)
  }

  lemma {:induction false} ShrunkTwice(ls: seq<Layer>, ms: seq<Layer>, ks: seq<Layer>)
    requires Shrunk(ls, ms) && Shrunk(ms, ks)
    ensures Shrunk(ls, ks)
  {
    forall k, x, y | 0 <= k < |ls|
      ensures LostIsHidden(ls, ks, k, x, y)
    {
      assert LostIsHidden(ls, ms, k, x, y) && LostIsHidden(ms, ks, k, x, y);
      if HiddenAt(ms, k, |ms|, x, y) {
        var q :| k < q < |ms| && ms[q].solid && Covers(ms[q].frame, x, y);
        assert LostIsHidden(ms, ks, q, x, y);
      }
    }
  }

  /** Every layer of the first n that is visible at the pixel shows the same there as before. */
  predicate VisibleSame(ls: seq<Layer>, ms: seq<Layer>, n: nat, x: int, y: int)
    requires n <= |ls| == |ms|
  {
    forall k :: 0 <= k < n && !HiddenAt(ms, k, n, x, y) ==> SameAt(ls[k], ms[k], x, y)
  }

  /** What is visible is unchanged, layer by layer. */
  ghost predicate StillShown(ls: seq<Layer>, ms: seq<Layer>)
    requires |ls| == |ms|
  {
    forall x, y :: VisibleSame(ls, ms, |ls|, x, y)
  }

  lemma VisibleSplits(ls: seq<Layer>, ms: seq<Layer>, n: nat, x: int, y: int)
    requires 0 < n <= |ls| == |ms|
    ensures VisibleSame(ls, ms, n, x, y) <==>
            SameAt(ls[n - 1], ms[n - 1], x, y) &&
            ((ms[n - 1].solid && Covers(ms[n - 1].frame, x, y)) || VisibleSame(ls, ms, n - 1, x, y))
  {
    var q := n - 1;
    forall k | 0 <= k < q
      ensures HiddenAt(ms, k, n, x, y) <==>
              HiddenAt(ms, k, q, x, y) || (ms[q].solid && Covers(ms[q].frame, x, y))
    {
    }
    assert !HiddenAt(ms, q, n, x, y);
  }

  /** The first n layers, at a pixel that no opaque layer above them covers. */
  lemma {:induction false} PaintedSameIff(ls: seq<Layer>, ms: seq<Layer>, n: nat, x: int, y: int)
    requires Shrunk(ls, ms) && n <= |ls| && !HiddenAt(ms, n - 1, |ms|, x, y)
    ensures Painted(ms, n, x, y) == Painted(ls, n, x, y) <==> VisibleSame(ls, ms, n, x, y)
    decreases n
  {
    if n > 0 {
      var q := n - 1;
      assert LostIsHidden(ls, ms, q, x, y);
      VisibleSplits(ls, ms, n, x, y);
      if !(ms[q].solid && Covers(ms[q].frame, x, y)) {
        PaintedSameIff(ls, ms, q, x, y);
        if Covers(ms[q].frame, x, y) {
          LastIsEqual(Painted(ms, q, x, y), Painted(ls, q, x, y),
                      (q, PixelSample(ms[q], x, y)), (q, PixelSample(ls[q], x, y)));
        }
      }
    }
  }

  lemma LastIsEqual<T>(s: seq<T>, t: seq<T>, a: T, b: T)
    ensures s + [a] == t + [b] <==> s == t && a == b
  {
    if s + [a] == t + [b] {
      assert |s| == |t|;
      assert (s + [a])[..|s|] == s && (t + [b])[..|t|] == t;
      assert (s + [a])[|s|] == a && (t + [b])[|t|] == b;
    }
  }

  /** The picture of a list whose frames have shrunk is the same if and only if every layer
      shows the same in the pixels where it is still visible. */
  lemma {:induction false} ShrunkPictureIff(ls: seq<Layer>, ms: seq<Layer>)
    requires Shrunk(ls, ms)
    ensures SamePicture(ms, ls) <==> StillShown(ls, ms)
  {
    forall x, y
      ensures Painted(ms, |ms|, x, y) == Painted(ls, |ls|, x, y) <==> VisibleSame(ls, ms, |ls|, x, y)
    {
      PaintedSameIff(ls, ms, |ls|, x, y);
    }
  }

  // ---------------------------------------------------------------- one cut

  lemma {:induction false} CutShrinks(ls: seq<Layer>, j: nat, i: nat)
    requires j < i < |ls| && ls[i].solid
    ensures Shrunk(ls, ls[j := CutLayer(ls[j], ls[i].frame)])
  {
    var ms := ls[j := CutLayer(ls[j], ls[i].frame)];
    forall k, x, y | 0 <= k < |ls|
      ensures LostIsHidden(ls, ms, k, x, y)
    {
      CutLayerKeepsPixelIff(ls[j], ls[i].frame, x, y);
      assert ms[i] == ls[i];
    }
  }

  /** Opaque layers above layer j cover the whole rectangle. */
  ghost predicate HiddenFrame(ls: seq<Layer>, j: nat, r: Rect)
    requires j < |ls|
  {
    forall x, y :: Covers(r, x, y) ==> HiddenAt(ls, j, |ls|, x, y)
  }

  /** Cutting layer j against an opaque layer above it keeps the painted picture if and only
      if the cut falls on whole source pixels, or nothing of what is left is visible. */
  lemma {:induction false} CutKeepsPictureIff(ls: seq<Layer>, j: nat, i: nat)
    requires j < i < |ls| && ls[i].solid
    ensures var m := CutLayer(ls[j], ls[i].frame);
            SamePicture(ls[j := m], ls) <==> CutExact(ls[j], ls[i].frame) || HiddenFrame(ls, j, m.frame)
  {
    var top := ls[i].frame;
    var m := CutLayer(ls[j], top);
    var ms := ls[j := m];
    CutShrinks(ls, j, i);
    ShrunkPictureIff(ls, ms);
    forall x, y
      ensures VisibleSame(ls, ms, |ls|, x, y) <==>
              (Covers(m.frame, x, y) ==> CutExact(ls[j], top) || HiddenAt(ls, j, |ls|, x, y))
    {
      VisibleIffOne(ls, j, m, x, y);
      CutLayerKeepsPixelIff(ls[j], top, x, y);
    }
    if StillShown(ls, ms) && !CutExact(ls[j], top) {
      forall x, y | Covers(m.frame, x, y)
        ensures HiddenAt(ls, j, |ls|, x, y)
      {
        assert VisibleSame(ls, ms, |ls|, x, y);
      }
    }
  }

  lemma VisibleIffOne(ls: seq<Layer>, j: nat, m: Layer, x: int, y: int)
    requires j < |ls|
    ensures VisibleSame(ls, ls[j := m], |ls|, x, y) <==> HiddenAt(ls, j, |ls|, x, y) || SameAt(ls[j], m, x, y)
  {
    var ms := ls[j := m];
    if HiddenAt(ls, j, |ls|, x, y) {
      var k :| j < k < |ls| && ls[k].solid && Covers(ls[k].frame, x, y);
      assert ms[k] == ls[k];
    }
    if HiddenAt(ms, j, |ms|, x, y) {
      var k :| j < k < |ms| && ms[k].solid && Covers(ms[k].frame, x, y);
      assert ms[k] == ls[k];
    }
    forall k | 0 <= k < |ls| && k != j
      ensures SameAt(ls[k], ms[k], x, y)
    {
    }
  }

  // ---------------------------------------------------------------- all cuts

  /** A cut leaves a frame for which the next needsScaling divides by zero, if and only if the
      layer is hidden completely and its lower edge is outside the screen. */
  lemma CutDividesByZeroIff(l: Layer, top: Rect, w: int, h: int)
    requires IsValidRect(l.frame)
    ensures DividesByZero(CutLayer(l, top).frame, Screen(w, h)) <==>
            (forall x, y :: Covers(l.frame, x, y) ==> Covers(top, x, y)) && !(0 <= l.frame.b <= h)
  {
    var f, irect := l.frame, GetIntersection(l.frame, top);
    if forall x, y :: Covers(f, x, y) ==> Covers(top, x, y) {
      assert Covers(f, f.l, f.t) && Covers(f, f.r - 1, f.b - 1);
      assert irect == f;
    } else {
      var x, y :| Covers(f, x, y) && !Covers(top, x, y);
      IntersectionIsCommon(f, top, x, y);
      assert irect != f;
    }
  }

  /** What layer i does to the layers below it that need no scaling. */
  function CutAllBelow(ls: seq<Layer>, i: nat, w: int, h: int): (r: seq<Layer>)
    requires i < |ls|
    ensures |r| == |ls|
  {
    seq(|ls|, k requires 0 <= k < |ls| =>
      if k < i && IsCut(ls[k], w, h) then CutLayer(ls[k], ls[i].frame) else ls[k])
  }

  /** Every opaque layer, from layer i down, cuts the layers below it, with the frame that the
      layers above have left it. */
  function Optimized(ls: seq<Layer>, i: int, w: int, h: int): (r: seq<Layer>)
    requires i < |ls|
    ensures |r| == |ls|
    decreases i
  {
    if i <= 0 then ls else Optimized(if ls[i].solid then CutAllBelow(ls, i, w, h) else ls, i - 1, w, h)
  }

  lemma OptimizedStep(ls: seq<Layer>, i: nat, w: int, h: int)
    requires 0 < i < |ls|
    ensures Optimized(ls, i, w, h) == Optimized(if ls[i].solid then CutAllBelow(ls, i, w, h) else ls, i - 1, w, h)
  {
  }

  /** Every cut that layer i makes falls on whole source pixels. */
  predicate CutsByAreExact(ls: seq<Layer>, i: nat, w: int, h: int)
    requires i < |ls|
  {
    forall k :: 0 <= k < i && IsCut(ls[k], w, h) ==> CutExact(ls[k], ls[i].frame)
  }

  /** And so does every cut of the loops. */
  predicate CutsAreExact(ls: seq<Layer>, i: int, w: int, h: int)
    requires i < |ls|
    decreases i
  {
    i > 0 ==>
      && (ls[i].solid ==> CutsByAreExact(ls, i, w, h))
      && CutsAreExact(if ls[i].solid then CutAllBelow(ls, i, w, h) else ls, i - 1, w, h)
  }

  lemma {:induction false} CutAllShrinks(ls: seq<Layer>, i: nat, w: int, h: int)
    requires i < |ls| && ls[i].solid
    ensures Shrunk(ls, CutAllBelow(ls, i, w, h))
  {
    var ms := CutAllBelow(ls, i, w, h);
    forall k, x, y | 0 <= k < |ls|
      ensures LostIsHidden(ls, ms, k, x, y)
    {
      CutLayerKeepsPixelIff(ls[k], ls[i].frame, x, y);
      assert ms[i] == ls[i];
    }
  }

  lemma NothingLost(ls: seq<Layer>)
    ensures Shrunk(ls, ls)
  {
  }

  lemma {:induction false} OptimizedShrinks(ls: seq<Layer>, i: int, w: int, h: int)
    requires i < |ls|
    ensures Shrunk(ls, Optimized(ls, i, w, h))
    decreases i
  {
    if i <= 0 {
      NothingLost(ls);
    } else if ls[i].solid {
      var ms := CutAllBelow(ls, i, w, h);
      CutAllShrinks(ls, i, w, h);
      OptimizedShrinks(ms, i - 1, w, h);
      ShrunkTwice(ls, ms, Optimized(ms, i - 1, w, h));
    } else {
      OptimizedShrinks(ls, i - 1, w, h);
    }
  }

  /** Every layer shows the same in every pixel that it keeps. */
  ghost predicate AllSame(ls: seq<Layer>, ms: seq<Layer>)
    requires |ls| == |ms|
  {
    forall k, x, y :: 0 <= k < |ls| ==> SameAt(ls[k], ms[k], x, y)
  }

  lemma {:induction false} ExactCutsShowSame(ls: seq<Layer>, i: int, w: int, h: int)
    requires i < |ls| && CutsAreExact(ls, i, w, h)
    ensures AllSame(ls, Optimized(ls, i, w, h))
    decreases i
  {
    if i > 0 {
      var ms := if ls[i].solid then CutAllBelow(ls, i, w, h) else ls;
      var ks := Optimized(ms, i - 1, w, h);
      OptimizedStep(ls, i, w, h);
      assert CutsAreExact(ms, i - 1, w, h) && (ls[i].solid ==> CutsByAreExact(ls, i, w, h));
      ExactCutsShowSame(ms, i - 1, w, h);
      if ls[i].solid {
        OptimizedShrinks(ms, i - 1, w, h);
        SameThenSame(ls, i, w, h, ks);
      }
    }
  }

  lemma {:induction false} SameThenSame(ls: seq<Layer>, i: nat, w: int, h: int, ks: seq<Layer>)
    requires i < |ls| && CutsByAreExact(ls, i, w, h)
    requires Shrunk(CutAllBelow(ls, i, w, h), ks) && AllSame(CutAllBelow(ls, i, w, h), ks)
    ensures AllSame(ls, ks)
  {
    var ms := CutAllBelow(ls, i, w, h);
    forall k, x, y | 0 <= k < |ls|
      ensures SameAt(ls[k], ks[k], x, y)
    {
      assert LostIsHidden(ms, ks, k, x, y) && SameAt(ms[k], ks[k], x, y);
      CutLayerKeepsPixelIff(ls[k], ls[i].frame, x, y);
    }
  }

  /** Overdraw removal keeps the painted picture if and only if every layer shows the same as
      before in the pixels where it is still visible; and it does if all its cuts fall on
      whole source pixels. */
  lemma {:induction false} OptimizedPictureIff(ls: seq<Layer>, i: int, w: int, h: int)
    requires i < |ls|
    ensures SamePicture(Optimized(ls, i, w, h), ls) <==> StillShown(ls, Optimized(ls, i, w, h))
    ensures CutsAreExact(ls, i, w, h) ==> SamePicture(Optimized(ls, i, w, h), ls)
  {
    OptimizedShrinks(ls, i, w, h);
    ShrunkPictureIff(ls, Optimized(ls, i, w, h));
    if CutsAreExact(ls, i, w, h) {
      ExactCutsShowSame(ls, i, w, h);
    }
  }

  predicate AllPlain(ls: seq<Layer>, w: int, h: int)
  {
    forall k :: 0 <= k < |ls| ==> Plain(ls[k], w, h)
  }

  lemma {:induction false} UnscaledLoss(dst: Rect, sci: Rect)
    requires IsValidRect(dst)
    ensures LostPixels(dst.W(), dst.H(), dst, sci) ==
            Rect(Low(dst.l, sci.l), Low(dst.t, sci.t), High(dst.r, sci.r), High(dst.b, sci.b))
  {
    FullShare(dst.W(), Low(dst.l, sci.l));
    FullShare(dst.W(), High(dst.r, sci.r));
    FullShare(dst.H(), Low(dst.t, sci.t));
    FullShare(dst.H(), High(dst.b, sci.b));
  }

  lemma {:induction false} FullShare(n: int, cut: nat)
    requires n > 0
    ensures Share(n, cut, n) == cut
  {
    ModIsUnique(n * cut, n, cut, 0);
  }

  /** Cropping an unscaled layer to a part of its frame leaves it unscaled. */
  lemma {:induction false} CropStaysUnscaled(l: Layer, dest: Rect)
    requires IsValidRect(l.frame) && Unscaled(l.crop, l.frame, l.tr)
    requires Clip(l.frame, dest) == dest && dest.W() >= 0 && dest.H() >= 0
    ensures Unscaled(CropRects(l.crop, l.frame, dest, l.tr).0, dest, l.tr)
  {
    UnscaledIsExact(l.crop, l.frame, dest, l.tr);
    ExactCropRects(l.crop, l.frame, dest, l.tr);
    UnscaledLoss(l.frame, dest);
  }

  lemma {:induction false} PlainCutIsExact(l: Layer, top: Rect, w: int, h: int)
    requires Plain(l, w, h) && IsCut(l, w, h)
    ensures CutExact(l, top) && Plain(CutLayer(l, top), w, h)
  {
    var irect := GetIntersection(l.frame, top);
    if IsValidRect(irect) {
      var dest := DeductRect(l.frame, irect);
      DeductIsPart(l.frame, top, 0, 0);
      UnscaledIsExact(l.crop, l.frame, dest, l.tr);
      CropStaysUnscaled(l, dest);
    }
  }

  /** If needsScaling is right about every layer, all cuts fall on whole source pixels. */
  lemma {:induction false} PlainCutsAreExact(ls: seq<Layer>, i: int, w: int, h: int)
    requires i < |ls| && AllPlain(ls, w, h)
    ensures CutsAreExact(ls, i, w, h)
    decreases i
  {
    if i > 0 {
      forall k | 0 <= k < i && IsCut(ls[k], w, h)
        ensures CutExact(ls[k], ls[i].frame) && Plain(CutLayer(ls[k], ls[i].frame), w, h)
      {
        PlainCutIsExact(ls[k], ls[i].frame, w, h);
      }
      PlainCutsAreExact(if ls[i].solid then CutAllBelow(ls, i, w, h) else ls, i - 1, w, h);
    }
  }

  // ---------------------------------------------------------------- what is removed

  lemma NotMoved(edge: int, size: int, ratio: real)
    requires ratio == 0.0
    ensures Moved(edge, size, ratio) == edge
  {
    assert size as real * ratio == 0.0;
  }

  lemma {:induction false} NoCuts(dst: Rect, sci: Rect, tr: Transform)
    requires Clip(dst, sci) == dst
    ensures !DividesByZero(dst, sci) && CalcCut(DisplayCuts(dst, sci), tr) == Cuts(0.0, 0.0, 0.0, 0.0)
  {
  }

  lemma {:induction false} NothingToClip(crop: Rect, dst: Rect, sci: Rect, tr: Transform)
    requires Clip(dst, sci) == dst
    ensures CropRects(crop, dst, sci, tr) == (crop, dst)
  {
    NoCuts(dst, sci, tr);
    NotMoved(crop.l, crop.W(), 0.0);
    NotMoved(crop.t, crop.H(), 0.0);
    NotMoved(crop.r, -crop.W(), 0.0);
    NotMoved(crop.b, -crop.H(), 0.0);
  }

  /** A layer with a frame, whose crop has the size of its frame once both are trimmed to the
      screen. */
  predicate SizesAgree(l: Layer, w: int, h: int)
  {
    IsValidRect(l.frame) &&
    var (crop, frame) := CropRects(l.crop, l.frame, Screen(w, h), l.tr);
    crop.W() == frame.W() && crop.H() == frame.H()
  }

  /** The shortcut for layers on the screen changes nothing. */
  lemma {:induction false} CutIffSizesAgree(l: Layer, w: int, h: int)
    ensures IsCut(l, w, h) <==> SizesAgree(l, w, h)
  {
    if OnScreen(l.frame, w, h) { NothingToClip(l.crop, l.frame, Screen(w, h), l.tr); }
  }

  /** An unscaled and unturned layer on the screen is one of them. */
  lemma {:induction false} UnscaledSizesAgree(l: Layer, w: int, h: int)
    requires IsValidRect(l.frame) && OnScreen(l.frame, w, h) && Unscaled(l.crop, l.frame, l.tr) && !l.tr.rot90
    ensures SizesAgree(l, w, h)
  {
    NothingToClip(l.crop, l.frame, Screen(w, h), l.tr);
  }

  /** Some rectangle is the difference of a and b. */
  ghost predicate HasDifference(a: Rect, b: Rect)
  {
    exists r :: IsDifference(r, a, b)
  }

  /** Layer m is layer l without what `top` hides, if that is a single rectangle, and else l. */
  ghost predicate Loses(l: Layer, m: Layer, top: Rect)
  {
    && m.tr == l.tr && m.solid == l.solid
    && (HasDifference(l.frame, top) ==> IsDifference(m.frame, l.frame, top))
    && (!HasDifference(l.frame, top) ==> m == l)
  }

  lemma {:induction false} DifferenceOfPart(a: Rect, b: Rect, r: Rect)
    ensures IsDifference(r, a, GetIntersection(a, b)) <==> IsDifference(r, a, b)
  {
    forall x, y
      ensures Covers(a, x, y) && !Covers(GetIntersection(a, b), x, y) <==> Covers(a, x, y) && !Covers(b, x, y)
    {
      IntersectionIsCommon(a, b, x, y);
    }
  }

  lemma {:induction false} NothingHidden(a: Rect, b: Rect)
    requires !IsValidRect(GetIntersection(a, b))
    ensures IsDifference(a, a, b)
  {
    forall x, y
      ensures !(Covers(a, x, y) && Covers(b, x, y))
    {
      IntersectionIsCommon(a, b, x, y);
    }
  }

  lemma {:induction false} CutLayerLoses(l: Layer, top: Rect)
    ensures Loses(l, CutLayer(l, top), top)
  {
    var irect := GetIntersection(l.frame, top);
    if IsValidRect(irect) {
      var dest := DeductRect(l.frame, irect);
      DeductIsPart(l.frame, top, 0, 0);
      DifferenceOfPart(l.frame, top, dest);
      if HasDifference(l.frame, top) {
        var r :| IsDifference(r, l.frame, top);
        DifferenceOfPart(l.frame, top, r);
        DeductIsDifference(l.frame, irect, r);
      } else {
        DeductIsDifference(l.frame, irect, l.frame);
        NothingToClip(l.crop, l.frame, dest, l.tr);
      }
    } else {
      NothingHidden(l.frame, top);
    }
  }

  /** What the layers are after opaque layer i has cut those below it. */
  ghost predicate CutsInto(ls: seq<Layer>, ms: seq<Layer>, i: nat, w: int, h: int)
    requires i < |ls|
  {
    && |ms| == |ls| && ms[i..] == ls[i..]
    && forall k :: 0 <= k < i ==> if SizesAgree(ls[k], w, h) then Loses(ls[k], ms[k], ls[i].frame) else ms[k] == ls[k]
  }

  lemma {:induction false} CutAllCutsInto(ls: seq<Layer>, i: nat, w: int, h: int)
    requires i < |ls|
    ensures CutsInto(ls, CutAllBelow(ls, i, w, h), i, w, h)
  {
    var ms := CutAllBelow(ls, i, w, h);
    forall k | 0 <= k < i
      ensures if SizesAgree(ls[k], w, h) then Loses(ls[k], ms[k], ls[i].frame) else ms[k] == ls[k]
    {
      CutIffSizesAgree(ls[k], w, h);
      CutLayerLoses(ls[k], ls[i].frame);
    }
  }

  /** ss[i] is the list that the outer loop finds when it comes to layer i. */
  ghost predicate AreStages(ss: seq<seq<Layer>>, w: int, h: int)
  {
    && (forall i :: 0 <= i < |ss| ==> i < |ss[i]|)
    && forall i :: 0 < i < |ss| ==> if ss[i][i].solid then CutsInto(ss[i], ss[i - 1], i, w, h) else ss[i - 1] == ss[i]
  }

  /** The outer loop, from the topmost layer down, leads from ls to ms. */
  ghost predicate IsReached(ls: seq<Layer>, ms: seq<Layer>, w: int, h: int)
    requires |ls| > 0
  {
    exists ss :: |ss| == |ls| && AreStages(ss, w, h) && ss[|ls| - 1] == ls && ss[0] == ms
  }

  lemma {:induction false} StagesOfCuts(ls: seq<Layer>, i: nat, w: int, h: int) returns (ss: seq<seq<Layer>>)
    requires i < |ls|
    ensures |ss| == i + 1 && AreStages(ss, w, h) && ss[i] == ls && ss[0] == Optimized(ls, i, w, h)
    decreases i
  {
    if i == 0 {
      ss := [ls];
    } else {
      var ms := if ls[i].solid then CutAllBelow(ls, i, w, h) else ls;
      CutAllCutsInto(ls, i, w, h);
      OptimizedStep(ls, i, w, h);
      var ss' := StagesOfCuts(ms, i - 1, w, h);
      ss := ss' + [ls];
    }
  }

  /** From the stage of layer i on, the layers from i up stay as they are. */
  lemma {:induction false} UpperLayersStay(ss: seq<seq<Layer>>, i: nat, k: nat, w: int, h: int)
    requires AreStages(ss, w, h) && k <= i < |ss|
    ensures |ss[k]| == |ss[i]| && ss[k][i..] == ss[i][i..]
    decreases i - k
  {
    if k < i {
      UpperLayersStay(ss, i, k + 1, w, h);
      var (ls, ms) := (ss[k + 1], ss[k]);
      assert ms[k + 1..] == ls[k + 1..];
      assert ms[i..] == ms[k + 1..][i - k - 1..] && ls[i..] == ls[k + 1..][i - k - 1..];
    }
  }

  lemma {:induction false} StagesShrink(ss: seq<seq<Layer>>, i: nat, j: nat, x: int, y: int, w: int, h: int)
    requires AreStages(ss, w, h) && i < |ss| && j < |ss[i]| == |ss[0]| && Covers(ss[0][j].frame, x, y)
    ensures Covers(ss[i][j].frame, x, y)
  {
    if i > 0 {
      UpperLayersStay(ss, i, i - 1, w, h);
      StagesShrink(ss, i - 1, j, x, y, w, h);
      var (ls, ms) := (ss[i], ss[i - 1]);
      if ls[i].solid && j < i && SizesAgree(ls[j], w, h) {
        assert Loses(ls[j], ms[j], ls[i].frame);
      } else if j >= i {
        assert ms[j] == ms[i..][j - i] && ls[j] == ls[i..][j - i];
      }
    }
  }

  /** When the loops are over, layer j covers no pixel of the opaque layer i above it, if at the
      stage of layer i its sizes agreed and the difference of the frames was a rectangle. */
  lemma {:induction false} HiddenIsRemoved(ss: seq<seq<Layer>>, j: nat, i: nat, x: int, y: int, w: int, h: int)
    requires AreStages(ss, w, h) && j < i < |ss| && ss[i][i].solid
    requires SizesAgree(ss[i][j], w, h) && HasDifference(ss[i][j].frame, ss[i][i].frame)
    ensures |ss[0]| == |ss[i]| && ss[0][i] == ss[i][i]
    ensures !(Covers(ss[0][j].frame, x, y) && Covers(ss[0][i].frame, x, y))
  {
    UpperLayersStay(ss, i, 0, w, h);
    UpperLayersStay(ss, i, i - 1, w, h);
    UpperLayersStay(ss, i - 1, 0, w, h);
    assert ss[0][i] == ss[0][i..][0] && ss[i][i] == ss[i][i..][0];
    if Covers(ss[0][j].frame, x, y) {
      StagesShrink(ss, i - 1, j, x, y, w, h);
      assert Loses(ss[i][j], ss[i - 1][j], ss[i][i].frame);
    }
  }

  lemma {:induction false} OnlyOpaqueLayersCut(ls: seq<Layer>, i: nat, n: nat, w: int, h: int)
    requires i <= n < |ls| && forall k :: i < k <= n ==> !ls[k].solid
    ensures Optimized(ls, n, w, h) == Optimized(ls, i, w, h)
    decreases n
  {
    if i < n {
      OptimizedStep(ls, n, w, h);
      OnlyOpaqueLayersCut(ls, i, n - 1, w, h);
    }
  }

  /** In particular nothing of a layer is left under the topmost opaque layer, whose frame is
      never cut, if its sizes agree and the difference of the frames is a rectangle. */
  lemma {:induction false} TopmostHides(ls: seq<Layer>, j: nat, i: nat, r: Rect, x: int, y: int, w: int, h: int)
    requires j < i < |ls| && ls[i].solid && forall k :: i < k < |ls| ==> !ls[k].solid
    requires SizesAgree(ls[j], w, h) && IsDifference(r, ls[j].frame, ls[i].frame)
    ensures var ms := Optimized(ls, |ls| - 1, w, h);
            ms[i] == ls[i] && !(Covers(ms[j].frame, x, y) && Covers(ls[i].frame, x, y))
  {
    OnlyOpaqueLayersCut(ls, i, |ls| - 1, w, h);
    var ss := StagesOfCuts(ls, i, w, h);
    HiddenIsRemoved(ss, j, i, x, y, w, h);
  }

  // ---------------------------------------------------------------- the loops

  /** optimizeLayerRects, whatever needsScaling answers (`undefined`) after a division by zero. */
  method OptimizeLayerRects(layers: array<Layer>, w: int, h: int, undefined: Layer -> bool)
    modifies layers
    ensures layers[..] == Optimized(old(layers[..]), layers.Length - 1, w, h)
    ensures SamePicture(layers[..], old(layers[..])) <==> StillShown(old(layers[..]), layers[..])
    ensures CutsAreExact(old(layers[..]), layers.Length - 1, w, h) ==> SamePicture(layers[..], old(layers[..]))
    ensures layers.Length > 0 ==> IsReached(old(layers[..]), layers[..], w, h)
  {
    ghost var before := layers[..];
    var i := layers.Length - 1;
    while i > 0
      invariant -1 <= i < layers.Length
      invariant Optimized(layers[..], i, w, h) == Optimized(before, layers.Length - 1, w, h)
    {
      OptimizedStep(layers[..], i, w, h);
      if layers[i].solid {
        CutBelow(layers, i, w, h, undefined);
      }
      i := i - 1;
    }
    OptimizedPictureIff(before, layers.Length - 1, w, h);
    if layers.Length > 0 {
      ghost var ss := StagesOfCuts(before, layers.Length - 1, w, h);
    }
  }

  /** The inner loop: layer i cuts the layers below it. */
  method CutBelow(layers: array<Layer>, i: nat, w: int, h: int, undefined: Layer -> bool)
    requires i < layers.Length
    modifies layers
    ensures layers[..] == CutAllBelow(old(layers[..]), i, w, h)
    ensures CutsInto(old(layers[..]), layers[..], i, w, h)
  {
    ghost var before := layers[..];
    var j := i - 1;
    while j >= 0
      invariant -1 <= j < i
      invariant forall k :: 0 <= k <= j || i <= k < layers.Length ==> layers[k] == before[k]
      invariant forall k :: j < k < i ==> layers[k] == CutAllBelow(before, i, w, h)[k]
    {
      CutOne(layers, j, i, w, h, undefined);
      j := j - 1;
    }
    assert layers[..] == CutAllBelow(before, i, w, h);
    CutAllCutsInto(before, i, w, h);
  }

  /** The body of the inner loop. */
  method CutOne(layers: array<Layer>, j: nat, i: nat, w: int, h: int, undefined: Layer -> bool)
    requires j < i < layers.Length
    modifies layers
    ensures layers[..] == old(layers[..])[j := layers[j]]
    ensures layers[j] ==
            if IsCut(old(layers[j]), w, h) then CutLayer(old(layers[j]), old(layers[i]).frame) else old(layers[j])
  {
    var needsScaling := if DividesByZero(layers[j].frame, Screen(w, h)) then undefined(layers[j])
                        else NeedsScaling(layers[j], w, h);
    if !needsScaling {
      var irect := GetIntersection(layers[j].frame, layers[i].frame);
      if IsValidRect(irect) {
        var destRect := DeductRect(layers[j].frame, irect);
        var crop, frame := CalculateCropRects(layers[j].crop, layers[j].frame, destRect, layers[j].tr);
        layers[j] := layers[j].(crop := crop, frame := frame);
      }
    }
  }

  // ---------------------------------------------------------------- scaled layers

  /** A turned layer that is not square is cut although it is scaled, and then shows
      something else: a 4 by 2 layer turned by 90 degrees that loses its left column. */
  lemma TurnedLayerCanChange()
    ensures var turned := Layer(Rect(0, 0, 4, 2), Rect(0, 0, 4, 2), Transform(false, false, true), true);
            var top := Layer(Rect(0, 0, 1, 2), Rect(0, 0, 1, 2), IDENTITY, true);
            && IsCut(turned, 4, 2) && !Plain(turned, 4, 2)
            && !SamePicture([CutLayer(turned, top.frame), top], [turned, top])
  {
    var turned := Layer(Rect(0, 0, 4, 2), Rect(0, 0, 4, 2), Transform(false, false, true), true);
    var top := Layer(Rect(0, 0, 1, 2), Rect(0, 0, 1, 2), IDENTITY, true);
    var cut := CutLayer(turned, top.frame);
    assert GetIntersection(turned.frame, top.frame) == Rect(0, 0, 1, 2);
    assert cut.frame == Rect(1, 0, 4, 2);
    assert cut.crop.b == 1 && cut.crop.t == 0;
    var x, y := 1, 0;
    assert PixelSample(turned, x, y).1 == 1.25;
    assert PixelSample(cut, x, y).1 < 1.0;
    var ls, ms := [cut, top], [turned, top];
    assert Painted(ls, 1, x, y) == [(0, PixelSample(cut, x, y))];
    assert Painted(ms, 1, x, y) == [(0, PixelSample(turned, x, y))];
    assert Painted(ls, 2, x, y) == Painted(ls, 1, x, y) && Painted(ms, 2, x, y) == Painted(ms, 1, x, y);
  }

  lemma {:induction false} TrimmedToScreen(wide: Layer, w: int, h: int)
    requires wide.frame == Rect(-1, 0, 3, h) && wide.crop == Rect(0, 0, 3, h) && wide.tr == IDENTITY
    requires w >= 3 && h > 0
    ensures TrimLayer(wide, w, h) == (Rect(0, 0, 3, h), Rect(0, 0, 3, h))
  {
    var c := DisplayCuts(wide.frame, Screen(w, h));
    assert c == Cuts(0.25, 0.0, 0.0, 0.0);
    assert CutCrop(wide.crop, c) == Rect(0, 0, 3, h);
  }

  lemma {:induction false} TrimmedCut(wide: Layer, top: Rect, h: int)
    requires wide.frame == Rect(-1, 0, 3, h) && wide.crop == Rect(0, 0, 3, h) && wide.tr == IDENTITY
    requires top == Rect(-1, 0, 1, h) && h > 0
    ensures CutLayer(wide, top) == wide.(frame := Rect(1, 0, 3, h), crop := Rect(1, 0, 3, h))
    ensures PixelSample(wide, 1, 0).0 == 1.875 && PixelSample(CutLayer(wide, top), 1, 0).0 == 1.5
  {
    assert GetIntersection(wide.frame, top) == top;
    var dest := DeductRect(wide.frame, top);
    assert dest == Rect(1, 0, 3, h);
    var c := DisplayCuts(wide.frame, dest);
    assert c == Cuts(0.5, 0.0, 0.0, 0.0);
    assert CutCrop(wide.crop, c) == Rect(1, 0, 3, h);
  }

  /** A scaled layer, 3 columns of the source on 4, that reaches one column beyond the screen.
      Trimming it truncates to a crop of 3 columns on a frame of 3, so it is cut, and then
      shows something else. */
  lemma {:induction false} TrimmedLayerCanChange(wide: Layer, top: Layer, w: int, h: int)
    requires wide.frame == Rect(-1, 0, 3, h) && wide.crop == Rect(0, 0, 3, h) && wide.tr == IDENTITY
    requires top.frame == Rect(-1, 0, 1, h) && top.solid && w >= 3 && h > 0
    ensures IsCut(wide, w, h) && !Plain(wide, w, h)
    ensures !SamePicture([CutLayer(wide, top.frame), top], [wide, top])
  {
    TrimmedToScreen(wide, w, h);
    TrimmedCut(wide, top.frame, h);
    var cut := CutLayer(wide, top.frame);
    var x, y := 1, 0;
    var ls, ms := [cut, top], [wide, top];
    assert Painted(ls, 1, x, y) == [(0, PixelSample(cut, x, y))];
    assert Painted(ms, 1, x, y) == [(0, PixelSample(wide, x, y))];
    assert Painted(ls, 2, x, y) == Painted(ls, 1, x, y) && Painted(ms, 2, x, y) == Painted(ms, 1, x, y);
  }
}
