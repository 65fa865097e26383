/** What the planes that gralloc reports stand for: which bytes are which sample, that no two
    samples share a byte, and that the copybit conversion of a YV12 image shows the same image
    in the planes of its result. */
module YuvImages {
  import opened Bits
  import opened YuvPlanes
  import opened Yv12Converter
  import C2dConverter

  type Bytes = seq<C2dConverter.Byte>

  // ---------------------------------------------------------------- the converted image

  /** An even image whose planes can be addressed with words. */
  predicate EvenImage(l: Layout)
  {
    && l.Fits() && l.stride < INT_RANGE && l.height < INT_RANGE && l.width >= 2
    && l.stride % 2 == 0 && l.width % 2 == 0 && l.height % 2 == 0
    && l.YSize() + 2 * l.CSize() + 1 < MAX_WORD
  }

  predicate SameByte(a: Bytes, i: int, b: Bytes, j: int)
  {
    0 <= i < |a| && 0 <= j < |b| && a[i] == b[j]
  }

  /** The chroma samples at row r and column c. */
  predicate SameChroma(p: Planes, a: Bytes, q: Planes, b: Bytes, r: int, c: int)
    requires p.Planes? && q.Planes?
  {
    && SameByte(a, SampleAt(p.cr, p.cStride, p.step, r, c), b, SampleAt(q.cr, q.cStride, q.step, r, c))
    && SameByte(a, SampleAt(p.cb, p.cStride, p.step, r, c), b, SampleAt(q.cb, q.cStride, q.step, r, c))
  }

  /** All samples of the image, seen through the planes p in a and through q in b, are equal. */
  ghost predicate SameImage(p: Planes, a: Bytes, q: Planes, b: Bytes, l: Layout)
  {
    && p.Planes? && q.Planes?
    && (forall r, c :: 0 <= r < l.height && 0 <= c < l.stride ==>
          SameByte(a, SampleAt(p.y, p.yStride, 1, r, c), b, SampleAt(q.y, q.yStride, 1, r, c)))
    && (forall r, c :: 0 <= r < l.HalfHeight() && 0 <= c < l.HalfWidth() ==> SameChroma(p, a, q, b, r, c))
  }

  lemma {:induction false} HalfOfRows(l: Layout)
    requires EvenImage(l)
    ensures l.CWidth() * l.height == 2 * l.CSize()
  {
    HalfRows(l.CWidth(), l.height);
  }

  lemma {:induction false} PlanesOf(l: Layout)
    requires EvenImage(l)
    ensures GetPlanes(l.stride, l.height, YV12) ==
            Planes(0, l.YSize() + l.CSize(), l.YSize(), l.stride, l.CWidth(), 1)
    ensures GetPlanes(l.stride, l.height, YCrCb_420_SP) == Planes(0, l.YSize() + 1, l.YSize(), l.stride, l.stride, 2)
  {
    HalfOfRows(l);
    UpIsAlign(l.stride / 2, 16);
    assert Mul(l.stride, l.height) == l.YSize() && Mul(l.CWidth(), l.height) == 2 * l.CSize();
  }

  lemma {:induction false} PairOfRow(r: nat, n: nat, w: nat, c: nat)
    requires w == 2 * n
    ensures 2 * (r * n + c) == r * w + 2 * c && 0 <= r * n
  {
    assert r * (2 * n) == 2 * (r * n);
    C2dConverter.Nonnegative(r, n);
  }

  lemma {:induction false} PairAt(l: Layout, r: nat, c: nat) returns (k: nat)
    requires EvenImage(l) && r < l.HalfHeight() && c < l.HalfWidth()
    ensures k < l.Count() && 2 * k == r * l.width + 2 * c && l.SampleAt(k) == r * l.CWidth() + c
  {
    PairOfRow(r, l.HalfWidth(), l.width, c);
    EvenHeightIsWhole(l);
    SampleOfRow(l, r, c);
    k := r * l.HalfWidth() + c;
  }

  /** The converted chroma has rows of as many bytes as the image has columns. */
  lemma {:induction false} ConvertedChroma(l: Layout, src: Bytes, was: Bytes, now: Bytes, r: nat, c: nat)
    requires EvenImage(l) && Holds(l, |src|, |was|) && Yv12Converter.Converted(l, src, was, now)
    requires r < l.HalfHeight() && c < l.HalfWidth()
    ensures SameByte(now, l.YSize() + r * l.width + 2 * c, src, l.YSize() + r * l.CWidth() + c)
    ensures SameByte(now, l.YSize() + r * l.width + 2 * c + 1, src, l.YSize() + l.CSize() + r * l.CWidth() + c)
  {
    var k := PairAt(l, r, c);
    PairGives(l, src, was, now, k);
  }

  lemma {:induction false} PairGives(l: Layout, src: Bytes, was: Bytes, now: Bytes, k: nat)
    requires Holds(l, |src|, |was|) && Yv12Converter.Converted(l, src, was, now) && k < l.Count()
    ensures SameByte(now, l.YSize() + 2 * k, src, l.YSize() + l.SampleAt(k))
    ensures SameByte(now, l.YSize() + 2 * k + 1, src, l.YSize() + l.CSize() + l.SampleAt(k))
  {
    SampleInPlane(l, k);
    assert PairIs(l, src, now, k);
  }

  lemma {:induction false} ConvertedLuma(l: Layout, src: Bytes, was: Bytes, now: Bytes, r: nat, c: nat)
    requires EvenImage(l) && Holds(l, |src|, |was|) && Yv12Converter.Converted(l, src, was, now)
    requires r < l.height && c < l.stride
    ensures SameByte(now, r * l.stride + c, src, r * l.stride + c)
  {
    var i := r * l.stride + c;
    MulMonotone(r, l.height, l.stride);
    C2dConverter.Nonnegative(r, l.stride);
    assert now[..l.YSize()][i] == src[..l.YSize()][i];
  }

  /** The planes of the result, and those of the source. */
  predicate ArePlanes(l: Layout, p: Planes, q: Planes)
    requires l.Fits()
  {
    && p == Planes(0, l.YSize() + 1, l.YSize(), l.stride, l.stride, 2)
    && q == Planes(0, l.YSize() + l.CSize(), l.YSize(), l.stride, l.CWidth(), 1)
  }

  lemma {:induction false} ChromaIsSame(
    l: Layout, src: Bytes, was: Bytes, now: Bytes, p: Planes, q: Planes, r: nat, c: nat)
    requires EvenImage(l) && Holds(l, |src|, |was|) && Yv12Converter.Converted(l, src, was, now)
    requires ArePlanes(l, p, q) && r < l.HalfHeight() && c < l.HalfWidth() && (l.width == l.stride || r == 0)
    ensures SameChroma(p, now, q, src, r, c)
  {
    ConvertedChroma(l, src, was, now, r, c);
    SameProduct(r, l.width, l.stride);
  }

  lemma SameProduct(r: int, w: int, s: int)
    requires w == s || r == 0
    ensures r * w == r * s
  {
  }

  lemma {:induction false} ConvertedIsSame(l: Layout, src: Bytes, was: Bytes, now: Bytes, p: Planes, q: Planes)
    requires EvenImage(l) && Holds(l, |src|, |was|) && Yv12Converter.Converted(l, src, was, now)
    requires ArePlanes(l, p, q) && (l.width == l.stride || l.height <= 2)
    ensures SameImage(p, now, q, src, l)
  {
    forall r, c | 0 <= r < l.height && 0 <= c < l.stride
      ensures SameByte(now, SampleAt(p.y, p.yStride, 1, r, c), src, SampleAt(q.y, q.yStride, 1, r, c))
    {
      ConvertedLuma(l, src, was, now, r, c);
    }
    forall r, c | 0 <= r < l.HalfHeight() && 0 <= c < l.HalfWidth()
      ensures SameChroma(p, now, q, src, r, c)
    {
      ChromaIsSame(l, src, was, now, p, q, r, c);
    }
  }

  /** A source whose only bright byte is the first Cr sample of the second row. */
  function Marked(l: Layout): (src: Bytes)
    requires l.Fits()
  {
    seq(l.YSize() + 2 * l.CSize(), p => if p == l.YSize() + l.CWidth() then 1 else 0)
  }

  /** Byte p of what becomes of src. */
  function ResultByte(l: Layout, src: Bytes, p: nat): C2dConverter.Byte
    requires l.Fits() && |src| == l.YSize() + 2 * l.CSize() && p < l.YSize() + 2 * l.Count()
  {
    if p < l.YSize() then src[p]
    else
      var k := (p - l.YSize()) / 2;
      SampleInPlane(l, k);
      src[l.YSize() + (if (p - l.YSize()) % 2 == 1 then l.CSize() else 0) + l.SampleAt(k)]
  }

  lemma {:induction false} ResultBytes(l: Layout, src: Bytes, k: nat)
    requires l.Fits() && |src| == l.YSize() + 2 * l.CSize() && k < l.Count() && l.SampleAt(k) < l.CSize()
    ensures ResultByte(l, src, l.YSize() + 2 * k) == src[l.YSize() + l.SampleAt(k)]
    ensures ResultByte(l, src, l.YSize() + 2 * k + 1) == src[l.YSize() + l.CSize() + l.SampleAt(k)]
  {
    assert (2 * k + 1) / 2 == k && (2 * k + 1) % 2 == 1;
  }

  lemma {:induction false} ResultExists(l: Layout, src: Bytes) returns (was: Bytes, now: Bytes)
    requires l.Fits() && |src| == l.YSize() + 2 * l.CSize()
    ensures Holds(l, |src|, |was|) && Yv12Converter.Converted(l, src, was, now)
    ensures |now| == l.YSize() + 2 * l.Count()
  {
    var n := l.YSize() + 2 * l.Count();
    was := seq(n, p => 0);
    now := seq(n, p requires 0 <= p < n => ResultByte(l, src, p));
    forall k | 0 <= k < l.Count()
      ensures PairIs(l, src, now, k)
    {
      SampleInPlane(l, k);
      ResultBytes(l, src, k);
    }
    assert now[..l.YSize()] == src[..l.YSize()];
  }

  /** The sample of the result that stands one stride below the first is not the marked one. */
  lemma {:induction false} OtherSample(l: Layout, k: nat)
    requires l.Fits() && l.HalfWidth() > 0 && l.HalfWidth() < k && l.CWidth() >= l.HalfWidth()
    ensures l.SampleAt(k) != l.CWidth()
  {
    var hw, cw := l.HalfWidth(), l.CWidth();
    DivisionParts(k, hw);
    var q := k / hw;
    if q >= 2 {
      MulGrows(2, q, cw);
    } else if q == 1 {
      assert k % hw == k - hw;
    }
  }

  lemma {:induction false} PackedRowsDiffer(l: Layout, p: Planes, q: Planes)
    returns (src: Bytes, was: Bytes, now: Bytes)
    requires EvenImage(l) && ArePlanes(l, p, q) && l.width < l.stride && l.height > 2
    ensures Holds(l, |src|, |was|) && Yv12Converter.Converted(l, src, was, now) && !SameImage(p, now, q, src, l)
  {
    src := Marked(l);
    was, now := ResultExists(l, src);
    var k := l.stride / 2;
    RowsOfPlane(l);
    MulGrows(2, l.HalfHeight(), l.CWidth());
    OtherSample(l, k);
    assert src[l.YSize() + l.CWidth()] == 1;
    if l.stride < 2 * l.Count() {
      PairGives(l, src, was, now, k);
    }
    assert !SameChroma(p, now, q, src, 1, 0);
  }

  /** Whatever the bytes of an even YV12 image are, all its samples are the same in the planes
      of the conversion's result, if and only if no row is padded, or there is only one row of
      chroma: the converted chroma rows follow each other without the padding that the planes
      of the result count. */
  lemma {:induction false} ConversionShowsTheSameIff(l: Layout)
    requires EvenImage(l)
    ensures (forall src, was, now ::
               Holds(l, |src|, |was|) && Yv12Converter.Converted(l, src, was, now) ==>
                 SameImage(GetPlanes(l.stride, l.height, YCrCb_420_SP), now,
                           GetPlanes(l.stride, l.height, YV12), src, l))
            <==> l.width == l.stride || l.height <= 2
  {
    PlanesOf(l);
    var p, q := GetPlanes(l.stride, l.height, YCrCb_420_SP), GetPlanes(l.stride, l.height, YV12);
    if l.width == l.stride || l.height <= 2 {
      forall src, was, now | Holds(l, |src|, |was|) && Yv12Converter.Converted(l, src, was, now)
        ensures SameImage(p, now, q, src, l)
      {
        ConvertedIsSame(l, src, was, now, p, q);
      }
    } else {
      var src, was, now := PackedRowsDiffer(l, p, q);
    }
  }

  // ---------------------------------------------------------------- which byte is which sample

  /** The semi-planar formats, by which chroma sample their names put first. */
  predicate CbFirst(f: Format) { f in {YCbCr_420_SP, YCbCr_422_SP, NV12_ENCODEABLE, NV12} }

  predicate CrFirst(f: Format) { f in {YCrCb_420_SP, YCrCb_422_SP, YCrCb_420_SP_ADRENO, NV21_ZSL, RAW_SENSOR} }

  datatype Plane = LumaPlane | CbPlane | CrPlane
  datatype Position = Position(plane: Plane, r: int, c: int)

  predicate InImage(s: Position, w: int, h: int, f: Format)
  {
    if s.plane == LumaPlane then 0 <= s.r < h && 0 <= s.c < w
    else 0 <= s.r < ChromaRows(h, f) && 0 <= s.c < w / 2
  }

  function Address(p: Planes, s: Position): int
    requires p.Planes?
  {
    match s.plane
    case LumaPlane => SampleAt(p.y, p.yStride, 1, s.r, s.c)
    case CbPlane => SampleAt(p.cb, p.cStride, p.step, s.r, s.c)
    case CrPlane => SampleAt(p.cr, p.cStride, p.step, s.r, s.c)
  }

  /** No two samples share a byte. */
  ghost predicate AllDistinct(p: Planes, w: int, h: int, f: Format)
    requires p.Planes?
  {
    forall s, t :: InImage(s, w, h, f) && InImage(t, w, h, f) && s != t ==> Address(p, s) != Address(p, t)
  }

  /** Chroma rows of pairs behind the luma rows, in the order of the format's name. */
  ghost predicate ArePairs(p: Planes, w: int, h: int, f: Format, stride: int, rows: int)
  {
    && w <= stride && h <= rows && p.Planes?
    && forall r, c :: InImage(Position(CbPlane, r, c), w, h, f) ==>
         var start := rows * stride + r * stride + 2 * c;
         && Address(p, Position(CbPlane, r, c)) == start + (if CbFirst(f) then 0 else 1)
         && Address(p, Position(CrPlane, r, c)) == start + (if CbFirst(f) then 1 else 0)
  }

  lemma {:induction false} SamplesOfRowsDiffer(stride: int, r: int, c: int, r': int, c': int)
    requires 0 <= c < stride && 0 <= c' < stride && r * stride + c == r' * stride + c'
    ensures r == r' && c == c'
  {
    RestIsUnique(r * stride + c, stride, r, c);
    RestIsUnique(r' * stride + c', stride, r', c');
  }

  /** A sample of a plane whose rows do not overlap is inside its row. */
  lemma {:induction false} InRows(stride: int, rows: int, r: int, c: int)
    requires 0 <= r < rows && 0 <= c < stride
    ensures 0 <= r * stride + c < rows * stride
  {
    MulMonotone(r, rows, stride);
    MulGrows(0, r, stride);
  }

  lemma {:induction false} SemiPlanarDistinct(stride: int, ah: int, cb: int, cr: int, w: int, h: int, f: Format)
    requires 0 < w <= stride && w % 2 == 0 && 0 < h <= ah && {cb, cr} == {0, 1} && 0 <= stride * ah < MAX_WORD - 1
    ensures AllDistinct(SemiPlanar(stride, ah, cb, cr), w, h, f)
  {
    var p := SemiPlanar(stride, ah, cb, cr);
    assert stride * ah == ah * stride;
    forall s, t | InImage(s, w, h, f) && InImage(t, w, h, f) && Address(p, s) == Address(p, t)
      ensures s == t
    {
      SemiPlanarInjective(stride, ah, cb, cr, w, h, f, s, t);
    }
  }

  /** The byte of a row at which a semi-planar sample is. */
  function Column(s: Position, cb: int, cr: int): int
  {
    match s.plane case LumaPlane => s.c case CbPlane => 2 * s.c + cb case CrPlane => 2 * s.c + cr
  }

  lemma {:induction false} SemiPlanarRow(stride: int, ah: int, cb: int, cr: int, w: int, h: int, f: Format, s: Position)
    requires 0 < w <= stride && w % 2 == 0 && 0 < h <= ah && 0 <= cb <= 1 && 0 <= cr <= 1
    requires stride * ah == ah * stride && 0 <= stride * ah < MAX_WORD - 1 && InImage(s, w, h, f)
    ensures 0 <= Column(s, cb, cr) < stride
    ensures var row := if s.plane == LumaPlane then s.r else ah + s.r;
            Address(SemiPlanar(stride, ah, cb, cr), s) == row * stride + Column(s, cb, cr)
    ensures s.plane == LumaPlane <==> (if s.plane == LumaPlane then s.r else ah + s.r) < ah
  {
    assert (ah + s.r) * stride == ah * stride + s.r * stride;
  }

  lemma {:induction false} SemiPlanarInjective(
    stride: int, ah: int, cb: int, cr: int, w: int, h: int, f: Format, s: Position, t: Position)
    requires 0 < w <= stride && w % 2 == 0 && 0 < h <= ah && {cb, cr} == {0, 1}
    requires stride * ah == ah * stride && 0 <= stride * ah < MAX_WORD - 1
    requires InImage(s, w, h, f) && InImage(t, w, h, f)
    requires Address(SemiPlanar(stride, ah, cb, cr), s) == Address(SemiPlanar(stride, ah, cb, cr), t)
    ensures s == t
  {
    assert cb in {0, 1} && cr in {0, 1} && cb != cr by {
      assert 0 in {cb, cr} && 1 in {cb, cr};
    }
    SemiPlanarRow(stride, ah, cb, cr, w, h, f, s);
    SemiPlanarRow(stride, ah, cb, cr, w, h, f, t);
    SamplesOfRowsDiffer(stride, if s.plane == LumaPlane then s.r else ah + s.r, Column(s, cb, cr),
                        if t.plane == LumaPlane then t.r else ah + t.r, Column(t, cb, cr));
  }

  // ---------------------------------------------------------------- the formats

  /** The planes of a semi-planar format whose chroma fits behind rows of the given stride. */
  ghost predicate SemiPlanarAs(w: int, h: int, f: Format, stride: int, rows: int)
    requires IsWord(w) && IsWord(h)
  {
    var b := GetBufferSize(w, h, f);
    && b.Allocation? && 0 < w <= stride && 0 < h <= rows == b.alignedH && 0 <= stride * rows < MAX_WORD - 1
    && IsWord(b.alignedW) && IsWord(b.alignedH)
    && GetPlanes(b.alignedW, b.alignedH, f) ==
         SemiPlanar(stride, rows, if CbFirst(f) then 0 else 1, if CbFirst(f) then 1 else 0)
  }

  lemma {:induction false} Rows420(w: int, h: int, f: Format) returns (stride: int, rows: int)
    requires Even(w, h) && f in {YCbCr_420_SP, YCrCb_420_SP, YCbCr_422_SP, YCrCb_422_SP} && NoOverflow(w, h, f)
    ensures SemiPlanarAs(w, h, f, stride, rows)
  {
    stride, rows := Up(w, 16), h;
    HalfRows(stride, h);
    AlignedIsClose(w);
  }

  lemma {:induction false} RowsEncodeable(w: int, h: int) returns (stride: int, rows: int)
    requires Even(w, h) && NoOverflow(w, h, NV12_ENCODEABLE)
    ensures SemiPlanarAs(w, h, NV12_ENCODEABLE, stride, rows)
  {
    stride, rows := Up(w, 16), h;
    HalfRows(stride, h);
    AlignedIsClose(w);
    MulGrows(0, h / 2, RoundUp(RoundUp(w, 16) / 2, 16));
    RoundsBelowWordIff(RoundUp(stride * h, 2048) + 2 * Chroma(w, h), 4096);
  }

  lemma {:induction false} RowsPadded(w: int, h: int, f: Format) returns (stride: int, rows: int)
    requires Even(w, h) && f in {RAW_SENSOR, NV21_ZSL, YCrCb_420_SP_ADRENO} && NoOverflow(w, h, f)
    ensures SemiPlanarAs(w, h, f, stride, rows)
  {
    var unit := if f == NV21_ZSL then 64 else 32;
    stride, rows := Up(w, unit), Up(h, unit);
    RowsCovered(rows, stride, stride, rows);
    RoundsBelowWordIff(stride * rows, 4096);
    RowsCovered(2 * RoundUp(w / 2, 32), RoundUp(h / 2, 32), RoundUp(h / 2, 32), 2 * RoundUp(w / 2, 32));
  }

  lemma {:induction false} RowsNv12(w: int, h: int) returns (stride: int, rows: int)
    requires Even(w, h) && NoOverflow(w, h, NV12)
    ensures SemiPlanarAs(w, h, NV12, stride, rows)
  {
    stride, rows := Up(w, 16), h;
    var wide, ah := RoundUp(w, 128), RoundUp(h, 32);
    AlignedStays(stride, 16);
    MultipleAbove(w, 16, wide, 128);
    RowsCovered(h, stride, wide, ah);
    RowsCovered(RoundUp(h / 2, 32), wide, wide, RoundUp(h / 2, 32));
    RoundsBelowWordIff(wide * ah, 8192);
    assert stride * h == h * stride;
  }

  lemma {:induction false} RowsOf(w: int, h: int, f: Format) returns (stride: int, rows: int)
    requires Even(w, h) && (CbFirst(f) || CrFirst(f)) && NoOverflow(w, h, f)
    ensures SemiPlanarAs(w, h, f, stride, rows)
  {
    match f
    case NV12_ENCODEABLE => stride, rows := RowsEncodeable(w, h);
    case NV12 => stride, rows := RowsNv12(w, h);
    case RAW_SENSOR => stride, rows := RowsPadded(w, h, f);
    case NV21_ZSL => stride, rows := RowsPadded(w, h, f);
    case YCrCb_420_SP_ADRENO => stride, rows := RowsPadded(w, h, f);
    case _ => stride, rows := Rows420(w, h, f);
  }

  /** In every semi-planar format the chroma samples of a column are the two bytes of a pair
      behind the luma, in the order of the format's name. */
  lemma {:induction false} PairsAreNamed(w: int, h: int, f: Format)
    requires Even(w, h) && (CbFirst(f) || CrFirst(f)) && NoOverflow(w, h, f)
    ensures var b := GetBufferSize(w, h, f);
            b.Allocation? && IsWord(b.alignedW) && IsWord(b.alignedH) &&
            var p := GetPlanes(b.alignedW, b.alignedH, f);
            p.Planes? && p.y == 0 && ArePairs(p, w, h, f, p.yStride, b.alignedH)
  {
    var stride, rows := RowsOf(w, h, f);
    PairsOfRows(w, h, f, stride, rows);
  }

  lemma PairsOfRows(w: int, h: int, f: Format, stride: int, rows: int)
    requires w <= stride && h <= rows && 0 <= stride * rows < MAX_WORD - 1
    ensures ArePairs(SemiPlanar(stride, rows, if CbFirst(f) then 0 else 1, if CbFirst(f) then 1 else 0),
                     w, h, f, stride, rows)
  {
    assert stride * rows == rows * stride;
  }

  /** A Cb-first format is its Cr-first partner with the two chroma planes exchanged. */
  lemma PartnersExchangeChroma(w: int, h: int, f: Format, g: Format)
    requires IsWord(w) && IsWord(h)
    requires (f, g) in {(YCbCr_420_SP, YCrCb_420_SP), (YCbCr_422_SP, YCrCb_422_SP), (NV12_ENCODEABLE, NV21_ZSL)}
    ensures var (p, q) := (GetPlanes(w, h, f), GetPlanes(w, h, g));
            && p.Planes? && q == p.(cb := p.cr, cr := p.cb)
            && (w * h + 1 < MAX_WORD && 0 <= w * h ==> p.cb < p.cr)
  {
  }

  lemma {:induction false} PlanarDistinct(aw: int, cs: int, w: int, h: int, a: int, c: int)
    requires 0 < w <= aw && w % 2 == 0 && w / 2 <= cs && 0 < h && h * aw == a && h / 2 * cs == c
    ensures AllDistinct(Planes(0, a + c, a, aw, cs, 1), w, h, YV12)
  {
    var p := Planes(0, a + c, a, aw, cs, 1);
    forall s, t | InImage(s, w, h, YV12) && InImage(t, w, h, YV12) && Address(p, s) == Address(p, t)
      ensures s == t
    {
      PlanarInjective(aw, cs, w, h, a, c, s, t);
    }
  }

  lemma {:induction false} PlanarInjective(
    aw: int, cs: int, w: int, h: int, a: int, c: int, s: Position, t: Position)
    requires 0 < w <= aw && w % 2 == 0 && w / 2 <= cs && 0 < h && h * aw == a && h / 2 * cs == c
    requires InImage(s, w, h, YV12) && InImage(t, w, h, YV12)
    requires Address(Planes(0, a + c, a, aw, cs, 1), s) == Address(Planes(0, a + c, a, aw, cs, 1), t)
    ensures s == t
  {
    PlanarRange(aw, cs, w, h, a, c, s);
    PlanarRange(aw, cs, w, h, a, c, t);
    SamePlaneInjective(Planes(0, a + c, a, aw, cs, 1), w, h, s, t);
  }

  lemma {:induction false} SamePlaneInjective(p: Planes, w: int, h: int, s: Position, t: Position)
    requires p.Planes? && p.step == 1 && w <= p.yStride && w / 2 <= p.cStride && s.plane == t.plane
    requires InImage(s, w, h, YV12) && InImage(t, w, h, YV12) && Address(p, s) == Address(p, t)
    ensures s == t
  {
    SamplesOfRowsDiffer(if s.plane == LumaPlane then p.yStride else p.cStride, s.r, s.c, t.r, t.c);
  }

  /** The three planes follow each other: luma, Cr, Cb. */
  lemma {:induction false} PlanarRange(aw: int, cs: int, w: int, h: int, a: int, c: int, s: Position)
    requires 0 < w <= aw && w % 2 == 0 && w / 2 <= cs && 0 < h && h * aw == a && h / 2 * cs == c
    requires InImage(s, w, h, YV12)
    ensures var x := Address(Planes(0, a + c, a, aw, cs, 1), s);
            match s.plane case LumaPlane => 0 <= x < a case CrPlane => a <= x < a + c case CbPlane => a + c <= x
  {
    if s.plane == LumaPlane {
      InRows(aw, h, s.r, s.c);
    } else {
      InRows(cs, h / 2, s.r, s.c);
    }
  }

  /** In every format that has planes, for every even size that does not overflow, no two
      samples of the image share a byte, within a plane or between planes. */
  lemma {:induction false} SamplesAreDistinct(w: int, h: int, f: Format)
    requires Even(w, h) && (CbFirst(f) || CrFirst(f) || f == YV12) && NoOverflow(w, h, f)
    ensures var b := GetBufferSize(w, h, f);
            b.Allocation? && IsWord(b.alignedW) && IsWord(b.alignedH) &&
            var p := GetPlanes(b.alignedW, b.alignedH, f);
            p.Planes? && AllDistinct(p, w, h, f)
  {
    if f == YV12 {
      FitsYv12(w, h);
      LumaIsPart(w, h, f);
      var aw, cs, a, c := ParallelParts(w, h);
      RoundsBelowWordIff(a + 2 * c, 4096);
      PlanarDistinct(aw, cs, w, h, a, c);
    } else {
      var stride, rows := RowsOf(w, h, f);
      SemiPlanarDistinct(stride, rows, if CbFirst(f) then 0 else 1, if CbFirst(f) then 1 else 0, w, h, f);
    }
  }

  /** The formats without planes. */
  lemma NoPlanesIff(w: int, h: int, f: Format)
    requires IsWord(w) && IsWord(h)
    ensures GetPlanes(w, h, f) == NoPlanes <==> !(CbFirst(f) || CrFirst(f) || f == YV12)
  {
  }

  /** An odd size is refused where the chroma of a column or row could not be halved; a BLOB is
      one row of bytes. */
  lemma InvalidIff(w: int, h: int, f: Format)
    requires IsWord(w) && IsWord(h)
    ensures GetBufferSize(w, h, f) == Invalid <==>
            || (f == YV12 && (w % 2 == 1 || h % 2 == 1))
            || (f in {YCbCr_422_SP, YCrCb_422_SP, YCbCr_422_I, YCrCb_422_I} && w % 2 == 1)
            || (f == BLOB && h != 1)
  {
  }

  /** The formats without planes also get their full size. */
  lemma {:induction false} OtherSizesAreFull(w: int, h: int, f: Format)
    requires 0 < w < INT_RANGE && 0 < h < INT_RANGE && f in {YCbCr_422_I, YCrCb_422_I, YCbCr_420_SP_TILED, BLOB}
    requires FullSize(w, h, f) < MAX_WORD && GetBufferSize(w, h, f).Allocation?
    ensures GetBufferSize(w, h, f).size == FullSize(w, h, f)
  {
    if f == YCbCr_420_SP_TILED {
      var wide, ah, ch := RoundUp(w, 128), RoundUp(h, 32), RoundUp(h / 2, 32);
      RowsCovered(ah, wide, wide, ah);
      RowsCovered(ch, wide, wide, ch);
      PartsFit(wide * ah, wide * ch, 8192);
      AlignedAgain(wide);
    } else if f != BLOB {
      var a := RoundUp(w, 16) * h;
      RowsCovered(h, RoundUp(w, 16), RoundUp(w, 16), h);
      RoundsBelowWordIff(2 * a, 4096);
    }
  }

  lemma {:induction false} AlignedAgain(x: int)
    requires IsWord(x) && x % 128 == 0
    ensures Up(x, 128) == x
  {
    if RoundUp(x, 128) > x { MultiplesApart(x, RoundUp(x, 128), 128); }
    RoundsBelowWordIff(x, 128);
  }
}
