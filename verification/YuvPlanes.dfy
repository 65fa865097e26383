/** The size that gralloc computes for a YUV buffer and the planes that it reports for the
    buffer, in 32-bit arithmetic, and that the planes lie within the size. */
module YuvPlanes {
  import opened Bits
  import C2dConverter

  /** The YUV formats and others with a fixed layout. RGB surfaces, whose stride comes from a
      library of the GPU, and the Venus format are not part of this model. */
  datatype Format =
    | YCbCr_420_SP | YCrCb_420_SP | YCbCr_422_SP | YCrCb_422_SP | YCbCr_422_I | YCrCb_422_I
    | NV12_ENCODEABLE | YV12 | NV12 | YCrCb_420_SP_ADRENO | YCbCr_420_SP_TILED | RAW_SENSOR | NV21_ZSL | BLOB

  /** Words below this one hold an int that is not negative. */
  const INT_RANGE := 0x8000_0000

  /** int * int and size_t * size_t leave the same word. */
  function Mul(a: int, b: int): (r: int)
    ensures IsWord(r)
    ensures IsWord(a * b) ==> r == a * b
  {
    a * b % MAX_WORD
  }

  function Add(a: int, b: int): (r: int)
    ensures IsWord(r)
    ensures IsWord(a + b) ==> r == a + b
  {
    (a + b) % MAX_WORD
  }

  /** x / 2 for the int whose bits are the word x; it is rounded toward zero. */
  function Half(x: int): (r: int)
    requires IsWord(x)
    ensures IsWord(r)
    ensures x < INT_RANGE ==> r == x / 2
    ensures x >= INT_RANGE && x % 2 == 0 ==> r == x / 2 + INT_RANGE
  {
    if x < INT_RANGE then x / 2 else (MAX_WORD - (MAX_WORD - x) / 2) % MAX_WORD
  }

  /** What ALIGN to one of the constants in use yields: see UpIsAlign. */
  function Up(x: int, a: int): (r: int)
    requires IsWord(x) && a in {16, 32, 64, 128, 2048, 4096, 8192}
    ensures r % a == 0 && 0 <= r < x + a && r <= MAX_WORD - a
  {
    if x + a <= MAX_WORD then
      RoundsBelowWordIff(x, a);
      RoundUp(x, a)
    else
      RestIsUnique(0, a, 0, 0);
      0
  }

  function Exponent(a: int): nat
  {
    if a == 16 then 4 else if a == 32 then 5 else if a == 64 then 6 else if a == 128 then 7
    else if a == 2048 then 11 else if a == 4096 then 12 else 13
  }

  lemma UpIsAlign(x: int, a: int)
    requires IsWord(x) && a in {16, 32, 64, 128, 2048, 4096, 8192}
    ensures Up(x, a) == Align(x, a)
  {
    assert Pow2(4) == 16 && Pow2(6) == 64 && Pow2(8) == 256;
    assert Pow2(11) == 2048 && Pow2(13) == 8192;
    AlignComputes(x, Exponent(a));
  }

  lemma {:induction false} MultiplesApart(x: int, y: int, a: int)
    requires a > 0 && x % a == 0 && y % a == 0 && x < y
    ensures x + a <= y
  {
    var p, q := x / a, y / a;
    assert x == p * a && y == q * a;
    if p < q { MulMonotone(p, q, a); } else { MulGrows(q, p, a); }
  }

  lemma WordIsMultiple(a: int)
    requires a in {16, 32, 64, 128, 2048, 4096, 8192}
    ensures MAX_WORD % a == 0
  {
    if a == 16 {
      assert MAX_WORD % 16 == 0;
    } else if a == 32 {
      assert MAX_WORD % 32 == 0;
    } else if a == 64 {
      assert MAX_WORD % 64 == 0;
    } else if a == 128 {
      assert MAX_WORD % 128 == 0;
    } else if a == 2048 {
      assert MAX_WORD % 2048 == 0;
    } else if a == 4096 {
      assert MAX_WORD % 4096 == 0;
    } else {
      assert MAX_WORD % 8192 == 0;
    }
  }

  /** ALIGN does not overflow exactly while the rounded value is a word. */
  lemma {:induction false} RoundsBelowWordIff(x: int, a: int)
    requires a in {16, 32, 64, 128, 2048, 4096, 8192}
    ensures x + a <= MAX_WORD <==> RoundUp(x, a) < MAX_WORD
    ensures RoundUp(x, a) < MAX_WORD ==> RoundUp(x, a) <= MAX_WORD - a
  {
    WordIsMultiple(a);
    var r := RoundUp(x, a);
    if r < MAX_WORD { MultiplesApart(r, MAX_WORD, a); }
  }

  // ---------------------------------------------------------------- sizes

  /** AdrenoMemInfo::getStride */
  function GetStride(width: int, f: Format): (r: int)
    requires IsWord(width)
    ensures IsWord(r)
  {
    match f
    case YCbCr_420_SP_TILED => Up(width, 128)
    case NV12_ENCODEABLE => Up(width, 16)
    case YCbCr_420_SP => Up(width, 16)
    case YCrCb_420_SP => Up(width, 16)
    case YV12 => Up(width, 16)
    case YCbCr_422_SP => Up(width, 16)
    case YCrCb_422_SP => Up(width, 16)
    case YCbCr_422_I => Up(width, 16)
    case YCrCb_422_I => Up(width, 16)
    case BLOB => width
    case NV21_ZSL => Up(width, 64)
    case _ => Up(width, 32)
  }

  /** The result of getBufferSizeAndDimensions, or -EINVAL. */
  datatype Allocation = Invalid | Allocation(size: int, alignedW: int, alignedH: int)

  function GetBufferSize(width: int, height: int, f: Format): Allocation
    requires IsWord(width) && IsWord(height)
  {
    var aw := GetStride(width, f);
    match f
    case RAW_SENSOR => var ah := Up(height, 32); Allocation(Mul(Mul(aw, ah), 2), aw, ah)
    case YCrCb_420_SP_ADRENO =>
      var ah := Up(height, 32);
      var chroma := Mul(Mul(2, Up(Half(width), 32)), Up(Half(height), 32));
      Allocation(Add(Up(Mul(aw, ah), 4096), Up(chroma, 4096)), aw, ah)
    case YCbCr_420_SP_TILED =>
      var (w, ah) := (Up(aw, 128), Up(height, 32));
      Allocation(Add(Up(Mul(w, ah), 8192), Up(Mul(w, Up(Half(height), 32)), 8192)), w, ah)
    case NV12 =>
      var (luma, chroma) := (Mul(Up(width, 128), Up(height, 32)), Mul(Up(width, 128), Up(Half(height), 32)));
      Allocation(Add(Up(luma, 8192), Up(chroma, 8192)), Up(width, 16), height)
    case NV12_ENCODEABLE =>
      var chroma := Mul(Mul(Up(Half(aw), 16), Half(height)), 2);
      Allocation(SizeOfPlanes(Up(Mul(aw, height), 2048), chroma), aw, height)
    case YV12 =>
      var chroma := Mul(Mul(Up(Half(aw), 16), Half(height)), 2);
      if width % 2 == 1 || height % 2 == 1 then Invalid
      else Allocation(SizeOfPlanes(Mul(aw, height), chroma), aw, height)
    case BLOB => if height != 1 then Invalid else Allocation(width, width, height)
    case NV21_ZSL =>
      var ah := Up(height, 64);
      Allocation(SizeOfPlanes(Mul(aw, ah), Half(Mul(aw, ah))), aw, ah)
    case YCbCr_420_SP => Allocation(Size420(Mul(aw, height)), aw, height)
    case YCrCb_420_SP => Allocation(Size420(Mul(aw, height)), aw, height)
    case _ => if width % 2 == 1 then Invalid else Allocation(Up(Mul(Mul(aw, height), 2), 4096), aw, height)
  }

  function Size420(luma: int): (r: int)
    requires IsWord(luma)
    ensures IsWord(r)
  {
    Up(Add(Add(luma, Half(luma)), 1), 4096)
  }

  /** Two parts in whole pages. */
  function SizeOfPlanes(luma: int, chroma: int): (r: int)
    requires IsWord(luma) && IsWord(chroma)
    ensures IsWord(r)
  {
    Up(Add(luma, chroma), 4096)
  }

  // ---------------------------------------------------------------- planes

  /** Offsets and strides of android_ycbcr. */
  datatype Planes = NoPlanes | Planes(y: int, cb: int, cr: int, yStride: int, cStride: int, step: int)

  /** getYUVPlaneInfo for a handle with the aligned dimensions. */
  function GetPlanes(w: int, h: int, f: Format): Planes
    requires IsWord(w) && IsWord(h)
  {
    match f
    case YCbCr_420_SP => SemiPlanar(w, h, 0, 1)
    case YCbCr_422_SP => SemiPlanar(w, h, 0, 1)
    case NV12_ENCODEABLE => SemiPlanar(w, h, 0, 1)
    case YCrCb_420_SP => SemiPlanar(w, h, 1, 0)
    case YCrCb_422_SP => SemiPlanar(w, h, 1, 0)
    case YCrCb_420_SP_ADRENO => SemiPlanar(w, h, 1, 0)
    case NV21_ZSL => SemiPlanar(w, h, 1, 0)
    case RAW_SENSOR => SemiPlanar(w, h, 1, 0)
    case YV12 =>
      var cs := Up(Half(w), 16);
      Planes(0, Add(Mul(w, h), Mul(cs, h) / 2), Mul(w, h), w, cs, 1)
    case NV12 => SemiPlanar(Up(w, 16), h, 0, 1)
    case _ => NoPlanes
  }

  function SemiPlanar(stride: int, h: int, cb: int, cr: int): Planes
  {
    Planes(0, Add(Mul(stride, h), cb), Add(Mul(stride, h), cr), stride, stride, 2)
  }

  // ---------------------------------------------------------------- what fits means

  function ChromaRows(h: int, f: Format): int
  {
    if f in {YCbCr_422_SP, YCrCb_422_SP} then h else h / 2
  }

  /** Every sample of a plane is below the limit. */
  ghost predicate PlaneFits(off: int, stride: int, step: int, rows: int, columns: int, limit: int)
  {
    forall r, c :: 0 <= r < rows && 0 <= c < columns ==> 0 <= SampleAt(off, stride, step, r, c) < limit
  }

  function SampleAt(off: int, stride: int, step: int, r: int, c: int): int
  {
    off + r * stride + c * step
  }

  /** Luma, and the two chroma planes of a subsampled image. */
  ghost predicate Fits(p: Planes, w: int, h: int, f: Format, size: int)
    requires p.Planes?
  {
    && PlaneFits(p.y, p.yStride, 1, h, w, size)
    && PlaneFits(p.cb, p.cStride, p.step, ChromaRows(h, f), w / 2, size)
    && PlaneFits(p.cr, p.cStride, p.step, ChromaRows(h, f), w / 2, size)
  }

  /** Both functions accept the format, and every sample that the planes address lies within
      the allocation. */
  ghost predicate PlanesFit(w: int, h: int, f: Format)
    requires IsWord(w) && IsWord(h)
  {
    var b := GetBufferSize(w, h, f);
    b.Allocation? &&
    var p := GetPlanes(b.alignedW, b.alignedH, f);
    p.Planes? && Fits(p, w, h, f, b.size)
  }

  /** The luma size, and the whole size, as they are without any overflow. */
  function Luma(w: int, h: int, f: Format): int
  {
    match f
    case RAW_SENSOR => RoundUp(w, 32) * RoundUp(h, 32)
    case YCrCb_420_SP_ADRENO => RoundUp(w, 32) * RoundUp(h, 32)
    case NV21_ZSL => RoundUp(w, 64) * RoundUp(h, 64)
    case NV12 => RoundUp(w, 128) * RoundUp(h, 32)
    case YCbCr_420_SP_TILED => RoundUp(w, 128) * RoundUp(h, 32)
    case BLOB => w
    case _ => RoundUp(w, 16) * h
  }

  function FullSize(w: int, h: int, f: Format): int
  {
    var a := Luma(w, h, f);
    match f
    case RAW_SENSOR => 2 * a
    case YCrCb_420_SP_ADRENO => RoundUp(a, 4096) + RoundUp(2 * RoundUp(w / 2, 32) * RoundUp(h / 2, 32), 4096)
    case NV12 => RoundUp(a, 8192) + RoundUp(RoundUp(w, 128) * RoundUp(h / 2, 32), 8192)
    case YCbCr_420_SP_TILED => RoundUp(a, 8192) + RoundUp(RoundUp(w, 128) * RoundUp(h / 2, 32), 8192)
    case BLOB => w
    case NV12_ENCODEABLE => RoundUp(RoundUp(a, 2048) + 2 * Chroma(w, h), 4096)
    case YV12 => RoundUp(a + 2 * Chroma(w, h), 4096)
    case NV21_ZSL => RoundUp(a + a / 2, 4096)
    case YCbCr_420_SP => RoundUp(a + a / 2 + 1, 4096)
    case YCrCb_420_SP => RoundUp(a + a / 2 + 1, 4096)
    case _ => RoundUp(2 * a, 4096)
  }

  /** One chroma plane of its own. */
  function Chroma(w: int, h: int): int
  {
    h / 2 * RoundUp(RoundUp(w, 16) / 2, 16)
  }

  /** The size fits a word, and where the luma size is halved as an int, it fits an int. */
  predicate NoOverflow(w: int, h: int, f: Format)
  {
    FullSize(w, h, f) < MAX_WORD && (f in {YCbCr_420_SP, YCrCb_420_SP, NV21_ZSL} ==> Luma(w, h, f) < INT_RANGE)
  }

  /** An even positive size. */
  predicate Even(w: int, h: int)
  {
    0 < w < INT_RANGE && 0 < h < INT_RANGE && w % 2 == 0 && h % 2 == 0
  }

  // ---------------------------------------------------------------- planes with room

  /** A plane whose rows end at the limit; the first sample is `start - off` bytes into the
      first row. */
  lemma {:induction false} RowsFit(
    off: int, start: int, stride: int, step: int, rows: int, columns: int, limit: int)
    requires 0 <= off <= start && 0 < step && 0 <= stride
    requires columns > 0 ==> start - off + (columns - 1) * step < stride
    requires off + rows * stride <= limit
    ensures PlaneFits(start, stride, step, rows, columns, limit)
  {
    forall r, c | 0 <= r < rows && 0 <= c < columns
      ensures 0 <= SampleAt(start, stride, step, r, c) < limit
    {
      if stride > 0 { MulMonotone(r, rows, stride); }
      MulGrows(c, columns - 1, step);
      MulGrows(0, r, stride);
      MulGrows(0, c, step);
    }
  }

  lemma {:induction false} SemiPlanarFits(
    stride: int, ah: int, cb: int, cr: int, w: int, h: int, f: Format, size: int)
    requires 0 < w <= stride && w % 2 == 0 && 0 < h <= ah && 0 <= cb <= 1 && 0 <= cr <= 1
    requires 0 <= stride * ah < MAX_WORD - 1 && 0 <= ChromaRows(h, f) * stride
    requires stride * ah + ChromaRows(h, f) * stride <= size
    ensures Fits(SemiPlanar(stride, ah, cb, cr), w, h, f, size)
  {
    var a := stride * ah;
    MulGrows(h, ah, stride);
    assert ah * stride == a;
    RowsFit(0, 0, stride, 1, h, w, size);
    RowsFit(a, a + cb, stride, 2, ChromaRows(h, f), w / 2, size);
    RowsFit(a, a + cr, stride, 2, ChromaRows(h, f), w / 2, size);
  }

  lemma {:induction false} PlanarFits(aw: int, cs: int, w: int, h: int, a: int, c: int, size: int)
    requires 0 < w <= aw && w / 2 <= cs && 0 <= a && 0 <= c && a + 2 * c <= size
    requires h * aw == a && h / 2 * cs == c
    ensures Fits(Planes(0, a + c, a, aw, cs, 1), w, h, YV12, size)
  {
    RowsFit(0, 0, aw, 1, h, w, size);
    RowsFit(a, a, cs, 1, h / 2, w / 2, size);
    RowsFit(a + c, a + c, cs, 1, h / 2, w / 2, size);
  }

  lemma {:induction false} HalfProduct(a: int, m: int)
    ensures a * (2 * m) / 2 == m * a == a * m
  {
    assert a * (2 * m) == 2 * (a * m);
  }

  lemma {:induction false} RowsCovered(rows: int, stride: int, wide: int, high: int)
    requires 0 <= rows <= high && 0 <= stride <= wide
    ensures 0 <= rows * stride <= wide * high
  {
    MulGrows(0, rows, stride);
    MulGrows(rows, high, stride);
    MulGrows(stride, wide, high);
    assert high * stride == stride * high;
  }

  /** Half of the rows of an image take half of its bytes. */
  lemma {:induction false} HalfRows(stride: int, h: int)
    requires 0 <= stride && 0 <= h && h % 2 == 0
    ensures 0 <= h / 2 * stride == stride * h / 2 && stride * h == h * stride == 2 * (h / 2 * stride)
  {
    assert h == 2 * (h / 2);
    HalfProduct(stride, h / 2);
    MulGrows(0, h / 2, stride);
    assert h * stride == 2 * (h / 2 * stride);
  }

  /** A multiple of the coarser alignment is a multiple of the finer one. */
  lemma {:induction false} MultipleAbove(x: int, a: int, b: int, coarse: int)
    requires (a == 16 && coarse == 128) || (a == 32 && coarse == 64)
    requires b % coarse == 0 && 0 <= x <= b
    ensures RoundUp(x, a) <= b
  {
    if a == 16 { RestIsUnique(b, 16, b / 128 * 8, 0); } else { RestIsUnique(b, 32, b / 64 * 2, 0); }
    if RoundUp(x, a) > b { MultiplesApart(b, RoundUp(x, a), a); }
  }

  lemma {:induction false} AlignedStays(x: int, a: int)
    requires a in {16, 32, 2048} && 0 <= x && x % a == 0
    ensures RoundUp(x, a) == x
  {
    if RoundUp(x, a) > x { MultiplesApart(x, RoundUp(x, a), a); }
  }

  // ---------------------------------------------------------------- sizes without overflow

  lemma {:induction false} Size420IsFull(luma: int)
    requires 0 <= luma < INT_RANGE
    ensures Size420(luma) == RoundUp(luma + luma / 2 + 1, 4096)
  {
    RoundsBelowWordIff(luma + luma / 2 + 1, 4096);
  }

  lemma {:induction false} SizeOfPlanesIsFull(luma: int, chroma: int)
    requires 0 <= luma && 0 <= chroma && RoundUp(luma + chroma, 4096) < MAX_WORD
    ensures IsWord(luma) && IsWord(chroma) && SizeOfPlanes(luma, chroma) == RoundUp(luma + chroma, 4096)
  {
    RoundsBelowWordIff(luma + chroma, 4096);
  }

  lemma {:induction false} Fits420(w: int, h: int, f: Format)
    requires Even(w, h) && f in {YCbCr_420_SP, YCrCb_420_SP} && NoOverflow(w, h, f)
    ensures GetBufferSize(w, h, f).size == FullSize(w, h, f) && PlanesFit(w, h, f)
  {
    var aw := Up(w, 16);
    var a := aw * h;
    HalfRows(aw, h);
    Size420IsFull(a);
    SemiPlanarFits(aw, h, 0, 1, w, h, f, Size420(a));
    SemiPlanarFits(aw, h, 1, 0, w, h, f, Size420(a));
  }

  lemma {:induction false} Fits422(w: int, h: int, f: Format)
    requires Even(w, h) && f in {YCbCr_422_SP, YCrCb_422_SP} && NoOverflow(w, h, f)
    ensures GetBufferSize(w, h, f).size == FullSize(w, h, f) && PlanesFit(w, h, f)
  {
    var aw := Up(w, 16);
    var a := aw * h;
    HalfRows(aw, h);
    assert Mul(aw, h) == a && Mul(a, 2) == 2 * a;
    RoundsBelowWordIff(2 * a, 4096);
    SemiPlanarFits(aw, h, 0, 1, w, h, f, FullSize(w, h, f));
    SemiPlanarFits(aw, h, 1, 0, w, h, f, FullSize(w, h, f));
  }

  lemma {:induction false} FitsRawSensor(w: int, h: int)
    requires Even(w, h) && NoOverflow(w, h, RAW_SENSOR)
    ensures GetBufferSize(w, h, RAW_SENSOR).size == FullSize(w, h, RAW_SENSOR) && PlanesFit(w, h, RAW_SENSOR)
  {
    var aw, ah := Up(w, 32), Up(h, 32);
    var a := aw * ah;
    RowsCovered(h / 2, aw, aw, ah);
    assert Mul(aw, ah) == a && Mul(a, 2) == 2 * a;
    SemiPlanarFits(aw, ah, 1, 0, w, h, RAW_SENSOR, 2 * a);
  }

  lemma EvenMultiple(x: int)
    requires x % 64 == 0
    ensures x % 2 == 0
  {
    var q := x / 64;
    assert x == 2 * (32 * q);
  }

  /** The chroma rows of an image whose height is padded. */
  lemma {:induction false} PaddedRows(stride: int, h: int, ah: int)
    requires 0 <= stride && 0 < h <= ah && h % 2 == 0 && ah % 64 == 0
    ensures 0 <= h / 2 * stride <= stride * ah / 2 && 0 <= stride * ah
  {
    EvenMultiple(ah);
    HalfRows(stride, ah);
    RowsCovered(h / 2, stride, stride, ah / 2);
    assert stride * (ah / 2) == ah / 2 * stride;
  }

  lemma {:induction false} FitsZsl(w: int, h: int)
    requires Even(w, h) && NoOverflow(w, h, NV21_ZSL)
    ensures GetBufferSize(w, h, NV21_ZSL).size == FullSize(w, h, NV21_ZSL) && PlanesFit(w, h, NV21_ZSL)
  {
    var aw, ah := Up(w, 64), Up(h, 64);
    var a := aw * ah;
    PaddedRows(aw, h, ah);
    SizeOfPlanesIsFull(a, a / 2);
    assert Mul(aw, ah) == a && Half(a) == a / 2;
    SemiPlanarFits(aw, ah, 1, 0, w, h, NV21_ZSL, FullSize(w, h, NV21_ZSL));
  }

  /** Aligned luma and chroma of different widths, one after the other. */
  lemma {:induction false} PartsFit(luma: int, chroma: int, unit: int)
    requires 0 <= luma && 0 <= chroma && unit in {4096, 8192}
    requires RoundUp(luma, unit) + RoundUp(chroma, unit) < MAX_WORD
    ensures IsWord(luma) && IsWord(chroma)
    ensures Add(Up(luma, unit), Up(chroma, unit)) == RoundUp(luma, unit) + RoundUp(chroma, unit)
  {
    RoundsBelowWordIff(luma, unit);
    RoundsBelowWordIff(chroma, unit);
  }

  lemma {:induction false} FitsNv12(w: int, h: int)
    requires Even(w, h) && NoOverflow(w, h, NV12)
    ensures GetBufferSize(w, h, NV12).size == FullSize(w, h, NV12) && PlanesFit(w, h, NV12)
  {
    var aw, wide := Up(w, 16), Up(w, 128);
    var ah, ch := Up(h, 32), Up(h / 2, 32);
    AlignedStays(aw, 16);
    MultipleAbove(w, 16, wide, 128);
    RowsCovered(h, aw, wide, ah);
    RowsCovered(h / 2, aw, wide, ch);
    assert aw * h == h * aw;
    PartsFit(wide * ah, wide * ch, 8192);
    assert Mul(wide, ah) == wide * ah && Mul(wide, ch) == wide * ch;
    SemiPlanarFits(aw, h, 0, 1, w, h, NV12, FullSize(w, h, NV12));
  }

  lemma TwiceMultiple(x: int)
    requires x % 32 == 0
    ensures 2 * x % 64 == 0
  {
  }

  lemma {:induction false} FitsAdreno(w: int, h: int)
    requires Even(w, h) && NoOverflow(w, h, YCrCb_420_SP_ADRENO)
    ensures GetBufferSize(w, h, YCrCb_420_SP_ADRENO).size == FullSize(w, h, YCrCb_420_SP_ADRENO)
    ensures PlanesFit(w, h, YCrCb_420_SP_ADRENO)
  {
    var aw, ah := Up(w, 32), Up(h, 32);
    var cw, ch := Up(w / 2, 32), Up(h / 2, 32);
    TwiceMultiple(cw);
    MultipleAbove(w, 32, 2 * cw, 64);
    RowsCovered(h, aw, aw, ah);
    RowsCovered(h / 2, aw, 2 * cw, ch);
    PartsFit(aw * ah, 2 * cw * ch, 4096);
    assert Mul(2, cw) == 2 * cw && Mul(aw, ah) == aw * ah && Mul(2 * cw, ch) == 2 * cw * ch;
    SemiPlanarFits(aw, ah, 1, 0, w, h, YCrCb_420_SP_ADRENO, FullSize(w, h, YCrCb_420_SP_ADRENO));
  }

  /** Alignment to 16 adds less than 16, so at most 14 to an even width. */
  lemma AlignedIsClose(w: int)
    requires 0 < w < INT_RANGE && w % 2 == 0
    ensures Up(w, 16) == RoundUp(w, 16) && Up(w, 16) - 14 <= w <= Up(w, 16) && Up(w, 16) % 2 == 0
  {
    EvenDistance(w / 2, Up(w, 16) / 16);
  }

  lemma EvenDistance(m: int, q: int)
    requires 2 * m <= 16 * q < 2 * m + 16
    ensures 16 * q - 14 <= 2 * m && 16 * q % 2 == 0
  {
    assert 8 * q <= m + 7;
    assert 16 * q == 2 * (8 * q);
  }

  /** What holds of the bytes of an image with rows of aw bytes. */
  lemma {:induction false} LumaFacts(aw: int, h: int, a: int)
    requires 0 < aw && 0 < h && h % 2 == 0 && a == aw * h
    ensures h * aw == a && 0 < a && h / 2 * aw == a / 2 && a % 2 == 0 && 2 * aw <= a
  {
    EvenProduct(aw, h);
    MulGrows(2, h, aw);
    HalfRows(aw, h);
  }

  lemma {:induction false} LumaPart(w: int, h: int) returns (aw: int, a: int)
    requires Even(w, h) && RoundUp(w, 16) * h < MAX_WORD
    ensures aw == Up(w, 16) == RoundUp(w, 16) && aw - 14 <= w <= aw < INT_RANGE && aw % 16 == 0
    ensures a == aw * h == h * aw && Mul(aw, h) == a && 0 < a && h / 2 * aw == a / 2 && a % 2 == 0
  {
    AlignedIsClose(w);
    aw := Up(w, 16);
    a := aw * h;
    LumaFacts(aw, h, a);
  }

  lemma {:induction false} ChromaPart(aw: int, h: int, a: int) returns (cs: int, c: int)
    requires 0 < aw < INT_RANGE && aw % 16 == 0 && 0 < h < INT_RANGE && h % 2 == 0 && a == aw * h < MAX_WORD
    ensures cs == Up(Half(aw), 16) == RoundUp(aw / 2, 16) && aw <= 2 * cs <= aw + 16
    ensures c == h / 2 * cs && a / 2 <= 2 * c <= a
    ensures Mul(Mul(cs, Half(h)), 2) == 2 * c && Mul(cs, h) / 2 == c
  {
    cs := Up(aw / 2, 16);
    HalvesCover(aw, cs);
    ChromaBounds(aw, cs, h);
    ChromaWords(cs, h);
    c := h / 2 * cs;
  }

  /** Luma and one chroma plane of NV12_ENCODEABLE and YV12 while the luma is a word. */
  lemma {:induction false} ParallelParts(w: int, h: int) returns (aw: int, cs: int, a: int, c: int)
    requires Even(w, h) && RoundUp(w, 16) * h < MAX_WORD
    ensures aw == Up(w, 16) == RoundUp(w, 16) && aw - 14 <= w <= aw < INT_RANGE
    ensures cs == Up(Half(aw), 16) && aw <= 2 * cs <= aw + 16
    ensures a == aw * h == h * aw && Mul(aw, h) == a && 0 < a && h / 2 * aw == a / 2 && a % 2 == 0
    ensures c == Chroma(w, h) == h / 2 * cs && a / 2 <= 2 * c <= a
    ensures Mul(Mul(cs, Half(h)), 2) == 2 * c && Mul(cs, h) / 2 == c
  {
    aw, a := LumaPart(w, h);
    cs, c := ChromaPart(aw, h, a);
  }

  lemma EvenProduct(aw: int, h: int)
    requires 0 < aw && 0 < h && h % 2 == 0
    ensures 0 < aw * h && aw * h % 2 == 0
  {
    HalfRows(aw, h);
    MulGrows(1, h, aw);
  }

  /** Two aligned half-width planes are at least as wide as the aligned plane. */
  lemma {:induction false} HalvesCover(aw: int, cs: int)
    requires 0 < aw && aw % 16 == 0 && cs % 16 == 0 && aw / 2 <= cs < aw / 2 + 16
    ensures aw <= 2 * cs <= aw + 16 && cs <= aw
  {
    var p, q := cs / 16, aw / 16;
    assert cs == 16 * p && aw == 16 * q && aw / 2 == 8 * q;
  }

  lemma {:induction false} ChromaBounds(aw: int, cs: int, h: int)
    requires 0 < aw <= 2 * cs && cs <= aw && 0 < h && h % 2 == 0
    ensures aw * h / 2 <= 2 * (h / 2 * cs) && 2 * (h / 2 * cs) <= aw * h
  {
    var m := h / 2;
    HalfRows(aw, h);
    RowsCovered(m, aw, 2 * cs, m);
    RowsCovered(m, cs, aw, m);
    assert 2 * cs * m == 2 * (m * cs) && aw * m == m * aw;
  }

  lemma {:induction false} ChromaWords(cs: int, h: int)
    requires 0 < cs && 0 < h < INT_RANGE && h % 2 == 0 && 2 * (h / 2 * cs) < MAX_WORD
    ensures Mul(Mul(cs, Half(h)), 2) == 2 * (h / 2 * cs) && Mul(cs, h) / 2 == h / 2 * cs
  {
    HalfRows(cs, h);
    assert cs * (h / 2) == h / 2 * cs;
    assert Mul(cs, h / 2) == h / 2 * cs;
  }

  lemma EncodeableAllocation(w: int, h: int, aw: int, cs: int, a: int, c: int)
    requires IsWord(w) && IsWord(h) && aw == Up(w, 16) && cs == Up(Half(aw), 16) && Mul(aw, h) == a
    requires IsWord(c) && Mul(Mul(cs, Half(h)), 2) == c
    ensures GetBufferSize(w, h, NV12_ENCODEABLE) == Allocation(SizeOfPlanes(Up(a, 2048), c), aw, h)
  {
  }

  lemma EncodeableSize(a: int, chroma: int)
    requires 0 <= a && 0 <= chroma && RoundUp(RoundUp(a, 2048) + chroma, 4096) < MAX_WORD
    ensures IsWord(a) && IsWord(chroma)
    ensures SizeOfPlanes(Up(a, 2048), chroma) == RoundUp(RoundUp(a, 2048) + chroma, 4096)
  {
    RoundsBelowWordIff(a, 2048);
    SizeOfPlanesIsFull(RoundUp(a, 2048), chroma);
  }

  lemma {:induction false} FitsEncodeable(w: int, h: int)
    requires Even(w, h) && NoOverflow(w, h, NV12_ENCODEABLE)
    ensures GetBufferSize(w, h, NV12_ENCODEABLE).size == FullSize(w, h, NV12_ENCODEABLE)
    ensures PlanesFit(w, h, NV12_ENCODEABLE)
  {
    LumaIsPart(w, h, NV12_ENCODEABLE);
    var aw, cs, a, c := ParallelParts(w, h);
    var size := RoundUp(RoundUp(a, 2048) + 2 * c, 4096);
    assert FullSize(w, h, NV12_ENCODEABLE) == size;
    RoundsBelowWordIff(RoundUp(a, 2048) + 2 * c, 4096);
    EncodeableSize(a, 2 * c);
    EncodeableAllocation(w, h, aw, cs, a, 2 * c);
    EncodeableFits(w, h, aw, a, size);
  }

  lemma {:induction false} EncodeableFits(w: int, h: int, aw: int, a: int, size: int)
    requires Even(w, h) && w <= aw && IsWord(aw) && aw * h == a && 0 <= a < MAX_WORD - 1
    requires 0 <= h / 2 * aw && a + h / 2 * aw <= size
    requires GetBufferSize(w, h, NV12_ENCODEABLE) == Allocation(size, aw, h)
    ensures PlanesFit(w, h, NV12_ENCODEABLE)
  {
    SemiPlanarFits(aw, h, 0, 1, w, h, NV12_ENCODEABLE, size);
    Accepted(w, h, NV12_ENCODEABLE, Allocation(size, aw, h), SemiPlanar(aw, h, 0, 1));
  }

  lemma Accepted(w: int, h: int, f: Format, b: Allocation, p: Planes)
    requires IsWord(w) && IsWord(h) && b.Allocation? && IsWord(b.alignedW) && IsWord(b.alignedH) && p.Planes?
    requires GetBufferSize(w, h, f) == b && GetPlanes(b.alignedW, b.alignedH, f) == p && Fits(p, w, h, f, b.size)
    ensures PlanesFit(w, h, f)
  {
  }

  /** The luma of the two formats is a word if the size is. */
  lemma {:induction false} LumaIsPart(w: int, h: int, f: Format)
    requires Even(w, h) && f in {NV12_ENCODEABLE, YV12}
    ensures Luma(w, h, f) <= FullSize(w, h, f)
  {
    MulGrows(0, h / 2, RoundUp(RoundUp(w, 16) / 2, 16));
  }

  lemma {:induction false} Yv12Fits(w: int, h: int, aw: int, cs: int, a: int, c: int)
    requires Even(w, h) && aw == Up(w, 16) && w <= aw && aw <= 2 * cs && cs == Up(Half(aw), 16)
    requires 0 <= a && 0 <= c && RoundUp(a + 2 * c, 4096) < MAX_WORD && h * aw == a && h / 2 * cs == c
    requires Mul(aw, h) == a && Mul(Mul(cs, Half(h)), 2) == 2 * c && Mul(cs, h) / 2 == c
    ensures GetBufferSize(w, h, YV12).size == RoundUp(a + 2 * c, 4096) && PlanesFit(w, h, YV12)
  {
    SizeOfPlanesIsFull(a, 2 * c);
    assert Add(a, c) == a + c;
    PlanarFits(aw, cs, w, h, a, c, RoundUp(a + 2 * c, 4096));
  }

  lemma {:induction false} FitsYv12(w: int, h: int)
    requires Even(w, h) && NoOverflow(w, h, YV12)
    ensures GetBufferSize(w, h, YV12).size == FullSize(w, h, YV12) && PlanesFit(w, h, YV12)
  {
    LumaIsPart(w, h, YV12);
    var aw, cs, a, c := ParallelParts(w, h);
    assert Luma(w, h, YV12) == a;
    Yv12Fits(w, h, aw, cs, a, c);
  }

  /** For every even size that does not overflow, the computed size is the true one, and each
      format that both functions accept has its planes within its buffer. */
  lemma {:induction false} PlanesFitTheirBuffer(w: int, h: int, f: Format)
    requires Even(w, h) && NoOverflow(w, h, f)
    ensures var b := GetBufferSize(w, h, f);
            b.Allocation? && GetPlanes(b.alignedW, b.alignedH, f).Planes? ==>
              b.size == FullSize(w, h, f) && PlanesFit(w, h, f)
  {
    match f
    case YCbCr_420_SP => Fits420(w, h, f);
    case YCrCb_420_SP => Fits420(w, h, f);
    case YCbCr_422_SP => Fits422(w, h, f);
    case YCrCb_422_SP => Fits422(w, h, f);
    case NV12_ENCODEABLE => FitsEncodeable(w, h);
    case YV12 => FitsYv12(w, h);
    case NV12 => FitsNv12(w, h);
    case YCrCb_420_SP_ADRENO => FitsAdreno(w, h);
    case RAW_SENSOR => FitsRawSensor(w, h);
    case NV21_ZSL => FitsZsl(w, h);
    case _ =>
  }

  // ---------------------------------------------------------------- sizes that overflow

  lemma {:induction false} LastSample(off: int, stride: int, step: int, rows: int, columns: int, limit: int)
    requires rows > 0 && columns > 0 && PlaneFits(off, stride, step, rows, columns, limit)
    ensures off + rows * stride - stride + (columns - 1) * step < limit
  {
    assert SampleAt(off, stride, step, rows - 1, columns - 1) < limit;
    assert (rows - 1) * stride == rows * stride - stride;
  }

  /** How many bytes the luma, and luma and chroma, need at least. */
  lemma {:induction false} SemiPlanarNeeds(
    stride: int, h: int, cb: int, cr: int, w: int, f: Format, size: int)
    requires Even(w, h) && stride - 14 <= w <= stride && stride % 2 == 0 && 0 <= cb <= 1
    requires Fits(SemiPlanar(stride, h, cb, cr), w, h, f, size)
    ensures stride * h - 14 <= size
    ensures stride * h < MAX_WORD ==> stride * h + ChromaRows(h, f) * stride - 16 < size
  {
    var a := stride * h;
    assert h * stride == a;
    LastSample(0, stride, 1, h, w, size);
    if a < MAX_WORD {
      EvenProduct(stride, h);
      LastSample(a + cb, stride, 2, ChromaRows(h, f), w / 2, size);
    }
  }

  lemma {:induction false} Overflow420(w: int, h: int, f: Format)
    requires Even(w, h) && f in {YCbCr_420_SP, YCrCb_420_SP} && PlanesFit(w, h, f)
    ensures NoOverflow(w, h, f)
  {
    var aw := Up(w, 16);
    var a := aw * h;
    AlignedIsClose(w);
    var cb := if f == YCbCr_420_SP then 0 else 1;
    SemiPlanarNeeds(aw, h, cb, 1 - cb, w, f, Size420(Mul(aw, h)));
    LumaFacts(aw, h, a);
    if a < INT_RANGE {
      RoundsBelowWordIff(a + a / 2 + 1, 4096);
    } else if a < MAX_WORD {
      SizeOfLarge420(a);
      assert false;
    }
  }

  /** From 2^31 on, half of the luma size counts as negative. */
  lemma SizeOfLarge420(a: int)
    requires INT_RANGE <= a < MAX_WORD && a % 2 == 0
    ensures Size420(a) <= a + a / 2 - INT_RANGE + 4096
  {
    LessOneWord(a + Half(a));
    assert Add(a, Half(a)) == a + a / 2 - INT_RANGE;
  }

  lemma LessOneWord(x: int)
    requires MAX_WORD <= x < 2 * MAX_WORD
    ensures Add(x, 0) == x - MAX_WORD
  {
  }

  lemma {:induction false} Overflow422(w: int, h: int, f: Format)
    requires Even(w, h) && f in {YCbCr_422_SP, YCrCb_422_SP} && PlanesFit(w, h, f)
    ensures NoOverflow(w, h, f)
  {
    var aw := Up(w, 16);
    var a := aw * h;
    var size := GetBufferSize(w, h, f).size;
    AlignedIsClose(w);
    var cb := if f == YCbCr_422_SP then 0 else 1;
    SemiPlanarNeeds(aw, h, cb, 1 - cb, w, f, size);
    LumaFacts(aw, h, a);
    if a < MAX_WORD { SizeOf422(a); }
  }

  /** A size that does not overflow, or is at most what the overflow leaves and a page more. */
  lemma {:induction false} SizeOf422(a: int)
    requires IsWord(a)
    ensures RoundUp(2 * a, 4096) < MAX_WORD || Up(Mul(a, 2), 4096) <= 2 * a - MAX_WORD + 4096
  {
    RoundsBelowWordIff(2 * a, 4096);
    if 2 * a >= MAX_WORD { LessOneWord(2 * a); }
  }

  /** The same for two parts that are added. */
  lemma {:induction false} SizeOfParts(luma: int, chroma: int)
    requires IsWord(luma) && IsWord(chroma)
    ensures RoundUp(luma + chroma, 4096) < MAX_WORD || SizeOfPlanes(luma, chroma) <= luma + chroma - MAX_WORD + 4096
  {
    RoundsBelowWordIff(luma + chroma, 4096);
    if luma + chroma >= MAX_WORD { LessOneWord(luma + chroma); }
  }

  lemma {:induction false} OverflowEncodeable(w: int, h: int)
    requires Even(w, h) && PlanesFit(w, h, NV12_ENCODEABLE)
    ensures NoOverflow(w, h, NV12_ENCODEABLE)
  {
    AlignedIsClose(w);
    SemiPlanarNeeds(Up(w, 16), h, 0, 1, w, NV12_ENCODEABLE, GetBufferSize(w, h, NV12_ENCODEABLE).size);
    var aw, cs, a, c := ParallelParts(w, h);
    SizeOfParts(Up(a, 2048), 2 * c);
    RoundsBelowWordIff(a, 2048);
  }

  lemma {:induction false} OverflowYv12(w: int, h: int)
    requires Even(w, h) && PlanesFit(w, h, YV12)
    ensures NoOverflow(w, h, YV12)
  {
    var size := GetBufferSize(w, h, YV12).size;
    AlignedIsClose(w);
    LumaNeeds(Up(w, 16), w, h, size);
    var aw, cs, a, c := ParallelParts(w, h);
    assert GetPlanes(aw, h, YV12) == Planes(0, Add(a, c), a, aw, cs, 1);
    LastSample(a, cs, 1, h / 2, w / 2, size);
    LastSample(Add(a, c), cs, 1, h / 2, w / 2, size);
    SizeOfParts(a, 2 * c);
  }

  lemma {:induction false} LumaNeeds(stride: int, w: int, h: int, size: int)
    requires Even(w, h) && stride - 14 <= w && PlaneFits(0, stride, 1, h, w, size)
    ensures stride * h - 14 <= size
  {
    LastSample(0, stride, 1, h, w, size);
    assert h * stride == stride * h;
  }

  /** The formats whose size has no rows but those of the image. */
  predicate WithoutPadding(f: Format)
  {
    f in {YCbCr_420_SP, YCrCb_420_SP, YCbCr_422_SP, YCrCb_422_SP, NV12_ENCODEABLE, YV12}
  }

  /** For those, the planes of an even size fit if and only if nothing overflows. */
  lemma {:induction false} PlanesFitIff(w: int, h: int, f: Format)
    requires Even(w, h) && WithoutPadding(f)
    ensures PlanesFit(w, h, f) <==> NoOverflow(w, h, f)
  {
    PlanesFitIfSmall(w, h, f);
    if PlanesFit(w, h, f) {
      match f
      case YCbCr_422_SP => Overflow422(w, h, f);
      case YCrCb_422_SP => Overflow422(w, h, f);
      case NV12_ENCODEABLE => OverflowEncodeable(w, h);
      case YV12 => OverflowYv12(w, h);
      case _ => Overflow420(w, h, f);
    }
  }

  lemma {:induction false} PlanesFitIfSmall(w: int, h: int, f: Format)
    requires Even(w, h) && WithoutPadding(f)
    ensures NoOverflow(w, h, f) ==> PlanesFit(w, h, f)
  {
    if NoOverflow(w, h, f) {
      match f
      case YCbCr_422_SP => Fits422(w, h, f);
      case YCrCb_422_SP => Fits422(w, h, f);
      case NV12_ENCODEABLE => FitsEncodeable(w, h);
      case YV12 => FitsYv12(w, h);
      case _ => Fits420(w, h, f);
    }
  }

  /** For semi-planar 4:2:0 the condition is that the luma size is an int. */
  lemma {:induction false} PlanesFit420Iff(w: int, h: int, f: Format)
    requires Even(w, h) && f in {YCbCr_420_SP, YCrCb_420_SP}
    ensures PlanesFit(w, h, f) <==> RoundUp(w, 16) * h < INT_RANGE
  {
    var a := RoundUp(w, 16) * h;
    PlanesFitIff(w, h, f);
    RoundsBelowWordIff(a + a / 2 + 1, 4096);
  }

  lemma {:induction false} TwoRowsFit(w: int, luma: int, size: int)
    requires 0 < w && w % 2 == 0 && 2 * w <= luma && luma + w <= size
    ensures Fits(Planes(0, luma + 1, luma, w, w, 2), w, 2, RAW_SENSOR, size)
  {
    RowsFit(0, 0, w, 1, 2, w, size);
    RowsFit(luma, luma, w, 2, 1, w / 2, size);
    RowsFit(luma, luma + 1, w, 2, 1, w / 2, size);
  }

  lemma {:induction false} WrappedProducts(w: int, luma: int)
    requires w * 32 == luma + MAX_WORD && luma == INT_RANGE / 4
    ensures Mul(w, 32) == luma && Mul(luma, 2) == INT_RANGE / 2
  {
    SmallRest(w * 32, luma);
    SmallRest(luma * 2, INT_RANGE / 2);
  }

  lemma {:induction false} RawOf(w: int, h: int, luma: int)
    requires 0 < w < INT_RANGE && w % 2 == 0 && h == 2 && Up(w, 32) == w && Up(h, 32) == 32
    requires w * 32 == luma + MAX_WORD && luma == INT_RANGE / 4 && 2 * w <= luma
    ensures GetBufferSize(w, h, RAW_SENSOR) == Allocation(INT_RANGE / 2, w, 32) && PlanesFit(w, h, RAW_SENSOR)
  {
    WrappedProducts(w, luma);
    TwoRowsFit(w, luma, INT_RANGE / 2);
  }

  /** With padded rows an overflowing size can still be enough: this raw image gets 2^30 bytes,
      which gralloc can allocate, instead of 9 * 2^30. */
  lemma {:induction false} PaddingCanHideOverflow(w: int, h: int)
    requires 32 * w == 9 * (INT_RANGE / 4) && h == 2
    ensures !NoOverflow(w, h, RAW_SENSOR) && PlanesFit(w, h, RAW_SENSOR)
    ensures 0 < GetBufferSize(w, h, RAW_SENSOR).size < INT_RANGE
  {
    AlignedStays(w, 32);
    assert RoundUp(h, 32) == 32;
    assert FullSize(w, h, RAW_SENSOR) == 2 * (w * 32);
    RawOf(w, h, INT_RANGE / 4);
  }

  // ---------------------------------------------------------------- the users of the planes

  /** The planes of NV12_ENCODEABLE start their chroma right behind the luma; that is where
      the encoder and the C2D conversion look for it if and only if the luma is a multiple of
      2048 bytes. */
  lemma {:induction false} EncoderFindsChromaIff(w: int, h: int)
    requires Even(w, h) && RoundUp(w, 16) * h + 2047 < MAX_WORD
    ensures var b := GetBufferSize(w, h, NV12_ENCODEABLE);
            && 0 <= b.alignedW * b.alignedH && IsWord(b.alignedW * b.alignedH + 2047)
            && (GetPlanes(b.alignedW, b.alignedH, NV12_ENCODEABLE).cb ==
                  C2dConverter.Plane1(C2dConverter.NV12_ENCODEABLE, b.alignedW, b.alignedH)
                <==> b.alignedW * b.alignedH % 2048 == 0)
  {
    var aw := Up(w, 16);
    EvenProduct(aw, h);
    OffsetsAgreeIff(aw * h);
    assert Mul(aw, h) == aw * h && Add(aw * h, 0) == aw * h;
  }

  lemma {:induction false} OffsetsAgreeIff(x: int)
    requires 0 <= x && x + 2048 <= MAX_WORD
    ensures x == C2dConverter.Aligned(x, 2048) <==> x % 2048 == 0
  {
    UpIsAlign(x, 2048);
    if x % 2048 == 0 { AlignedStays(x, 2048); }
  }
}
