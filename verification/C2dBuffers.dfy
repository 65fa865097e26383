/** The C2D conversions in buffers that gralloc allocated: what the wider C2D rows write past the
    last chroma row still lies inside the buffer, so an image survives the way there and back. */
module C2dBuffers {
  import opened Bits
  import C2dConverter
  import opened YuvPlanes

  /** The formats that the C2D conversions accept. */
  function C2dFormat(f: Format): C2dConverter.Format
  {
    match f
    case YCbCr_420_SP => C2dConverter.YCbCr_420_SP
    case YCrCb_420_SP => C2dConverter.YCrCb_420_SP
    case NV12_ENCODEABLE => C2dConverter.NV12_ENCODEABLE
    case _ => C2dConverter.OtherFormat
  }

  /** A size, odd or even, with which neither the allocation nor the conversion overflows. */
  predicate Convertible(w: int, h: int, f: Format)
  {
    && 0 < w < INT_RANGE && 0 < h < INT_RANGE && C2dFormat(f) != C2dConverter.OtherFormat
    && NoOverflow(w, h, f) && C2dConverter.Small(RoundUp(w, 16), h)
  }

  /** C2D rows are as wide as Android rows, or 16 bytes wider if those are an odd multiple
      of 16. */
  lemma {:induction false} C2dRowIsWider(w: int)
    requires 0 < w
    ensures var (s, wide) := (RoundUp(w, 16), RoundUp(w, 32));
            wide == (if s % 32 == 0 then s else s + 16) && 2 * RoundUp(s / 2, 16) == wide
  {
    var s, wide, cs := RoundUp(w, 16), RoundUp(w, 32), RoundUp(RoundUp(w, 16) / 2, 16);
    assert s == 16 * (s / 16) && wide == 32 * (wide / 32) && cs == 16 * (cs / 16);
    HalfUnits(w, s / 16, wide / 32, cs / 16);
  }

  /** The same in units of 16, 32 and 16 bytes. */
  lemma HalfUnits(w: int, p: int, q: int, r: int)
    requires w <= 16 * p < w + 16 && w <= 32 * q < w + 32 && 8 * p <= 16 * r < 8 * p + 16
    ensures r == q && 16 * p / 2 == 8 * p && 32 * q == if 16 * p % 32 == 0 then 16 * p else 16 * p + 16
  {
    var e := p / 2;
    if p % 2 == 0 {
      assert p == 2 * e;
      assert q == e && r == e;
      RestIsUnique(16 * p, 32, e, 0);
    } else {
      assert p == 2 * e + 1;
      assert q == e + 1 && r == e + 1;
      RestIsUnique(16 * p, 32, e, 16);
    }
  }

  /** The last chroma row of an Android image may overrun by the width of a C2D row. */
  predicate HasOverrunRoom(chroma: int, s: int, wide: int, rows: int, size: int)
  {
    rows > 0 ==> chroma + rows * s - s + wide <= size
  }

  lemma {:induction false} Room420(w: int, h: int)
    requires 0 < w && 0 < h
    ensures var (s, wide) := (RoundUp(w, 16), RoundUp(w, 32));
            HasOverrunRoom(s * h, s, wide, h / 2, RoundUp(s * h + s * h / 2 + 1, 4096))
  {
    var s, wide := RoundUp(w, 16), RoundUp(w, 32);
    var p := s / 16;
    assert s == 16 * p;
    C2dRowIsWider(w);
    var n := p * h;
    RowsInUnits(p, h, n);
    PageAbove(n);
    assert s * h == 16 * n && s * h / 2 == 8 * n;
  }

  /** The bytes of an image in units of 16, for odd and even heights. */
  lemma {:induction false} RowsInUnits(p: int, h: int, n: int)
    requires 0 < p && 0 < h && n == p * h
    ensures 16 * p * h == 16 * n && (h % 2 == 0 ==> n % 2 == 0)
    ensures h / 2 * (16 * p) == if h % 2 == 0 then 8 * n else 8 * n - 8 * p
  {
    var m := h / 2;
    assert m * (16 * p) == 16 * (m * p);
    if h % 2 == 0 {
      assert p * (2 * m) == 2 * (m * p);
    } else {
      assert p * (2 * m + 1) == 2 * (m * p) + p;
    }
  }

  lemma PageAbove(n: int)
    ensures 24 * n + 8 <= RoundUp(24 * n + 1, 4096)
    ensures n % 2 == 0 ==> 24 * n + 16 <= RoundUp(24 * n + 1, 4096)
  {
    var q := RoundUp(24 * n + 1, 4096) / 4096;
    assert RoundUp(24 * n + 1, 4096) == 4096 * q;
    assert 3 * n + 1 <= 512 * q;
    if n % 2 == 0 { assert 3 * (n / 2) + 1 <= 256 * q; }
  }

  /** NV12_ENCODEABLE has chroma rows of twice the aligned half width, which is a C2D row. */
  lemma {:induction false} RoomEncodeable(w: int, h: int)
    requires 0 < w && 0 < h
    ensures var (s, wide) := (RoundUp(w, 16), RoundUp(w, 32));
            HasOverrunRoom(RoundUp(s * h, 2048), s, wide, h / 2, FullSize(w, h, NV12_ENCODEABLE))
  {
    var s, wide, m := RoundUp(w, 16), RoundUp(w, 32), h / 2;
    C2dRowIsWider(w);
    if m > 0 { WiderRows(m, s, wide, RoundUp(s / 2, 16)); }
  }

  /** The last of m rows may take the whole width if the others waste as much. */
  lemma {:induction false} WiderRows(m: int, s: int, wide: int, cs: int)
    requires 0 < m && s <= wide && 2 * cs == wide
    ensures m * s - s + wide <= 2 * (m * cs)
  {
    MulGrows(0, m - 1, wide - s);
    assert (m - 1) * (wide - s) == m * wide - m * s - wide + s;
    assert m * wide == 2 * (m * cs);
  }

  lemma TwicePlane(cs: int, m: int, c: int)
    requires c == m * cs && 0 <= c && 2 * c < MAX_WORD
    ensures Mul(Mul(cs, m), 2) == 2 * c
  {
    assert cs * m == c;
    assert Mul(cs, m) == c;
  }

  lemma {:induction false} SizeEncodeableIsFull(w: int, h: int)
    requires Convertible(w, h, NV12_ENCODEABLE)
    ensures GetBufferSize(w, h, NV12_ENCODEABLE) ==
            Allocation(FullSize(w, h, NV12_ENCODEABLE), RoundUp(w, 16), h)
  {
    var aw := RoundUp(w, 16);
    var cs := RoundUp(aw / 2, 16);
    StridesAgree(w, h);
    MulGrows(0, h / 2, cs);
    assert Up(w, 16) == aw && Up(Half(aw), 16) == cs && Mul(aw, h) == aw * h;
    TwicePlane(cs, h / 2, Chroma(w, h));
    EncodeableSize(aw * h, 2 * Chroma(w, h));
    EncodeableAllocation(w, h, aw, cs, aw * h, 2 * Chroma(w, h));
  }

  /** The size of a convertible buffer, for odd sizes too. */
  lemma {:induction false} ConvertibleSize(w: int, h: int, f: Format)
    requires Convertible(w, h, f)
    ensures GetBufferSize(w, h, f) == Allocation(FullSize(w, h, f), RoundUp(w, 16), h)
  {
    StridesAgree(w, h);
    if f == NV12_ENCODEABLE {
      SizeEncodeableIsFull(w, h);
    } else {
      assert Up(w, 16) == RoundUp(w, 16);
      assert Mul(RoundUp(w, 16), h) == RoundUp(w, 16) * h;
      Size420IsFull(RoundUp(w, 16) * h);
    }
  }

  lemma {:induction false} NarrowerIsSmall(w: int, s: int, h: int)
    requires 0 <= w <= s && 0 < h && C2dConverter.Small(s, h)
    ensures C2dConverter.Small(w, h) && 0 <= s * h && s * h + 2047 < MAX_WORD && s < INT_RANGE
  {
    var n := h + 1;
    MulGrows(w + 31, s + 31, n);
    MulGrows(0, w + 31, n);
    MulGrows(2, n, s + 31);
    MulGrows(0, h, s);
    assert (s + 31) * n == s * h + 31 * h + s + 31 && n * (s + 31) == (s + 31) * n;
    assert h * s == s * h;
  }

  /** The strides of the conversions, also from the width that the handle was given. */
  lemma {:induction false} StridesAgree(w: int, h: int)
    requires 0 < w && 0 < h && C2dConverter.Small(RoundUp(w, 16), h)
    ensures var s := RoundUp(w, 16);
            && 0 < s < INT_RANGE && 0 <= s * h && s * h + 2047 < MAX_WORD && C2dConverter.Small(w, h)
            && C2dConverter.Stride(w, 16, h) == C2dConverter.Stride(s, 16, h) == s
            && C2dConverter.Stride(w, 32, h) == RoundUp(w, 32)
  {
    var s := RoundUp(w, 16);
    NarrowerIsSmall(w, s, h);
    C2dConverter.AlignedIsRoundUp(w, 16);
    C2dConverter.AlignedIsRoundUp(s, 16);
    C2dConverter.AlignedIsRoundUp(w, 32);
    AlignedStays(s, 16);
  }

  /** The C2D buffer is large enough. */
  predicate C2dHolds(w: nat, h: nat, f: C2dConverter.Format, n: nat)
    requires C2dConverter.Small(w, h)
  {
    var wide := C2dConverter.Stride(w, 32, h);
    && C2dConverter.RowsFit(0, wide, w, h, n)
    && C2dConverter.RowsFit(C2dConverter.Plane1(f, wide, h), wide, wide, h / 2, n)
  }

  lemma {:induction false} LumaIsLess(w: int, h: int, f: Format)
    requires 0 < w && 0 < h && f in {YCbCr_420_SP, YCrCb_420_SP, NV12_ENCODEABLE}
    ensures 0 <= RoundUp(w, 16) * h <= FullSize(w, h, f)
  {
    MulGrows(0, h / 2, RoundUp(RoundUp(w, 16) / 2, 16));
    MulGrows(0, h, RoundUp(w, 16));
    assert h * RoundUp(w, 16) == RoundUp(w, 16) * h;
  }

  lemma {:induction false} LumaRowsFit(s: nat, w: nat, h: nat, size: nat)
    requires w <= s && 0 < h && s * h <= size
    ensures C2dConverter.RowsFit(0, s, w, h, size)
  {
    assert (h - 1) * s == s * h - s;
  }

  lemma {:induction false} LastRowFits(off: nat, s: nat, len: nat, rows: nat, size: nat)
    requires HasOverrunRoom(off, s, len, rows, size)
    ensures C2dConverter.RowsFit(off, s, len, rows, size)
  {
    assert (rows - 1) * s == rows * s - s;
  }

  /** Where the chroma starts, with the luma size as a number of its own. */
  lemma ChromaStart(f: Format, s: nat, h: nat, a: nat)
    requires a == s * h && a + 2047 < MAX_WORD
    ensures C2dConverter.Plane1(C2dFormat(f), s, h) == if f == NV12_ENCODEABLE then RoundUp(a, 2048) else a
  {
    C2dConverter.AlignedIsRoundUp(a, 2048);
  }

  lemma {:induction false} ChromaHasRoom(w: int, h: int, f: Format, s: nat, a: nat)
    requires 0 < w && 0 < h && C2dFormat(f) != C2dConverter.OtherFormat
    requires s == RoundUp(w, 16) && a == s * h && a + 2047 < MAX_WORD
    ensures HasOverrunRoom(C2dConverter.Plane1(C2dFormat(f), s, h), s, RoundUp(w, 32), h / 2, FullSize(w, h, f))
  {
    ChromaStart(f, s, h, a);
    if f == NV12_ENCODEABLE { RoomEncodeable(w, h); } else { Room420(w, h); }
  }

  /** Both chroma rows and luma rows of an Android image lie in the size that gralloc computes,
      even if the last chroma row is as long as a C2D row. */
  lemma {:induction false} AndroidRowsFit(w: int, h: int, f: Format)
    requires Convertible(w, h, f)
    ensures var (s, size) := (RoundUp(w, 16), GetBufferSize(w, h, f).size);
            && 0 < s && 0 <= s * h && s * h + 2047 < MAX_WORD && 0 <= size
            && C2dConverter.RowsFit(0, s, w, h, size)
            && C2dConverter.RowsFit(C2dConverter.Plane1(C2dFormat(f), s, h), s, RoundUp(w, 32), h / 2, size)
  {
    var s, wide, m := RoundUp(w, 16), RoundUp(w, 32), h / 2;
    StridesAgree(w, h);
    ConvertibleSize(w, h, f);
    LumaIsLess(w, h, f);
    LumaRowsFit(s, w, h, FullSize(w, h, f));
    var chroma := C2dConverter.Plane1(C2dFormat(f), s, h);
    assert HasOverrunRoom(chroma, s, wide, m, FullSize(w, h, f)) by { ChromaHasRoom(w, h, f, s, s * h); }
    LastRowFits(chroma, s, wide, m, FullSize(w, h, f));
  }

  /** All images of up to 8192 by 8192 are convertible. */
  lemma {:induction false} OrdinaryIsConvertible(w: int, h: int, f: Format)
    requires 0 < w <= 8192 && 0 < h <= 8192 && C2dFormat(f) != C2dConverter.OtherFormat
    ensures Convertible(w, h, f)
  {
    var s, m := RoundUp(w, 16), h / 2;
    var cs := RoundUp(s / 2, 16);
    BoundedProduct(s + 31, h + 1, 9000, 9000);
    BoundedProduct(s, h, 9000, 9000);
    BoundedProduct(m, cs, 9000, 9000);
  }

  lemma {:induction false} BoundedProduct(a: int, b: int, x: int, y: int)
    requires 0 <= a <= x && 0 <= b <= y
    ensures 0 <= a * b <= x * y
  {
    MulGrows(0, b, a);
    MulGrows(a, x, b);
    MulGrows(b, y, x);
    assert b * x == x * b && y * x == x * y && b * a == a * b;
  }

  /** What a conversion is proved to do for images that fit. */
  ghost predicate ConvertedIfFits(
    info: C2dConverter.CopyInfo, src: seq<C2dConverter.Byte>, was: seq<C2dConverter.Byte>, now: seq<C2dConverter.Byte>)
  {
    C2dConverter.ImageFits(info, |src|, |now|) ==> C2dConverter.Converted(info, src, was, now)
  }

  /** An image of w columns in the buffer that gralloc allocated for it. */
  ghost predicate InGrallocBuffer(i: C2dConverter.Image, f: Format, bytes: seq<C2dConverter.Byte>)
    requires Convertible(i.w, i.h, f)
  {
    i.format == C2dFormat(f) && |bytes| == GetBufferSize(i.w, i.h, f).size
  }

  /** Both conversions stay inside the Android buffer; for the C2D buffer this is assumed. */
  lemma {:induction false} ConversionsFit(hnd: C2dConverter.Handle, i: C2dConverter.Image, f: Format, c: nat)
    requires Convertible(i.w, i.h, f) && i.format == C2dFormat(f)
    requires hnd.width == GetBufferSize(i.w, i.h, f).alignedW
    requires C2dConverter.Small(i.w, i.h) && C2dHolds(i.w, i.h, i.format, c)
    ensures C2dConverter.Small(hnd.width, i.h) && 0 <= GetBufferSize(i.w, i.h, f).size
    ensures C2dConverter.Stride(hnd.width, 16, i.h) == C2dConverter.Stride(i.w, 16, i.h)
    ensures C2dConverter.ImageFits(C2dConverter.ToC2d(hnd, i).value, GetBufferSize(i.w, i.h, f).size, c)
    ensures C2dConverter.ImageFits(C2dConverter.ToAndroid(i).value, c, GetBufferSize(i.w, i.h, f).size)
  {
    var s, wide, m := RoundUp(i.w, 16), RoundUp(i.w, 32), i.h / 2;
    var size := GetBufferSize(i.w, i.h, f).size;
    StridesAgree(i.w, i.h);
    ConvertibleSize(i.w, i.h, f);
    AndroidRowsFit(i.w, i.h, f);
    C2dRowIsWider(i.w);
    C2dConverter.ShorterRowsFit(C2dConverter.Plane1(i.format, s, i.h), s, s, wide, m, size);
    C2dConverter.ShorterRowsFit(C2dConverter.Plane1(i.format, wide, i.h), wide, s, wide, m, c);
  }

  /** Android to C2D and back in a buffer from gralloc: every visible luma byte and every byte
      of every chroma row is restored, and no row leaves the buffer. */
  lemma {:induction false} RoundTripInGralloc(
    hnd: C2dConverter.Handle, i: C2dConverter.Image, f: Format, a: seq<C2dConverter.Byte>, c0: seq<C2dConverter.Byte>,
    c: seq<C2dConverter.Byte>, a0: seq<C2dConverter.Byte>, a1: seq<C2dConverter.Byte>)
    requires Convertible(i.w, i.h, f) && InGrallocBuffer(i, f, a) && InGrallocBuffer(i, f, a1)
    requires hnd.width == GetBufferSize(i.w, i.h, f).alignedW
    requires C2dConverter.Small(i.w, i.h) && C2dConverter.Small(hnd.width, i.h) && C2dHolds(i.w, i.h, i.format, |c|)
    requires ConvertedIfFits(C2dConverter.ToC2d(hnd, i).value, a, c0, c)
    requires ConvertedIfFits(C2dConverter.ToAndroid(i).value, c, a0, a1)
    ensures var s := C2dConverter.Stride(i.w, 16, i.h);
            && C2dConverter.RowsRestored(a, a1, 0, s, i.w, i.h)
            && C2dConverter.RowsRestored(a, a1, C2dConverter.Plane1(i.format, s, i.h), s, s, i.h / 2)
  {
    ConversionsFit(hnd, i, f, |c|);
    C2dConverter.RoundTrip(hnd, i, i, a, c0, c, a0, a1);
  }
}
