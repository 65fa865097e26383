/** The conversions between the Android and the C2D layout of semi-planar YUV images: copies
    row by row, with another stride on each side. The chroma copy writes whole source rows,
    so on the way back to the narrower Android rows each row overruns into the next one.

    A buffer is an array of bytes; a null handle or a zero base address is no array. */
module C2dConverter {
  import opened Bits
  import opened Options

  type Byte = bv8

  const COPYBIT_SUCCESS := 0
  const COPYBIT_FAILURE := -1

  datatype Format = YCbCr_420_SP | YCrCb_420_SP | NV12_ENCODEABLE | OtherFormat

  datatype CopyInfo = CopyInfo(
    width: nat, height: nat, srcStride: nat, dstStride: nat, srcPlane1: nat, dstPlane1: nat)

  // ---------------------------------------------------------------- rows of an image

  /** Byte c of row r. */
  function At(off: int, r: int, stride: int, c: int): int { off + r * stride + c }

  lemma {:induction false} RowsAreOrdered(off: int, r: nat, r': nat, stride: nat, c: nat)
    requires r < r'
    ensures c < stride ==> At(off, r, stride, c) < At(off, r', stride, 0)
    ensures At(off, r, stride, c) <= At(off, r', stride, c)
  {
    if stride > 0 { MulMonotone(r, r', stride); }
  }

  /** The rows, each of len bytes, lie within n bytes. */
  predicate RowsFit(off: nat, stride: nat, len: nat, rows: nat, n: nat)
  {
    rows > 0 ==> At(off, rows - 1, stride, len) <= n
  }

  lemma {:induction false} RowFits(off: nat, stride: nat, len: nat, rows: nat, n: nat, r: nat, c: nat)
    requires RowsFit(off, stride, len, rows, n) && r < rows && c <= len
    ensures off <= At(off, r, stride, c) <= n
  {
    if r < rows - 1 { RowsAreOrdered(off, r, rows - 1, stride, c); }
    Nonnegative(r, stride);
  }

  lemma {:induction false} NextRowFits(off: nat, stride: nat, len: nat, rows: nat, n: nat, i: nat)
    requires RowsFit(off, stride, len, rows, n) && i < rows
    ensures off <= At(off, i, stride, 0) && At(off, i, stride, len) == At(off, i, stride, 0) + len <= n
    ensures RowsFit(off, stride, len, i + 1, n)
    ensures At(off, i + 1, stride, 0) == At(off, i, stride, 0) + stride
  {
    RowFits(off, stride, len, rows, n, i, len);
    Nonnegative(i, stride);
  }

  lemma Nonnegative(r: nat, stride: nat)
    ensures 0 <= r * stride
  {
  }

  /** Byte c of row r is copied, and not overrun by the next row. */
  predicate Lasts(r: int, c: int, len: nat, stride: nat, rows: nat)
  {
    0 <= r < rows && 0 <= c < len && (c < stride || r == rows - 1)
  }

  ghost predicate CopiedRows(
    src: seq<Byte>, sOff: nat, ss: nat, now: seq<Byte>, dOff: nat, ds: nat, len: nat, rows: nat)
    requires RowsFit(sOff, ss, len, rows, |src|) && RowsFit(dOff, ds, len, rows, |now|)
  {
    forall r, c :: Lasts(r, c, len, ds, rows) ==>
      RowByte(now, dOff, r, ds, c, len, rows) == RowByte(src, sOff, r, ss, c, len, rows)
  }

  function RowByte(s: seq<Byte>, off: nat, r: nat, stride: nat, c: nat, len: nat, rows: nat): Byte
    requires RowsFit(off, stride, len, rows, |s|) && r < rows && c < len
  {
    RowFits(off, stride, len, rows, |s|, r, c + 1);
    RowFits(off, stride, len, rows, |s|, r, c);
    s[At(off, r, stride, c)]
  }

  /** Position p belongs to no row. */
  ghost predicate BetweenRows(p: int, off: nat, stride: nat, len: nat, rows: nat)
  {
    forall r :: 0 <= r < rows ==> !(At(off, r, stride, 0) <= p < At(off, r, stride, len))
  }

  ghost predicate KeptRest(was: seq<Byte>, now: seq<Byte>, off: nat, stride: nat, len: nat, rows: nat)
  {
    |now| == |was| && forall p :: 0 <= p < |now| && BetweenRows(p, off, stride, len, rows) ==> now[p] == was[p]
  }

  // ---------------------------------------------------------------- copying

  method MemCpy(dst: array<Byte>, d: nat, src: array<Byte>, s: nat, n: nat)
    requires dst != src && d + n <= dst.Length && s + n <= src.Length
    modifies dst
    ensures dst[..] == old(dst[..d]) + src[s..s + n] + old(dst[d + n..])
  {
    forall q | 0 <= q < n {
      dst[d + q] := src[s + q];
    }
  }

  /** A row that was copied before is not touched by the next one. */
  lemma {:induction false} EarlierRowStays(
    before: seq<Byte>, now: seq<Byte>, off: nat, stride: nat, len: nat, i: nat, r: nat, c: nat)
    requires RowsFit(off, stride, len, i, |before|) && RowsFit(off, stride, len, i + 1, |before|) && |now| == |before|
    requires r < i && c < len && c < stride
    requires 0 <= At(off, i, stride, 0) <= |before| && now[..At(off, i, stride, 0)] == before[..At(off, i, stride, 0)]
    ensures RowByte(now, off, r, stride, c, len, i + 1) == RowByte(before, off, r, stride, c, len, i)
  {
    RowsAreOrdered(off, r, i, stride, c);
    RowFits(off, stride, len, i, |before|, r, c);
    var p := At(off, r, stride, c);
    assert now[p] == now[..At(off, i, stride, 0)][p];
  }

  /** One more row on top of i rows. */
  lemma {:induction false} NextRow(
    src: seq<Byte>, sOff: nat, ss: nat, before: seq<Byte>, now: seq<Byte>, dOff: nat, ds: nat, len: nat, i: nat)
    requires RowsFit(sOff, ss, len, i, |src|) && RowsFit(dOff, ds, len, i, |before|)
    requires RowsFit(sOff, ss, len, i + 1, |src|) && RowsFit(dOff, ds, len, i + 1, |before|)
    requires CopiedRows(src, sOff, ss, before, dOff, ds, len, i)
    requires 0 <= At(dOff, i, ds, 0) && 0 <= At(sOff, i, ss, 0)
    requires now == before[..At(dOff, i, ds, 0)] +
                    src[At(sOff, i, ss, 0)..At(sOff, i, ss, len)] +
                    before[At(dOff, i, ds, len)..]
    ensures |now| == |before| && CopiedRows(src, sOff, ss, now, dOff, ds, len, i + 1)
  {
    var rows := i + 1;
    forall r, c | Lasts(r, c, len, ds, rows)
      ensures RowByte(now, dOff, r, ds, c, len, rows) == RowByte(src, sOff, r, ss, c, len, rows)
    {
      if r < i {
        EarlierRowStays(before, now, dOff, ds, len, i, r, c);
        assert Lasts(r, c, len, ds, i);
        assert RowByte(before, dOff, r, ds, c, len, i) == RowByte(src, sOff, r, ss, c, len, i);
      }
    }
  }

  lemma {:induction false} NextRest(
    was: seq<Byte>, before: seq<Byte>, now: seq<Byte>, dOff: nat, ds: nat, len: nat, i: nat)
    requires KeptRest(was, before, dOff, ds, len, i) && |now| == |before|
    requires 0 <= At(dOff, i, ds, 0) <= At(dOff, i, ds, len) <= |before|
    requires now[..At(dOff, i, ds, 0)] == before[..At(dOff, i, ds, 0)]
    requires now[At(dOff, i, ds, len)..] == before[At(dOff, i, ds, len)..]
    ensures KeptRest(was, now, dOff, ds, len, i + 1)
  {
    forall p | 0 <= p < |now| && BetweenRows(p, dOff, ds, len, i + 1)
      ensures now[p] == was[p]
    {
      forall r | 0 <= r < i
        ensures !(At(dOff, r, ds, 0) <= p < At(dOff, r, ds, len))
      {
      }
      assert !(At(dOff, i, ds, 0) <= p < At(dOff, i, ds, len));
      if p >= At(dOff, i, ds, len) {
        assert now[p] == now[At(dOff, i, ds, len)..][p - At(dOff, i, ds, len)];
      } else {
        assert now[p] == now[..At(dOff, i, ds, 0)][p];
      }
    }
  }

  /** Copies rows of len bytes. */
  method CopyRows(dst: array<Byte>, dOff: nat, ds: nat, src: array<Byte>, sOff: nat, ss: nat, len: nat, rows: nat)
    requires dst != src && RowsFit(sOff, ss, len, rows, src.Length) && RowsFit(dOff, ds, len, rows, dst.Length)
    modifies dst
    ensures CopiedRows(src[..], sOff, ss, dst[..], dOff, ds, len, rows)
    ensures KeptRest(old(dst[..]), dst[..], dOff, ds, len, rows)
  {
    var s, d := sOff, dOff;
    for i := 0 to rows
      invariant s == At(sOff, i, ss, 0) && d == At(dOff, i, ds, 0)
      invariant RowsFit(sOff, ss, len, i, src.Length) && RowsFit(dOff, ds, len, i, dst.Length)
      invariant CopiedRows(src[..], sOff, ss, dst[..], dOff, ds, len, i)
      invariant KeptRest(old(dst[..]), dst[..], dOff, ds, len, i)
    {
      ghost var before := dst[..];
      NextRowFits(sOff, ss, len, rows, src.Length, i);
      NextRowFits(dOff, ds, len, rows, dst.Length, i);
      MemCpy(dst, d, src, s, len);
      NextRow(src[..], sOff, ss, before, dst[..], dOff, ds, len, i);
      NextRest(old(dst[..]), before, dst[..], dOff, ds, len, i);
      s := s + ss;
      d := d + ds;
    }
  }

  /** Both planes lie within the buffers. The last chroma row is srcStride bytes long on both
      sides. */
  predicate ImageFits(info: CopyInfo, srcLen: nat, dstLen: nat)
  {
    && RowsFit(0, info.srcStride, info.width, info.height, srcLen)
    && RowsFit(0, info.dstStride, info.width, info.height, dstLen)
    && RowsFit(info.srcPlane1, info.srcStride, info.srcStride, info.height / 2, srcLen)
    && RowsFit(info.dstPlane1, info.dstStride, info.srcStride, info.height / 2, dstLen)
  }

  /** The chroma plane starts behind the luma rows. */
  predicate PlanesApart(info: CopyInfo)
  {
    info.width <= info.dstStride && At(0, info.height, info.dstStride, 0) <= info.dstPlane1
  }

  /** What copy_source_to_destination makes of the destination. */
  ghost predicate Converted(info: CopyInfo, src: seq<Byte>, was: seq<Byte>, now: seq<Byte>)
    requires ImageFits(info, |src|, |now|)
  {
    && CopiedRows(src, 0, info.srcStride, now, 0, info.dstStride, info.width, info.height)
    && CopiedRows(src, info.srcPlane1, info.srcStride,
                  now, info.dstPlane1, info.dstStride, info.srcStride, info.height / 2)
    && |now| == |was|
    && forall p :: 0 <= p < |now| && InNoPlane(p, info) ==> now[p] == was[p]
  }

  ghost predicate InNoPlane(p: int, info: CopyInfo)
  {
    && BetweenRows(p, 0, info.dstStride, info.width, info.height)
    && BetweenRows(p, info.dstPlane1, info.dstStride, info.srcStride, info.height / 2)
  }

  lemma {:induction false} BelowIsBetween(p: int, off: nat, stride: nat, len: nat, rows: nat)
    requires p < off
    ensures BetweenRows(p, off, stride, len, rows)
  {
    forall r | 0 <= r < rows
      ensures !(At(off, r, stride, 0) <= p < At(off, r, stride, len))
    {
      Nonnegative(r, stride);
    }
  }

  lemma {:induction false} LumaByteStays(
    was: seq<Byte>, now: seq<Byte>, stride: nat, w: nat, h: nat, off: nat, len: nat, rows: nat, r: nat, c: nat)
    requires RowsFit(0, stride, w, h, |was|) && KeptRest(was, now, off, stride, len, rows)
    requires w <= stride && At(0, h, stride, 0) <= off && r < h && c < w
    ensures RowByte(now, 0, r, stride, c, w, h) == RowByte(was, 0, r, stride, c, w, h)
  {
    RowFits(0, stride, w, h, |was|, r, c);
    RowFits(0, stride, w, h, |was|, r, c + 1);
    RowsAreOrdered(0, r, h, stride, c);
    BelowIsBetween(At(0, r, stride, c), off, stride, len, rows);
  }

  /** The chroma copy leaves the luma rows as they are. */
  lemma {:induction false} ChromaSparesLuma(info: CopyInfo, src: seq<Byte>, luma: seq<Byte>, now: seq<Byte>)
    requires ImageFits(info, |src|, |luma|) && |now| == |luma| && PlanesApart(info)
    requires CopiedRows(src, 0, info.srcStride, luma, 0, info.dstStride, info.width, info.height)
    requires KeptRest(luma, now, info.dstPlane1, info.dstStride, info.srcStride, info.height / 2)
    ensures CopiedRows(src, 0, info.srcStride, now, 0, info.dstStride, info.width, info.height)
  {
    var ss, ds, w, h := info.srcStride, info.dstStride, info.width, info.height;
    forall r, c | Lasts(r, c, w, ds, h)
      ensures RowByte(now, 0, r, ds, c, w, h) == RowByte(src, 0, r, ss, c, w, h)
    {
      LumaByteStays(luma, now, ds, w, h, info.dstPlane1, ss, h / 2, r, c);
      assert RowByte(luma, 0, r, ds, c, w, h) == RowByte(src, 0, r, ss, c, w, h);
    }
  }

  method CopySourceToDestination(src: array?<Byte>, dst: array?<Byte>, info: CopyInfo) returns (ret: int)
    requires src != null && dst != null ==> src != dst && ImageFits(info, src.Length, dst.Length) && PlanesApart(info)
    modifies dst
    ensures ret == if src == null || dst == null then COPYBIT_FAILURE else COPYBIT_SUCCESS
    ensures ret == COPYBIT_SUCCESS ==> Converted(info, src[..], old(dst[..]), dst[..])
    ensures ret != COPYBIT_SUCCESS && dst != null ==> dst[..] == old(dst[..])
  {
    if src == null || dst == null {
      return COPYBIT_FAILURE;
    }
    CopyRows(dst, 0, info.dstStride, src, 0, info.srcStride, info.width, info.height);
    ghost var luma := dst[..];
    CopyRows(dst, info.dstPlane1, info.dstStride, src, info.srcPlane1, info.srcStride, info.srcStride, info.height / 2);
    ChromaSparesLuma(info, src[..], luma, dst[..]);
    return COPYBIT_SUCCESS;
  }

  // ---------------------------------------------------------------- the two layouts

  /** private_handle_t and copybit_image_t, as far as they are read. */
  datatype Handle = Handle(width: nat, base: array?<Byte>)
  datatype Image = Image(w: nat, h: nat, format: Format, handle: Handle)

  /** No stride or offset overflows. */
  predicate Small(w: nat, h: nat)
  {
    IsWord((w + 31) * (h + 1) + 2047)
  }

  lemma AlignedIsRoundUp(x: nat, a: nat)
    requires a in {16, 32, 2048} && IsWord(x + a - 1)
    ensures Align(x, a) == RoundUp(x, a)
  {
    assert Pow2(4) == 16 && Pow2(5) == 32 && Pow2(11) == 2048 by { assert Pow2(8) == 256; }
    AlignComputes(x, if a == 16 then 4 else if a == 32 then 5 else 11);
  }

  function Aligned(x: nat, a: nat): (r: nat)
    requires a in {16, 32, 2048} && IsWord(x + a - 1)
    ensures x <= r < x + a
  {
    AlignedIsRoundUp(x, a);
    Align(x, a)
  }

  lemma {:induction false} SmallIsSmall(w: nat, h: nat)
    requires Small(w, h)
    ensures (w + 31) * h + 2047 < MAX_WORD && w + 31 < MAX_WORD
  {
    assert (w + 31) * (h + 1) == (w + 31) * h + (w + 31);
    Nonnegative(w + 31, h);
  }

  function Stride(w: nat, a: nat, h: nat): (r: nat)
    requires a in {16, 32} && Small(w, h)
    ensures w <= r <= w + 31 && IsWord(r * h + 2047)
  {
    SmallIsSmall(w, h);
    var r := Aligned(w, a);
    MulGrows(r, w + 31, h);
    Nonnegative(r, h);
    r
  }

  function Plane1(f: Format, stride: nat, h: nat): (r: nat)
    requires IsWord(stride * h + 2047)
    ensures r >= stride * h
  {
    if f == NV12_ENCODEABLE then Aligned(stride * h, 2048) else stride * h
  }

  function Info(f: Format, w: nat, h: nat, srcStride: nat, dstStride: nat): Option<CopyInfo>
    requires IsWord(srcStride * h + 2047) && IsWord(dstStride * h + 2047)
  {
    if f == OtherFormat then None
    else Some(CopyInfo(w, h, srcStride, dstStride, Plane1(f, srcStride, h), Plane1(f, dstStride, h)))
  }

  /** The copy in convert_yuv_c2d_to_yuv_android. */
  function ToAndroid(i: Image): Option<CopyInfo>
    requires Small(i.w, i.h)
  {
    Info(i.format, i.w, i.h, Stride(i.w, 32, i.h), Stride(i.w, 16, i.h))
  }

  /** The copy in convert_yuv_android_to_yuv_c2d. */
  function ToC2d(hnd: Handle, i: Image): Option<CopyInfo>
    requires Small(hnd.width, i.h) && Small(i.w, i.h)
  {
    Info(i.format, i.w, i.h, Stride(hnd.width, 16, i.h), Stride(i.w, 32, i.h))
  }

  /** Rows of the least multiple of the unit that holds the width, and the chroma plane behind
      them, for NV12_ENCODEABLE at the least multiple of 2048. */
  ghost predicate HasLayout(f: Format, stride: nat, plane1: nat, w: nat, unit: nat, h: nat)
    requires unit > 0
  {
    && IsLeastMultiple(stride, w, unit)
    && (if f == NV12_ENCODEABLE then IsLeastMultiple(plane1, stride * h, 2048) else plane1 == stride * h)
  }

  lemma {:induction false} InfoHasLayouts(f: Format, w: nat, h: nat, sw: nat, sa: nat, dw: nat, da: nat)
    requires sa in {16, 32} && da in {16, 32} && Small(sw, h) && Small(dw, h)
    ensures var info := Info(f, w, h, Stride(sw, sa, h), Stride(dw, da, h));
            && (info.None? <==> f == OtherFormat)
            && (info.Some? ==>
                  && info.value.width == w && info.value.height == h
                  && HasLayout(f, info.value.srcStride, info.value.srcPlane1, sw, sa, h)
                  && HasLayout(f, info.value.dstStride, info.value.dstPlane1, dw, da, h))
  {
    StrideIsLeast(sw, sa, h);
    StrideIsLeast(dw, da, h);
    RoundUpIsLeast(Stride(sw, sa, h) * h, 2048);
    RoundUpIsLeast(Stride(dw, da, h) * h, 2048);
    AlignedIsRoundUp(Stride(sw, sa, h) * h, 2048);
    AlignedIsRoundUp(Stride(dw, da, h) * h, 2048);
  }

  lemma {:induction false} StrideIsLeast(w: nat, a: nat, h: nat)
    requires a in {16, 32} && Small(w, h)
    ensures IsLeastMultiple(Stride(w, a, h), w, a) && 0 <= Stride(w, a, h) * h
  {
    SmallIsSmall(w, h);
    AlignedIsRoundUp(w, a);
    RoundUpIsLeast(w, a);
    Nonnegative(Stride(w, a, h), h);
  }

  /** The conversion to Android reads C2D rows, multiples of 32, and writes Android rows,
      multiples of 16, both of the image's width; unknown formats are refused. */
  lemma {:induction false} ToAndroidLayouts(i: Image)
    requires Small(i.w, i.h)
    ensures ToAndroid(i).None? <==> i.format == OtherFormat
    ensures ToAndroid(i).Some? ==>
              var info := ToAndroid(i).value;
              && info.width == i.w && info.height == i.h
              && HasLayout(i.format, info.srcStride, info.srcPlane1, i.w, 32, i.h)
              && HasLayout(i.format, info.dstStride, info.dstPlane1, i.w, 16, i.h)
  {
    InfoHasLayouts(i.format, i.w, i.h, i.w, 32, i.w, 16);
  }

  /** The conversion to C2D reads Android rows of the handle's width and writes C2D rows of the
      image's width. */
  lemma {:induction false} ToC2dLayouts(hnd: Handle, i: Image)
    requires Small(hnd.width, i.h) && Small(i.w, i.h)
    ensures ToC2d(hnd, i).None? <==> i.format == OtherFormat
    ensures ToC2d(hnd, i).Some? ==>
              var info := ToC2d(hnd, i).value;
              && info.width == i.w && info.height == i.h
              && HasLayout(i.format, info.srcStride, info.srcPlane1, hnd.width, 16, i.h)
              && HasLayout(i.format, info.dstStride, info.dstPlane1, i.w, 32, i.h)
  {
    InfoHasLayouts(i.format, i.w, i.h, hnd.width, 16, i.w, 32);
  }

  lemma {:induction false} PlanesAreApart(f: Format, w: nat, h: nat, srcStride: nat, dstStride: nat)
    requires IsWord(srcStride * h + 2047) && IsWord(dstStride * h + 2047) && w <= dstStride
    ensures Info(f, w, h, srcStride, dstStride).Some? ==> PlanesApart(Info(f, w, h, srcStride, dstStride).value)
  {
    assert h * dstStride == dstStride * h;
  }

  /** The arrays on both sides are different and large enough. */
  predicate Roomy(info: Option<CopyInfo>, src: Handle, dst: Handle)
  {
    info.Some? && src.base != null && dst.base != null ==>
      src.base != dst.base && ImageFits(info.value, src.base.Length, dst.base.Length)
  }

  function Target(rhs: Option<Image>): set<object>
  {
    if rhs.Some? && rhs.value.handle.base != null then {rhs.value.handle.base} else {}
  }

  /** The conversion took place, with this copy; otherwise nothing changed. */
  twostate predicate Did(info: Option<CopyInfo>, src: Handle, dst: Handle, ret: int)
    requires Roomy(info, src, dst)
    reads if src.base != null then {src.base} else {}, if dst.base != null then {dst.base} else {}
  {
    var done := info.Some? && src.base != null && dst.base != null;
    && ret == (if done then COPYBIT_SUCCESS else COPYBIT_FAILURE)
    && (done ==> Converted(info.value, src.base[..], old(dst.base[..]), dst.base[..]))
    && (!done && dst.base != null ==> dst.base[..] == old(dst.base[..]))
  }

  /** convert_yuv_c2d_to_yuv_android */
  method ConvertToAndroid(hnd: Option<Handle>, rhs: Option<Image>) returns (ret: int)
    requires rhs.Some? ==> Small(rhs.value.w, rhs.value.h)
    requires hnd.Some? && rhs.Some? ==> Roomy(ToAndroid(rhs.value), hnd.value, rhs.value.handle)
    modifies Target(rhs)
    ensures hnd.Some? && rhs.Some? ==> Did(ToAndroid(rhs.value), hnd.value, rhs.value.handle, ret)
    ensures hnd.None? || rhs.None? ==>
            ret == COPYBIT_FAILURE && (Target(rhs) != {} ==> unchanged(rhs.value.handle.base))
  {
    if hnd.None? || rhs.None? {
      return COPYBIT_FAILURE;
    }
    var i := rhs.value;
    var info := ToAndroid(i);
    if info.None? {
      return COPYBIT_FAILURE;
    }
    PlanesAreApart(i.format, i.w, i.h, Stride(i.w, 32, i.h), Stride(i.w, 16, i.h));
    ret := CopySourceToDestination(hnd.value.base, i.handle.base, info.value);
  }

  /** convert_yuv_android_to_yuv_c2d */
  method ConvertToC2d(hnd: Option<Handle>, rhs: Option<Image>) returns (ret: int)
    requires hnd.Some? && rhs.Some? ==> Small(rhs.value.w, rhs.value.h) && Small(hnd.value.width, rhs.value.h)
    requires hnd.Some? && rhs.Some? ==> Roomy(ToC2d(hnd.value, rhs.value), hnd.value, rhs.value.handle)
    modifies Target(rhs)
    ensures hnd.Some? && rhs.Some? ==> Did(ToC2d(hnd.value, rhs.value), hnd.value, rhs.value.handle, ret)
    ensures hnd.None? || rhs.None? ==>
            ret == COPYBIT_FAILURE && (Target(rhs) != {} ==> unchanged(rhs.value.handle.base))
  {
    if hnd.None? || rhs.None? {
      return COPYBIT_FAILURE;
    }
    var i := rhs.value;
    var info := ToC2d(hnd.value, i);
    if info.None? {
      return -1;
    }
    PlanesAreApart(i.format, i.w, i.h, Stride(hnd.value.width, 16, i.h), Stride(i.w, 32, i.h));
    ret := CopySourceToDestination(hnd.value.base, i.handle.base, info.value);
  }

  // ---------------------------------------------------------------- there and back

  lemma AndroidRowsAreNarrower(w: nat, h: nat)
    requires Small(w, h)
    ensures Stride(w, 16, h) <= Stride(w, 32, h)
  {
    SmallIsSmall(w, h);
    AlignedIsRoundUp(w, 16);
    AlignedIsRoundUp(w, 32);
    var wide := RoundUp(w, 32);
    RestIsUnique(wide, 16, 2 * (wide / 32), 0);
    RoundUpIsLeast(w, 16);
  }

  /** Rows that are copied to wider rows and back. */
  ghost predicate RowsRestored(a: seq<Byte>, a1: seq<Byte>, off: nat, stride: nat, len: nat, rows: nat)
  {
    && RowsFit(off, stride, len, rows, |a|) && RowsFit(off, stride, len, rows, |a1|)
    && forall r, k :: 0 <= r < rows && 0 <= k < len ==>
         RowByte(a1, off, r, stride, k, len, rows) == RowByte(a, off, r, stride, k, len, rows)
  }

  lemma ShorterRowsFit(off: nat, stride: nat, len: nat, longer: nat, rows: nat, n: nat)
    requires RowsFit(off, stride, longer, rows, n) && len <= longer
    ensures RowsFit(off, stride, len, rows, n)
  {
  }

  lemma {:induction false} LumaRestored(a: seq<Byte>, c: seq<Byte>, a1: seq<Byte>, s: nat, wide: nat, w: nat, h: nat)
    requires w <= s <= wide
    requires RowsFit(0, s, w, h, |a|) && RowsFit(0, wide, w, h, |c|) && RowsFit(0, s, w, h, |a1|)
    requires CopiedRows(a, 0, s, c, 0, wide, w, h) && CopiedRows(c, 0, wide, a1, 0, s, w, h)
    ensures RowsRestored(a, a1, 0, s, w, h)
  {
    forall r, k | 0 <= r < h && 0 <= k < w
      ensures RowByte(a1, 0, r, s, k, w, h) == RowByte(a, 0, r, s, k, w, h)
    {
      assert Lasts(r, k, w, s, h) && Lasts(r, k, w, wide, h);
      assert RowByte(c, 0, r, wide, k, w, h) == RowByte(a, 0, r, s, k, w, h);
    }
  }

  lemma {:induction false} ChromaRestored(
    a: seq<Byte>, c: seq<Byte>, a1: seq<Byte>, pa: nat, pc: nat, s: nat, wide: nat, rows: nat)
    requires s <= wide
    requires RowsFit(pa, s, s, rows, |a|) && RowsFit(pc, wide, s, rows, |c|)
    requires RowsFit(pc, wide, wide, rows, |c|) && RowsFit(pa, s, wide, rows, |a1|)
    requires CopiedRows(a, pa, s, c, pc, wide, s, rows) && CopiedRows(c, pc, wide, a1, pa, s, wide, rows)
    ensures RowsRestored(a, a1, pa, s, s, rows)
  {
    ShorterRowsFit(pa, s, s, wide, rows, |a1|);
    forall r, k | 0 <= r < rows && 0 <= k < s
      ensures RowByte(a1, pa, r, s, k, s, rows) == RowByte(a, pa, r, s, k, s, rows)
    {
      assert Lasts(r, k, s, wide, rows) && Lasts(r, k, wide, s, rows);
      assert RowByte(c, pc, r, wide, k, s, rows) == RowByte(a, pa, r, s, k, s, rows);
      assert RowByte(a1, pa, r, s, k, wide, rows) == RowByte(c, pc, r, wide, k, wide, rows);
    }
  }

  /** Android to C2D and back: every visible luma byte and every byte of every chroma row is
      restored, although each chroma row overran into the next one on the way. */
  lemma {:induction false} RoundTrip(
    hnd: Handle, i: Image, back: Image, a: seq<Byte>, c0: seq<Byte>, c: seq<Byte>, a0: seq<Byte>, a1: seq<Byte>)
    requires Small(hnd.width, i.h) && Small(i.w, i.h) && i.format != OtherFormat
    requires back.w == i.w && back.h == i.h && back.format == i.format
    requires Stride(hnd.width, 16, i.h) == Stride(i.w, 16, i.h)
    requires ImageFits(ToC2d(hnd, i).value, |a|, |c|) && ImageFits(ToAndroid(back).value, |c|, |a1|)
    requires Converted(ToC2d(hnd, i).value, a, c0, c) && Converted(ToAndroid(back).value, c, a0, a1)
    ensures var s := Stride(i.w, 16, i.h);
            && RowsRestored(a, a1, 0, s, i.w, i.h)
            && RowsRestored(a, a1, Plane1(i.format, s, i.h), s, s, i.h / 2)
  {
    var s, wide := Stride(i.w, 16, i.h), Stride(i.w, 32, i.h);
    AndroidRowsAreNarrower(i.w, i.h);
    LumaRestored(a, c, a1, s, wide, i.w, i.h);
    ChromaRestored(a, c, a1, Plane1(i.format, s, i.h), Plane1(i.format, wide, i.h), s, wide, i.h / 2);
  }
}
