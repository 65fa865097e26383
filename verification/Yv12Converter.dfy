/** convertYV12toYCrCb420SP: the two chroma planes of a YV12 image are interleaved, with one
    loop for rows without padding, a form of it that moves blocks of eight samples, and a loop
    with two pairs of cursors that skips the padding. All three have the same specification. */
module Yv12Converter {
  import opened Bits
  import opened C2dConverter

  /** stride is w of the copybit image and width is w minus horiz_padding. */
  datatype Layout = Layout(stride: nat, width: nat, height: nat)
  {
    function YSize(): nat { stride * height }

    function CWidth(): (r: nat)
      requires Fits()
      ensures stride / 2 <= r
    {
      Aligned(stride / 2, 16)
    }

    function CSize(): nat
      requires Fits()
    {
      CWidth() * height / 2
    }

    function HalfWidth(): nat { width / 2 }
    function HalfHeight(): nat { height / 2 }

    predicate Fits() { width <= stride && IsWord(stride + 15) }

    predicate Padded()
      requires Fits()
    {
      CWidth() != HalfWidth()
    }

    /** How many pairs are written. */
    function Count(): nat
      requires Fits()
    {
      if Padded() then HalfHeight() * HalfWidth() else CSize()
    }

    /** Where the k-th sample that is not padding is in its plane. */
    function SampleAt(k: nat): nat
      requires Fits()
    {
      if HalfWidth() == 0 then k
      else
        DivisionParts(k, HalfWidth());
        Nonnegative(k / HalfWidth(), CWidth());
        k / HalfWidth() * CWidth() + k % HalfWidth()
    }

    /** The padded loop ends. */
    predicate LoopEnds()
      requires Fits()
    {
      Padded() && HalfHeight() > 0 ==> width >= 2
    }
  }

  // ---------------------------------------------------------------- where samples are

  lemma DivisionParts(k: nat, n: nat)
    requires n > 0
    ensures 0 <= k / n && 0 <= k % n < n && k == k / n * n + k % n
  {
  }

  lemma {:induction false} RowBelow(k: nat, n: nat, rows: nat)
    requires n > 0 && k < rows * n
    ensures k / n < rows
  {
    DivisionParts(k, n);
    if k / n >= rows { MulGrows(rows, k / n, n); }
  }

  lemma {:induction false} RowsOfPlane(l: Layout)
    requires l.Fits()
    ensures l.HalfHeight() * l.CWidth() <= l.CSize()
  {
    var h, cw := l.height, l.CWidth();
    MulGrows(2 * l.HalfHeight(), h, cw);
    assert 2 * l.HalfHeight() * cw == 2 * (l.HalfHeight() * cw);
    assert h * cw == cw * h;
  }

  lemma {:induction false} SampleOfRow(l: Layout, r: nat, i: nat)
    requires l.Fits() && r < l.HalfHeight() && i < l.HalfWidth()
    ensures 0 <= r * l.HalfWidth() + i < l.HalfHeight() * l.HalfWidth()
    ensures l.SampleAt(r * l.HalfWidth() + i) == r * l.CWidth() + i < l.CSize()
  {
    var hw, cw := l.HalfWidth(), l.CWidth();
    Nonnegative(r, hw);
    RestIsUnique(r * hw + i, hw, r, i);
    MulMonotone(r, l.HalfHeight(), hw);
    MulMonotone(r, l.HalfHeight(), cw);
    RowsOfPlane(l);
  }

  lemma {:induction false} SampleInPlane(l: Layout, k: nat)
    requires l.Fits() && k < l.Count()
    ensures l.SampleAt(k) < l.CSize()
    ensures !l.Padded() ==> l.SampleAt(k) == k
  {
    var hw := l.HalfWidth();
    if hw == 0 {
      NoSamples(l);
    } else if l.Padded() {
      DivisionParts(k, hw);
      RowBelow(k, hw, l.HalfHeight());
      SampleOfRow(l, k / hw, k % hw);
    } else {
      DivisionParts(k, hw);
    }
  }

  lemma NoSamples(l: Layout)
    requires l.Fits() && l.HalfWidth() == 0
    ensures l.Count() == 0
  {
  }

  /** For even heights each form writes every sample that is not padding. */
  lemma {:induction false} EvenHeightIsWhole(l: Layout)
    requires l.Fits() && l.height % 2 == 0
    ensures l.Count() == l.HalfHeight() * l.HalfWidth()
  {
    if !l.Padded() {
      var hw, hh := l.HalfWidth(), l.HalfHeight();
      assert l.height == 2 * hh;
      assert hw * (2 * hh) == 2 * (hh * hw);
    }
  }

  /** A plane is a whole number of blocks of eight. */
  lemma PlaneIsBlocks(l: Layout)
    requires l.Fits()
    ensures l.CSize() % 8 == 0
  {
    AlignedIsRoundUp(l.stride / 2, 16);
    var m := l.CWidth() / 16;
    assert l.CWidth() == 16 * m;
    assert 16 * m * l.height == 2 * (8 * (m * l.height));
    RestIsUnique(l.CSize(), 8, m * l.height, 0);
  }

  // ---------------------------------------------------------------- specification

  /** The buffers hold both planes. */
  predicate Holds(l: Layout, srcLen: nat, dstLen: nat)
  {
    l.Fits() && l.YSize() + 2 * l.CSize() <= srcLen && l.YSize() + 2 * l.Count() <= dstLen
  }

  /** Pair k of the result is the k-th V and U sample. */
  ghost predicate PairIs(l: Layout, src: seq<Byte>, now: seq<Byte>, k: nat)
    requires Holds(l, |src|, |now|) && k < l.Count()
  {
    SampleInPlane(l, k);
    && now[l.YSize() + 2 * k] == src[l.YSize() + l.SampleAt(k)]
    && now[l.YSize() + 2 * k + 1] == src[l.YSize() + l.CSize() + l.SampleAt(k)]
  }

  ghost predicate Interleaved(l: Layout, src: seq<Byte>, now: seq<Byte>, n: nat)
    requires Holds(l, |src|, |now|) && n <= l.Count()
  {
    forall k :: 0 <= k < n ==> PairIs(l, src, now, k)
  }

  /** Nothing but the first n pairs of the chroma plane is changed. */
  ghost predicate OnlyPairs(l: Layout, was: seq<Byte>, now: seq<Byte>, n: nat)
  {
    |now| == |was| && forall p :: 0 <= p < |now| && !(l.YSize() <= p < l.YSize() + 2 * n) ==> now[p] == was[p]
  }

  /** One more pair. */
  lemma {:induction false} NextPair(l: Layout, src: seq<Byte>, before: seq<Byte>, now: seq<Byte>, k: nat)
    requires Holds(l, |src|, |before|) && k < l.Count() && Interleaved(l, src, before, k)
    requires l.SampleAt(k) < l.CSize()
    requires now == before[l.YSize() + 2 * k := src[l.YSize() + l.SampleAt(k)]]
                          [l.YSize() + 2 * k + 1 := src[l.YSize() + l.CSize() + l.SampleAt(k)]]
    ensures Interleaved(l, src, now, k + 1)
  {
    forall m | 0 <= m < k + 1
      ensures PairIs(l, src, now, m)
    {
      SampleInPlane(l, m);
      assert m < k ==> PairIs(l, src, before, m);
    }
  }

  // ---------------------------------------------------------------- the three loops

  /** Rows without padding. */
  method InterleavePlain(l: Layout, src: array<Byte>, dst: array<Byte>)
    requires src != dst && Holds(l, src.Length, dst.Length) && !l.Padded()
    modifies dst
    ensures Interleaved(l, src[..], dst[..], l.Count()) && OnlyPairs(l, old(dst[..]), dst[..], l.Count())
  {
    var newChroma, oldChroma, half := l.YSize(), l.YSize(), l.CSize();
    for i := 0 to half
      invariant Interleaved(l, src[..], dst[..], i) && OnlyPairs(l, old(dst[..]), dst[..], i)
    {
      SampleInPlane(l, i);
      ghost var before := dst[..];
      dst[newChroma + i * 2] := src[oldChroma + i];
      dst[newChroma + i * 2 + 1] := src[oldChroma + i + half];
      NextPair(l, src[..], before, dst[..], i);
    }
  }

  /** The interleaved store: eight bytes of d0 and d1 alternate. */
  method StoreBlock(dst: array<Byte>, t1: nat, d0: seq<Byte>, d1: seq<Byte>)
    requires |d0| == |d1| == 8 && t1 + 16 <= dst.Length
    modifies dst
    ensures BlockStored(old(dst[..]), dst[..], t1, d0, d1)
  {
    forall q | 0 <= q < 16 {
      dst[t1 + q] := if q % 2 == 0 then d0[q / 2] else d1[q / 2];
    }
    forall q | 0 <= q < 8
      ensures dst[t1 + 2 * q] == d0[q] && dst[t1 + 2 * q + 1] == d1[q]
    {
      assert dst[t1 + (2 * q + 1)] == d1[(2 * q + 1) / 2];
    }
  }

  /** Eight bytes from t2 and from t3 alternate from t1 on, and nothing else is changed. */
  ghost predicate BlockStored(before: seq<Byte>, now: seq<Byte>, t1: nat, d0: seq<Byte>, d1: seq<Byte>)
  {
    && |d0| == |d1| == 8 && |now| == |before| && t1 + 16 <= |now|
    && (forall p :: 0 <= p < |now| && !(t1 <= p < t1 + 16) ==> now[p] == before[p])
    && (forall q :: 0 <= q < 8 ==> now[t1 + 2 * q] == d0[q] && now[t1 + 2 * q + 1] == d1[q])
  }

  /** A block leaves an earlier pair as it is. */
  lemma {:induction false} EarlierPairStays(
    l: Layout, src: seq<Byte>, before: seq<Byte>, now: seq<Byte>, n: nat, d0: seq<Byte>, d1: seq<Byte>, m: nat)
    requires Holds(l, |src|, |before|) && m < n && n + 8 <= l.Count() && PairIs(l, src, before, m)
    requires BlockStored(before, now, l.YSize() + 2 * n, d0, d1)
    ensures PairIs(l, src, now, m)
  {
    var p := l.YSize() + 2 * m;
    assert now[p] == before[p] && now[p + 1] == before[p + 1];
  }

  /** Pair n + q of a block. */
  lemma {:induction false} BlockPair(
    l: Layout, src: seq<Byte>, before: seq<Byte>, now: seq<Byte>, n: nat, d0: seq<Byte>, d1: seq<Byte>, q: nat)
    requires Holds(l, |src|, |now|) && !l.Padded() && n + 8 <= l.CSize() && q < 8
    requires BlockStored(before, now, l.YSize() + 2 * n, d0, d1)
    requires d0[q] == src[l.YSize() + n + q] && d1[q] == src[l.YSize() + l.CSize() + n + q]
    ensures PairIs(l, src, now, n + q)
  {
    SampleInPlane(l, n + q);
    var t1 := l.YSize() + 2 * n;
    assert now[t1 + 2 * q] == d0[q] && now[t1 + 2 * q + 1] == d1[q];
  }

  lemma {:induction false} NextBlock(
    l: Layout, src: seq<Byte>, before: seq<Byte>, now: seq<Byte>, n: nat, t1: nat, t2: nat, t3: nat)
    requires Holds(l, |src|, |before|) && !l.Padded() && n + 8 <= l.CSize() && |now| == |before|
    requires t1 == l.YSize() + 2 * n && t2 == l.YSize() + n && t3 == l.YSize() + l.CSize() + n
    requires Interleaved(l, src, before, n) && BlockStored(before, now, t1, src[t2..t2 + 8], src[t3..t3 + 8])
    ensures Interleaved(l, src, now, n + 8)
  {
    forall m | 0 <= m < n + 8
      ensures PairIs(l, src, now, m)
    {
      if m < n {
        EarlierPairStays(l, src, before, now, n, src[t2..t2 + 8], src[t3..t3 + 8], m);
      } else {
        BlockPair(l, src, before, now, n, src[t2..t2 + 8], src[t3..t3 + 8], m - n);
      }
    }
  }

  lemma BlockIsPairs(
    l: Layout, was: seq<Byte>, before: seq<Byte>, now: seq<Byte>, n: nat, t1: nat, d0: seq<Byte>, d1: seq<Byte>)
    requires t1 == l.YSize() + 2 * n && OnlyPairs(l, was, before, n) && BlockStored(before, now, t1, d0, d1)
    ensures OnlyPairs(l, was, now, n + 8)
  {
  }

  /** Eight samples of each plane from the n-th on. */
  method CopyBlock(
    l: Layout, src: array<Byte>, dst: array<Byte>, t1: nat, t2: nat, t3: nat, ghost n: nat, ghost was: seq<Byte>)
    requires src != dst && Holds(l, src.Length, dst.Length) && !l.Padded() && n + 8 <= l.CSize()
    requires t1 == l.YSize() + 2 * n && t2 == l.YSize() + n && t3 == l.YSize() + l.CSize() + n
    requires Interleaved(l, src[..], dst[..], n) && OnlyPairs(l, was, dst[..], n)
    modifies dst
    ensures Interleaved(l, src[..], dst[..], n + 8) && OnlyPairs(l, was, dst[..], n + 8)
  {
    ghost var before := dst[..];
    var d0, d1 := src[t2..t2 + 8], src[t3..t3 + 8];
    StoreBlock(dst, t1, d0, d1);
    assert d0 == src[..][t2..t2 + 8] && d1 == src[..][t3..t3 + 8];
    NextBlock(l, src[..], before, dst[..], n, t1, t2, t3);
    BlockIsPairs(l, was, before, dst[..], n, t1, d0, d1);
  }

  /** The same in blocks of eight: two loads of eight bytes and one interleaved store. */
  method InterleaveBlocks(l: Layout, src: array<Byte>, dst: array<Byte>)
    requires src != dst && Holds(l, src.Length, dst.Length) && !l.Padded()
    modifies dst
    ensures Interleaved(l, src[..], dst[..], l.Count()) && OnlyPairs(l, old(dst[..]), dst[..], l.Count())
  {
    PlaneIsBlocks(l);
    var t1, t2, t3 := l.YSize(), l.YSize(), l.YSize() + l.CSize();
    var blocks := l.CSize() / 8;
    for i := 0 to blocks
      invariant t1 == l.YSize() + 16 * i && t2 == l.YSize() + 8 * i && t3 == l.YSize() + l.CSize() + 8 * i
      invariant Interleaved(l, src[..], dst[..], 8 * i) && OnlyPairs(l, old(dst[..]), dst[..], 8 * i)
    {
      CopyBlock(l, src, dst, t1, t2, t3, 8 * i, old(dst[..]));
      t1, t2, t3 := t1 + 16, t2 + 8, t3 + 8;
    }
  }

  /** One pair at byte j of row r2, the second half of it perhaps at the start of the next
      row; both are positions 2k and 2k+1 of the result. */
  method StorePair(dst: array<Byte>, newChroma: nat, width: nat, r2: nat, j: nat, v: Byte, u: Byte, ghost k: nat)
      returns (r2': nat, j': nat)
    requires 2 <= width && j < width && r2 * width + j == 2 * k && newChroma + 2 * k + 1 < dst.Length
    modifies dst
    ensures dst[..] == old(dst[..])[newChroma + 2 * k := v][newChroma + 2 * k + 1 := u]
    ensures (r2', j') == if j + 1 == width then (r2 + 1, 1) else (r2, j + 2)
    ensures j' <= width && r2' * width + j' == 2 * k + 2
  {
    r2', j' := r2, j;
    if j + 1 == width {
      dst[newChroma + r2' * width + j'] := v;
      r2' := r2' + 1;
      NextRowStart(r2, width);
      dst[newChroma + r2' * width] := u;
      j' := 1;
    } else {
      dst[newChroma + r2' * width + j'] := v;
      dst[newChroma + r2' * width + j' + 1] := u;
      j' := j' + 2;
    }
  }

  lemma NextRowStart(r: nat, n: nat)
    ensures (r + 1) * n == r * n + n
  {
  }

  /** r1 and i stand at the k-th sample of the source, r2 and j at pair k of the result. */
  ghost predicate Cursors(l: Layout, r1: int, i: int, r2: int, j: int, k: int)
  {
    && 0 <= r1 <= l.HalfHeight() && 0 <= i && (if r1 == l.HalfHeight() then i == 0 else i < l.HalfWidth())
    && 0 <= j <= l.width && 0 <= r2
    && k == r1 * l.HalfWidth() + i && r2 * l.width + j == 2 * k
  }

  lemma {:induction false} CursorsInRange(l: Layout, r1: int, i: int, r2: int, j: int, k: int)
    requires l.Fits() && l.Padded() && Cursors(l, r1, i, r2, j, k)
    ensures 0 <= k <= l.Count()
    ensures r1 < l.HalfHeight() ==>
            k < l.Count() && 0 <= r1 * l.CWidth() && l.SampleAt(k) == r1 * l.CWidth() + i < l.CSize()
    ensures r1 == l.HalfHeight() ==> k == l.Count()
  {
    if r1 < l.HalfHeight() {
      SampleOfRow(l, r1, i);
      Nonnegative(r1, l.CWidth());
    } else {
      Nonnegative(r1, l.HalfWidth());
    }
  }

  lemma {:induction false} NextResultRow(l: Layout, r1: int, i: int, r2: int, k: int)
    requires Cursors(l, r1, i, r2, l.width, k)
    ensures Cursors(l, r1, i, r2 + 1, 0, k)
  {
    NextRowStart(r2, l.width);
  }

  lemma {:induction false} NextSample(l: Layout, r1: int, i: int, r2: int, j: int, r2': int, j': int, k: int)
    requires Cursors(l, r1, i, r2, j, k) && r1 < l.HalfHeight()
    requires 0 <= r2' && 0 <= j' <= l.width && r2' * l.width + j' == 2 * k + 2
    ensures if i + 1 == l.HalfWidth() then Cursors(l, r1 + 1, 0, r2', j', k + 1)
            else Cursors(l, r1, i + 1, r2', j', k + 1)
  {
    NextRowStart(r1, l.HalfWidth());
  }

  // ---------------------------------------------------------------- when the padded loop ends

  datatype Cursor = Cursor(r1: nat, i: nat, r2: nat, j: nat)

  /** How one pass of the padded loop moves the cursors. */
  function Pass(width: nat, c: Cursor): Cursor
  {
    if c.j == width then c.(j := 0, r2 := c.r2 + 1)
    else
      var c1 := if c.j + 1 == width then c.(r2 := c.r2 + 1, j := 1) else c.(j := c.j + 2);
      if c.i + 1 == width / 2 then c1.(i := 0, r1 := c.r1 + 1) else c1.(i := c.i + 1)
  }

  function Passes(width: nat, n: nat): Cursor
  {
    if n == 0 then Cursor(0, 0, 0, 0) else Pass(width, Passes(width, n - 1))
  }

  /** Without columns only r2 moves. */
  lemma {:induction false} NoColumnStays(width: nat, n: nat)
    requires width == 0
    ensures Passes(width, n) == Cursor(0, 0, n, 0)
  {
    if n > 0 { NoColumnStays(width, n - 1); }
  }

  /** With one column the loop reads sample after sample of the first row, one in every other
      pass. */
  lemma {:induction false} OneColumnStays(width: nat, m: nat)
    requires width == 1
    ensures Passes(width, 2 * m) == Cursor(0, m, 2 * m, 0) && Passes(width, 2 * m + 1) == Cursor(0, m + 1, 2 * m + 1, 1)
  {
    if m > 0 {
      OneColumnStays(width, m - 1);
      assert Passes(width, 2 * m) == Pass(width, Passes(width, 2 * m - 1));
    }
    assert Passes(width, 2 * m + 1) == Pass(width, Passes(width, 2 * m));
  }

  lemma {:induction false} NarrowStays(width: nat, n: nat)
    requires width < 2
    ensures Passes(width, n).r1 == 0
  {
    if width == 0 {
      NoColumnStays(width, n);
    } else {
      OneColumnStays(width, n / 2);
      assert n == 2 * (n / 2) || n == 2 * (n / 2) + 1;
    }
  }

  /** With two columns or more, two passes move on by at least one sample. */
  lemma {:induction false} WideAdvances(width: nat, n: nat)
    requires width >= 2
    ensures var c := Passes(width, n);
            c.i < width / 2 && c.j <= width && n <= 2 * (c.r1 * (width / 2) + c.i) + (if c.j == width then 0 else 1)
  {
    if n > 0 {
      WideAdvances(width, n - 1);
      NextRowStart(Passes(width, n - 1).r1, width / 2);
    }
  }

  /** The loop over the given rows ends if and only if there is no row or two columns. */
  lemma {:induction false} PaddedLoopEndsIff(width: nat, rows: nat)
    ensures (exists n: nat :: Passes(width, n).r1 >= rows) <==> rows == 0 || width >= 2
  {
    if rows == 0 {
      assert Passes(width, 0).r1 >= rows;
    } else if width >= 2 {
      var n := 2 * (rows * (width / 2));
      Nonnegative(rows, width / 2);
      WideAdvances(width, n);
      var c := Passes(width, n);
      if c.r1 < rows { MulMonotone(c.r1, rows, width / 2); }
      assert c.r1 >= rows;
    } else {
      forall n: nat
        ensures Passes(width, n).r1 < rows
      {
        NarrowStays(width, n);
      }
    }
  }

  /** Rows with padding: r1 and i run over the samples of the source, r2 and j over the bytes
      of the result. */
  method InterleavePadded(l: Layout, src: array<Byte>, dst: array<Byte>)
    requires src != dst && Holds(l, src.Length, dst.Length) && l.Padded() && l.LoopEnds()
    modifies dst
    ensures Interleaved(l, src[..], dst[..], l.Count()) && OnlyPairs(l, old(dst[..]), dst[..], l.Count())
  {
    var newChroma, oldChroma := l.YSize(), l.YSize();
    var width, cWidth, cSize := l.width, l.CWidth(), l.CSize();
    var r1, r2, i, j := 0, 0, 0, 0;
    ghost var k, n := 0, 0;
    CursorsInRange(l, 0, 0, 0, 0, 0);
    while r1 < l.height / 2
      invariant Cursors(l, r1, i, r2, j, k) && 0 <= k <= l.Count()
      invariant 0 <= n && Passes(width, n) == Cursor(r1, i, r2, j)
      invariant Interleaved(l, src[..], dst[..], k) && OnlyPairs(l, old(dst[..]), dst[..], k)
      decreases l.HalfHeight() - r1, l.HalfWidth() - i, j
    {
      CursorsInRange(l, r1, i, r2, j, k);
      n := n + 1;
      if j == width {
        NextResultRow(l, r1, i, r2, k);
        j := 0;
        r2 := r2 + 1;
        continue;
      }
      ghost var before, r, c := dst[..], r2, j;
      var v, u := src[oldChroma + r1 * cWidth + i], src[oldChroma + r1 * cWidth + i + cSize];
      r2, j := StorePair(dst, newChroma, width, r2, j, v, u, k);
      NextPair(l, src[..], before, dst[..], k);
      NextSample(l, r1, i, r, c, r2, j, k);
      k := k + 1;
      i := i + 1;
      if i == width / 2 {
        i := 0;
        r1 := r1 + 1;
      }
      CursorsInRange(l, r1, i, r2, j, k);
    }
    CursorsInRange(l, r1, i, r2, j, k);
  }

  /** The specification leaves no choice: results of two forms are equal. */
  lemma FormsAgree(l: Layout, src: seq<Byte>, was: seq<Byte>, now: seq<Byte>, now': seq<Byte>)
    requires Holds(l, |src|, |was|) && OnlyPairs(l, was, now, l.Count()) && OnlyPairs(l, was, now', l.Count())
    requires Interleaved(l, src, now, l.Count()) && Interleaved(l, src, now', l.Count())
    ensures now == now'
  {
    forall p | 0 <= p < |was|
      ensures now[p] == now'[p]
    {
      if l.YSize() <= p < l.YSize() + 2 * l.Count() {
        var k := (p - l.YSize()) / 2;
        assert PairIs(l, src, now, k) && PairIs(l, src, now', k);
        assert p == l.YSize() + 2 * k || p == l.YSize() + 2 * k + 1;
      }
    }
  }

  // ---------------------------------------------------------------- the whole conversion

  /** What the conversion makes of the destination: luma copied, chroma interleaved. */
  ghost predicate Converted(l: Layout, src: seq<Byte>, was: seq<Byte>, now: seq<Byte>)
    requires Holds(l, |src|, |was|)
  {
    && |now| == |was| && now[..l.YSize()] == src[..l.YSize()]
    && Interleaved(l, src, now, l.Count())
    && now[l.YSize() + 2 * l.Count()..] == was[l.YSize() + 2 * l.Count()..]
  }

  /** convertYV12toYCrCb420SP; whether the build has NEON is a parameter. */
  method ConvertYv12(hnd: array?<Byte>, yv12: array?<Byte>, l: Layout, neon: bool) returns (ret: int)
    requires hnd != null && yv12 != null ==> hnd != yv12 && Holds(l, hnd.Length, yv12.Length) && l.LoopEnds()
    modifies yv12
    ensures ret == if hnd == null || yv12 == null then -1 else 0
    ensures ret == 0 ==> Converted(l, hnd[..], old(yv12[..]), yv12[..])
    ensures ret != 0 && yv12 != null ==> yv12[..] == old(yv12[..])
  {
    if hnd == null || yv12 == null {
      return -1;
    }
    MemCpy(yv12, 0, hnd, 0, l.YSize());
    ghost var luma := yv12[..];
    if neon {
      if !l.Padded() {
        InterleaveBlocks(l, hnd, yv12);
      }
    } else {
      if !l.Padded() {
        InterleavePlain(l, hnd, yv12);
      }
    }
    if l.Padded() {
      InterleavePadded(l, hnd, yv12);
    }
    assert yv12[..][..l.YSize()] == luma[..l.YSize()];
    return 0;
  }
}
