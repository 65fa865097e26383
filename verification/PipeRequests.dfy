/** What a caller's request comes to: which pipe it gets, what the driver then shows, what a
    failed commit and clear() take back, and when a commit reaches the driver again. */
module PipeRequests {
  import opened Geometry
  import opened Options
  import opened PipeControl
  import opened PipeBook
  import opened PipeRuns
  import Bits

  // ---------------------------------------------------------------- which pipe

  /** Slot i is of the wanted type, owned by `owner` and not allocated in this round. */
  predicate Fitting(b: Book, t: PipeType, owner: int, i: nat)
    requires Wf(b)
  {
    i < |b.slots| && t in {ANY, b.types[i]} && b.slots[i].display == owner && i !in b.taken
  }

  /** Slot i after it was handed to a display: a pipe object is kept, and else created. */
  predicate HandedTo(s: Slot, s': Slot, dpy: int)
  {
    s'.display == dpy && s'.pipe == if s.pipe.Some? then s.pipe else Some(FreshPipe())
  }

  /** A request is met by the first fitting pipe of the display itself, and only if it has
      none by the first fitting one that nobody owns. Nothing else changes. */
  lemma {:induction false} FirstFittingIsTaken(b: Book, t: PipeType, dpy: int, i: nat)
    requires Wf(b) && IsDisplay(dpy)
    requires Fitting(b, t, dpy, i) || (Fitting(b, t, DPY_UNUSED, i) && forall j: nat :: !Fitting(b, t, dpy, j))
    requires forall j: nat :: j < i ==> !Fitting(b, t, b.slots[i].display, j)
    ensures NextPipe(b, t, dpy).1 == Some(i)
    ensures var b' := Apply(b, OpNext(t, dpy));
            && |b'.slots| == |b.slots| && HandedTo(b.slots[i], b'.slots[i], dpy)
            && (forall j :: 0 <= j < |b.slots| && j != i ==> b'.slots[j] == b.slots[j])
            && b'.taken == b.taken + {i} && b'.used == b.used && b'.last == b.last
  {
    var own := FirstFree(b, t, dpy, 0);
    var none := FirstFree(b, t, DPY_UNUSED, 0);
    assert Free(b, t, b.slots[i].display, i);
    forall j | 0 <= j < i
      ensures !Free(b, t, b.slots[i].display, j)
    {
      assert !Fitting(b, t, b.slots[i].display, j);
    }
    if b.slots[i].display != dpy && own < |b.slots| {
      assert Fitting(b, t, dpy, own);
    }
  }

  /** So a display that has a fitting pipe of its own leaves every unowned slot unowned. */
  lemma {:induction false} OwnPipeComesFirst(b: Book, t: PipeType, dpy: int, i: nat, j: nat)
    requires Wf(b) && IsDisplay(dpy) && Fitting(b, t, dpy, i)
    requires j < |b.slots| && b.slots[j].display == DPY_UNUSED
    ensures var b' := Apply(b, OpNext(t, dpy));
            |b'.slots| == |b.slots| && b'.slots[j] == b.slots[j] && (j in b'.taken <==> j in b.taken)
  {
    var k := FirstFree(b, t, dpy, 0);
    assert Free(b, t, dpy, i);
    assert k <= i;
    assert Fitting(b, t, dpy, k);
    forall q: nat | q < k
      ensures !Fitting(b, t, dpy, q)
    {
      assert !Free(b, t, dpy, q);
    }
    FirstFittingIsTaken(b, t, dpy, k);
  }

  // ---------------------------------------------------------------- what the driver shows

  function RectOf(d: Dim): Rect { Rect(d.x, d.y, d.x + d.w, d.y + d.h) }

  /** A block that shows its source untransformed shows, wherever it is placed, what the crop
      of the buffer shows under the transform. */
  ghost predicate ShowsCrop(src: Dim, whf: Whf, crop: Dim, orient: Transform)
  {
    forall d: Rect, x: real, y: real :: IsValidRect(d) ==>
      Unrotate(orient, whf, Sample(RectOf(src), d, IDENTITY, x, y)) == Sample(RectOf(crop), d, orient, x, y)
  }

  /** q is x divided by 2^k, without the rest. */
  predicate IsShifted(x: int, q: int, k: nat)
  {
    q * Bits.Pow2(k) <= x < (q + 1) * Bits.Pow2(k)
  }

  predicate AllShifted(d: Dim, e: Dim, k: nat)
  {
    IsShifted(d.x, e.x, k) && IsShifted(d.y, e.y, k) && IsShifted(d.w, e.w, k) && IsShifted(d.h, e.h, k)
  }

  /** [x, x + w] is the largest interval with even ends inside [xy, xy + wh]. */
  ghost predicate IsEvenPart(xy: int, wh: int, x: int, w: int)
  {
    && x % 2 == 0 && w % 2 == 0 && xy <= x && x + w <= xy + wh
    && forall a, b :: a % 2 == 0 && b % 2 == 0 && xy <= a <= b <= xy + wh ==> x <= a && b <= x + w
  }

  /** The driver's block has everything of the request that is not a rectangle. */
  predicate HasParameters(o: OvInfo, t: PipeType, a: PipeArgs, orient: Transform)
  {
    && o.format == a.whf.format
    && (o.srcW, o.srcH) == (if orient.rot90 then (a.whf.h, a.whf.w) else (a.whf.w, a.whf.h))
    && o.zOrder == a.zOrder && o.isFg == a.isFg && o.alpha == a.planeAlpha && o.blendOp == a.blending
    && o.transpMask == 0xffffffff
    && (o.flags.share <==> t == VG) && (o.flags.forceDma <==> t == DMA) && o.flags.others == a.flags.others
    && (o.flags.rotated90 <==> a.flags.rotated90 || orient.rot90)
    && o.userData.rot90 == orient.rot90
    && o.userData.flipH == (if orient.rot90 then orient.flipV else orient.flipH)
    && o.userData.flipV == (if orient.rot90 then orient.flipH else orient.flipV)
  }

  /** The frame is the position asked for, with even sizes for a YUV source. */
  predicate HasPosition(o: OvInfo, position: Dim)
  {
    if IsYuv(o.format) then
      && o.dstRect.x == position.x && o.dstRect.y == position.y
      && o.dstRect.w % 2 == 0 && position.w - 1 <= o.dstRect.w <= position.w
      && o.dstRect.h % 2 == 0 && position.h - 1 <= o.dstRect.h <= position.h
    else o.dstRect == position
  }

  /** The source is the crop as the rotator turned it (src), then scaled down (part), then
      trimmed to even ends for a YUV source, unless it is empty at an odd position. */
  ghost predicate HasSource(o: OvInfo, a: PipeArgs, orient: Transform, crop: Dim, downscale: nat, src: Dim, part: Dim)
  {
    && ShowsCrop(src, a.whf, crop, orient) && AllShifted(src, part, downscale)
    && (!IsYuv(o.format) ==> o.srcRect == part)
    && (IsYuv(o.format) && !(part.x % 2 == 1 && part.w == 0) ==>
          IsEvenPart(part.x, part.w, o.srcRect.x, o.srcRect.w))
    && (IsYuv(o.format) && !(part.y % 2 == 1 && part.h == 0) ==>
          IsEvenPart(part.y, part.h, o.srcRect.y, o.srcRect.h))
  }

  lemma {:induction false} DoubleShift(x: int, q: int, p: int)
    requires q * p <= x / 2 < (q + 1) * p
    ensures q * (2 * p) <= x < (q + 1) * (2 * p)
  {
    var (low, high) := (q * p, (q + 1) * p);
    assert q * (2 * p) == 2 * low && (q + 1) * (2 * p) == 2 * high;
  }

  lemma {:induction false} ShiftDivides(x: int, d: nat)
    ensures IsShifted(x, Shift(x, d), d)
    decreases d
  {
    if d > 0 {
      ShiftDivides(x / 2, d - 1);
      DoubleShift(x, Shift(x, d), Bits.Pow2(d - 1));
    }
  }

  lemma {:induction false} ShiftBound(x: nat, w: nat, d: nat, n: int)
    requires x + w < n
    ensures 0 <= Shift(x, d) && 0 <= Shift(w, d) && Shift(x, d) + Shift(w, d) < n
    decreases d
  {
    if d > 0 { ShiftBound(x / 2, w / 2, d - 1, n); }
  }

  /** The control block after setSource, setTransform, setCrop, setPosition and setDownscale. */
  function Requested(
    c: Ctrl, t: PipeType, a: PipeArgs, orient: Transform, crop: Dim, position: Dim, downscale: nat): Ctrl
  {
    SetUpCtrl(c, ArgsFor(t, a), orient, crop, position).(downscale := downscale)
  }

  /** A set that succeeds leaves the normalized block with the driver, whether it was sent now
      or is there already. */
  lemma {:induction false} SetLeavesNormalized(c: Ctrl, io: Ioctl)
    requires ValidCtrl(c) && Sourced(c) && SetCtrl(c, io).1
    ensures var d := SetCtrl(c, io).0.driver;
            d.Some? && d.value.(id := 0) == Normalize(c.ov, c.orientation, c.downscale).(id := 0)
  {
    SourcedSetReachesDriver(c, io);
  }

  lemma NormalizedParameters(
    c: Ctrl, t: PipeType, a: PipeArgs, orient: Transform, crop: Dim, position: Dim, downscale: nat)
    ensures var r := Requested(c, t, a, orient, crop, position, downscale);
            var ov := Normalize(r.ov, r.orientation, r.downscale);
            HasParameters(ov, t, a, orient) && HasPosition(ov, position)
  {
  }

  lemma {:induction false} TurnedSource(whf: Whf, crop: Dim, orient: Transform) returns (src: Dim)
    requires InBuffer(RectOf(crop), whf)
    ensures src == PreRotate(MdpOrient(orient), whf, crop).1 && ShowsCrop(src, whf, crop, orient)
    ensures InBuffer(RectOf(src), if orient.rot90 then Whf(whf.h, whf.w, whf.format) else whf)
  {
    src := PreRotate(MdpOrient(orient), whf, crop).1;
    UpdatedEdges(orient, whf, RectOf(crop));
    assert UpdateSource(orient, whf, RectOf(crop)).1 == RectOf(src);
    forall d: Rect, x: real, y: real | IsValidRect(d)
      ensures Unrotate(orient, whf, Sample(RectOf(src), d, IDENTITY, x, y)) == Sample(RectOf(crop), d, orient, x, y)
    {
      PreRotationShowsTheSame(orient, whf, RectOf(crop), d, x, y);
    }
  }

  lemma {:induction false} EvenPartOf(xy: nat, wh: nat)
    requires xy + wh < WORD - 1 && !(xy % 2 == 1 && wh == 0)
    ensures var (x, w) := NormalizeCrop(xy, wh); IsEvenPart(xy, wh, x, w)
  {
    NormalizeCropIsLargestEven(xy, wh);
  }

  function Shifted(d: Dim, k: nat): Dim
  {
    Dim(Shift(d.x, k), Shift(d.y, k), Shift(d.w, k), Shift(d.h, k))
  }

  lemma NormalizedRect(
    c: Ctrl, t: PipeType, a: PipeArgs, orient: Transform, crop: Dim, position: Dim, downscale: nat, part: Dim)
    requires part == Shifted(PreRotate(MdpOrient(orient), a.whf, crop).1, downscale)
    ensures var r := Requested(c, t, a, orient, crop, position, downscale);
            var o := Normalize(r.ov, r.orientation, r.downscale);
            && o.format == a.whf.format
            && (!IsYuv(o.format) ==> o.srcRect == part)
            && (IsYuv(o.format) ==> (o.srcRect.x, o.srcRect.w) == NormalizeCrop(part.x, part.w) &&
                                    (o.srcRect.y, o.srcRect.h) == NormalizeCrop(part.y, part.h))
  {
  }

  lemma {:induction false} ShiftedIn(d: Dim, k: nat, n: int)
    requires 0 <= d.x && 0 <= d.y && 0 <= d.w && 0 <= d.h && d.x + d.w < n && d.y + d.h < n
    ensures var e := Shifted(d, k);
            && AllShifted(d, e, k)
            && 0 <= e.x && 0 <= e.y && 0 <= e.w && 0 <= e.h && e.x + e.w < n && e.y + e.h < n
  {
    ShiftDivides(d.x, k);
    ShiftDivides(d.y, k);
    ShiftDivides(d.w, k);
    ShiftDivides(d.h, k);
    ShiftBound(d.x, d.w, k, n);
    ShiftBound(d.y, d.h, k, n);
  }

  lemma {:induction false} SourceOf(
    o: OvInfo, a: PipeArgs, orient: Transform, crop: Dim, downscale: nat, src: Dim, part: Dim)
    requires ShowsCrop(src, a.whf, crop, orient) && AllShifted(src, part, downscale)
    requires 0 <= part.x && 0 <= part.y && 0 <= part.w && 0 <= part.h
    requires part.x + part.w < WORD - 1 && part.y + part.h < WORD - 1
    requires !IsYuv(o.format) ==> o.srcRect == part
    requires IsYuv(o.format) ==> (o.srcRect.x, o.srcRect.w) == NormalizeCrop(part.x, part.w) &&
                                 (o.srcRect.y, o.srcRect.h) == NormalizeCrop(part.y, part.h)
    ensures HasSource(o, a, orient, crop, downscale, src, part)
  {
    if !(part.x % 2 == 1 && part.w == 0) { EvenPartOf(part.x, part.w); }
    if !(part.y % 2 == 1 && part.h == 0) { EvenPartOf(part.y, part.h); }
  }

  lemma {:induction false} NormalizedSource(
    c: Ctrl, t: PipeType, a: PipeArgs, orient: Transform, crop: Dim, position: Dim, downscale: nat)
    returns (src: Dim, part: Dim)
    requires InBuffer(RectOf(crop), a.whf) && a.whf.w < WORD - 1 && a.whf.h < WORD - 1
    ensures var r := Requested(c, t, a, orient, crop, position, downscale);
            HasSource(Normalize(r.ov, r.orientation, r.downscale), a, orient, crop, downscale, src, part)
  {
    src := TurnedSource(a.whf, crop, orient);
    part := Shifted(src, downscale);
    ShiftedIn(src, downscale, WORD - 1);
    NormalizedRect(c, t, a, orient, crop, position, downscale, part);
    var r := Requested(c, t, a, orient, crop, position, downscale);
    SourceOf(Normalize(r.ov, r.orientation, r.downscale), a, orient, crop, downscale, src, part);
  }

  /** What the driver holds for slot i. */
  function AtDriver(b: Book, i: nat): Option<OvInfo>
  {
    if HasPipe(b, i) then b.slots[i].pipe.value.ctrl.driver else None
  }

  /** After a request and a successful commit the driver's block for the pipe shows the
      request: its parameters, its position, and, at every point of whatever frame, the part
      of the crop that the transform puts there. */
  lemma {:induction false} DriverShowsRequest(
    b: Book, i: nat, a: PipeArgs, orient: Transform, crop: Dim, position: Dim, downscale: nat, io: Ioctl)
    returns (src: Dim, part: Dim)
    requires Wf(b) && HasPipe(b, i) && InBuffer(RectOf(crop), a.whf) && a.whf.w < WORD - 1 && a.whf.h < WORD - 1
    requires i in Run(b, [OpSetUp(i, a, orient, crop, position), OpCommit(i, downscale, io)]).used
    ensures var o := AtDriver(Run(b, [OpSetUp(i, a, orient, crop, position), OpCommit(i, downscale, io)]), i);
            && o.Some? && HasParameters(o.value, b.types[i], a, orient) && HasPosition(o.value, position)
            && HasSource(o.value, a, orient, crop, downscale, src, part)
  {
    var c := b.slots[i].pipe.value.ctrl;
    RequestOutcome(b, i, a, orient, crop, position, downscale, io);
    SetLeavesNormalized(Requested(c, b.types[i], a, orient, crop, position, downscale), io);
    NormalizedParameters(c, b.types[i], a, orient, crop, position, downscale);
    src, part := NormalizedSource(c, b.types[i], a, orient, crop, position, downscale);
  }

  lemma {:induction false} RequestOutcome(
    b: Book, i: nat, a: PipeArgs, orient: Transform, crop: Dim, position: Dim, downscale: nat, io: Ioctl)
    requires Wf(b) && HasPipe(b, i)
    ensures var b' := Run(b, [OpSetUp(i, a, orient, crop, position), OpCommit(i, downscale, io)]);
            var r := Requested(b.slots[i].pipe.value.ctrl, b.types[i], a, orient, crop, position, downscale);
            && HasPipe(b', i) && ValidCtrl(r) && Sourced(r)
            && b'.slots[i].pipe.value.ctrl.driver == SetCtrl(r, io).0.driver
            && (i in b'.used <==> SetCtrl(r, io).1)
  {
    var ops := [OpSetUp(i, a, orient, crop, position), OpCommit(i, downscale, io)];
    assert ops[..1] == [ops[0]] && ops[..1][..0] == [] && ops[..0] == [];
    assert Run(b, ops[..1]) == Apply(b, ops[0]);
    assert Run(b, ops) == Apply(Apply(b, ops[0]), ops[1]);
  }

  /** In particular an untransformed, unscaled source that is not YUV is exactly the crop. */
  lemma {:induction false} PlainRequestIsExact(
    b: Book, i: nat, a: PipeArgs, orient: Transform, crop: Dim, position: Dim, downscale: nat, io: Ioctl)
    requires Wf(b) && HasPipe(b, i) && orient == IDENTITY && downscale == 0 && !IsYuv(a.whf.format)
    requires i in Run(b, [OpSetUp(i, a, orient, crop, position), OpCommit(i, downscale, io)]).used
    ensures var o := AtDriver(Run(b, [OpSetUp(i, a, orient, crop, position), OpCommit(i, downscale, io)]), i);
            o.Some? && o.value.srcRect == crop && o.value.dstRect == position
  {
    var c := b.slots[i].pipe.value.ctrl;
    RequestOutcome(b, i, a, orient, crop, position, downscale, io);
    SetLeavesNormalized(Requested(c, b.types[i], a, orient, crop, position, downscale), io);
  }

  // ---------------------------------------------------------------- until the next commit

  /** The operation neither commits pipe i nor destroys it. */
  predicate LeavesPipe(b: Book, op: Op, i: nat)
  {
    !(op.OpCommit? && op.i == i) && !Destroys(b, op, i)
  }

  ghost predicate AllLeavePipe(b: Book, ops: seq<Op>, i: nat)
    requires Wf(b)
  {
    forall k :: 0 <= k < |ops| ==> LeavesPipe(Run(b, ops[..k]), ops[k], i)
  }

  predicate WillBeSent(b: Book, i: nat)
  {
    HasPipe(b, i) && b.slots[i].pipe.value.ctrl.force
  }

  lemma {:induction false} PipeStays(b: Book, op: Op, i: nat)
    requires Wf(b) && HasPipe(b, i) && LeavesPipe(b, op, i)
    ensures var b' := Apply(b, op);
            HasPipe(b', i) && AtDriver(b', i) == AtDriver(b, i) && (WillBeSent(b, i) ==> WillBeSent(b', i))
  {
  }

  /** A pipe keeps showing what it was told last, whatever is done to it and to others, until
      it is committed again or destroyed. */
  lemma {:induction false} ShownUntilNextCommit(b: Book, ops: seq<Op>, i: nat, n: nat)
    requires Wf(b) && HasPipe(b, i) && AllLeavePipe(b, ops, i) && n <= |ops|
    ensures var b' := Run(b, ops[..n]);
            HasPipe(b', i) && AtDriver(b', i) == AtDriver(b, i) && (WillBeSent(b, i) ==> WillBeSent(b', i))
  {
    if n > 0 {
      ShownUntilNextCommit(b, ops, i, n - 1);
      RunStep(b, ops, n - 1);
      PipeStays(Run(b, ops[..n - 1]), ops[n - 1], i);
    } else {
      assert ops[..0] == [];
    }
  }

  // ---------------------------------------------------------------- giving up a round

  /** Display dpy has given up its round: none of its pipes is in use or allocated any more.
      It keeps them, the driver shows what it showed, and other displays notice nothing. */
  ghost predicate GaveUp(b: Book, b': Book, dpy: int)
  {
    && |b'.slots| == |b.slots| && b'.types == b.types && b'.last == b.last
    && (forall i :: i in b'.used <==> i in b.used && !OwnedBy(b, i, dpy))
    && (forall i :: i in b'.taken <==> i in b.taken && !OwnedBy(b, i, dpy))
    && (forall i :: 0 <= i < |b.slots| ==>
          && b'.slots[i].display == b.slots[i].display && AtDriver(b', i) == AtDriver(b, i)
          && (HasPipe(b', i) <==> HasPipe(b, i))
          && (b.slots[i].display != dpy ==> b'.slots[i] == b.slots[i])
          && (OwnedBy(b, i, dpy) && HasPipe(b, i) ==> WillBeSent(b', i)))
  }

  lemma ClearGivesUp(b: Book, dpy: int)
    requires Wf(b) && IsDisplay(dpy)
    ensures GaveUp(b, Apply(b, OpClear(dpy)), dpy)
  {
  }

  /** A failed commit gives up the whole round of the pipe's display, and a successful one
      marks the pipe as used and does nothing else to the book. */
  lemma {:induction false} CommitOutcome(b: Book, i: nat, downscale: nat, io: Ioctl)
    requires Wf(b) && HasPipe(b, i)
    ensures var b' := Apply(b, OpCommit(i, downscale, io));
            if i in b'.used then
              && |b'.slots| == |b.slots| && b'.used == b.used + {i} && b'.taken == b.taken && b'.last == b.last
              && (forall j :: 0 <= j < |b.slots| && j != i ==> b'.slots[j] == b.slots[j])
            else GaveUp(b, b', b.slots[i].display)
  {
    SetKeepsValid(b.slots[i].pipe.value.ctrl.(downscale := downscale), io);
  }

  /** After clear() or a failed commit, the next commit of each pipe of the display is sent to
      the driver even if nothing changed: it succeeds exactly if the ioctl does. */
  lemma {:induction false} GivenUpPipeIsResent(
    b: Book, b': Book, dpy: int, ops: seq<Op>, i: nat, downscale: nat, io: Ioctl)
    requires Wf(b) && Wf(b') && GaveUp(b, b', dpy) && OwnedBy(b, i, dpy) && HasPipe(b, i) && AllLeavePipe(b', ops, i)
    ensures i in Apply(Run(b', ops), OpCommit(i, downscale, io)).used <==> io.ok
  {
    ShownUntilNextCommit(b', ops, i, |ops|);
    assert ops[..|ops|] == ops;
    ForcedCommitIsSent(Run(b', ops), i, downscale, io);
  }

  lemma {:induction false} ForcedCommitIsSent(b: Book, i: nat, downscale: nat, io: Ioctl)
    requires Wf(b) && WillBeSent(b, i)
    ensures i in Apply(b, OpCommit(i, downscale, io)).used <==> io.ok
  {
  }

  /** A round begins with no pipe in use or allocated; owners, pipes and what was used in the
      round before stay. */
  lemma RoundBegins(b: Book)
    requires Wf(b)
    ensures var b' := Apply(b, OpBegin);
            b'.slots == b.slots && b'.last == b.last && forall i :: i !in b'.used && i !in b'.taken
  {
  }
}
