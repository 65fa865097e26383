/** One hardware pipe: the control block that is sent to the driver (MdpCtrl) and the pipe
    object around it (GenericPipe). `driver` stands for what the driver holds for the pipe;
    the outcome of each ioctl is a parameter. */
module PipeControl {
  import opened Geometry
  import opened Options

  const NEW_REQUEST := -1     // MSMFB_NEW_REQUEST
  const TRANSP_MASK := 0xffffffff

  /** The flag word: the flags that these objects set or clear, and the others. */
  datatype Flags = Flags(rotated90: bool, share: bool, forceDma: bool, others: int)

  /** The part of struct mdp_overlay that these objects touch. */
  datatype OvInfo = OvInfo(
    id: int, srcW: int, srcH: int, format: int, srcRect: Dim, dstRect: Dim,
    zOrder: int, isFg: bool, alpha: int, transpMask: int, blendOp: int,
    flags: Flags, userData: Transform)

  /** PipeArgs. */
  datatype PipeArgs = PipeArgs(whf: Whf, flags: Flags, zOrder: int, isFg: bool, planeAlpha: int, blending: int)

  /** Outcome of MSMFB_OVERLAY_SET: whether it worked, and the id the driver would give a
      new pipe. */
  datatype Ioctl = Ioctl(ok: bool, newId: nat)

  function ZeroOv(): OvInfo
  {
    OvInfo(NEW_REQUEST, 0, 0, 0, Dim(0, 0, 0, 0), Dim(0, 0, 0, 0), 0, false, 0, 0, 0,
           Flags(false, false, false, 0), IDENTITY)
  }

  /** isYuv, by the numbers of the MDP formats. */
  predicate IsYuv(format: int)
  {
    format in {2, 6, 7, 8, 9, 10, 16, 17, 18, 19, 21, 27}
  }

  // ---------------------------------------------------------------- deferred calculations

  function EvenCeil(x: int): int { if x % 2 == 1 then (x + 1) % WORD else x }
  function EvenFloor(x: int): int { if x % 2 == 1 then x - 1 else x }

  /** normalizeCrop, in unsigned arithmetic. */
  function NormalizeCrop(xy: int, wh: int): (int, int)
  {
    if xy % 2 == 1 then (EvenCeil(xy), if wh % 2 == 1 then EvenFloor(wh) else (wh - 2) % WORD)
    else (xy, EvenFloor(wh))
  }

  /** The result is the largest interval with even ends inside the crop, if and only if it
      is not an empty crop at an odd position. */
  lemma {:induction false} NormalizeCropIsLargestEven(xy: nat, wh: nat)
    requires xy + wh < WORD - 1
    ensures var (x, w) := NormalizeCrop(xy, wh);
            (&& x % 2 == 0 && w % 2 == 0 && xy <= x && x + w <= xy + wh
             && forall a, b :: a % 2 == 0 && b % 2 == 0 && xy <= a <= b <= xy + wh ==> x <= a && b <= x + w)
            <==> !(xy % 2 == 1 && wh == 0)
  {
    var (x, w) := NormalizeCrop(xy, wh);
    if xy % 2 == 1 && wh == 0 {
      assert w == WORD - 2;
    }
  }

  function Shift(x: int, d: nat): int
    decreases d
  {
    if d == 0 then x else Shift(x / 2, d - 1)
  }

  /** doTransform, doDownscale and the adjustments for YUV sources. */
  function Normalize(ov: OvInfo, orientation: Transform, downscale: nat): OvInfo
  {
    var (whf, d) := PreRotate(orientation, Whf(ov.srcW, ov.srcH, ov.format), ov.srcRect);
    var s := Dim(Shift(d.x, downscale), Shift(d.y, downscale), Shift(d.w, downscale), Shift(d.h, downscale));
    var turned := ov.(flags := ov.flags.(rotated90 := ov.flags.rotated90 || ov.userData.rot90),
                      srcW := whf.w, srcH := whf.h);
    if IsYuv(ov.format) then
      var (x, w) := NormalizeCrop(s.x, s.w);
      var (y, h) := NormalizeCrop(s.y, s.h);
      turned.(srcRect := Dim(x, y, w, h),
              dstRect := ov.dstRect.(w := EvenFloor(ov.dstRect.w), h := EvenFloor(ov.dstRect.h)))
    else
      turned.(srcRect := s)
  }

  // ---------------------------------------------------------------- the control block as a value

  datatype Ctrl = Ctrl(
    ov: OvInfo, lkgo: OvInfo, orientation: Transform, downscale: nat, force: bool, driver: Option<OvInfo>)

  function FreshCtrl(): Ctrl
  {
    Ctrl(ZeroOv(), ZeroOv(), IDENTITY, 0, false, None)
  }

  /** The saved configuration is what the driver holds, and there is one exactly if the pipe
      has an id. */
  predicate ValidCtrl(c: Ctrl)
  {
    && c.ov.id == c.lkgo.id >= NEW_REQUEST
    && (c.lkgo.id == NEW_REQUEST ==> c.lkgo == ZeroOv() && c.driver == None)
    && (c.lkgo.id != NEW_REQUEST ==> c.driver == Some(c.lkgo))
  }

  function WithSource(c: Ctrl, a: PipeArgs): Ctrl
  {
    c.(ov := c.ov.(srcW := a.whf.w, srcH := a.whf.h, format := a.whf.format, transpMask := TRANSP_MASK,
                   flags := a.flags, zOrder := a.zOrder, isFg := a.isFg,
                   alpha := a.planeAlpha, blendOp := a.blending))
  }

  /** Nothing would be sent: the block equals the saved one and is not forced. */
  predicate Skipped(c: Ctrl)
  {
    Normalize(c.ov, c.orientation, c.downscale) == c.lkgo && !c.force
  }

  /** MdpCtrl::set with its save and restore. */
  function SetCtrl(c: Ctrl, io: Ioctl): (Ctrl, bool)
  {
    var ov := Normalize(c.ov, c.orientation, c.downscale);
    if Skipped(c) then (c.(ov := ov), true)
    else if io.ok then
      var sent := if ov.id == NEW_REQUEST then ov.(id := io.newId) else ov;
      (c.(ov := sent, lkgo := sent, force := false, driver := Some(sent)), true)
    else
      (c.(ov := if c.lkgo.id == NEW_REQUEST then ov else c.lkgo, force := false), false)
  }

  lemma SetKeepsValid(c: Ctrl, io: Ioctl)
    requires ValidCtrl(c)
    ensures ValidCtrl(SetCtrl(c, io).0)
  {
  }

  /** After success the driver holds exactly the current block, if and only if this was not a
      skipped call on a pipe that the driver has never seen. */
  lemma SetSucceeds(c: Ctrl, io: Ioctl)
    requires ValidCtrl(c) && SetCtrl(c, io).1
    ensures var c' := SetCtrl(c, io).0;
            c'.driver == Some(c'.ov) <==> !(c.lkgo.id == NEW_REQUEST && Skipped(c))
  {
  }

  /** After a failure on a pipe with a saved configuration, the current block, the saved one
      and the driver's are all the old saved one, and the next set is not forced. */
  lemma SetFails(c: Ctrl, io: Ioctl)
    requires ValidCtrl(c) && !SetCtrl(c, io).1 && c.lkgo.id != NEW_REQUEST
    ensures var c' := SetCtrl(c, io).0;
            c'.ov == c'.lkgo == c.lkgo && c'.driver == c.driver == Some(c'.ov) && !c'.force
  {
  }

  /** The pipe has been given a source since it was created, or the driver knows it. */
  predicate Sourced(c: Ctrl)
  {
    c.lkgo.id != NEW_REQUEST || c.ov.transpMask == TRANSP_MASK
  }

  /** With a source, the first set of a fresh pipe is never skipped. */
  lemma SourcedSetReachesDriver(c: Ctrl, io: Ioctl)
    requires ValidCtrl(c) && Sourced(c)
    ensures var (c', ok) := SetCtrl(c, io);
            && Sourced(c') && (ok ==> c'.lkgo.id != NEW_REQUEST && c'.driver == Some(c'.ov))
  {
  }

  /** Setting the same configuration again sends nothing and changes nothing. */
  lemma {:induction false} SetIsIdempotent(c: Ctrl, io: Ioctl, io': Ioctl)
    requires ValidCtrl(c) && SetCtrl(c, io).1 && Sourced(c)
    requires c.orientation == IDENTITY && c.downscale == 0 && !c.ov.userData.rot90
    requires 0 <= c.ov.srcRect.x && 0 <= c.ov.srcRect.w && c.ov.srcRect.x + c.ov.srcRect.w < WORD - 1
    requires 0 <= c.ov.srcRect.y && 0 <= c.ov.srcRect.h && c.ov.srcRect.y + c.ov.srcRect.h < WORD - 1
    ensures SetCtrl(SetCtrl(c, io).0, io') == (SetCtrl(c, io).0, true)
  {
    NormalizeTwice(c.ov);
    var ov := Normalize(c.ov, IDENTITY, 0);
    var sent := if ov.id == NEW_REQUEST then ov.(id := io.newId) else ov;
    assert Normalize(sent, IDENTITY, 0) == sent;
  }

  lemma NormalizeCropTwice(xy: nat, wh: nat)
    requires xy + wh < WORD - 1
    ensures var (x, w) := NormalizeCrop(xy, wh); x % 2 == 0 && w % 2 == 0 && NormalizeCrop(x, w) == (x, w)
  {
  }

  lemma {:induction false} NormalizeTwice(ov: OvInfo)
    requires !ov.userData.rot90
    requires 0 <= ov.srcRect.x && 0 <= ov.srcRect.w && ov.srcRect.x + ov.srcRect.w < WORD - 1
    requires 0 <= ov.srcRect.y && 0 <= ov.srcRect.h && ov.srcRect.y + ov.srcRect.h < WORD - 1
    ensures Normalize(Normalize(ov, IDENTITY, 0), IDENTITY, 0) == Normalize(ov, IDENTITY, 0)
  {
    NormalizeCropTwice(ov.srcRect.x, ov.srcRect.w);
    NormalizeCropTwice(ov.srcRect.y, ov.srcRect.h);
    var once := Normalize(ov, IDENTITY, 0);
    if IsYuv(ov.format) {
      assert once.srcRect.x % 2 == 0 && once.srcRect.w % 2 == 0 && once.srcRect.y % 2 == 0 && once.srcRect.h % 2 == 0;
      assert once.dstRect.w % 2 == 0 && once.dstRect.h % 2 == 0;
    }
  }

  // ---------------------------------------------------------------- the object

  class MdpCtrl {
    var mOVInfo: OvInfo
    var mLkgo: OvInfo
    var mOrientation: Transform
    var mDownscale: nat
    var mForceSet: bool
    ghost var driver: Option<OvInfo>

    ghost function View(): Ctrl
      reads this
    {
      Ctrl(mOVInfo, mLkgo, mOrientation, mDownscale, mForceSet, driver)
    }

    constructor ()
      ensures View() == FreshCtrl()
    {
      mOVInfo, mLkgo, mOrientation, mDownscale, mForceSet, driver := ZeroOv(), ZeroOv(), IDENTITY, 0, false, None;
    }

    method SetSource(args: PipeArgs)
      modifies this
      ensures View() == WithSource(old(View()), args)
    {
      mOVInfo := mOVInfo.(srcW := args.whf.w, srcH := args.whf.h, format := args.whf.format);
      mOVInfo := mOVInfo.(transpMask := TRANSP_MASK);
      mOVInfo := mOVInfo.(flags := args.flags);
      mOVInfo := mOVInfo.(zOrder := args.zOrder);
      mOVInfo := mOVInfo.(isFg := args.isFg);
      mOVInfo := mOVInfo.(alpha := args.planeAlpha);
      mOVInfo := mOVInfo.(blendOp := args.blending);
    }

    method SetCrop(d: Dim)
      modifies this
      ensures View() == old(View()).(ov := old(mOVInfo).(srcRect := d))
    {
      mOVInfo := mOVInfo.(srcRect := d);
    }

    method SetPosition(d: Dim)
      modifies this
      ensures View() == old(View()).(ov := old(mOVInfo).(dstRect := d))
    {
      mOVInfo := mOVInfo.(dstRect := d);
    }

    method SetTransform(orient: Transform)
      modifies this
      ensures View() == old(View()).(ov := old(mOVInfo).(userData := MdpOrient(orient)),
                                     orientation := MdpOrient(orient))
    {
      mOVInfo := mOVInfo.(userData := MdpOrient(orient));
      mOrientation := MdpOrient(orient);
    }

    method SetDownscale(d: nat)
      modifies this
      ensures View() == old(View()).(downscale := d)
    {
      mDownscale := d;
    }

    method ForceSet()
      modifies this
      ensures View() == old(View()).(force := true)
    {
      mForceSet := true;
    }

    method DoTransform()
      modifies this`mOVInfo
      ensures var was := old(mOVInfo);
              var (whf, d) := PreRotate(mOrientation, Whf(was.srcW, was.srcH, was.format), was.srcRect);
              mOVInfo == was.(flags := was.flags.(rotated90 := was.flags.rotated90 || was.userData.rot90),
                              srcW := whf.w, srcH := whf.h, format := whf.format, srcRect := d)
    {
      if mOVInfo.userData.rot90 {
        mOVInfo := mOVInfo.(flags := mOVInfo.flags.(rotated90 := true));
      }
      var whf, dim := PreRotateSource(mOrientation, Whf(mOVInfo.srcW, mOVInfo.srcH, mOVInfo.format), mOVInfo.srcRect);
      mOVInfo := mOVInfo.(srcW := whf.w, srcH := whf.h, format := whf.format);
      mOVInfo := mOVInfo.(srcRect := dim);
    }

    method DoDownscale()
      modifies this`mOVInfo
      ensures var d := old(mOVInfo).srcRect;
              mOVInfo == old(mOVInfo).(srcRect := Dim(Shift(d.x, mDownscale), Shift(d.y, mDownscale),
                                                      Shift(d.w, mDownscale), Shift(d.h, mDownscale)))
    {
      var d := mOVInfo.srcRect;
      mOVInfo := mOVInfo.(srcRect := Dim(Shift(d.x, mDownscale), Shift(d.y, mDownscale),
                                         Shift(d.w, mDownscale), Shift(d.h, mDownscale)));
    }

    /** The deferred calculations of set. */
    method Calculate()
      modifies this`mOVInfo
      ensures mOVInfo == Normalize(old(mOVInfo), mOrientation, mDownscale)
    {
      DoTransform();
      DoDownscale();
      if IsYuv(mOVInfo.format) {
        var (x, w) := NormalizeCrop(mOVInfo.srcRect.x, mOVInfo.srcRect.w);
        mOVInfo := mOVInfo.(srcRect := mOVInfo.srcRect.(x := x, w := w));
        var (y, h) := NormalizeCrop(mOVInfo.srcRect.y, mOVInfo.srcRect.h);
        mOVInfo := mOVInfo.(srcRect := mOVInfo.srcRect.(y := y, h := h));
        mOVInfo := mOVInfo.(dstRect := mOVInfo.dstRect.(w := EvenFloor(mOVInfo.dstRect.w)));
        mOVInfo := mOVInfo.(dstRect := mOVInfo.dstRect.(h := EvenFloor(mOVInfo.dstRect.h)));
      }
    }

    method Set(io: Ioctl) returns (ok: bool)
      modifies this
      ensures (View(), ok) == SetCtrl(old(View()), io)
    {
      Calculate();
      if mOVInfo != mLkgo || mForceSet {
        mForceSet := false;
        if !io.ok {
          Restore();
          return false;
        }
        if mOVInfo.id == NEW_REQUEST {
          mOVInfo := mOVInfo.(id := io.newId);
        }
        driver := Some(mOVInfo);
        Save();
      }
      return true;
    }

    method Save()
      modifies this`mLkgo
      ensures mLkgo == if mOVInfo.id == NEW_REQUEST then old(mLkgo) else mOVInfo
    {
      if mOVInfo.id == NEW_REQUEST { return; }
      mLkgo := mOVInfo;
    }

    method Restore()
      modifies this`mOVInfo
      ensures mOVInfo == if mLkgo.id == NEW_REQUEST then old(mOVInfo) else mLkgo
    {
      if mLkgo.id == NEW_REQUEST { return; }
      mOVInfo := mLkgo;
    }

    /** Unsets the overlay, if the driver knows it, and resets. */
    method Close(unsetOk: bool) returns (ok: bool)
      modifies this
      ensures View() == FreshCtrl() && ok == (old(mOVInfo).id == NEW_REQUEST || unsetOk)
    {
      ok := true;
      if mOVInfo.id != NEW_REQUEST {
        if !unsetOk { ok := false; }
      }
      driver := None;
      mOVInfo, mLkgo, mOrientation, mDownscale, mForceSet := ZeroOv(), ZeroOv(), IDENTITY, 0, false;
    }
  }
}
