/** The decision that MDPComp::prepare takes for one frame of one display, as a pure
    function of the frame, of the cached layer handles and of the animation state.

    The imperative form is in MdpComp.dfy and is proved to compute this function; the
    theorems about pictures and about runs of frames are in Composition.dfy and
    CachedFramebuffer.dfy. */
module FramePlan {

  const MAX_NUM_APP_LAYERS: nat := 32
  const MAX_PIPES_PER_MIXER: nat := 4
  const MAX_SEC_LAYERS: nat := 1

  /** One application layer, with the answers of the hardware queries about it.
      `handle` identifies the buffer; 0 is NULL. */
  datatype Layer = Layer(
    handle: int,
    yuv: bool,            // isYuvBuffer
    secure: bool,         // isSecureBuffer
    skip: bool,           // HWC_SKIP_LAYER
    rot90: bool,          // has90Transform
    validDim: bool,       // isValidDimension
    securing: bool,       // isSecuring
    nonContig: bool,      // isNonContigBuffer
    alpha: bool,          // isAlphaPresent
    planeAlpha: int,      // 0..255
    scaled: bool,         // needsScaling
    configurable: bool)   // outcome of configure() for this layer

  /** Everything one call of prepare sees besides the object's own state. */
  datatype Frame = Frame(
    layers: seq<Layer>,
    dpy: nat,
    mdssV5: bool,             // mMDP.version >= MDSS_V5
    enabled: bool,
    mixedMode: bool,
    maxPipes: nat,            // sMaxPipesPerMixer
    paddingRound: bool,
    externalPending: bool,    // some pluggable display isConfiguring or isPause
    idleFallback: bool,
    secureUI: bool,
    animating: bool,
    downScaleMode: bool,
    needsRotator: bool,
    dmaInUse: bool,
    geometryChanged: bool,
    pipesAvailable: int,      // Overlay::availablePipes
    dmaPipes: nat,
    fbConfigurable: bool,     // outcome of IFBUpdate::prepare
    pipesGranted: bool)       // outcome of allocLayerPipes

  /** sMaxPipesPerMixer is 4, or 1 when the debug property overrides it. */
  ghost predicate WellFormed(f: Frame)
  {
    f.maxPipes == 1 || f.maxPipes == MAX_PIPES_PER_MIXER
  }

  /** What the object remembers of the previous frame (LayerCache). */
  datatype Cache = Cache(hnd: seq<int>, layerCount: int, mdpCount: int, fbCount: int, fbZ: int)

  datatype Kind = Unsupported | Animating | Gpu | Full | Partial | VideoOnly

  /** The current frame after prepare. `fb[i]` says that layer i is drawn into the framebuffer. */
  datatype Decision = Decision(
    kind: Kind, ret: int, fb: seq<bool>, fbCount: int, mdpCount: int, fbZ: int, needsRedraw: bool)

  // ---------------------------------------------------------------- counting and runs

  /** How many of the first i flags are set. */
  function SetBefore(s: seq<bool>, i: nat): (n: nat)
    requires i <= |s|
    ensures n <= i
  {
    if i == 0 then 0 else SetBefore(s, i - 1) + (if s[i - 1] then 1 else 0)
  }

  function CountTrue(s: seq<bool>): (n: nat)
    ensures n <= |s|
  {
    SetBefore(s, |s|)
  }

  /** Number of consecutive flags set from position i on. */
  function RunFrom(s: seq<bool>, i: nat): (n: nat)
    requires i <= |s|
    ensures i + n <= |s|
    ensures forall k :: i <= k < i + n ==> s[k]
    ensures i + n < |s| ==> !s[i + n]
    decreases |s| - i
  {
    if i == |s| || !s[i] then 0 else 1 + RunFrom(s, i + 1)
  }

  /** The first start, among the positions up to k, of a run that no earlier start beats. */
  function BestStart(s: seq<bool>, k: nat): (b: nat)
    requires k < |s|
    ensures b <= k
    ensures forall j :: 0 <= j <= k ==> RunFrom(s, j) <= RunFrom(s, b)
    ensures forall j :: 0 <= j < b ==> RunFrom(s, j) < RunFrom(s, b)
  {
    if k == 0 then 0
    else
      var b := BestStart(s, k - 1);
      if RunFrom(s, k) > RunFrom(s, b) then k else b
  }

  /** The earliest longest run of set flags. */
  function LongestRun(s: seq<bool>): (r: (nat, nat))
    requires s != []
    ensures r.0 + r.1 <= |s|
    ensures forall k :: r.0 <= k < r.0 + r.1 ==> s[k]
    ensures r.0 + r.1 < |s| ==> !s[r.0 + r.1]
    ensures forall j :: 0 <= j < |s| ==> RunFrom(s, j) <= r.1
    ensures forall j :: 0 <= j < r.0 ==> RunFrom(s, j) < r.1
  {
    var b := BestStart(s, |s| - 1);
    (b, RunFrom(s, b))
  }

  function Interval(n: nat, start: int, count: int): (s: seq<bool>)
    ensures |s| == n
    ensures forall i :: 0 <= i < n ==> s[i] == (start <= i < start + count)
  {
    seq(n, i => start <= i < start + count)
  }

  function Constant(n: nat, b: bool): (s: seq<bool>)
    ensures |s| == n && forall i :: 0 <= i < n ==> s[i] == b
  {
    seq(n, i => b)
  }

  // ---------------------------------------------------------------- questions about layers

  predicate Supported(l: Layer)
  {
    !(!l.yuv && l.rot90) && l.validDim
  }

  /** No DMA pipe is left for the rotator. */
  predicate DmaBlocked(f: Frame)
  {
    f.needsRotator && f.dmaInUse
  }

  predicate YuvDoable(f: Frame, l: Layer)
  {
    !l.skip && !DmaBlocked(f) && !l.securing && l.validDim
  }

  predicate SkipPresent(f: Frame)
  {
    exists i :: 0 <= i < |f.layers| && f.layers[i].skip
  }

  predicate YuvPresent(f: Frame)
  {
    exists i :: 0 <= i < |f.layers| && f.layers[i].yuv
  }

  predicate FrameDoable(f: Frame)
  {
    f.enabled && !f.paddingRound &&
    ((exists i :: 0 <= i < |f.layers| && f.layers[i].yuv && f.layers[i].secure) || !f.externalPending)
  }

  /** The conditions isFullFrameDoable checks before it tries full and partial composition. */
  predicate HardConditions(f: Frame)
  {
    && !(f.idleFallback && !f.secureUI)
    && !SkipPresent(f)
    && !(f.mdssV5 && exists i :: 0 <= i < |f.layers| && f.layers[i].planeAlpha < 0xFF)
    && !(!f.mdssV5 && (|f.layers| > 2 || f.dpy != 0) &&
         exists i :: 0 <= i < |f.layers| && f.layers[i].scaled && f.layers[i].alpha)
    && forall i :: 0 <= i < |f.layers| ==> LayerAllowsMdp(f, f.layers[i])
  }

  predicate LayerAllowsMdp(f: Frame, l: Layer)
  {
    && !(f.downScaleMode && l.alpha)
    && !(l.planeAlpha < 0xFF && l.scaled)
    && !l.nonContig
    && !(l.yuv && l.securing)
    && !(l.yuv && l.secure && f.externalPending)
  }

  /** getAvailablePipes when the framebuffer needs a pipe or not. */
  function PipesLeft(f: Frame, fbCount: int): int
  {
    f.pipesAvailable - (if f.needsRotator then f.dmaPipes else 0) - (if fbCount != 0 then 1 else 0)
  }

  // ---------------------------------------------------------------- the three plans

  predicate FullPossible(f: Frame)
  {
    && !(f.dpy > 0 && |f.layers| > MAX_SEC_LAYERS)
    && (forall i :: 0 <= i < |f.layers| ==> Supported(f.layers[i]))
    && |f.layers| <= f.maxPipes
    && |f.layers| <= PipesLeft(f, 0)
  }

  /** Layers whose buffer is the one that was seen last time. */
  function Unchanged(hnd: seq<int>, ls: seq<Layer>): (s: seq<bool>)
    requires |ls| <= |hnd|
    ensures |s| == |ls|
    ensures forall i :: 0 <= i < |s| ==> s[i] == (hnd[i] == ls[i].handle)
  {
    seq(|ls|, i requires 0 <= i < |ls| => hnd[i] == ls[i].handle)
  }

  /** updateYUV: a video goes to a pipe exactly if it can. */
  function AfterYuv(f: Frame, s: seq<bool>): (t: seq<bool>)
    requires |s| == |f.layers|
    ensures |t| == |s|
    ensures forall i :: 0 <= i < |t| ==>
      t[i] == (if f.layers[i].yuv then !YuvDoable(f, f.layers[i]) else s[i])
  {
    seq(|s|, i requires 0 <= i < |s| =>
      if f.layers[i].yuv then !YuvDoable(f, f.layers[i]) else s[i])
  }

  /** The cached handles once the frame's handles have been stored over them. */
  function Overwrite(hnd: seq<int>, ls: seq<Layer>): (h: seq<int>)
    requires |ls| <= |hnd|
    ensures |h| == |hnd|
    ensures forall i :: 0 <= i < |ls| ==> h[i] == ls[i].handle
    ensures forall i :: |ls| <= i < |h| ==> h[i] == hnd[i]
  {
    seq(|hnd|, i requires 0 <= i < |hnd| => if i < |ls| then ls[i].handle else hnd[i])
  }

  /** Every layer outside the batch can go to a pipe. The second loop of batchLayers does
      not look at the layer right behind the batch. */
  predicate OthersSupported(ls: seq<Layer>, start: nat, count: nat)
  {
    forall i :: 0 <= i < |ls| && !(start <= i <= start + count) ==> Supported(ls[i])
  }

  /** batchLayers gives up when it would pull out an unsupported layer. */
  predicate BatchPossible(f: Frame, s: seq<bool>)
    requires |s| == |f.layers|
  {
    CountTrue(s) == 0 || CountTrue(s) == |s| ||
    OthersSupported(f.layers, LongestRun(s).0, LongestRun(s).1)
  }

  /** The flags and the framebuffer's z-order that batchLayers leaves. */
  function Batch(s: seq<bool>): (r: (seq<bool>, int))
    ensures |r.0| == |s|
  {
    var none: int := -1;
    if CountTrue(s) == 0 then (s, none)
    else if CountTrue(s) == |s| then (s, 0)
    else
      var (start, count) := LongestRun(s);
      (Interval(|s|, start, count), start)
  }

  /** The batch of the flags s leaves few enough layers for the pipes. */
  predicate BatchFits(f: Frame, s: seq<bool>)
    requires |s| == |f.layers|
  {
    var fbCount := CountTrue(Batch(s).0);
    var mdpCount := |s| - fbCount;
    && BatchPossible(f, s)
    && !(f.dpy > 0 && mdpCount > MAX_SEC_LAYERS)
    && mdpCount <= f.maxPipes - 1
    && mdpCount <= PipesLeft(f, fbCount)
  }

  predicate PartialPossible(f: Frame, hnd: seq<int>)
    requires |f.layers| <= |hnd|
  {
    && f.mixedMode
    && (forall i :: 0 <= i < |f.layers| && !Unchanged(hnd, f.layers)[i] ==> Supported(f.layers[i]))
    && BatchFits(f, AfterYuv(f, Unchanged(hnd, f.layers)))
  }

  function VideoFlags(f: Frame): (s: seq<bool>)
    ensures |s| == |f.layers|
  {
    AfterYuv(f, Constant(|f.layers|, true))
  }

  predicate VideoOnlyPossible(f: Frame)
  {
    var fbCount := CountTrue(VideoFlags(f));
    var mdpCount := |f.layers| - fbCount;
    && YuvPresent(f)
    && mdpCount != 0
    && mdpCount <= f.maxPipes - (if fbCount != 0 then 1 else 0)
    && mdpCount <= PipesLeft(f, fbCount)
    && forall i :: 0 <= i < |f.layers| && f.layers[i].yuv ==>
         f.layers[i].planeAlpha >= 0xFF && !f.layers[i].nonContig
  }

  /** Every pipe was granted and every MDP layer was configured. */
  predicate Programmed(f: Frame, fb: seq<bool>)
    requires |fb| == |f.layers|
  {
    f.pipesGranted && forall i :: 0 <= i < |fb| && !fb[i] ==> f.layers[i].configurable
  }

  // ---------------------------------------------------------------- one frame

  function GpuDecision(n: nat, kind: Kind): Decision
  {
    Decision(kind, -1, Constant(n, true), n, 0, 0, true)
  }

  function CacheCounts(c: Cache, hnd: seq<int>, d: Decision): Cache
  {
    Cache(hnd, |d.fb|, d.mdpCount, d.fbCount, d.fbZ)
  }

  predicate CompositionChanged(c: Cache, f: Frame, fbCount: int, mdpCount: int, fbZ: int)
  {
    fbCount != 0 &&
    (mdpCount != c.mdpCount || fbCount != c.fbCount || fbZ != c.fbZ || mdpCount == 0 ||
     f.geometryChanged || SkipPresent(f))
  }

  /** The flags, framebuffer z-order and cached handles chosen by isFullFrameDoable, or
      those left behind when it gives up. */
  datatype Choice = Choice(kind: Kind, fb: seq<bool>, fbZ: int, hnd: seq<int>)

  function Choose(c: Cache, f: Frame): (r: Choice)
    requires |f.layers| <= |c.hnd|
    ensures |r.fb| == |f.layers| && |r.hnd| == |c.hnd|
  {
    var n := |f.layers|;
    if HardConditions(f) && FullPossible(f) then
      Choice(Full, Constant(n, false), -1, c.hnd)
    else if HardConditions(f) && PartialPossible(f, c.hnd) then
      var (fb, z) := Batch(AfterYuv(f, Unchanged(c.hnd, f.layers)));
      Choice(Partial, fb, z, Overwrite(c.hnd, f.layers))
    else
      var hnd := if HardConditions(f) && f.mixedMode then Overwrite(c.hnd, f.layers) else c.hnd;
      if VideoOnlyPossible(f) then
        var fb := VideoFlags(f);
        Choice(VideoOnly, fb, if CountTrue(fb) != 0 then n - CountTrue(fb) else -1, hnd)
      else
        Choice(Gpu, Constant(n, true), 0, hnd)
  }

  function GpuOutcome(c: Cache, f: Frame): (Cache, Decision)
    requires |f.layers| <= |c.hnd|
  {
    var d := GpuDecision(|f.layers|, Gpu);
    (CacheCounts(c, Overwrite(c.hnd, f.layers), d), d)
  }

  /** The decision for a choice whose framebuffer and pipes have been set up. */
  function ChosenDecision(c: Cache, f: Frame, ch: Choice): Decision
  {
    var fbCount := CountTrue(ch.fb);
    var mdpCount := |ch.fb| - fbCount;
    Decision(ch.kind, if ch.kind == VideoOnly then 0 else 1, ch.fb, fbCount, mdpCount, ch.fbZ,
             ch.kind == VideoOnly || CompositionChanged(c, f, fbCount, mdpCount, ch.fbZ))
  }

  predicate SetUpSucceeds(f: Frame, ch: Choice)
    requires |ch.fb| == |f.layers|
  {
    ch.kind != Gpu && (ch.fbZ >= 0 ==> f.fbConfigurable) && Programmed(f, ch.fb)
  }

  /** The part of prepare that may use MDP. */
  function Compose(c: Cache, f: Frame): (r: (Cache, Decision))
    requires |f.layers| <= |c.hnd|
    ensures |r.0.hnd| == |c.hnd| && |r.1.fb| == |f.layers|
  {
    var ch := Choose(c, f);
    if SetUpSucceeds(f, ch) then
      (CacheCounts(c, ch.hnd, ChosenDecision(c, f, ch)), ChosenDecision(c, f, ch))
    else
      GpuOutcome(c, f)
  }

  /** MDPComp::prepare: the new cache, whether the animation is now running, the decision. */
  function Prepare(c: Cache, animationStarted: bool, f: Frame): (r: (Cache, bool, Decision))
    requires |c.hnd| == MAX_NUM_APP_LAYERS
    ensures |r.0.hnd| == MAX_NUM_APP_LAYERS
    ensures |r.2.fb| == |f.layers|
  {
    var n := |f.layers|;
    if n > MAX_NUM_APP_LAYERS || n == 0 then
      var d := GpuDecision(n, Unsupported);
      (CacheCounts(c, c.hnd, d), animationStarted, d)
    else if f.animating then
      var d := GpuDecision(n, Animating).(needsRedraw := !animationStarted);
      (CacheCounts(c, c.hnd, d), true, d)
    else if !FrameDoable(f) then
      (GpuOutcome(c, f).0, false, GpuOutcome(c, f).1)
    else
      (Compose(c, f).0, false, Compose(c, f).1)
  }

  /** A LayerCache as its constructor leaves it. */
  function EmptyCache(): (c: Cache)
    ensures |c.hnd| == MAX_NUM_APP_LAYERS
  {
    Cache(seq(MAX_NUM_APP_LAYERS, i => 0), 0, 0, 0, -1)
  }
}
