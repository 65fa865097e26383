/** What a frame gets, stated on its layers and flags alone: when it is refused, when it is
    composed fully, partially or with videos only, when the framebuffer is redrawn and what is
    remembered. None of the statements uses the predicates of the planner. */
module FrameRules {
  import opened FramePlan
  import opened MdpComp
  import opened Composition

  /** Every layer is drawn by the GPU. */
  ghost predicate OnGpu(d: Decision)
  {
    && d.ret == -1 && d.mdpCount == 0 && d.fbCount == |d.fb|
    && forall i :: 0 <= i < |d.fb| ==> d.fb[i]
  }

  /** Frames without layers or with more than 32, animating frames, and frames while the planner
      is off, in a padding round, or while an external connection is pending, are left to the
      GPU; a secure video is the one exception to the last rule. */
  lemma RefusedFrames(c: Cache, a: bool, f: Frame)
    requires |c.hnd| == MAX_NUM_APP_LAYERS
    requires || |f.layers| == 0 || |f.layers| > 32 || f.animating || !f.enabled || f.paddingRound
             || (f.externalPending && forall i :: 0 <= i < |f.layers| ==> !(f.layers[i].yuv && f.layers[i].secure))
    ensures OnGpu(Prepare(c, a, f).2)
  {
  }

  /** What every layer of a fully or partially composed frame must be. */
  predicate Admits(f: Frame, l: Layer)
  {
    && !l.skip && !l.nonContig
    && (l.planeAlpha < 0xFF ==> !f.mdssV5 && !l.scaled)
    && (l.alpha ==> !f.downScaleMode)
    && (l.alpha && l.scaled ==> f.mdssV5 || (|f.layers| <= 2 && f.dpy == 0))
    && (l.yuv ==> !l.securing)
  }

  /** The frame may be composed at all: no external connection may be pending even for a secure
      video, which then goes alone. */
  predicate Permits(f: Frame)
  {
    && 1 <= |f.layers| <= 32 && !f.animating && f.enabled && !f.paddingRound && !f.externalPending
    && (f.idleFallback ==> f.secureUI)
    && forall i :: 0 <= i < |f.layers| ==> Admits(f, f.layers[i])
  }

  /** A pipe can show the layer. */
  predicate Shows(l: Layer)
  {
    (l.rot90 ==> l.yuv) && l.validDim
  }

  function FreePipes(f: Frame, batch: bool): int
  {
    f.pipesAvailable - (if f.needsRotator then f.dmaPipes else 0) - (if batch then 1 else 0)
  }

  lemma {:induction false} PermitsIff(f: Frame)
    requires 1 <= |f.layers| <= 32 && !f.animating
    ensures Permits(f) <==> FrameDoable(f) && HardConditions(f)
  {
    if FrameDoable(f) && HardConditions(f) {
      forall i | 0 <= i < |f.layers|
        ensures Admits(f, f.layers[i]) && !f.externalPending
      {
        assert LayerAllowsMdp(f, f.layers[i]);
      }
      assert Admits(f, f.layers[0]);
    }
    if Permits(f) {
      forall i | 0 <= i < |f.layers|
        ensures LayerAllowsMdp(f, f.layers[i]) && !f.layers[i].skip && !(f.mdssV5 && f.layers[i].planeAlpha < 0xFF)
        ensures !(!f.mdssV5 && (|f.layers| > 2 || f.dpy != 0) && f.layers[i].scaled && f.layers[i].alpha)
      {
        assert Admits(f, f.layers[i]);
      }
    }
  }

  /** Everything that is programmed for the flags worked. */
  predicate Works(f: Frame, fb: seq<bool>, batch: bool)
    requires |fb| == |f.layers|
  {
    && f.pipesGranted && (batch ==> f.fbConfigurable)
    && forall i :: 0 <= i < |fb| ==> fb[i] || f.layers[i].configurable
  }

  /** Full composition is possible in terms of layers, mixer and pipes. */
  predicate FitsFully(f: Frame)
  {
    && (f.dpy > 0 ==> |f.layers| <= 1) && |f.layers| <= f.maxPipes && |f.layers| <= FreePipes(f, false)
    && forall i :: 0 <= i < |f.layers| ==> Shows(f.layers[i])
  }

  lemma FitsFullyIff(f: Frame)
    ensures FitsFully(f) <==> FullPossible(f)
  {
    assert forall i :: 0 <= i < |f.layers| ==> (Shows(f.layers[i]) <==> Supported(f.layers[i]));
  }

  /** A frame is composed by pipes alone if and only if it is permitted, fits and everything
      works; then no layer is drawn and nothing is redrawn. */
  lemma {:induction false} FullIff(c: Cache, a: bool, f: Frame)
    requires |c.hnd| == MAX_NUM_APP_LAYERS
    ensures var d := Prepare(c, a, f).2;
            && (d.kind == Full <==> Permits(f) && FitsFully(f) && Works(f, Constant(|f.layers|, false), false))
            && (d.kind == Full ==>
                  && d.ret == 1 && d.mdpCount == |f.layers| && d.fbCount == 0 && d.fbZ == -1 && !d.needsRedraw
                  && forall i :: 0 <= i < |f.layers| ==> !d.fb[i])
  {
    FitsFullyIff(f);
    NoneSet(|f.layers|);
    if 1 <= |f.layers| <= 32 && !f.animating { PermitsIff(f); }
  }

  lemma {:induction false} NoneSet(n: nat)
    ensures CountTrue(Constant(n, false)) == 0
  {
    NoneSetBefore(Constant(n, false), n);
  }

  lemma {:induction false} NoneSetBefore(s: seq<bool>, i: nat)
    requires i <= |s| && forall k :: 0 <= k < |s| ==> !s[k]
    ensures SetBefore(s, i) == 0
  {
    if i > 0 { NoneSetBefore(s, i - 1); }
  }

  // ---------------------------------------------------------------- partial composition

  /** The layers that need no pipe: the buffer is the one seen last, or the layer is a video
      that cannot go to a pipe. */
  function Staying(c: Cache, f: Frame): (s: seq<bool>)
    requires |f.layers| <= |c.hnd|
    ensures |s| == |f.layers|
  {
    seq(|f.layers|, i requires 0 <= i < |f.layers| =>
      if f.layers[i].yuv then (f.needsRotator && f.dmaInUse) || !f.layers[i].validDim
      else c.hnd[i] == f.layers[i].handle)
  }

  ghost predicate IsRun(s: seq<bool>, from: nat, length: nat)
  {
    from + length <= |s| && forall i :: from <= i < from + length ==> s[i]
  }

  /** The earliest of the longest runs of set flags. */
  ghost predicate BestRun(s: seq<bool>, start: nat, count: nat)
  {
    && IsRun(s, start, count)
    && forall from: nat, length: nat :: IsRun(s, from, length) ==>
         length < count || (length == count && (start <= from || count == 0))
  }

  /** There is always such a run. */
  lemma {:induction false} BestRunExists(s: seq<bool>) returns (start: nat, count: nat)
    ensures BestRun(s, start, count)
  {
    start, count := 0, 0;
    if s != [] {
      start, count := LongestRun(s).0, LongestRun(s).1;
      forall from: nat, length: nat | IsRun(s, from, length) && 0 < length
        ensures length < count || (length == count && start <= from)
      {
        RunInside(s, from, from + length);
      }
    }
  }

  lemma {:induction false} BestRunIsLongest(s: seq<bool>, start: nat, count: nat)
    requires BestRun(s, start, count) && 0 < CountTrue(s) < |s|
    ensures LongestRun(s) == (start, count) && count > 0
  {
    RunExists(s);
    var (from, length) := LongestRun(s);
    assert IsRun(s, from, length);
    if start < |s| { RunInside(s, start, start + count); }
  }

  lemma {:induction false} BestRunIsBatch(s: seq<bool>, start: nat, count: nat)
    requires BestRun(s, start, count)
    ensures Batch(s).0 == Interval(|s|, start, count) && Batch(s).1 == (if count > 0 then start as int else -1)
    ensures CountTrue(Interval(|s|, start, count)) == count
  {
    CountExtremes(s, |s|);
    CountInterval(Interval(|s|, start, count), |s|, start, count);
    if CountTrue(s) == |s| {
      assert IsRun(s, 0, |s|);
    } else if CountTrue(s) > 0 {
      BestRunIsLongest(s, start, count);
    }
  }

  lemma {:induction false} StayingIsCandidates(c: Cache, f: Frame)
    requires Permits(f) && |f.layers| <= |c.hnd|
    ensures Candidates(c, f) == Staying(c, f)
  {
    forall i | 0 <= i < |f.layers|
      ensures Candidates(c, f)[i] == Staying(c, f)[i]
    {
      assert Admits(f, f.layers[i]);
    }
  }

  /** Layer i is outside the batch, or its buffer is a new one. */
  predicate NeedsPipe(c: Cache, f: Frame, start: nat, count: nat, i: nat)
    requires i < |f.layers| <= |c.hnd|
  {
    !(start <= i < start + count) || c.hnd[i] != f.layers[i].handle
  }

  /** The second loop of batchLayers finds all layers outside the batch supported. */
  lemma {:induction false} BatchPossibleIff(f: Frame, s: seq<bool>, start: nat, count: nat)
    requires |s| == |f.layers| && BestRun(s, start, count)
    requires forall i :: 0 <= i < |s| && !s[i] ==> Supported(f.layers[i])
    ensures BatchPossible(f, s) <==>
            CountTrue(s) == 0 || forall i :: 0 <= i < |s| && !(start <= i < start + count) ==> Supported(f.layers[i])
  {
    CountExtremes(s, |s|);
    if 0 < CountTrue(s) < |s| {
      BestRunIsLongest(s, start, count);
    } else if CountTrue(s) == |s| {
      assert IsRun(s, 0, |s|);
    }
  }

  /** The conditions on layers that mixed composition has. */
  ghost predicate MixShows(c: Cache, f: Frame, start: nat, count: nat)
    requires |f.layers| <= |c.hnd|
  {
    forall i :: 0 <= i < |f.layers| && NeedsPipe(c, f, start, count, i) ==> Shows(f.layers[i])
  }

  /** Changed layers must be supported; then those that do not stay are. */
  lemma {:induction false} ChangedSupported(c: Cache, f: Frame, start: nat, count: nat)
    requires |f.layers| <= |c.hnd|
    ensures MixShows(c, f, start, count) ==>
            forall i :: 0 <= i < |f.layers| && !Unchanged(c.hnd, f.layers)[i] ==> Supported(f.layers[i])
    ensures (forall i :: 0 <= i < |f.layers| && !Unchanged(c.hnd, f.layers)[i] ==> Supported(f.layers[i])) ==>
            forall i :: 0 <= i < |f.layers| && !Staying(c, f)[i] ==> Supported(f.layers[i])
  {
    if MixShows(c, f, start, count) {
      forall i | 0 <= i < |f.layers| && !Unchanged(c.hnd, f.layers)[i]
        ensures Supported(f.layers[i])
      {
        assert NeedsPipe(c, f, start, count, i);
      }
    }
  }

  /** What the planner asks of the changed layers and of those outside the batch. */
  lemma {:induction false} OutsideShows(c: Cache, f: Frame, s: seq<bool>, start: nat, count: nat)
    requires |f.layers| <= |c.hnd| && s == Staying(c, f) && BestRun(s, start, count)
    ensures MixShows(c, f, start, count) <==>
            (forall i :: 0 <= i < |f.layers| && !Unchanged(c.hnd, f.layers)[i] ==> Supported(f.layers[i])) &&
            BatchPossible(f, s)
  {
    ChangedSupported(c, f, start, count);
    CountExtremes(s, |s|);
    if forall i :: 0 <= i < |f.layers| && !Unchanged(c.hnd, f.layers)[i] ==> Supported(f.layers[i]) {
      BatchPossibleIff(f, s, start, count);
      forall i | 0 <= i < |f.layers|
        ensures NeedsPipe(c, f, start, count, i) ==> !(start <= i < start + count) || !Unchanged(c.hnd, f.layers)[i]
      {
      }
    }
  }

  /** Mixed composition with this batch is possible in terms of layers, mixer and pipes. */
  ghost predicate FitsMixed(c: Cache, f: Frame, start: nat, count: nat)
    requires |f.layers| <= |c.hnd|
  {
    && f.mixedMode && (f.dpy > 0 ==> |f.layers| - count <= 1)
    && |f.layers| - count < f.maxPipes && |f.layers| - count <= FreePipes(f, count > 0)
    && MixShows(c, f, start, count)
  }

  lemma {:induction false} FitsMixedIff(c: Cache, f: Frame, start: nat, count: nat)
    requires Permits(f) && |f.layers| <= |c.hnd| && BestRun(Staying(c, f), start, count)
    ensures PartialPossible(f, c.hnd) <==> FitsMixed(c, f, start, count)
  {
    StayingIsCandidates(c, f);
    BestRunIsBatch(Staying(c, f), start, count);
    OutsideShows(c, f, Staying(c, f), start, count);
  }

  lemma PartialChoice(c: Cache, a: bool, f: Frame)
    requires |c.hnd| == MAX_NUM_APP_LAYERS && Permits(f) && !FitsFully(f)
    ensures var (fb, z) := Batch(Candidates(c, f));
            var d := Prepare(c, a, f).2;
            && (d.kind == Partial <==>
                  PartialPossible(f, c.hnd) && (z >= 0 ==> f.fbConfigurable) && Programmed(f, fb))
            && (d.kind == Partial ==>
                  && d.ret == 1 && d.fb == fb && d.fbZ == z
                  && d.fbCount == CountTrue(fb) && d.mdpCount == |fb| - d.fbCount)
  {
    FitsFullyIff(f);
    PermitsIff(f);
  }

  /** A frame that does not fit fully is composed partially if and only if mixed mode is on,
      the layers outside the batch and all changed ones can be shown by pipes, few enough are
      left for mixer and pipes, and everything works. The batch is the earliest longest run
      of layers that need no pipe. */
  lemma {:induction false} PartialIff(c: Cache, a: bool, f: Frame, start: nat, count: nat)
    requires |c.hnd| == MAX_NUM_APP_LAYERS && Permits(f) && !FitsFully(f) && BestRun(Staying(c, f), start, count)
    ensures var (d, n) := (Prepare(c, a, f).2, |f.layers|);
            && (d.kind == Partial <==> FitsMixed(c, f, start, count) && Works(f, Interval(n, start, count), count > 0))
            && (d.kind == Partial ==>
                  && d.ret == 1 && d.fbCount == count && d.mdpCount == n - count
                  && d.fbZ == (if count > 0 then start as int else -1) && d.fb == Interval(n, start, count))
  {
    PartialChoice(c, a, f);
    FitsMixedIff(c, f, start, count);
    StayingIsCandidates(c, f);
    BestRunIsBatch(Staying(c, f), start, count);
  }

  /** No other frame is composed partially. */
  lemma PartialIsPermitted(c: Cache, a: bool, f: Frame)
    requires |c.hnd| == MAX_NUM_APP_LAYERS && Prepare(c, a, f).2.kind == Partial
    ensures Permits(f) && !FitsFully(f)
  {
    FitsFullyIff(f);
    PermitsIff(f);
  }

  // ---------------------------------------------------------------- videos only

  /** The video can go to a pipe. */
  predicate Plays(f: Frame, l: Layer)
  {
    l.yuv && !l.skip && !l.securing && l.validDim && !(f.needsRotator && f.dmaInUse)
  }

  /** The layers that stay in the framebuffer of a video-only frame. */
  function Backdrop(f: Frame): (s: seq<bool>)
    ensures |s| == |f.layers|
  {
    seq(|f.layers|, i requires 0 <= i < |f.layers| => !Plays(f, f.layers[i]))
  }

  /** Some video plays, the videos fit mixer and pipes, and none is translucent or scattered
      in memory. */
  ghost predicate FitsVideos(f: Frame, count: nat)
  {
    && |f.layers| - count > 0 && |f.layers| - count <= f.maxPipes - (if count > 0 then 1 else 0)
    && |f.layers| - count <= FreePipes(f, count > 0)
    && forall i :: 0 <= i < |f.layers| && f.layers[i].yuv ==> f.layers[i].planeAlpha >= 0xFF && !f.layers[i].nonContig
  }

  lemma {:induction false} FitsVideosIff(f: Frame, count: nat)
    requires count == CountTrue(Backdrop(f))
    ensures VideoFlags(f) == Backdrop(f) && (VideoOnlyPossible(f) <==> FitsVideos(f, count))
  {
    assert VideoFlags(f) == Backdrop(f);
    CountExtremes(Backdrop(f), |f.layers|);
  }

  /** A frame that is neither refused nor able to use full or mixed composition shows its
      videos on pipes below the rest if and only if they fit and everything works; in
      particular a secure video while an external connection is pending. */
  lemma {:induction false} VideoOnlyIff(c: Cache, a: bool, f: Frame, start: nat, count: nat, backdrop: nat)
    requires |c.hnd| == MAX_NUM_APP_LAYERS && 1 <= |f.layers| <= 32 && !f.animating && f.enabled && !f.paddingRound
    requires f.externalPending ==> exists i :: 0 <= i < |f.layers| && f.layers[i].yuv && f.layers[i].secure
    requires Permits(f) ==> !FitsFully(f) && BestRun(Staying(c, f), start, count) && !FitsMixed(c, f, start, count)
    requires backdrop == CountTrue(Backdrop(f))
    ensures var (d, n) := (Prepare(c, a, f).2, |f.layers|);
            && (d.kind == VideoOnly <==> FitsVideos(f, backdrop) && Works(f, Backdrop(f), backdrop > 0))
            && (d.kind == VideoOnly ==>
                  && d.ret == 0 && d.fb == Backdrop(f) && d.fbCount == backdrop && d.mdpCount == n - backdrop
                  && d.fbZ == (if backdrop > 0 then n - backdrop else -1) && d.needsRedraw)
            && (d.kind != VideoOnly ==> OnGpu(d))
  {
    FitsFullyIff(f);
    PermitsIff(f);
    if Permits(f) { FitsMixedIff(c, f, start, count); }
    FitsVideosIff(f, backdrop);
  }

  // ---------------------------------------------------------------- redraw and memory

  /** The framebuffer is redrawn in every frame that the GPU composes, in video-only frames and
      in the first frame of an animation; in full and partial ones exactly if layers are in it
      and the composition or the geometry is not that of the last frame. */
  lemma {:induction false} RedrawIff(c: Cache, a: bool, f: Frame)
    requires |c.hnd| == MAX_NUM_APP_LAYERS
    ensures var d := Prepare(c, a, f).2;
            d.needsRedraw <==>
              if 1 <= |f.layers| <= 32 && f.animating then !a
              else if d.ret == 1 then
                d.fbCount > 0 && (d.mdpCount == 0 || f.geometryChanged || d.mdpCount != c.mdpCount ||
                                  d.fbCount != c.fbCount || d.fbZ != c.fbZ)
              else true
  {
    var d := Prepare(c, a, f).2;
    if d.kind == Partial {
      PermitsIff(f);
      forall i | 0 <= i < |f.layers|
        ensures !f.layers[i].skip
      {
        assert Admits(f, f.layers[i]);
      }
    }
    if d.kind == Full { FullHasNoBatch(c, a, f); }
  }

  /** What the planner remembers: the counts of the frame; the handles of all layers after
      a frame by the GPU and after mixed composition was tried, else the old ones. */
  lemma {:induction false} MemoryAfter(c: Cache, a: bool, f: Frame, i: nat)
    requires |c.hnd| == MAX_NUM_APP_LAYERS && i < MAX_NUM_APP_LAYERS
    ensures var (c', a', d) := Prepare(c, a, f);
            && c'.layerCount == |f.layers| && c'.mdpCount == d.mdpCount && c'.fbCount == d.fbCount && c'.fbZ == d.fbZ
            && a' == (if 1 <= |f.layers| <= 32 then f.animating else a)
            && (d.kind in {Full, Animating, Unsupported} ==> c'.hnd[i] == c.hnd[i])
            && (d.kind in {Partial, Gpu} ==> c'.hnd[i] == if i < |f.layers| then f.layers[i].handle else c.hnd[i])
            && (d.kind == VideoOnly ==>
                  c'.hnd[i] == if i < |f.layers| && Permits(f) && f.mixedMode then f.layers[i].handle else c.hnd[i])
  {
    if 1 <= |f.layers| <= 32 && !f.animating { PermitsIff(f); }
  }
}
