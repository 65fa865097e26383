/** Whether the buffers shown from the framebuffer are the right ones, over whole runs of
    frames of one display.

    A frame that asks for no redraw shows the framebuffer as an earlier frame drew it. It is
    right exactly if that last redraw drew the layers of the batch with handles that the
    planner remembers, and no video in the batch has changed since. Two concrete runs show
    how it goes wrong. */
module CachedFramebuffer {
  import opened FramePlan
  import opened MdpComp
  import opened Composition

  /** One display: what its planner remembers and which buffers its framebuffer holds, by
      layer position. */
  datatype World = World(cache: Cache, animationStarted: bool, content: map<nat, int>)

  function Start(): World
  {
    World(EmptyCache(), false, map[])
  }

  predicate Ready(w: World) { |w.cache.hnd| == MAX_NUM_APP_LAYERS }

  function Decide(w: World, f: Frame): (d: Decision)
    requires Ready(w)
    ensures |d.fb| == |f.layers|
  {
    Prepare(w.cache, w.animationStarted, f).2
  }

  /** The buffers of the framebuffer layers. */
  function Wanted(f: Frame, d: Decision): (m: map<nat, int>)
    requires |d.fb| == |f.layers|
  {
    map i: nat | 0 <= i < |f.layers| && d.fb[i] :: f.layers[i].handle
  }

  /** The GPU draws the framebuffer layers exactly if the frame asks for a redraw
      (setMDPCompLayerFlags marks them as overlays otherwise). */
  function Advance(w: World, f: Frame): (w': World)
    requires Ready(w)
    ensures Ready(w')
  {
    Shown(w, f, Prepare(w.cache, w.animationStarted, f))
  }

  function Shown(w: World, f: Frame, prepared: (Cache, bool, Decision)): World
    requires |prepared.2.fb| == |f.layers|
  {
    var (c, a, d) := prepared;
    World(c, a, if d.needsRedraw then Wanted(f, d) else w.content)
  }

  function Run(w: World, fs: seq<Frame>): (w': World)
    requires Ready(w)
    ensures Ready(w')
    decreases |fs|
  {
    if fs == [] then w else Advance(Run(w, fs[..|fs| - 1]), fs[|fs| - 1])
  }

  /** The frame shows framebuffer layers without drawing them. */
  predicate Keeps(w: World, f: Frame)
    requires Ready(w)
  {
    !f.animating && Decide(w, f).fbCount > 0 && !Decide(w, f).needsRedraw
  }

  // ---------------------------------------------------------------- one frame

  /** Every frame that keeps the framebuffer is a partial one with the same batch as the
      frame before: GPU, full and animated frames all force a redraw. */
  lemma KeptFrameRepeatsBatch(c: Cache, a: bool, f: Frame)
    requires |c.hnd| == MAX_NUM_APP_LAYERS && !f.animating
    requires var d := Prepare(c, a, f).2; d.fbCount > 0 && !d.needsRedraw
    ensures var d := Prepare(c, a, f).2;
            && d.kind == Partial && !f.geometryChanged
            && d.mdpCount == c.mdpCount > 0 && d.fbCount == c.fbCount && d.fbZ == c.fbZ
  {
    if Prepare(c, a, f).2.kind == Full { FullHasNoBatch(c, a, f); }
  }

  /** updateYUV puts a changed layer into the framebuffer only when the rotator has no DMA pipe. */
  lemma {:induction false} ChangedInBatchIsBlockedVideo(c: Cache, a: bool, f: Frame, i: nat)
    requires |c.hnd| == MAX_NUM_APP_LAYERS && |f.layers| <= MAX_NUM_APP_LAYERS
    requires Prepare(c, a, f).2.kind == Partial
    requires i < |f.layers| && Prepare(c, a, f).2.fb[i] && c.hnd[i] != f.layers[i].handle
    ensures f.layers[i].yuv && DmaBlocked(f)
  {
    PartialIsBatch(c, a, f);
    BatchIsOptimal(c, a, f, 0, 0);
    assert Candidates(c, f)[i] && !Unchanged(c.hnd, f.layers)[i];
    assert LayerAllowsMdp(f, f.layers[i]) && Supported(f.layers[i]);
  }

  /** The handles that the planner remembers after a frame with pipes: all of the frame's,
      unless a video-only frame was chosen before handles were compared. */
  predicate Remembers(f: Frame, kind: Kind)
  {
    kind == Partial || (HardConditions(f) && f.mixedMode)
  }

  /** What a frame leaves in the cache if it used both pipes and the framebuffer. */
  lemma MixedFrame(c: Cache, a: bool, f: Frame)
    requires |c.hnd| == MAX_NUM_APP_LAYERS
    requires var d := Prepare(c, a, f).2; d.mdpCount > 0 && d.fbCount > 0
    ensures var (c', a', d) := Prepare(c, a, f);
            && d.kind in {Partial, VideoOnly} && |f.layers| <= MAX_NUM_APP_LAYERS
            && d.mdpCount + d.fbCount == |f.layers|
            && (d.kind == VideoOnly ==> d.needsRedraw && d.fbZ == d.mdpCount)
            && c'.hnd == (if Remembers(f, d.kind) then Overwrite(c.hnd, f.layers) else c.hnd)
  {
    if Prepare(c, a, f).2.kind == Full { FullHasNoBatch(c, a, f); }
  }

  lemma CountsAreCached(c: Cache, a: bool, f: Frame)
    requires |c.hnd| == MAX_NUM_APP_LAYERS
    ensures var (c', a', d) := Prepare(c, a, f);
            && c'.mdpCount == d.mdpCount && c'.fbCount == d.fbCount && c'.fbZ == d.fbZ
  {
  }

  // ---------------------------------------------------------------- the last redraw

  /** The position of the frame of the run that drew the framebuffer last, or -1. */
  function LastDraw(fs: seq<Frame>): (k: int)
    ensures -1 <= k < |fs|
    decreases |fs|
  {
    if fs == [] then -1
    else
      var n := |fs| - 1;
      if Decide(Run(Start(), fs[..n]), fs[n]).needsRedraw then n else LastDraw(fs[..n])
  }

  /** Layer i is a video, and no DMA pipe is left for the rotator: it may be put into the
      framebuffer although its buffer changed. */
  predicate BlockedVideo(f: Frame, i: nat)
  {
    i < |f.layers| && f.layers[i].yuv && DmaBlocked(f)
  }

  predicate BlockedVideoSince(fs: seq<Frame>, k: int, i: nat)
    requires -1 <= k
  {
    exists m :: k < m < |fs| && BlockedVideo(fs[m], i)
  }

  lemma SinceGrows(fs: seq<Frame>, f: Frame, k: int, i: nat)
    requires -1 <= k < |fs|
    ensures BlockedVideoSince(fs + [f], k, i) <==> BlockedVideoSince(fs, k, i) || BlockedVideo(f, i)
  {
    var all := fs + [f];
    if BlockedVideoSince(fs, k, i) {
      var m :| k < m < |fs| && BlockedVideo(fs[m], i);
      assert BlockedVideo(all[m], i);
    }
    if BlockedVideo(f, i) { assert BlockedVideo(all[|fs|], i); }
    if BlockedVideoSince(all, k, i) {
      var m :| k < m < |all| && BlockedVideo(all[m], i);
      assert m < |fs| ==> BlockedVideo(fs[m], i);
    }
  }

  /** Frame k of the run drew the framebuffer as the cache describes it, and each layer of
      the batch has the remembered handle that it had right afterwards, except for blocked
      videos. */
  ghost predicate DrawnBy(fs: seq<Frame>, w: World, k: nat)
    requires k < |fs| && Ready(w)
  {
    var g := fs[k];
    var d := Decide(Run(Start(), fs[..k]), g);
    var c := w.cache;
    && d.kind in {Partial, VideoOnly} && |g.layers| <= MAX_NUM_APP_LAYERS
    && d.mdpCount == c.mdpCount && d.fbCount == c.fbCount && d.fbZ == c.fbZ
    && w.content == Wanted(g, d)
    && forall i :: 0 <= i < |g.layers| && c.fbZ <= i < c.fbZ + c.fbCount && !BlockedVideoSince(fs, k, i) ==>
         c.hnd[i] == After(fs, k)[i]
  }

  /** The handles remembered after frame k. */
  function After(fs: seq<Frame>, k: nat): (h: seq<int>)
    requires k < |fs|
    ensures |h| == MAX_NUM_APP_LAYERS
  {
    Run(Start(), fs[..k + 1]).cache.hnd
  }

  ghost predicate Inv(fs: seq<Frame>)
  {
    var c := Run(Start(), fs).cache;
    c.mdpCount > 0 && c.fbCount > 0 ==> LastDraw(fs) >= 0 && DrawnBy(fs, Run(Start(), fs), LastDraw(fs))
  }

  lemma RunMore(fs: seq<Frame>, f: Frame)
    ensures Run(Start(), fs + [f]) == Advance(Run(Start(), fs), f)
    ensures LastDraw(fs + [f]) == if Decide(Run(Start(), fs), f).needsRedraw then |fs| else LastDraw(fs)
  {
    assert (fs + [f])[..|fs|] == fs;
  }

  lemma InvIs(fs: seq<Frame>, w: World, k: int)
    requires w == Run(Start(), fs) && k == LastDraw(fs)
    requires w.cache.mdpCount > 0 && w.cache.fbCount > 0 ==> k >= 0 && DrawnBy(fs, w, k)
    ensures Inv(fs)
  {
  }

  lemma DrawStep(w: World, f: Frame)
    requires Ready(w) && Decide(w, f).needsRedraw
    requires Advance(w, f).cache.mdpCount > 0 && Advance(w, f).cache.fbCount > 0
    ensures var (w', d) := (Advance(w, f), Decide(w, f));
            && d.kind in {Partial, VideoOnly} && |f.layers| <= MAX_NUM_APP_LAYERS
            && d.mdpCount == w'.cache.mdpCount && d.fbCount == w'.cache.fbCount && d.fbZ == w'.cache.fbZ
            && w'.content == Wanted(f, d)
  {
    CountsAreCached(w.cache, w.animationStarted, f);
    MixedFrame(w.cache, w.animationStarted, f);
  }

  lemma DrawnNow(fs: seq<Frame>, w: World, k: nat, d: Decision)
    requires k + 1 == |fs| && w == Run(Start(), fs) && d == Decide(Run(Start(), fs[..k]), fs[k])
    requires d.kind in {Partial, VideoOnly} && |fs[k].layers| <= MAX_NUM_APP_LAYERS
    requires d.mdpCount == w.cache.mdpCount && d.fbCount == w.cache.fbCount && d.fbZ == w.cache.fbZ
    requires w.content == Wanted(fs[k], d)
    ensures DrawnBy(fs, w, k)
  {
    assert fs[..k + 1] == fs;
  }

  lemma {:induction false} DrawKeepsInv(fs: seq<Frame>, f: Frame)
    requires Decide(Run(Start(), fs), f).needsRedraw
    ensures Inv(fs + [f])
  {
    var w, all := Run(Start(), fs), fs + [f];
    var w' := Advance(w, f);
    RunMore(fs, f);
    if w'.cache.mdpCount > 0 && w'.cache.fbCount > 0 {
      DrawStep(w, f);
      assert all[..|fs|] == fs;
      DrawnNow(all, w', |fs|, Decide(w, f));
    }
    InvIs(all, w', |fs|);
  }

  /** A frame without redraw keeps counts and content, and the handles of the batch but for
      blocked videos. */
  predicate MovesOn(w: World, f: Frame, w': World)
    requires Ready(w) && Ready(w')
  {
    && w'.cache.mdpCount == w.cache.mdpCount && w'.cache.fbCount == w.cache.fbCount && w'.cache.fbZ == w.cache.fbZ
    && w'.content == w.content
    && forall i :: 0 <= i < MAX_NUM_APP_LAYERS && w.cache.fbZ <= i < w.cache.fbZ + w.cache.fbCount ==>
         w'.cache.hnd[i] == w.cache.hnd[i] || BlockedVideo(f, i)
  }

  lemma {:induction false} KeepStep(w: World, f: Frame)
    requires Ready(w) && !Decide(w, f).needsRedraw
    requires Advance(w, f).cache.mdpCount > 0 && Advance(w, f).cache.fbCount > 0
    ensures MovesOn(w, f, Advance(w, f))
  {
    CountsAreCached(w.cache, w.animationStarted, f);
    MixedFrame(w.cache, w.animationStarted, f);
    KeptFrameRepeatsBatch(w.cache, w.animationStarted, f);
    BatchIsInterval(w.cache, w.animationStarted, f);
    forall i | 0 <= i < MAX_NUM_APP_LAYERS && w.cache.fbZ <= i < w.cache.fbZ + w.cache.fbCount
      ensures Advance(w, f).cache.hnd[i] == w.cache.hnd[i] || BlockedVideo(f, i)
    {
      if w.cache.hnd[i] != f.layers[i].handle {
        ChangedInBatchIsBlockedVideo(w.cache, w.animationStarted, f, i);
      }
    }
  }

  lemma {:induction false} StillDrawnBy(fs: seq<Frame>, f: Frame, w: World, w': World, k: nat)
    requires k < |fs| && Ready(w) && Ready(w') && DrawnBy(fs, w, k) && MovesOn(w, f, w')
    ensures DrawnBy(fs + [f], w', k)
  {
    var all := fs + [f];
    assert all[..k] == fs[..k] && all[..k + 1] == fs[..k + 1];
    forall i | 0 <= i < |fs[k].layers| && !BlockedVideoSince(all, k, i)
      ensures !BlockedVideoSince(fs, k, i) && !BlockedVideo(f, i)
    {
      SinceGrows(fs, f, k, i);
    }
  }

  lemma {:induction false} KeepKeepsInv(fs: seq<Frame>, f: Frame)
    requires Inv(fs) && !Decide(Run(Start(), fs), f).needsRedraw
    ensures Inv(fs + [f])
  {
    var w, k := Run(Start(), fs), LastDraw(fs);
    var w' := Advance(w, f);
    RunMore(fs, f);
    if w'.cache.mdpCount > 0 && w'.cache.fbCount > 0 {
      KeepStep(w, f);
      StillDrawnBy(fs, f, w, w', k);
    }
    InvIs(fs + [f], w', k);
  }

  lemma {:induction false} StepKeepsInv(fs: seq<Frame>, f: Frame, all: seq<Frame>)
    requires Inv(fs) && all == fs + [f]
    ensures Inv(all)
  {
    if Decide(Run(Start(), fs), f).needsRedraw { DrawKeepsInv(fs, f); } else { KeepKeepsInv(fs, f); }
  }

  lemma {:induction false} RunKeepsInv(fs: seq<Frame>)
    ensures Inv(fs)
    decreases |fs|
  {
    if fs == [] {
      assert Run(Start(), fs).cache.mdpCount == 0;
    } else {
      RunKeepsInv(fs[..|fs| - 1]);
      StepKeepsInv(fs[..|fs| - 1], fs[|fs| - 1], fs);
    }
  }

  // ---------------------------------------------------------------- when a kept framebuffer is right

  /** The drawn layers of a video-only frame are exactly those from `from` on. */
  predicate VideosFirst(fb: seq<bool>, from: int)
  {
    forall i :: 0 <= i < |fb| ==> fb[i] == (from <= i)
  }

  /** The handle that was drawn for layer i is the one that was remembered afterwards. */
  predicate Remembered(c: Cache, g: Frame, kind: Kind, i: nat)
  {
    i < |g.layers| && (Remembers(g, kind) || (i < |c.hnd| && c.hnd[i] == g.layers[i].handle))
  }

  /** The framebuffer that frame g drew, with cache c before it, is right for frame f: a
      video-only g had all its videos below the framebuffer layers; a layer that was a
      blocked video since has the buffer that g drew; and for every other layer g's
      buffer was remembered. */
  ghost predicate DrewFor(c: Cache, g: Frame, drawn: Decision, since: set<nat>, f: Frame, d: Decision)
    requires |d.fb| == |f.layers|
  {
    && (drawn.kind == VideoOnly ==> VideosFirst(drawn.fb, drawn.mdpCount))
    && forall i :: 0 <= i < |f.layers| && d.fb[i] ==>
         if i in since then i < |g.layers| && f.layers[i].handle == g.layers[i].handle
         else Remembered(c, g, drawn.kind, i)
  }

  /** The positions of the frame's layers that were blocked videos after frame k, up to and
      including the frame itself. */
  ghost function VideosSince(fs: seq<Frame>, k: int, f: Frame): set<nat>
    requires -1 <= k
  {
    set i: nat | i < |f.layers| && BlockedVideoSince(fs + [f], k, i)
  }

  lemma SameLayers(g: Frame, drawn: Decision, f: Frame, d: Decision)
    requires |drawn.fb| == |g.layers| == |f.layers| == |d.fb|
    ensures Wanted(g, drawn) == Wanted(f, d) <==>
            drawn.fb == d.fb && forall i :: 0 <= i < |f.layers| && d.fb[i] ==> g.layers[i].handle == f.layers[i].handle
  {
    var x, y := Wanted(g, drawn), Wanted(f, d);
    if x == y {
      forall i | 0 <= i < |f.layers|
        ensures drawn.fb[i] == d.fb[i]
        ensures d.fb[i] ==> g.layers[i].handle == f.layers[i].handle
      {
        assert i in x <==> i in y;
        assert i in x ==> x[i] == y[i];
      }
    }
  }

  /** The batch of a kept frame is what the last redraw drew, if and only if that did not
      mix videos with framebuffer layers. */
  lemma SameFlags(c: Cache, a: bool, g: Frame, d: Decision)
    requires |c.hnd| == MAX_NUM_APP_LAYERS && |d.fb| == |g.layers|
    requires var dg := Prepare(c, a, g).2;
             && dg.kind in {Partial, VideoOnly} && dg.mdpCount > 0 && dg.fbCount > 0
             && IsBatch(d.fb, d.fbZ, d.fbCount)
             && d.fbCount == dg.fbCount && d.fbZ == dg.fbZ && d.mdpCount == dg.mdpCount
    ensures var dg := Prepare(c, a, g).2;
            dg.fb == d.fb <==> (dg.kind == VideoOnly ==> VideosFirst(dg.fb, dg.mdpCount))
  {
    var dg := Prepare(c, a, g).2;
    MixedFrame(c, a, g);
    if dg.kind == Partial { BatchIsInterval(c, a, g); }
    if dg.kind == VideoOnly {
      assert forall i :: 0 <= i < |d.fb| ==> d.fb[i] == (dg.mdpCount <= i);
    }
  }

  /** Layers that were no blocked videos since have the handle that was remembered after the
      redraw; so they are right exactly if that was the one drawn. */
  lemma HandlesAgree(c: Cache, g: Frame, kind: Kind, after: seq<int>, since: set<nat>, f: Frame, fb: seq<bool>)
    requires |g.layers| == |f.layers| == |fb| <= |c.hnd|
    requires after == if Remembers(g, kind) then Overwrite(c.hnd, g.layers) else c.hnd
    requires forall i :: 0 <= i < |fb| && fb[i] && i !in since ==> f.layers[i].handle == after[i]
    ensures (forall i :: 0 <= i < |fb| && fb[i] ==> g.layers[i].handle == f.layers[i].handle) <==>
            (forall i :: 0 <= i < |fb| && fb[i] ==>
               if i in since then f.layers[i].handle == g.layers[i].handle else Remembered(c, g, kind, i))
  {
  }

  lemma {:induction false} QuietHandle(w: World, f: Frame, i: nat)
    requires Ready(w) && Keeps(w, f) && i < |f.layers| && Decide(w, f).fb[i] && !BlockedVideo(f, i)
    ensures i < MAX_NUM_APP_LAYERS && w.cache.fbZ <= i < w.cache.fbZ + w.cache.fbCount
    ensures w.cache.hnd[i] == f.layers[i].handle
  {
    KeptFrameRepeatsBatch(w.cache, w.animationStarted, f);
    MixedFrame(w.cache, w.animationStarted, f);
    BatchIsInterval(w.cache, w.animationStarted, f);
    if w.cache.hnd[i] != f.layers[i].handle {
      ChangedInBatchIsBlockedVideo(w.cache, w.animationStarted, f, i);
    }
  }

  /** The layers of a kept batch that were no blocked videos since the last redraw. */
  lemma {:induction false} QuietLayers(fs: seq<Frame>, f: Frame, i: nat)
    requires Keeps(Run(Start(), fs), f) && 0 <= LastDraw(fs) && DrawnBy(fs, Run(Start(), fs), LastDraw(fs))
    requires i < |f.layers| && Decide(Run(Start(), fs), f).fb[i] && i !in VideosSince(fs, LastDraw(fs), f)
    ensures |f.layers| == |fs[LastDraw(fs)].layers| <= MAX_NUM_APP_LAYERS
    ensures f.layers[i].handle == After(fs, LastDraw(fs))[i]
  {
    SinceGrows(fs, f, LastDraw(fs), i);
    QuietHandle(Run(Start(), fs), f, i);
    SameLength(fs, f);
  }

  lemma SameLength(fs: seq<Frame>, f: Frame)
    requires Keeps(Run(Start(), fs), f) && 0 <= LastDraw(fs) && DrawnBy(fs, Run(Start(), fs), LastDraw(fs))
    ensures var before := Run(Start(), fs[..LastDraw(fs)]);
            var (dg, d) := (Decide(before, fs[LastDraw(fs)]), Decide(Run(Start(), fs), f));
            && |f.layers| == |fs[LastDraw(fs)].layers| <= MAX_NUM_APP_LAYERS
            && dg.mdpCount == d.mdpCount > 0 && dg.fbCount == d.fbCount > 0 && dg.fbZ == d.fbZ
  {
    var w := Run(Start(), fs);
    var before := Run(Start(), fs[..LastDraw(fs)]);
    KeptFrameRepeatsBatch(w.cache, w.animationStarted, f);
    MixedFrame(w.cache, w.animationStarted, f);
    MixedFrame(before.cache, before.animationStarted, fs[LastDraw(fs)]);
  }

  /** The two halves together: the flags and the handles. */
  lemma {:induction false} RightIffDrewFor(c: Cache, a: bool, g: Frame, since: set<nat>, f: Frame, d: Decision)
    requires |c.hnd| == MAX_NUM_APP_LAYERS && |g.layers| == |f.layers| == |d.fb| <= MAX_NUM_APP_LAYERS
    requires var dg := Prepare(c, a, g).2;
             && dg.kind in {Partial, VideoOnly} && dg.mdpCount > 0 && dg.fbCount > 0
             && IsBatch(d.fb, d.fbZ, d.fbCount)
             && d.fbCount == dg.fbCount && d.fbZ == dg.fbZ && d.mdpCount == dg.mdpCount
    requires forall i :: 0 <= i < |f.layers| && d.fb[i] && i !in since ==>
             f.layers[i].handle == Prepare(c, a, g).0.hnd[i]
    ensures var dg := Prepare(c, a, g).2;
            Wanted(g, dg) == Wanted(f, d) <==> DrewFor(c, g, dg, since, f, d)
  {
    var (after, a', dg) := Prepare(c, a, g);
    SameLayers(g, dg, f, d);
    SameFlags(c, a, g, d);
    MixedFrame(c, a, g);
    HandlesAgree(c, g, dg.kind, after.hnd, since, f, d.fb);
  }

  lemma KeptIsBatch(w: World, f: Frame)
    requires Ready(w) && Keeps(w, f)
    ensures var d := Decide(w, f); IsBatch(d.fb, d.fbZ, d.fbCount)
  {
    KeptFrameRepeatsBatch(w.cache, w.animationStarted, f);
    BatchIsInterval(w.cache, w.animationStarted, f);
  }

  lemma {:induction false} KeptIsRightIff(fs: seq<Frame>, f: Frame)
    requires Keeps(Run(Start(), fs), f) && 0 <= LastDraw(fs) && DrawnBy(fs, Run(Start(), fs), LastDraw(fs))
    ensures var (w, k) := (Run(Start(), fs), LastDraw(fs));
            var before := Run(Start(), fs[..k]);
            w.content == Wanted(f, Decide(w, f)) <==>
            DrewFor(before.cache, fs[k], Decide(before, fs[k]), VideosSince(fs, k, f), f, Decide(w, f))
  {
    var w, k := Run(Start(), fs), LastDraw(fs);
    var before, d := Run(Start(), fs[..k]), Decide(w, f);
    SameLength(fs, f);
    KeptIsBatch(w, f);
    AfterIsNext(fs, k);
    forall i | 0 <= i < |f.layers| && d.fb[i] && i !in VideosSince(fs, k, f)
      ensures f.layers[i].handle == Prepare(before.cache, before.animationStarted, fs[k]).0.hnd[i]
    {
      QuietLayers(fs, f, i);
    }
    RightIffDrewFor(before.cache, before.animationStarted, fs[k], VideosSince(fs, k, f), f, d);
  }

  lemma AfterIsNext(fs: seq<Frame>, k: nat)
    requires k < |fs|
    ensures var w := Run(Start(), fs[..k]); After(fs, k) == Prepare(w.cache, w.animationStarted, fs[k]).0.hnd
  {
    RunMore(fs[..k], fs[k]);
    assert fs[..k] + [fs[k]] == fs[..k + 1];
  }

  /** The cached framebuffer is right, exactly: in every run, for every frame that keeps the
      framebuffer, some frame of the run drew it last, and it shows the frame's own buffers
      if and only if that frame drew it for this one. */
  lemma {:induction false} CachedFramebufferIsRight(fs: seq<Frame>, f: Frame)
    requires Keeps(Run(Start(), fs), f)
    ensures 0 <= LastDraw(fs) < |fs|
    ensures var (w, k) := (Run(Start(), fs), LastDraw(fs));
            var before := Run(Start(), fs[..k]);
            w.content == Wanted(f, Decide(w, f)) <==>
            DrewFor(before.cache, fs[k], Decide(before, fs[k]), VideosSince(fs, k, f), f, Decide(w, f))
  {
    var w := Run(Start(), fs);
    RunKeepsInv(fs);
    KeptFrameRepeatsBatch(w.cache, w.animationStarted, f);
    KeptIsRightIff(fs, f);
  }

  /** The video-only frame g, with cache c before it, left a framebuffer that later frames
      can keep: its videos are all below, and either the handles had been compared before
      it gave up on full and partial composition, or they are the remembered ones anyway. */
  predicate VideoOnlyLeavesRight(c: Cache, g: Frame, drawn: Decision)
    requires |drawn.fb| == |g.layers|
  {
    && VideosFirst(drawn.fb, drawn.mdpCount)
    && ((HardConditions(g) && g.mixedMode) ||
        forall i :: 0 <= i < |g.layers| && drawn.fb[i] ==> i < |c.hnd| && c.hnd[i] == g.layers[i].handle)
  }

  /** No frame from position k on lacked a DMA pipe for the rotator; before MDSS_V5, where
      nobody asks for DMA pipes, none ever does. */
  ghost predicate DmaFree(fs: seq<Frame>, k: int)
  {
    forall m :: 0 <= m < |fs| && k <= m ==> !DmaBlocked(fs[m])
  }

  lemma NoVideosSince(fs: seq<Frame>, k: nat, f: Frame)
    requires k < |fs| && DmaFree(fs + [f], k + 1)
    ensures VideosSince(fs, k, f) == {}
  {
  }

  /** With DMA pipes at hand since the last redraw, a kept framebuffer is right if and only
      if that redraw was no video-only frame, or one that left it right. */
  lemma {:induction false} DmaFreeIsRightIff(fs: seq<Frame>, f: Frame)
    requires Keeps(Run(Start(), fs), f) && DmaFree(fs + [f], LastDraw(fs) + 1)
    ensures 0 <= LastDraw(fs) < |fs|
    ensures var (w, k) := (Run(Start(), fs), LastDraw(fs));
            var before := Run(Start(), fs[..k]);
            w.content == Wanted(f, Decide(w, f)) <==>
            (Decide(before, fs[k]).kind == VideoOnly ==>
              VideoOnlyLeavesRight(before.cache, fs[k], Decide(before, fs[k])))
  {
    var w, k := Run(Start(), fs), LastDraw(fs);
    RunKeepsInv(fs);
    KeptFrameRepeatsBatch(w.cache, w.animationStarted, f);
    NoVideosSince(fs, k, f);
    var before := Run(Start(), fs[..k]);
    KeptBatch(fs, f);
    CachedFramebufferIsRight(fs, f);
    QuietDrawIff(before.cache, fs[k], Decide(before, fs[k]), f, Decide(w, f));
  }

  lemma {:induction false} KeptBatch(fs: seq<Frame>, f: Frame)
    requires Keeps(Run(Start(), fs), f)
    ensures 0 <= LastDraw(fs) < |fs|
    ensures var (d, g) := (Decide(Run(Start(), fs), f), fs[LastDraw(fs)]);
            var dg := Decide(Run(Start(), fs[..LastDraw(fs)]), g);
            && |g.layers| == |f.layers| && dg.kind in {Partial, VideoOnly}
            && (dg.kind == VideoOnly && VideosFirst(dg.fb, dg.mdpCount) ==> dg.fb == d.fb)
  {
    var w, k := Run(Start(), fs), LastDraw(fs);
    RunKeepsInv(fs);
    KeptFrameRepeatsBatch(w.cache, w.animationStarted, f);
    SameLength(fs, f);
    BatchIsInterval(w.cache, w.animationStarted, f);
    var before := Run(Start(), fs[..k]);
    SameFlags(before.cache, before.animationStarted, fs[k], Decide(w, f));
  }

  lemma QuietDrawIff(c: Cache, g: Frame, drawn: Decision, f: Frame, d: Decision)
    requires |drawn.fb| == |g.layers| == |f.layers| == |d.fb| && drawn.kind in {Partial, VideoOnly}
    requires drawn.kind == VideoOnly && VideosFirst(drawn.fb, drawn.mdpCount) ==> drawn.fb == d.fb
    ensures DrewFor(c, g, drawn, {}, f, d) <==> (drawn.kind == VideoOnly ==> VideoOnlyLeavesRight(c, g, drawn))
  {
  }

  /** If the last redraw was a partial frame, a kept framebuffer is right if and only if
      every layer of the batch that was a blocked video since has the handle it had then. */
  lemma {:induction false} PartialDrawIsRightIff(fs: seq<Frame>, f: Frame)
    requires Keeps(Run(Start(), fs), f)
    requires 0 <= LastDraw(fs) ==> Decide(Run(Start(), fs[..LastDraw(fs)]), fs[LastDraw(fs)]).kind != VideoOnly
    ensures 0 <= LastDraw(fs) < |fs| && |fs[LastDraw(fs)].layers| == |f.layers|
    ensures var (w, k) := (Run(Start(), fs), LastDraw(fs));
            w.content == Wanted(f, Decide(w, f)) <==>
            forall i :: i in VideosSince(fs, k, f) && Decide(w, f).fb[i] ==>
              f.layers[i].handle == fs[k].layers[i].handle
  {
    KeptBatch(fs, f);
    CachedFramebufferIsRight(fs, f);
  }

  /** No frame of the run was composed in video-only mode. */
  ghost predicate WithoutVideoOnly(fs: seq<Frame>)
  {
    forall k :: 0 <= k < |fs| ==> Decide(Run(Start(), fs[..k]), fs[k]).kind != VideoOnly
  }

  /** In every run without video-only frames and without DMA pipes in use, every kept
      framebuffer is right. */
  lemma {:induction false} CachedFramebufferIsRightBeforeV5(fs: seq<Frame>, f: Frame)
    requires WithoutVideoOnly(fs) && DmaFree(fs + [f], 0) && Keeps(Run(Start(), fs), f)
    ensures Run(Start(), fs).content == Wanted(f, Decide(Run(Start(), fs), f))
  {
    DmaFreeIsRightIff(fs, f);
    assert Decide(Run(Start(), fs[..LastDraw(fs)]), fs[LastDraw(fs)]).kind != VideoOnly;
  }

  // ---------------------------------------------------------------- the picture over runs

  /** The pixels of the buffers that the framebuffer holds, of the first n layers, at one
      screen position; pix gives the pixel of a layer's buffer there. */
  ghost function Held<P>(content: map<nat, int>, pix: (nat, int) -> P, n: nat): seq<P>
  {
    if n == 0 then []
    else Held(content, pix, n - 1) + (if n - 1 in content then [pix(n - 1, content[n - 1])] else [])
  }

  function Pixels<P>(f: Frame, pix: (nat, int) -> P): (px: seq<P>)
    ensures |px| == |f.layers|
  {
    seq(|f.layers|, i requires 0 <= i < |f.layers| => pix(i, f.layers[i].handle))
  }

  /** The mixer shows every pipe's layer with the frame's buffer, and the framebuffer with the
      buffers that it holds. */
  ghost predicate MixerShows<P>(
    over: (P, P) -> P, f: Frame, d: Decision, content: map<nat, int>, pix: (nat, int) -> P, stages: seq<P>)
    requires |d.fb| == |f.layers|
  {
    var held := Held(content, pix, |f.layers|);
    && |stages| == StageCount(d) && PipesShown(d.fb, Pixels(f, pix), stages)
    && (d.fbCount > 0 ==> 0 <= d.fbZ < |stages| && held != [] && stages[d.fbZ] == Blend(over, held))
  }

  lemma {:induction false} HeldIsSelected<P>(f: Frame, d: Decision, pix: (nat, int) -> P, n: nat)
    requires n <= |d.fb| == |f.layers|
    ensures Held(Wanted(f, d), pix, n) == Selected(d.fb, Pixels(f, pix), n)
  {
    if n > 0 { HeldIsSelected(f, d, pix, n - 1); }
  }

  /** A framebuffer with the right buffers gives the right picture. */
  lemma {:induction false} RightContentShows<P>(
    over: (P, P) -> P, f: Frame, d: Decision, content: map<nat, int>, pix: (nat, int) -> P, stages: seq<P>)
    requires |d.fb| == |f.layers| && (d.fbCount > 0 ==> content == Wanted(f, d))
    requires MixerShows(over, f, d, content, pix, stages)
    ensures Shows(over, d, Pixels(f, pix), stages)
  {
    HeldIsSelected(f, d, pix, |f.layers|);
  }

  lemma {:induction false} RunContentIsRight(fs: seq<Frame>, f: Frame)
    requires WithoutVideoOnly(fs) && DmaFree(fs + [f], 0) && Decide(Run(Start(), fs), f).kind in {Full, Partial}
    ensures var (w, d) := (Run(Start(), fs), Decide(Run(Start(), fs), f));
            d.fbCount > 0 ==> Advance(w, f).content == Wanted(f, d)
  {
    var w := Run(Start(), fs);
    if Keeps(w, f) { CachedFramebufferIsRightBeforeV5(fs, f); }
  }

  /** The planner and its cache together: in every run without video-only frames and without
      DMA pipes in use, each frame that is composed fully or partially by pipes, with its
      framebuffer drawn now or kept from any earlier frame, shows the blend of its own layers. */
  lemma {:induction false} RunShowsOwnLayers<P(!new)>(
    fs: seq<Frame>, f: Frame, over: (P, P) -> P, pix: (nat, int) -> P, stages: seq<P>)
    requires WithoutVideoOnly(fs) && DmaFree(fs + [f], 0) && Decide(Run(Start(), fs), f).kind in {Full, Partial}
    requires Associative(over)
    requires MixerShows(over, f, Decide(Run(Start(), fs), f), Advance(Run(Start(), fs), f).content, pix, stages)
    ensures stages != [] && |f.layers| > 0 && Blend(over, stages) == Blend(over, Pixels(f, pix))
  {
    var w := Run(Start(), fs);
    RunContentIsRight(fs, f);
    RightContentShows(over, f, Decide(w, f), Advance(w, f).content, pix, stages);
    CompositionKeepsPicture(w.cache, w.animationStarted, f, over, Pixels(f, pix), stages);
  }

  // ---------------------------------------------------------------- how it goes wrong

  function Sample(handle: int, yuv: bool, validDim: bool): Layer
  {
    Layer(handle, yuv, false, false, false, validDim, false, false, false, 0xFF, false, true)
  }

  function SampleFrame(l0: Layer, l1: Layer): (f: Frame)
  {
    Frame([l0, l1], 0, true, true, true, 4, false, false, false, false, false, false, false, false, false,
          4, 1, true, true)
  }

  /** Counting and runs for the two flags of a sample frame. */
  lemma TwoFlags(s: seq<bool>)
    requires |s| == 2
    ensures CountTrue(s) == (if s[0] then 1 else 0) + (if s[1] then 1 else 0)
    ensures s[0] && !s[1] ==> LongestRun(s) == (0, 1)
    ensures !s[0] && s[1] ==> LongestRun(s) == (1, 1)
  {
    assert SetBefore(s, 1) == if s[0] then 1 else 0;
    assert RunFrom(s, 2) == 0;
    assert RunFrom(s, 1) == if s[1] then 1 else 0;
    assert RunFrom(s, 0) == if s[0] then 1 + RunFrom(s, 1) else 0;
    assert BestStart(s, 0) == 0;
    assert BestStart(s, 1) == if RunFrom(s, 1) > RunFrom(s, 0) then 1 else 0;
  }

  /** A sample frame in which both layers could go to pipes but one stays in the framebuffer. */
  ghost predicate SamplePartialFrame(c: Cache, f: Frame, k: nat)
  {
    && |f.layers| == 2 && k < 2 && |c.hnd| == MAX_NUM_APP_LAYERS
    && !f.animating && FrameDoable(f) && HardConditions(f) && !FullPossible(f)
    && f.mixedMode && f.maxPipes == 4 && f.fbConfigurable && f.pipesGranted && PipesLeft(f, 1) >= 1
    && f.layers[0].configurable && f.layers[1].configurable
    && Candidates(c, f)[k] && !Candidates(c, f)[1 - k]
    && Supported(f.layers[1 - k]) && (c.hnd[k] == f.layers[k].handle || Supported(f.layers[k]))
  }

  lemma SampleBatch(c: Cache, f: Frame, k: nat)
    requires SamplePartialFrame(c, f, k)
    ensures Batch(Candidates(c, f)) == (Interval(2, k, 1), k as int)
    ensures BatchPossible(f, Candidates(c, f)) && CountTrue(Interval(2, k, 1)) == 1
  {
    TwoFlags(Candidates(c, f));
    TwoFlags(Interval(2, k, 1));
  }

  lemma {:induction false} SamplePartial(c: Cache, a: bool, f: Frame, k: nat)
    requires SamplePartialFrame(c, f, k)
    ensures Prepare(c, a, f) ==
            (Cache(Overwrite(c.hnd, f.layers), 2, 1, 1, k), false,
             Decision(Partial, 1, Interval(2, k, 1), 1, 1, k, CompositionChanged(c, f, 1, 1, k)))
  {
    SampleBatch(c, f, k);
    assert PartialPossible(f, c.hnd) by {
      assert forall i :: 0 <= i < 2 && !Unchanged(c.hnd, f.layers)[i] ==> Supported(f.layers[i]);
    }
    assert Choose(c, f) == Choice(Partial, Interval(2, k, 1), k, Overwrite(c.hnd, f.layers));
  }

  lemma {:induction false} SampleStep(w: World, f: Frame, k: nat)
    requires SamplePartialFrame(w.cache, f, k)
    ensures Advance(w, f).cache == Cache(Overwrite(w.cache.hnd, f.layers), 2, 1, 1, k)
    ensures Prepare(w.cache, w.animationStarted, f).2 ==
            Decision(Partial, 1, Interval(2, k, 1), 1, 1, k, CompositionChanged(w.cache, f, 1, 1, k))
    ensures Advance(w, f).content ==
            if CompositionChanged(w.cache, f, 1, 1, k) then map[k := f.layers[k].handle] else w.content
  {
    SamplePartial(w.cache, w.animationStarted, f, k);
    var d := Decision(Partial, 1, Interval(2, k, 1), 1, 1, k, CompositionChanged(w.cache, f, 1, 1, k));
    SampleShown(w, f, (Cache(Overwrite(w.cache.hnd, f.layers), 2, 1, 1, k), false, d), k);
  }

  lemma {:induction false} SampleShown(w: World, f: Frame, prepared: (Cache, bool, Decision), k: nat)
    requires |f.layers| == 2 && k < 2 && prepared.2.fb == Interval(2, k, 1)
    ensures Shown(w, f, prepared).content == if prepared.2.needsRedraw then map[k := f.layers[k].handle] else w.content
  {
    assert Wanted(f, prepared.2) == map[k := f.layers[k].handle];
  }

  /** A frame composed by the GPU puts every layer into the framebuffer. */
  lemma {:induction false} SampleGpu(w: World, f: Frame)
    requires |w.cache.hnd| == MAX_NUM_APP_LAYERS && |f.layers| == 2 && !f.animating && !FrameDoable(f)
    ensures Advance(w, f) == World(Cache(Overwrite(w.cache.hnd, f.layers), 2, 0, 2, 0), false,
                                   map[0 := f.layers[0].handle, 1 := f.layers[1].handle])
  {
    var d := GpuDecision(2, Gpu);
    assert Wanted(f, d) == map[0 := f.layers[0].handle, 1 := f.layers[1].handle];
  }

  /** A sample frame with a video at the bottom, composed in video-only mode. */
  lemma SampleVideoOnly(w: World, f: Frame)
    requires |w.cache.hnd| == MAX_NUM_APP_LAYERS && |f.layers| == 2 && !f.animating
    requires FrameDoable(f) && !HardConditions(f) && f.maxPipes == 4 && PipesLeft(f, 1) >= 1
    requires f.fbConfigurable && f.pipesGranted && f.layers[0].configurable
    requires f.layers[0].yuv && !f.layers[1].yuv && YuvDoable(f, f.layers[0])
    requires f.layers[0].planeAlpha >= 0xFF && !f.layers[0].nonContig
    ensures Advance(w, f) == World(w.cache.(layerCount := 2, mdpCount := 1, fbCount := 1, fbZ := 1), false,
                                   map[1 := f.layers[1].handle])
  {
    TwoFlags(VideoFlags(f));
    assert VideoOnlyPossible(f);
    assert Choose(w.cache, f) == Choice(VideoOnly, VideoFlags(f), 1, w.cache.hnd);
    var d := ChosenDecision(w.cache, f, Choose(w.cache, f));
    assert Prepare(w.cache, w.animationStarted, f).2 == d;
    UpperIsWanted(f, d);
  }

  lemma UpperIsWanted(f: Frame, d: Decision)
    requires |f.layers| == |d.fb| == 2 && !d.fb[0] && d.fb[1]
    ensures Wanted(f, d) == map[1 := f.layers[1].handle]
  {
  }

  const PADDING := SampleFrame(Sample(10, true, true), Sample(20, false, false)).(paddingRound := true)
  const PLAYING := SampleFrame(Sample(11, true, true), Sample(20, false, false))
  const IDLE := SampleFrame(Sample(10, true, true), Sample(21, false, false)).(idleFallback := true)

  /** A video plays below a layer 1 that the pipes do not support. */
  lemma {:induction false} PlayingIsPartial(c: Cache)
    requires |c.hnd| == MAX_NUM_APP_LAYERS && c.hnd[1] == 20
    ensures SamplePartialFrame(c, PLAYING, 1)
  {
    assert !Supported(PLAYING.layers[1]);
  }

  lemma RunOfThree(f0: Frame, f1: Frame, f2: Frame)
    ensures Run(Start(), [f0, f1, f2]) == Advance(Advance(Advance(Start(), f0), f1), f2)
  {
    assert [f0][..0] == [];
    assert Run(Start(), [f0]) == Advance(Start(), f0);
    assert [f0, f1][..1] == [f0];
    assert Run(Start(), [f0, f1]) == Advance(Run(Start(), [f0]), f1);
    assert [f0, f1, f2][..2] == [f0, f1];
  }

  /** After a video-only frame the picture can be stale: the planner does not compare the
      handles of that frame. Layer 1 shows buffer 20, then 21 in an idle-fallback frame,
      then 20 again, and the last frame keeps 21. */
  lemma {:induction false} VideoOnlyFrameCanLeaveStalePicture()
    ensures var w := Run(Start(), [PADDING, PLAYING, IDLE]);
            && !DmaBlocked(PADDING) && !DmaBlocked(PLAYING) && !DmaBlocked(IDLE)
            && Keeps(w, PLAYING) && w.content != Wanted(PLAYING, Decide(w, PLAYING))
  {
    RunOfThree(PADDING, PLAYING, IDLE);
    var w1 := Advance(Start(), PADDING);
    SampleGpu(Start(), PADDING);
    var w2 := Advance(w1, PLAYING);
    PlayingIsPartial(w1.cache);
    SampleStep(w1, PLAYING, 1);
    var w3 := Advance(w2, IDLE);
    SampleVideoOnly(w2, IDLE);
    assert w3.content == map[1 := 21] && w3.cache.hnd[1] == 20 &&
      w3.cache.mdpCount == w3.cache.fbCount == w3.cache.fbZ == 1;
    LastPlaying(w3);
  }

  lemma LastPlaying(w: World)
    requires Ready(w) && w.cache.hnd[1] == 20 && w.content == map[1 := 21]
    requires w.cache.mdpCount == w.cache.fbCount == w.cache.fbZ == 1
    ensures Keeps(w, PLAYING) && w.content != Wanted(PLAYING, Decide(w, PLAYING))
  {
    PlayingIsPartial(w.cache);
    SampleStep(w, PLAYING, 1);
    assert w.content[1] == 21 && Wanted(PLAYING, Decide(w, PLAYING))[1] == 20;
  }

  /** A frame of the external display with a turned video, which needs the rotator, in a
      round in which the virtual display was composed before and took the DMA pipe. */
  function Rotating(video: int, ui: int): Frame
  {
    SampleFrame(Sample(video, true, true).(rot90 := true), Sample(ui, false, true))
      .(dpy := 1, needsRotator := true, dmaInUse := true)
  }

  lemma {:induction false} RotatingIsPartial(c: Cache, video: int, ui: int)
    requires |c.hnd| == MAX_NUM_APP_LAYERS && c.hnd[1] != ui
    ensures SamplePartialFrame(c, Rotating(video, ui), 0)
  {
  }

  /** With DMA pipes a changed video can be kept in the framebuffer, also on a secondary
      display: the redraw that is forced for those is overwritten afterwards. The video
      shows buffer 10, then 11, and the last frame keeps 10. */
  lemma {:induction false} BlockedVideoCanBeStale()
    ensures var w := Run(Start(), [Rotating(10, 20).(paddingRound := true), Rotating(10, 21), Rotating(10, 22)]);
            var f := Rotating(11, 23);
            f.dpy > 0 && Keeps(w, f) && w.content != Wanted(f, Decide(w, f))
  {
    var f0, f1, f2, f3 := Rotating(10, 20).(paddingRound := true), Rotating(10, 21), Rotating(10, 22), Rotating(11, 23);
    RunOfThree(f0, f1, f2);
    var w1 := Advance(Start(), f0);
    SampleGpu(Start(), f0);
    var w2 := Advance(w1, f1);
    RotatingIsPartial(w1.cache, 10, 21);
    SampleStep(w1, f1, 0);
    var w3 := Advance(w2, f2);
    RotatingIsPartial(w2.cache, 10, 22);
    SampleStep(w2, f2, 0);
    RotatingIsPartial(w3.cache, 11, 23);
    SampleStep(w3, f3, 0);
    assert w3.content[0] == 10 && Wanted(f3, Decide(w3, f3))[0] == 11;
  }
}
