/** The per-frame composition planner in the source's own form: FrameInfo and LayerCache
    objects whose fixed-size buffers are updated in place, and the methods of MDPComp.
    Each method is tied to the functions of FramePlan. */
module MdpComp {
  import opened FramePlan
  import opened Options

  /** pipeInfo is NULL or points to a pipe with its z-order. */
  datatype PipeLayerPair = PipeLayerPair(zOrder: Option<int>, listIndex: int)

  /** z-order that programMDP gives to layer i: one stage for every pipe below it and one
      for the framebuffer once a framebuffer layer has been passed. */
  function PipeZ(fb: seq<bool>, i: nat): (z: nat)
    requires i <= |fb|
  {
    i - SetBefore(fb, i) + (if SetBefore(fb, i) > 0 then 1 else 0)
  }

  /** z-order that programYUV gives: only the pipes are counted. */
  function VideoZ(fb: seq<bool>, i: nat): (z: nat)
    requires i <= |fb|
  {
    i - SetBefore(fb, i)
  }

  /** The next stage: a pipe takes one, and so does the first framebuffer layer. */
  lemma NextStage(fb: seq<bool>, i: nat)
    requires i < |fb|
    ensures SetBefore(fb, i + 1) == SetBefore(fb, i) + (if fb[i] then 1 else 0)
    ensures PipeZ(fb, i + 1) == PipeZ(fb, i) + (if !fb[i] || SetBefore(fb, i) == 0 then 1 else 0)
    ensures VideoZ(fb, i + 1) == VideoZ(fb, i) + (if fb[i] then 0 else 1)
  {
  }

  /** The MDP layers before layer n can be configured. */
  predicate ConfigurableUpTo(f: Frame, fb: seq<bool>, n: nat)
    requires n <= |fb| == |f.layers|
  {
    forall i :: 0 <= i < n && !fb[i] ==> f.layers[i].configurable
  }

  lemma NextConfigurable(f: Frame, fb: seq<bool>, n: nat)
    requires n < |fb| == |f.layers|
    ensures ConfigurableUpTo(f, fb, n + 1) <==> ConfigurableUpTo(f, fb, n) && (fb[n] || f.layers[n].configurable)
  {
  }

  lemma {:induction false} CountBounds(s: seq<bool>, i: nat, j: nat)
    requires i <= j <= |s|
    ensures SetBefore(s, i) <= SetBefore(s, j) <= SetBefore(s, i) + (j - i)
    decreases j
  {
    if i < j { CountBounds(s, i, j - 1); }
  }

  lemma {:induction false} CountPrefix(s: seq<bool>, t: seq<bool>, i: nat)
    requires i <= |s| && i <= |t| && forall k :: 0 <= k < i ==> s[k] == t[k]
    ensures SetBefore(s, i) == SetBefore(t, i)
  {
    if i > 0 { CountPrefix(s, t, i - 1); }
  }

  lemma {:induction false} CountUpdate(s: seq<bool>, k: nat, b: bool, i: nat)
    requires k < i <= |s|
    ensures SetBefore(s[k := b], i) == SetBefore(s, i) - (if s[k] then 1 else 0) + (if b then 1 else 0)
  {
    if k == i - 1 {
      CountPrefix(s, s[k := b], k);
    } else {
      CountUpdate(s, k, b, i - 1);
    }
  }

  lemma {:induction false} CountConstant(s: seq<bool>, b: bool, i: nat)
    requires i <= |s| && forall k :: 0 <= k < i ==> s[k] == b
    ensures SetBefore(s, i) == if b then i else 0
  {
    if i > 0 { CountConstant(s, b, i - 1); }
  }

  /** The layer that is the m-th one, from 0, not drawn into the framebuffer. */
  lemma {:induction false} NthClear(fb: seq<bool>, m: nat, n: nat) returns (i: nat)
    requires n <= |fb| && m < n - SetBefore(fb, n)
    ensures i < n && !fb[i] && VideoZ(fb, i) == m
    decreases n
  {
    if !fb[n - 1] && n - 1 - SetBefore(fb, n - 1) == m {
      i := n - 1;
    } else {
      i := NthClear(fb, m, n - 1);
    }
  }

  /** An interval of flags has as many set flags as it is long. */
  lemma {:induction false} CountInterval(s: seq<bool>, n: nat, start: nat, count: nat)
    requires n <= |s|
    requires forall i :: 0 <= i < n ==> s[i] == (start <= i < start + count)
    ensures SetBefore(s, n) == if n <= start then 0 else if n <= start + count then n - start else count
    decreases n
  {
    if n > 0 { CountInterval(s, n - 1, start, count); }
  }

  /** Some flag is set exactly if the count is positive, and cleared exactly if it is not full. */
  lemma {:induction false} CountExtremes(s: seq<bool>, n: nat)
    requires n <= |s|
    ensures SetBefore(s, n) == 0 <==> forall i :: 0 <= i < n ==> !s[i]
    ensures SetBefore(s, n) == n <==> forall i :: 0 <= i < n ==> s[i]
  {
    if n > 0 { CountExtremes(s, n - 1); }
  }

  /** Length of the common run: a run that starts inside another ends where it ends. */
  lemma {:induction false} RunInside(s: seq<bool>, i: nat, j: nat)
    requires i <= j <= |s|
    requires forall k :: i <= k < j ==> s[k]
    ensures RunFrom(s, i) == (j - i) + RunFrom(s, j)
    decreases j - i
  {
    if i < j { RunInside(s, i + 1, j); }
  }

  /** The pair (start, count) describes the earliest longest run with a start before k. */
  ghost predicate BestBefore(s: seq<bool>, k: nat, start: int, count: nat)
    requires k <= |s|
  {
    && (forall j :: 0 <= j < k ==> RunFrom(s, j) <= count)
    && (count == 0 ==> start == -1)
    && (count > 0 ==> 0 <= start < k && RunFrom(s, start) == count)
    && (count > 0 ==> forall j :: 0 <= j < start ==> RunFrom(s, j) < count)
  }

  /** A maximal run of set flags. */
  ghost predicate IsRun(s: seq<bool>, start: int, count: int)
  {
    && 0 <= start && 0 < count && start + count <= |s|
    && (forall k :: start <= k < start + count ==> s[k])
    && (start + count < |s| ==> !s[start + count])
  }

  lemma BestIsUnique(s: seq<bool>, start: int, count: int)
    requires CountTrue(s) > 0 && count >= 0 && BestBefore(s, |s|, start, count)
    ensures IsRun(s, start, count) && LongestRun(s) == (start, count)
  {
    CountExtremes(s, |s|);
    var k :| 0 <= k < |s| && s[k];
    assert RunFrom(s, k) > 0;
    var b := BestStart(s, |s| - 1);
    assert RunFrom(s, b) <= count == RunFrom(s, start) <= RunFrom(s, b);
    assert b == start;
  }

  /** The list of videos that setListStats leaves in listStats. */
  ghost predicate ListsVideos(yuvIndices: seq<nat>, ls: seq<Layer>)
  {
    && (forall k :: 0 <= k < |yuvIndices| ==> yuvIndices[k] < |ls| && ls[yuvIndices[k]].yuv)
    && (forall i :: 0 <= i < |ls| && ls[i].yuv ==> i in yuvIndices)
  }

  /** What Batch and BatchPossible say when neither all nor no layers are cached. */
  lemma BatchCases(f: Frame, s: seq<bool>, start: nat, count: nat)
    requires |s| == |f.layers| && 0 < CountTrue(s) < |s| && (start, count) == LongestRun(s)
    ensures Batch(s) == (Interval(|s|, start, count), start as int)
    ensures CountTrue(Interval(|s|, start, count)) == count
    ensures BatchPossible(f, s) == OthersSupported(f.layers, start, count)
  {
    CountInterval(Interval(|s|, start, count), |s|, start, count);
  }

  // ---------------------------------------------------------------- FrameInfo

  class FrameInfo {
    var layerCount: nat
    const layerToMDP: array<int>
    var mdpCount: int
    const mdpToLayer: array<PipeLayerPair>
    var fbCount: int
    const isFBComposed: array<bool>
    var needsRedraw: bool
    var fbZ: int

    ghost predicate Valid()
    {
      && layerToMDP.Length == isFBComposed.Length == MAX_NUM_APP_LAYERS
      && mdpToLayer.Length == MAX_PIPES_PER_MIXER
    }

    /** The flags of the frame's layers. */
    ghost function Flags(): (s: seq<bool>)
      requires Valid() && layerCount <= MAX_NUM_APP_LAYERS
      reads this, isFBComposed
      ensures |s| == layerCount
    {
      isFBComposed[..layerCount]
    }

    /** The object holds the decision d. */
    ghost predicate Holds(d: Decision)
      requires Valid()
      reads this, isFBComposed
    {
      && layerCount == |d.fb| && fbCount == d.fbCount && mdpCount == d.mdpCount
      && fbZ == d.fbZ && needsRedraw == d.needsRedraw
      && (layerCount <= MAX_NUM_APP_LAYERS ==> Flags() == d.fb)
    }

    /** The n-th MDP layer in list order sits at index n of mdpToLayer, and knows it. */
    ghost predicate Mapped(fb: seq<bool>)
      requires Valid()
      reads layerToMDP, mdpToLayer
    {
      && |fb| <= MAX_NUM_APP_LAYERS
      && forall i :: 0 <= i < |fb| && !fb[i] ==>
           && layerToMDP[i] == VideoZ(fb, i) < MAX_PIPES_PER_MIXER
           && mdpToLayer[VideoZ(fb, i)].listIndex == i
    }

    /** The two maps are mutually inverse: from a layer and back, ... */
    lemma LayerToMdpAndBack(fb: seq<bool>, i: nat)
      requires Valid() && Mapped(fb) && i < |fb| && !fb[i]
      ensures 0 <= layerToMDP[i] < |fb| - CountTrue(fb) && layerToMDP[i] < MAX_PIPES_PER_MIXER
      ensures mdpToLayer[layerToMDP[i]].listIndex == i
    {
      CountBounds(fb, i + 1, |fb|);
    }

    /** ... and from an MDP index and back, for exactly the indices below the number of MDP layers. */
    lemma MdpToLayerAndBack(fb: seq<bool>, m: nat)
      requires Valid() && Mapped(fb) && m < |fb| - CountTrue(fb)
      ensures m < MAX_PIPES_PER_MIXER
      ensures 0 <= mdpToLayer[m].listIndex < |fb| && !fb[mdpToLayer[m].listIndex]
      ensures layerToMDP[mdpToLayer[m].listIndex] == m
    {
      var i := NthClear(fb, m, |fb|);
    }

    /** The pipes of the MDP layers before layer n have the z-orders of their stages. */
    ghost predicate ZUpTo(fb: seq<bool>, video: bool, n: nat)
      requires Valid() && Mapped(fb) && n <= |fb|
      reads layerToMDP, mdpToLayer
    {
      forall i :: 0 <= i < n && !fb[i] ==>
        mdpToLayer[layerToMDP[i]].zOrder == Some(if video then VideoZ(fb, i) else PipeZ(fb, i))
    }

    lemma ZPastFramebuffer(fb: seq<bool>, video: bool, n: nat)
      requires Valid() && Mapped(fb) && n < |fb| && fb[n]
      ensures ZUpTo(fb, video, n + 1) <==> ZUpTo(fb, video, n)
    {
    }

    ghost predicate ZOrders(fb: seq<bool>, video: bool)
      requires Valid() && Mapped(fb)
      reads layerToMDP, mdpToLayer
    {
      ZUpTo(fb, video, |fb|)
    }

    constructor ()
      ensures Valid() && fresh(layerToMDP) && fresh(mdpToLayer) && fresh(isFBComposed)
      ensures layerCount == 0
    {
      layerToMDP := new int[MAX_NUM_APP_LAYERS](_ => -1);
      mdpToLayer := new PipeLayerPair[MAX_PIPES_PER_MIXER](_ => PipeLayerPair(None, 0));
      isFBComposed := new bool[MAX_NUM_APP_LAYERS](_ => true);
      layerCount, mdpCount, fbCount, needsRedraw, fbZ := 0, 0, 0, true, 0;
    }

    method Reset(numLayers: nat)
      requires Valid()
      modifies this, layerToMDP, mdpToLayer, isFBComposed
      ensures layerCount == numLayers && fbCount == numLayers && mdpCount == 0
      ensures needsRedraw && fbZ == 0
      ensures forall i :: 0 <= i < MAX_NUM_APP_LAYERS ==> isFBComposed[i] && layerToMDP[i] == -1
      ensures forall m :: 0 <= m < MAX_PIPES_PER_MIXER ==> mdpToLayer[m] == PipeLayerPair(None, 0)
    {
      forall m | 0 <= m < mdpToLayer.Length { mdpToLayer[m] := PipeLayerPair(None, 0); }
      forall i | 0 <= i < layerToMDP.Length { layerToMDP[i] := -1; }
      forall i | 0 <= i < isFBComposed.Length { isFBComposed[i] := true; }
      layerCount, fbCount, mdpCount, needsRedraw, fbZ := numLayers, numLayers, 0, true, 0;
    }

    method Map()
      requires Valid() && layerCount <= MAX_NUM_APP_LAYERS
      requires layerCount - CountTrue(Flags()) <= MAX_PIPES_PER_MIXER
      modifies layerToMDP, mdpToLayer
      ensures Mapped(Flags())
    {
      ghost var fb := Flags();
      ghost var z: seq<nat> := seq(|fb|, i requires 0 <= i < |fb| => VideoZ(fb, i));
      var mdpIdx := 0;
      var idx := 0;
      while idx < layerCount
        invariant 0 <= idx <= layerCount
        invariant mdpIdx == VideoZ(fb, idx) <= MAX_PIPES_PER_MIXER
        invariant forall i {:trigger z[i]} :: 0 <= i < idx && !fb[i] ==>
          layerToMDP[i] == z[i] < mdpIdx && mdpToLayer[z[i]].listIndex == i
      {
        CountBounds(fb, idx + 1, layerCount);
        assert isFBComposed[idx] == fb[idx];
        if !isFBComposed[idx] {
          mdpToLayer[mdpIdx] := mdpToLayer[mdpIdx].(listIndex := idx);
          layerToMDP[idx] := mdpIdx;
          mdpIdx := mdpIdx + 1;
        }
        idx := idx + 1;
      }
      forall i | 0 <= i < |fb| && !fb[i]
        ensures layerToMDP[i] == VideoZ(fb, i) < MAX_PIPES_PER_MIXER
        ensures mdpToLayer[VideoZ(fb, i)].listIndex == i
      {
        assert z[i] == VideoZ(fb, i);
      }
    }
  }

  // ---------------------------------------------------------------- LayerCache

  class LayerCache {
    var layerCount: int
    var mdpCount: int
    var fbCount: int
    var fbZ: int
    const hnd: array<int>

    ghost predicate Valid() { hnd.Length == MAX_NUM_APP_LAYERS }

    ghost function Value(): (c: Cache)
      reads this, hnd
    {
      Cache(hnd[..], layerCount, mdpCount, fbCount, fbZ)
    }

    constructor ()
      ensures Valid() && fresh(hnd) && Value() == EmptyCache()
    {
      hnd := new int[MAX_NUM_APP_LAYERS](_ => 0);
      layerCount, mdpCount, fbCount, fbZ := 0, 0, 0, -1;
      new;
      assert hnd[..] == EmptyCache().hnd;
    }

    method CacheAll(list: seq<Layer>)
      requires Valid() && |list| <= MAX_NUM_APP_LAYERS
      modifies hnd
      ensures Value() == old(Value()).(hnd := Overwrite(old(hnd[..]), list))
    {
      for i := 0 to |list|
        invariant forall j :: 0 <= j < i ==> hnd[j] == list[j].handle
        invariant forall j :: i <= j < hnd.Length ==> hnd[j] == old(hnd[j])
      {
        hnd[i] := list[i].handle;
      }
      assert hnd[..] == Overwrite(old(hnd[..]), list);
    }

    method UpdateCounts(cur: FrameInfo)
      modifies this
      ensures Value() == Cache(old(hnd[..]), cur.layerCount, cur.mdpCount, cur.fbCount, cur.fbZ)
    {
      mdpCount, fbCount, layerCount, fbZ := cur.mdpCount, cur.fbCount, cur.layerCount, cur.fbZ;
    }
  }

  // ---------------------------------------------------------------- MDPComp

  class Composer {
    const cur: FrameInfo      // mCurrentFrame
    const cache: LayerCache   // mCachedFrame
    var animationStarted: bool

    ghost predicate Valid()
    {
      cur.Valid() && cache.Valid() && cache.hnd != cur.layerToMDP
    }

    constructor ()
      ensures Valid() && fresh(cur) && fresh(cur.layerToMDP) && fresh(cur.mdpToLayer) && fresh(cur.isFBComposed)
      ensures fresh(cache) && fresh(cache.hnd)
      ensures cache.Value() == EmptyCache() && !animationStarted
    {
      var f := new FrameInfo();
      var c := new LayerCache();
      cur, cache, animationStarted := f, c, false;
    }

    method ResetAll(f: Frame)
      requires Valid() && |f.layers| <= MAX_NUM_APP_LAYERS
      modifies cur, cur.layerToMDP, cur.mdpToLayer, cur.isFBComposed, cache, cache.hnd
      ensures cur.Holds(GpuDecision(|f.layers|, Gpu))
      ensures cache.Value() == CacheCounts(old(cache.Value()), Overwrite(old(cache.hnd[..]), f.layers),
                                           GpuDecision(|f.layers|, Gpu))
    {
      cur.Reset(|f.layers|);
      cache.CacheAll(f.layers);
      cache.UpdateCounts(cur);
      assert cur.Flags() == Constant(|f.layers|, true);
    }

    method UpdateLayerCache(f: Frame)
      requires Valid() && |f.layers| == cur.layerCount <= MAX_NUM_APP_LAYERS
      modifies cur`fbCount, cur`mdpCount, cur.isFBComposed, cache.hnd
      ensures cur.Flags() == Unchanged(old(cache.hnd[..]), f.layers)
      ensures cur.fbCount == CountTrue(cur.Flags()) && cur.mdpCount == cur.layerCount - cur.fbCount
      ensures cache.Value() == old(cache.Value()).(hnd := Overwrite(old(cache.hnd[..]), f.layers))
    {
      var fbCount := CompareHandles(f);
      cur.fbCount := fbCount;
      cur.mdpCount := cur.layerCount - cur.fbCount;
    }

    /** Layer i stays in the framebuffer exactly if its buffer is the one seen last. */
    method CompareHandle(f: Frame, i: nat) returns (kept: bool)
      requires Valid() && i < |f.layers| <= MAX_NUM_APP_LAYERS
      modifies cur.isFBComposed, cache.hnd
      ensures kept == (old(cache.hnd[i]) == f.layers[i].handle)
      ensures cur.isFBComposed[..] == old(cur.isFBComposed[..])[i := kept]
      ensures cache.hnd[..] == old(cache.hnd[..])[i := f.layers[i].handle]
    {
      kept := cache.hnd[i] == f.layers[i].handle;
      if kept {
        cur.isFBComposed[i] := true;
      } else {
        cur.isFBComposed[i] := false;
        cache.hnd[i] := f.layers[i].handle;
      }
    }

    /** The loop of updateLayerCache. */
    method CompareHandles(f: Frame) returns (fbCount: nat)
      requires Valid() && |f.layers| == cur.layerCount <= MAX_NUM_APP_LAYERS
      modifies cur.isFBComposed, cache.hnd
      ensures cur.Flags() == Unchanged(old(cache.hnd[..]), f.layers) && fbCount == CountTrue(cur.Flags())
      ensures cache.hnd[..] == Overwrite(old(cache.hnd[..]), f.layers)
    {
      ghost var before := cache.hnd[..];
      ghost var same := Unchanged(before, f.layers);
      fbCount := 0;
      var i := 0;
      while i < |f.layers|
        invariant 0 <= i <= |f.layers| && fbCount == SetBefore(same, i)
        invariant cur.isFBComposed[..i] == same[..i]
        invariant forall j :: 0 <= j < i ==> cache.hnd[..][j] == f.layers[j].handle
        invariant forall j :: i <= j < MAX_NUM_APP_LAYERS ==> cache.hnd[..][j] == before[j]
      {
        assert same[i] == (cache.hnd[i] == f.layers[i].handle);
        var kept := CompareHandle(f, i);
        if kept {
          fbCount := fbCount + 1;
        }
        i := i + 1;
      }
      assert cur.Flags() == same;
      assert cache.hnd[..] == Overwrite(before, f.layers);
    }

    /** One step of updateYUV: layer k is a video. */
    method PlaceVideo(k: nat, toFb: bool)
      requires Valid() && k < cur.layerCount <= MAX_NUM_APP_LAYERS
      requires cur.fbCount == CountTrue(cur.Flags())
      modifies cur`fbCount, cur.isFBComposed
      ensures cur.Flags() == old(cur.Flags())[k := toFb]
      ensures cur.fbCount == CountTrue(cur.Flags())
    {
      CountUpdate(cur.Flags(), k, toFb, cur.layerCount);
      if toFb {
        if !cur.isFBComposed[k] {
          cur.isFBComposed[k] := true;
          cur.fbCount := cur.fbCount + 1;
        }
      } else {
        if cur.isFBComposed[k] {
          cur.isFBComposed[k] := false;
          cur.fbCount := cur.fbCount - 1;
        }
      }
      assert cur.Flags() == old(cur.Flags())[k := toFb];
    }

    /** Visits the positions in yuvIndices, the list that setListStats made of the videos. */
    method UpdateYUV(f: Frame, yuvIndices: seq<nat>)
      requires Valid() && |f.layers| == cur.layerCount <= MAX_NUM_APP_LAYERS
      requires cur.fbCount == CountTrue(cur.Flags())
      requires ListsVideos(yuvIndices, f.layers)
      modifies cur`fbCount, cur`mdpCount, cur.isFBComposed
      ensures cur.Flags() == AfterYuv(f, old(cur.Flags()))
      ensures cur.fbCount == CountTrue(cur.Flags()) && cur.mdpCount == cur.layerCount - cur.fbCount
    {
      ghost var before := cur.Flags();
      ghost var flags := before;
      for index := 0 to |yuvIndices|
        invariant cur.Flags() == flags && cur.fbCount == CountTrue(flags)
        invariant forall i :: 0 <= i < |flags| ==>
          flags[i] == before[i] || (f.layers[i].yuv && flags[i] == !YuvDoable(f, f.layers[i]))
        invariant forall j :: 0 <= j < index ==> flags[yuvIndices[j]] == !YuvDoable(f, f.layers[yuvIndices[j]])
      {
        var k := yuvIndices[index];
        PlaceVideo(k, !YuvDoable(f, f.layers[k]));
        flags := flags[k := !YuvDoable(f, f.layers[k])];
      }
      cur.mdpCount := cur.layerCount - cur.fbCount;
      assert flags == AfterYuv(f, before);
    }

    /** First loop of batchLayers: the earliest longest run of framebuffer layers. */
    method SearchBatch() returns (maxBatchStart: int, maxBatchCount: int)
      requires Valid() && cur.layerCount <= MAX_NUM_APP_LAYERS && CountTrue(cur.Flags()) > 0
      modifies cur`fbZ
      ensures maxBatchStart >= 0 && (maxBatchStart, maxBatchCount) == LongestRun(cur.Flags())
      ensures IsRun(cur.Flags(), maxBatchStart, maxBatchCount) && cur.fbZ == maxBatchStart
    {
      ghost var s := cur.Flags();
      assert s != [];
      maxBatchStart, maxBatchCount := -1, 0;
      var i := 0;
      while i < cur.layerCount
        invariant 0 <= i <= |s|
        invariant BestBefore(s, i, maxBatchStart, maxBatchCount)
        invariant maxBatchCount > 0 ==> cur.fbZ == maxBatchStart
      {
        var count := 0;
        ghost var first := i;
        while i < cur.layerCount && cur.isFBComposed[i]
          invariant first <= i <= |s| && count == i - first
          invariant forall k :: first <= k < i ==> s[k]
        {
          count := count + 1;
          i := i + 1;
        }
        forall k | first <= k <= i
          ensures RunFrom(s, k) == i - k
        {
          RunInside(s, k, i);
        }
        if count > maxBatchCount {
          maxBatchCount := count;
          maxBatchStart := i - count;
          cur.fbZ := maxBatchStart;
        }
        if i < cur.layerCount { i := i + 1; }
      }
      assert cur.Flags() == s;
      BestIsUnique(s, maxBatchStart, maxBatchCount);
    }

    /** Second loop of batchLayers: everything outside the batch goes to a pipe. The layer
        right behind the batch is skipped, but its flag is already clear. */
    method PullOutOthers(f: Frame, maxBatchStart: nat, maxBatchCount: nat) returns (ok: bool)
      requires Valid() && |f.layers| == cur.layerCount <= MAX_NUM_APP_LAYERS
      requires IsRun(cur.Flags(), maxBatchStart, maxBatchCount)
      modifies cur.isFBComposed
      ensures ok == OthersSupported(f.layers, maxBatchStart, maxBatchCount)
      ensures ok ==> cur.Flags() == Interval(|f.layers|, maxBatchStart, maxBatchCount)
    {
      ghost var s := cur.Flags();
      var i := 0;
      while i < cur.layerCount
        invariant 0 <= i
        invariant i <= maxBatchStart || maxBatchStart + maxBatchCount < i
        invariant forall k :: 0 <= k < |s| ==>
          cur.isFBComposed[k] == (if k < i then maxBatchStart <= k < maxBatchStart + maxBatchCount else s[k])
        invariant forall k :: 0 <= k < |s| && k < i && !(maxBatchStart <= k <= maxBatchStart + maxBatchCount) ==>
          Supported(f.layers[k])
      {
        if i != maxBatchStart {
          if !Supported(f.layers[i]) {
            return false;
          }
          cur.isFBComposed[i] := false;
        } else {
          i := i + maxBatchCount;
        }
        i := i + 1;
      }
      return true;
    }

    method BatchLayers(f: Frame) returns (ok: bool)
      requires Valid() && |f.layers| == cur.layerCount <= MAX_NUM_APP_LAYERS
      requires cur.fbCount == CountTrue(cur.Flags()) && cur.mdpCount == cur.layerCount - cur.fbCount
      modifies cur, cur.isFBComposed
      ensures cur.layerCount == old(cur.layerCount) && cur.needsRedraw == old(cur.needsRedraw)
      ensures ok == BatchPossible(f, old(cur.Flags()))
      ensures ok ==> cur.Flags() == Batch(old(cur.Flags())).0 && cur.fbZ == Batch(old(cur.Flags())).1
      ensures ok ==> cur.fbCount == CountTrue(Batch(old(cur.Flags())).0) && cur.mdpCount == cur.layerCount - cur.fbCount
    {
      ghost var s := cur.Flags();
      if cur.fbCount == 0 {
        cur.fbZ := -1;
        assert cur.Flags() == s;
        return true;
      }
      if cur.mdpCount == 0 {
        cur.fbZ := 0;
        assert cur.Flags() == s;
        return true;
      }
      ghost var start, count;
      ok, start, count := KeepLongestRun(f);
      BatchCases(f, s, start, count);
    }

    method KeepLongestRun(f: Frame) returns (ok: bool, ghost start: nat, ghost count: nat)
      requires Valid() && |f.layers| == cur.layerCount <= MAX_NUM_APP_LAYERS && CountTrue(cur.Flags()) > 0
      modifies cur`fbZ, cur`fbCount, cur`mdpCount, cur.isFBComposed
      ensures (start, count) == LongestRun(old(cur.Flags()))
      ensures ok == OthersSupported(f.layers, start, count)
      ensures ok ==> cur.Flags() == Interval(|f.layers|, start, count)
      ensures ok ==> cur.fbZ == start && cur.fbCount == count && cur.mdpCount == cur.layerCount - count
    {
      var maxBatchStart, maxBatchCount := SearchBatch();
      start, count := maxBatchStart, maxBatchCount;
      ok := PullOutOthers(f, maxBatchStart, maxBatchCount);
      if ok {
        cur.fbCount := maxBatchCount;
        cur.mdpCount := cur.layerCount - cur.fbCount;
      }
    }

    method FullMDPComp(f: Frame) returns (ok: bool)
      requires Valid() && |f.layers| == cur.layerCount <= MAX_NUM_APP_LAYERS
      modifies cur, cur.isFBComposed
      ensures cur.layerCount == old(cur.layerCount) && cur.needsRedraw == old(cur.needsRedraw)
      ensures ok == FullPossible(f)
      ensures ok ==> cur.Flags() == Constant(|f.layers|, false) && cur.fbZ == -1
      ensures ok ==> cur.fbCount == 0 && cur.mdpCount == |f.layers|
    {
      if f.dpy > 0 && |f.layers| > MAX_SEC_LAYERS { return false; }
      for i := 0 to |f.layers|
        invariant forall k :: 0 <= k < i ==> Supported(f.layers[k])
      {
        if !Supported(f.layers[i]) { return false; }
      }
      cur.mdpCount := cur.layerCount;
      cur.fbCount := 0;
      cur.fbZ := -1;
      forall i | 0 <= i < cur.isFBComposed.Length { cur.isFBComposed[i] := false; }
      assert cur.Flags() == Constant(|f.layers|, false);
      if cur.mdpCount > f.maxPipes { return false; }
      return cur.mdpCount <= PipesLeft(f, cur.fbCount);
    }

    /** The loop of partialMDPComp over the layers that are not in the framebuffer. */
    method ChangedSupported(f: Frame) returns (ok: bool)
      requires Valid() && |f.layers| == cur.layerCount <= MAX_NUM_APP_LAYERS
      ensures ok == forall k :: 0 <= k < |f.layers| && !cur.Flags()[k] ==> Supported(f.layers[k])
    {
      ghost var flags := cur.Flags();
      for i := 0 to |f.layers|
        invariant forall k :: 0 <= k < i && !flags[k] ==> Supported(f.layers[k])
      {
        if !cur.isFBComposed[i] && !Supported(f.layers[i]) {
          assert !flags[i];
          return false;
        }
      }
      return true;
    }

    method PartialMDPComp(f: Frame, yuvIndices: seq<nat>) returns (ok: bool)
      requires Valid() && |f.layers| <= MAX_NUM_APP_LAYERS
      requires ListsVideos(yuvIndices, f.layers)
      modifies cur, cur.layerToMDP, cur.mdpToLayer, cur.isFBComposed, cache.hnd
      ensures ok == PartialPossible(f, old(cache.hnd[..]))
      ensures f.mixedMode ==> cur.layerCount == |f.layers| && cur.needsRedraw
      ensures !f.mixedMode ==> cur.layerCount == old(cur.layerCount) && cur.needsRedraw == old(cur.needsRedraw)
      ensures ok ==> cur.Flags() == Batch(AfterYuv(f, Unchanged(old(cache.hnd[..]), f.layers))).0
      ensures ok ==> cur.fbZ == Batch(AfterYuv(f, Unchanged(old(cache.hnd[..]), f.layers))).1
      ensures ok ==> cur.fbCount == CountTrue(cur.Flags()) && cur.mdpCount == cur.layerCount - cur.fbCount
      ensures cache.hnd[..] == if f.mixedMode then Overwrite(old(cache.hnd[..]), f.layers) else old(cache.hnd[..])
    {
      if !f.mixedMode { return false; }
      cur.Reset(|f.layers|);
      UpdateLayerCache(f);
      ok := ChangedSupported(f);
      if !ok { return false; }
      UpdateYUV(f, yuvIndices);
      ok := BatchRemaining(f);
    }

    /** The rest of partialMDPComp: batching, and whether the pipes are enough. */
    method BatchRemaining(f: Frame) returns (ok: bool)
      requires Valid() && |f.layers| == cur.layerCount <= MAX_NUM_APP_LAYERS
      requires cur.fbCount == CountTrue(cur.Flags()) && cur.mdpCount == cur.layerCount - cur.fbCount
      modifies cur, cur.isFBComposed
      ensures cur.layerCount == old(cur.layerCount) && cur.needsRedraw == old(cur.needsRedraw)
      ensures ok == BatchFits(f, old(cur.Flags()))
      ensures ok ==> cur.Flags() == Batch(old(cur.Flags())).0 && cur.fbZ == Batch(old(cur.Flags())).1
      ensures ok ==> cur.fbCount == CountTrue(cur.Flags()) && cur.mdpCount == cur.layerCount - cur.fbCount
    {
      ok := BatchLayers(f);
      if !ok { return false; }
      if f.dpy > 0 && cur.mdpCount > MAX_SEC_LAYERS { return false; }
      if cur.mdpCount > f.maxPipes - 1 { return false; }
      return cur.mdpCount <= PipesLeft(f, cur.fbCount);
    }

    method IsOnlyVideoDoable(f: Frame, yuvIndices: seq<nat>) returns (ok: bool)
      requires Valid() && |f.layers| <= MAX_NUM_APP_LAYERS
      requires ListsVideos(yuvIndices, f.layers)
      modifies cur, cur.layerToMDP, cur.mdpToLayer, cur.isFBComposed
      ensures ok == VideoOnlyPossible(f)
      ensures cur.layerCount == |f.layers| && cur.needsRedraw && cur.Flags() == VideoFlags(f)
      ensures cur.fbCount == CountTrue(cur.Flags()) && cur.mdpCount == cur.layerCount - cur.fbCount
    {
      cur.Reset(|f.layers|);
      assert cur.Flags() == Constant(|f.layers|, true);
      CountConstant(cur.Flags(), true, |f.layers|);
      UpdateYUV(f, yuvIndices);
      if |yuvIndices| == 0 { return false; }
      assert f.layers[yuvIndices[0]].yuv;
      if cur.mdpCount == 0 { return false; }
      if cur.mdpCount > f.maxPipes - (if cur.fbCount != 0 then 1 else 0) { return false; }
      if cur.mdpCount > PipesLeft(f, cur.fbCount) { return false; }
      ok := VideosAllowed(f, yuvIndices);
    }

    /** The last loop of isOnlyVideoDoable. */
    static method VideosAllowed(f: Frame, yuvIndices: seq<nat>) returns (ok: bool)
      requires ListsVideos(yuvIndices, f.layers)
      ensures ok == forall i :: 0 <= i < |f.layers| && f.layers[i].yuv ==>
                f.layers[i].planeAlpha >= 0xFF && !f.layers[i].nonContig
    {
      for index := 0 to |yuvIndices|
        invariant forall k :: 0 <= k < index ==>
          f.layers[yuvIndices[k]].planeAlpha >= 0xFF && !f.layers[yuvIndices[k]].nonContig
      {
        var l := f.layers[yuvIndices[index]];
        if l.planeAlpha < 0xFF { return false; }
        if l.nonContig { return false; }
      }
      return true;
    }

    /** The hard conditions, then full composition, then partial composition. */
    method IsFullFrameDoable(f: Frame, yuvIndices: seq<nat>) returns (ok: bool)
      requires Valid() && |f.layers| == cur.layerCount <= MAX_NUM_APP_LAYERS && cur.needsRedraw
      requires ListsVideos(yuvIndices, f.layers)
      modifies cur, cur.layerToMDP, cur.mdpToLayer, cur.isFBComposed, cache.hnd
      ensures cur.layerCount == |f.layers| && cur.needsRedraw
      ensures ok == (HardConditions(f) && (FullPossible(f) || PartialPossible(f, old(cache.hnd[..]))))
      ensures ok ==> cur.Flags() == Choose(old(cache.Value()), f).fb && cur.fbZ == Choose(old(cache.Value()), f).fbZ
      ensures ok ==> cur.fbCount == CountTrue(cur.Flags()) && cur.mdpCount == cur.layerCount - cur.fbCount
      ensures ok ==> cache.hnd[..] == Choose(old(cache.Value()), f).hnd
      ensures !ok ==>
        cache.hnd[..] ==
          if HardConditions(f) && f.mixedMode then Overwrite(old(cache.hnd[..]), f.layers) else old(cache.hnd[..])
    {
      if !HardConditions(f) { return false; }
      ok := FullMDPComp(f);
      if ok {
        CountConstant(cur.Flags(), false, |f.layers|);
      } else {
        ok := PartialMDPComp(f, yuvIndices);
      }
    }

    /** Acquires the pipes and gives every MDP layer the next z-order, leaving one stage for
        the framebuffer where its first layer is met. */
    method ProgramMDP(f: Frame) returns (ok: bool)
      requires Valid() && |f.layers| == cur.layerCount <= MAX_NUM_APP_LAYERS
      requires cur.Mapped(cur.Flags())
      modifies cur.mdpToLayer
      ensures cur.Mapped(cur.Flags())
      ensures ok == Programmed(f, cur.Flags())
      ensures ok ==> cur.ZOrders(cur.Flags(), false)
    {
      if !f.pipesGranted { return false; }
      ghost var fb := cur.Flags();
      var fbBatch := false;
      var index, mdpNextZOrder := 0, 0;
      while index < cur.layerCount
        invariant 0 <= index <= |fb| == cur.layerCount
        invariant fbBatch == (SetBefore(fb, index) > 0) && mdpNextZOrder == PipeZ(fb, index)
        invariant cur.Mapped(fb) && cur.ZUpTo(fb, false, index)
        invariant ConfigurableUpTo(f, fb, index)
      {
        NextStage(fb, index);
        NextConfigurable(f, fb, index);
        assert cur.isFBComposed[index] == fb[index];
        if !cur.isFBComposed[index] {
          SetZ(fb, false, index, mdpNextZOrder);
          mdpNextZOrder := mdpNextZOrder + 1;
          if !f.layers[index].configurable { return false; }
        } else {
          cur.ZPastFramebuffer(fb, false, index);
          if !fbBatch {
            mdpNextZOrder := mdpNextZOrder + 1;
            fbBatch := true;
          }
        }
        index := index + 1;
      }
      return true;
    }

    /** Stores the z-order in the pipe of one MDP layer; no other layer's pipe changes. */
    method SetZ(ghost fb: seq<bool>, ghost video: bool, index: nat, z: int)
      requires Valid() && cur.Mapped(fb) && index < |fb| && !fb[index]
      requires cur.ZUpTo(fb, video, index) && z == if video then VideoZ(fb, index) else PipeZ(fb, index)
      modifies cur.mdpToLayer
      ensures cur.Mapped(fb) && cur.ZUpTo(fb, video, index + 1)
    {
      var m := cur.layerToMDP[index];
      cur.mdpToLayer[m] := cur.mdpToLayer[m].(zOrder := Some(z));
    }

    /** Video-only frames: the pipes get consecutive z-orders, the framebuffer goes on top. */
    method ProgramYUV(f: Frame) returns (ok: bool)
      requires Valid() && |f.layers| == cur.layerCount <= MAX_NUM_APP_LAYERS
      requires cur.Mapped(cur.Flags())
      modifies cur.mdpToLayer
      ensures cur.Mapped(cur.Flags())
      ensures ok == Programmed(f, cur.Flags())
      ensures ok ==> cur.ZOrders(cur.Flags(), true)
    {
      if !f.pipesGranted { return false; }
      ghost var fb := cur.Flags();
      var index, mdpIdx := 0, 0;
      while index < cur.layerCount
        invariant 0 <= index <= |fb| == cur.layerCount
        invariant mdpIdx == VideoZ(fb, index)
        invariant cur.Mapped(fb) && cur.ZUpTo(fb, true, index)
        invariant ConfigurableUpTo(f, fb, index)
      {
        NextStage(fb, index);
        NextConfigurable(f, fb, index);
        assert cur.isFBComposed[index] == fb[index];
        if !cur.isFBComposed[index] {
          SetZ(fb, true, index, mdpIdx);
          mdpIdx := mdpIdx + 1;
          if !f.layers[index].configurable { return false; }
        } else {
          cur.ZPastFramebuffer(fb, true, index);
        }
        index := index + 1;
      }
      return true;
    }

    /** Decides whether the framebuffer must be redrawn. */
    method UpdateRedraw(f: Frame, secondary: bool)
      requires Valid()
      modifies cur`needsRedraw
      ensures cur.needsRedraw == (CompositionChanged(cache.Value(), f, cur.fbCount, cur.mdpCount, cur.fbZ) ||
                                  (cur.fbCount != 0 && secondary))
    {
      cur.needsRedraw := false;
      if cur.fbCount != 0 &&
         (cur.mdpCount != cache.mdpCount || cur.fbCount != cache.fbCount || cur.fbZ != cache.fbZ ||
          cur.mdpCount == 0 || f.geometryChanged || SkipPresent(f) || secondary) {
        cur.needsRedraw := true;
      }
    }

    method Prepare(f: Frame, yuvIndices: seq<nat>) returns (ret: int)
      requires Valid() && WellFormed(f)
      requires ListsVideos(yuvIndices, f.layers)
      modifies this`animationStarted, cur, cur.layerToMDP, cur.mdpToLayer, cur.isFBComposed, cache, cache.hnd
      ensures var (c, a, d) := FramePlan.Prepare(old(cache.Value()), old(animationStarted), f);
              cache.Value() == c && animationStarted == a && ret == d.ret && cur.Holds(d)
      ensures ret >= 0 ==> cur.layerCount <= MAX_NUM_APP_LAYERS && cur.Mapped(cur.Flags()) &&
                           cur.ZOrders(cur.Flags(), ret == 0)
    {
      var numLayers := |f.layers|;
      cur.Reset(numLayers);
      if numLayers > MAX_NUM_APP_LAYERS || numLayers == 0 {
        cache.UpdateCounts(cur);
        return -1;
      }
      assert cur.Flags() == Constant(numLayers, true);
      if f.animating {
        cur.needsRedraw := false;
        if !animationStarted {
          cur.needsRedraw := true;
          animationStarted := true;
        }
        cache.UpdateCounts(cur);
        return -1;
      } else {
        animationStarted := false;
      }
      if !FrameDoable(f) {
        ResetAll(f);
        return -1;
      }
      ret := Compose(f, yuvIndices);
    }

    /** The rest of prepare, for a frame that is not animating and may use MDP. */
    method Compose(f: Frame, yuvIndices: seq<nat>) returns (ret: int)
      requires Valid() && WellFormed(f) && 0 < |f.layers| == cur.layerCount <= MAX_NUM_APP_LAYERS
      requires cur.needsRedraw && FrameDoable(f) && !f.animating
      requires ListsVideos(yuvIndices, f.layers)
      modifies cur, cur.layerToMDP, cur.mdpToLayer, cur.isFBComposed, cache, cache.hnd
      ensures cache.Value() == FramePlan.Compose(old(cache.Value()), f).0
      ensures cur.Holds(FramePlan.Compose(old(cache.Value()), f).1)
      ensures ret == FramePlan.Compose(old(cache.Value()), f).1.ret
      ensures ret >= 0 ==> cur.Mapped(cur.Flags()) && cur.ZOrders(cur.Flags(), ret == 0)
    {
      ghost var before := cache.Value();
      PlanFits(before, f);
      var kind := Select(f, yuvIndices);
      ret := SetUp(f, kind, before, Choose(before, f));
    }

    /** Carries out the selected composition, or falls back to the GPU. */
    method SetUp(f: Frame, kind: Kind, ghost before: Cache, ghost ch: Choice) returns (ret: int)
      requires Valid() && |f.layers| == |ch.fb| <= MAX_NUM_APP_LAYERS
      requires kind in {Full, VideoOnly, Gpu} && kind == (if ch.kind == Partial then Full else ch.kind)
      requires cache.Value() == before.(hnd := ch.hnd) && |before.hnd| == MAX_NUM_APP_LAYERS
      requires ch.hnd == before.hnd || ch.hnd == Overwrite(before.hnd, f.layers)
      requires kind != Gpu ==> cur.layerCount == |f.layers| && cur.Flags() == ch.fb
      requires kind != Gpu ==>
                 cur.fbCount == CountTrue(ch.fb) && cur.mdpCount == |ch.fb| - CountTrue(ch.fb) <= MAX_PIPES_PER_MIXER
      requires kind == Full ==> cur.fbZ == ch.fbZ
      requires kind == VideoOnly ==>
                 cur.needsRedraw && ch.fbZ == if CountTrue(ch.fb) != 0 then |ch.fb| - CountTrue(ch.fb) else -1
      modifies cur, cur.layerToMDP, cur.mdpToLayer, cur.isFBComposed, cache, cache.hnd
      ensures SetUpSucceeds(f, ch) ==>
        ret == ChosenDecision(before, f, ch).ret && cur.Holds(ChosenDecision(before, f, ch)) &&
        cache.Value() == CacheCounts(before, ch.hnd, ChosenDecision(before, f, ch)) &&
        cur.Mapped(cur.Flags()) && cur.ZOrders(cur.Flags(), ret == 0)
      ensures !SetUpSucceeds(f, ch) ==>
        ret == -1 && cur.Holds(GpuOutcome(before, f).1) && cache.Value() == GpuOutcome(before, f).0
    {
      OverwriteTwice(before.hnd, f.layers);
      var programmed := false;
      ret := -1;
      if kind == Full {
        programmed := SetUpFrame(f);
        ret := 1;
      } else if kind == VideoOnly {
        programmed := SetUpVideo(f);
        ret := 0;
      }
      if programmed {
        cache.UpdateCounts(cur);
      } else {
        ResetAll(f);
        ret := -1;
      }
    }

    /** Asks isFullFrameDoable and then isOnlyVideoDoable. Answers Full for full and partial
        composition alike. */
    method Select(f: Frame, yuvIndices: seq<nat>) returns (kind: Kind)
      requires Valid() && |f.layers| == cur.layerCount <= MAX_NUM_APP_LAYERS && cur.needsRedraw
      requires ListsVideos(yuvIndices, f.layers)
      modifies cur, cur.layerToMDP, cur.mdpToLayer, cur.isFBComposed, cache.hnd
      ensures kind in {Full, VideoOnly, Gpu}
      ensures var ch := Choose(old(cache.Value()), f);
              kind == (if ch.kind == Partial then Full else ch.kind) && cache.hnd[..] == ch.hnd
      ensures kind != Gpu ==> cur.layerCount == |f.layers| && cur.Flags() == Choose(old(cache.Value()), f).fb
      ensures kind != Gpu ==> cur.fbCount == CountTrue(cur.Flags()) && cur.mdpCount == cur.layerCount - cur.fbCount
      ensures kind == Full ==> cur.fbZ == Choose(old(cache.Value()), f).fbZ
      ensures kind == VideoOnly ==> cur.needsRedraw
    {
      var ok := IsFullFrameDoable(f, yuvIndices);
      if ok { return Full; }
      ok := IsOnlyVideoDoable(f, yuvIndices);
      kind := if ok then VideoOnly else Gpu;
    }

    /** Full or partial composition: the framebuffer first, then the pipes. The answer that the
        framebuffer step gives about a redraw is overwritten by the one after the pipes. */
    method SetUpFrame(f: Frame) returns (ok: bool)
      requires Valid() && |f.layers| == cur.layerCount <= MAX_NUM_APP_LAYERS
      requires cur.mdpCount <= MAX_PIPES_PER_MIXER
      requires cur.fbCount == CountTrue(cur.Flags()) && cur.mdpCount == cur.layerCount - cur.fbCount
      modifies cur`needsRedraw, cur.layerToMDP, cur.mdpToLayer
      ensures ok == ((cur.fbZ >= 0 ==> f.fbConfigurable) && Programmed(f, cur.Flags()))
      ensures ok ==> cur.Mapped(cur.Flags()) && cur.ZOrders(cur.Flags(), false)
      ensures ok ==> cur.needsRedraw == CompositionChanged(cache.Value(), f, cur.fbCount, cur.mdpCount, cur.fbZ)
    {
      cur.Map();
      if cur.fbZ >= 0 {
        if !f.fbConfigurable { return false; }
        UpdateRedraw(f, f.dpy > 0);
      }
      ok := ProgramMDP(f);
      if ok { UpdateRedraw(f, false); }
    }

    /** Only the videos go to pipes; the framebuffer is put over them. */
    method SetUpVideo(f: Frame) returns (ok: bool)
      requires Valid() && |f.layers| == cur.layerCount <= MAX_NUM_APP_LAYERS
      requires cur.mdpCount <= MAX_PIPES_PER_MIXER
      requires cur.fbCount == CountTrue(cur.Flags()) && cur.mdpCount == cur.layerCount - cur.fbCount
      modifies cur`fbZ, cur.layerToMDP, cur.mdpToLayer
      ensures cur.fbZ == if cur.fbCount != 0 then cur.mdpCount else -1
      ensures ok == ((cur.fbZ >= 0 ==> f.fbConfigurable) && Programmed(f, cur.Flags()))
      ensures ok ==> cur.Mapped(cur.Flags()) && cur.ZOrders(cur.Flags(), true)
    {
      cur.fbZ := -1;
      if cur.fbCount != 0 { cur.fbZ := cur.mdpCount; }
      cur.Map();
      if cur.fbZ >= 0 {
        if !f.fbConfigurable { return false; }
      }
      ok := ProgramYUV(f);
    }
  }

  lemma OverwriteTwice(hnd: seq<int>, ls: seq<Layer>)
    requires |ls| <= |hnd|
    ensures Overwrite(Overwrite(hnd, ls), ls) == Overwrite(hnd, ls)
  {
  }

  /** The chosen MDP layers, and the framebuffer if it is needed, fit the mixer. */
  lemma {:induction false} PlanFits(c: Cache, f: Frame)
    requires WellFormed(f) && |f.layers| <= |c.hnd|
    ensures var fb := Choose(c, f).fb;
            Choose(c, f).kind != Gpu ==>
              |fb| - CountTrue(fb) + (if CountTrue(fb) > 0 then 1 else 0) <= f.maxPipes <= MAX_PIPES_PER_MIXER
  {
    CountConstant(Constant(|f.layers|, false), false, |f.layers|);
  }
}
