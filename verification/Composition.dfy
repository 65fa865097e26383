/** What a planned frame means: which layers it batches, which mixer stage each of them
    gets, and that blending the stages gives the picture of the plain layer list. */
module Composition {
  import opened FramePlan
  import opened MdpComp

  // ---------------------------------------------------------------- the batch

  /** Layers that may stay in the framebuffer: unchanged, unless they are videos. */
  function Candidates(c: Cache, f: Frame): (s: seq<bool>)
    requires |f.layers| <= |c.hnd|
    ensures |s| == |f.layers|
  {
    AfterYuv(f, Unchanged(c.hnd, f.layers))
  }

  lemma PartialIsBatch(c: Cache, a: bool, f: Frame)
    requires |c.hnd| == MAX_NUM_APP_LAYERS && Prepare(c, a, f).2.kind == Partial
    ensures |f.layers| <= MAX_NUM_APP_LAYERS && HardConditions(f) && PartialPossible(f, c.hnd)
    ensures var d := Prepare(c, a, f).2;
            (d.fb, d.fbZ) == Batch(Candidates(c, f)) && d.fbCount == CountTrue(d.fb) && d.mdpCount == |d.fb| - d.fbCount
    ensures Prepare(c, a, f).0.hnd == Overwrite(c.hnd, f.layers)
  {
  }

  lemma FullHasNoBatch(c: Cache, a: bool, f: Frame)
    requires |c.hnd| == MAX_NUM_APP_LAYERS && Prepare(c, a, f).2.kind == Full
    ensures |f.layers| <= MAX_NUM_APP_LAYERS && FullPossible(f)
    ensures var d := Prepare(c, a, f).2;
            d.fb == Constant(|f.layers|, false) && d.fbZ == -1 && d.fbCount == 0 && d.mdpCount == |d.fb|
  {
    CountConstant(Constant(|f.layers|, false), false, |f.layers|);
  }

  /** `fb` marks the interval of `count` layers from fbZ on. */
  ghost predicate IsBatch(fb: seq<bool>, fbZ: int, count: int)
  {
    && (count == 0 ==> fbZ == -1)
    && (count > 0 ==> 0 <= fbZ)
    && 0 <= count && fbZ + count <= |fb|
    && forall i :: 0 <= i < |fb| ==> fb[i] == (count > 0 && fbZ <= i < fbZ + count)
  }

  lemma RunExists(s: seq<bool>)
    requires CountTrue(s) > 0
    ensures LongestRun(s).1 > 0
  {
    CountExtremes(s, |s|);
    var k :| 0 <= k < |s| && s[k];
    assert RunFrom(s, k) > 0;
  }

  lemma BatchShape(s: seq<bool>)
    ensures IsBatch(Batch(s).0, Batch(s).1, CountTrue(Batch(s).0))
  {
    CountExtremes(s, |s|);
    if 0 < CountTrue(s) < |s| {
      RunExists(s);
      var (start, count) := LongestRun(s);
      CountInterval(Interval(|s|, start, count), |s|, start, count);
    }
  }

  /** The framebuffer layers of a full or partial frame are one interval starting at fbZ. */
  lemma BatchIsInterval(c: Cache, a: bool, f: Frame)
    requires |c.hnd| == MAX_NUM_APP_LAYERS
    requires Prepare(c, a, f).2.kind in {Full, Partial}
    ensures var d := Prepare(c, a, f).2;
            IsBatch(d.fb, d.fbZ, d.fbCount) && d.fbCount + d.mdpCount == |f.layers|
  {
    if Prepare(c, a, f).2.kind == Partial {
      PartialIsBatch(c, a, f);
      BatchShape(Candidates(c, f));
    } else {
      FullHasNoBatch(c, a, f);
    }
  }

  lemma LongestIsOptimal(s: seq<bool>, from: nat, length: nat)
    requires from + length <= |s| && forall i :: from <= i < from + length ==> s[i]
    ensures length <= CountTrue(Batch(s).0)
    ensures length > 0 && length == CountTrue(Batch(s).0) ==> Batch(s).1 <= from
    ensures forall i :: 0 <= i < |s| && Batch(s).0[i] ==> s[i]
  {
    CountExtremes(s, |s|);
    if 0 < CountTrue(s) < |s| {
      var (start, count) := LongestRun(s);
      CountInterval(Interval(|s|, start, count), |s|, start, count);
      if from < |s| {
        RunInside(s, from, from + length);
      }
    } else if length > 0 {
      assert s[from];
    }
  }

  /** The batch is the earliest of the longest runs of candidates: no run is longer, and
      none as long starts before it. */
  lemma {:induction false} BatchIsOptimal(c: Cache, a: bool, f: Frame, from: nat, length: nat)
    requires |c.hnd| == MAX_NUM_APP_LAYERS && |f.layers| <= MAX_NUM_APP_LAYERS
    requires Prepare(c, a, f).2.kind == Partial
    requires from + length <= |f.layers| && forall i :: from <= i < from + length ==> Candidates(c, f)[i]
    ensures var d := Prepare(c, a, f).2;
            && length <= d.fbCount
            && (0 < length == d.fbCount ==> d.fbZ <= from)
            && forall i :: 0 <= i < |f.layers| && d.fb[i] ==> Candidates(c, f)[i]
  {
    PartialIsBatch(c, a, f);
    LongestIsOptimal(Candidates(c, f), from, length);
  }

  lemma {:induction false} OutsideBatch(s: seq<bool>, i: nat)
    requires i < |s| && s[i] && !Batch(s).0[i]
    ensures 0 < CountTrue(s) < |s|
    ensures var (start, count) := LongestRun(s); !(start <= i <= start + count)
  {
    CountExtremes(s, |s|);
  }

  lemma {:induction false} PulledOutAreSupported(c: Cache, f: Frame, i: nat)
    requires |f.layers| <= |c.hnd| && PartialPossible(f, c.hnd)
    requires i < |f.layers| && !Batch(Candidates(c, f)).0[i]
    ensures Supported(f.layers[i])
  {
    var s := Candidates(c, f);
    if s[i] {
      OutsideBatch(s, i);
    } else {
      assert !Unchanged(c.hnd, f.layers)[i] || f.layers[i].yuv;
    }
  }

  /** Every layer that goes to a pipe is one the pipes support, also the layer behind the
      batch that the second loop of batchLayers passes over. */
  lemma {:induction false} MdpLayersAreSupported(c: Cache, a: bool, f: Frame, i: nat)
    requires |c.hnd| == MAX_NUM_APP_LAYERS
    requires Prepare(c, a, f).2.kind in {Full, Partial}
    requires i < |f.layers| && !Prepare(c, a, f).2.fb[i]
    ensures Supported(f.layers[i])
  {
    if Prepare(c, a, f).2.kind == Partial {
      PartialIsBatch(c, a, f);
      PulledOutAreSupported(c, f, i);
    } else {
      FullHasNoBatch(c, a, f);
    }
  }

  // ---------------------------------------------------------------- the stages

  function StageCount(d: Decision): int
  {
    d.mdpCount + (if d.fbCount > 0 then 1 else 0)
  }

  /** z-order of a layer outside an interval of framebuffer layers. */
  lemma PipeZOfInterval(fb: seq<bool>, start: nat, count: nat, i: nat)
    requires i < |fb| && !fb[i]
    requires forall k :: 0 <= k < |fb| ==> fb[k] == (start <= k < start + count)
    ensures PipeZ(fb, i) == if i < start || count == 0 then i else i - count + 1
  {
    CountInterval(fb, i, start, count);
  }

  /** The stages fit the mixer. */
  lemma {:induction false} StagesFit(c: Cache, a: bool, f: Frame)
    requires |c.hnd| == MAX_NUM_APP_LAYERS && WellFormed(f)
    requires Prepare(c, a, f).2.kind in {Full, Partial, VideoOnly}
    ensures StageCount(Prepare(c, a, f).2) <= f.maxPipes
  {
    PlanFits(c, f);
  }

  /** No two pipes share a stage and none has the framebuffer's stage; the stages fit the mixer. */
  lemma StagesAreDistinct(c: Cache, a: bool, f: Frame, i: nat, j: nat)
    requires |c.hnd| == MAX_NUM_APP_LAYERS && WellFormed(f)
    requires Prepare(c, a, f).2.kind in {Full, Partial}
    requires i < j < |f.layers| && !Prepare(c, a, f).2.fb[i] && !Prepare(c, a, f).2.fb[j]
    ensures var d := Prepare(c, a, f).2;
            PipeZ(d.fb, i) < PipeZ(d.fb, j) < StageCount(d) <= f.maxPipes &&
            (d.fbCount > 0 ==> PipeZ(d.fb, i) != d.fbZ && PipeZ(d.fb, j) != d.fbZ)
  {
    var d := Prepare(c, a, f).2;
    BatchIsInterval(c, a, f);
    StagesFit(c, a, f);
    var start := if d.fbCount > 0 then d.fbZ else 0;
    PipeZOfInterval(d.fb, start, d.fbCount, i);
    PipeZOfInterval(d.fb, start, d.fbCount, j);
  }

  /** Every stage is used: by the framebuffer or by exactly the layer returned. */
  lemma EveryStageIsUsed(c: Cache, a: bool, f: Frame, z: nat) returns (i: nat)
    requires |c.hnd| == MAX_NUM_APP_LAYERS
    requires Prepare(c, a, f).2.kind in {Full, Partial} && z < StageCount(Prepare(c, a, f).2)
    ensures var d := Prepare(c, a, f).2;
            (d.fbCount > 0 && z == d.fbZ) ||
            (i < |f.layers| && !d.fb[i] && PipeZ(d.fb, i) == z)
  {
    var d := Prepare(c, a, f).2;
    BatchIsInterval(c, a, f);
    var start := if d.fbCount > 0 then d.fbZ else 0;
    i := if d.fbCount == 0 || z < start then z else z + d.fbCount - 1;
    if !(d.fbCount > 0 && z == d.fbZ) {
      PipeZOfInterval(d.fb, start, d.fbCount, i);
    }
  }

  // ---------------------------------------------------------------- the picture

  ghost predicate Reassociates<P>(over: (P, P) -> P, x: P, y: P, z: P)
  {
    over(over(x, y), z) == over(x, over(y, z))
  }

  ghost predicate Associative<P(!new)>(over: (P, P) -> P)
  {
    forall x, y, z :: Reassociates(over, x, y, z)
  }

  /** Pixels listed from the bottom up, each blended over what is below it. */
  ghost function Blend<P>(over: (P, P) -> P, px: seq<P>): P
    requires px != []
  {
    if |px| == 1 then px[0] else over(px[|px| - 1], Blend(over, px[..|px| - 1]))
  }

  lemma {:induction false} BlendConcat<P(!new)>(over: (P, P) -> P, below: seq<P>, above: seq<P>)
    requires Associative(over) && below != [] && above != []
    ensures Blend(over, below + above) == over(Blend(over, above), Blend(over, below))
    decreases |above|
  {
    var all := below + above;
    if |above| == 1 {
      assert all[..|all| - 1] == below;
    } else {
      assert all[..|all| - 1] == below + above[..|above| - 1];
      BlendConcat(over, below, above[..|above| - 1]);
      assert Reassociates(over, above[|above| - 1], Blend(over, above[..|above| - 1]), Blend(over, below));
    }
  }

  lemma SameAbove<P(!new)>(over: (P, P) -> P, x: seq<P>, y: seq<P>, above: seq<P>)
    requires Associative(over) && x != [] && y != [] && Blend(over, x) == Blend(over, y)
    ensures Blend(over, x + above) == Blend(over, y + above)
  {
    if above == [] {
      assert x + above == x && y + above == y;
    } else {
      BlendConcat(over, x, above);
      BlendConcat(over, y, above);
    }
  }

  lemma SameBelow<P(!new)>(over: (P, P) -> P, below: seq<P>, x: seq<P>, y: seq<P>)
    requires Associative(over) && x != [] && y != [] && Blend(over, x) == Blend(over, y)
    ensures Blend(over, below + x) == Blend(over, below + y)
  {
    if below == [] {
      assert below + x == x && below + y == y;
    } else {
      BlendConcat(over, below, x);
      BlendConcat(over, below, y);
    }
  }

  /** Flattening a contiguous part of the list into one pixel does not change the blend. */
  lemma BlendFlattened<P(!new)>(over: (P, P) -> P, px: seq<P>, start: nat, count: nat)
    requires Associative(over) && count > 0 && start + count <= |px|
    ensures Blend(over, Flat(px, start, count, Blend(over, px[start..start + count]))) == Blend(over, px)
  {
    var below, batch, above := px[..start], px[start..start + count], px[start + count..];
    SameBelow(over, below, batch, [Blend(over, batch)]);
    SameAbove(over, below + batch, below + [Blend(over, batch)], above);
    assert px == below + batch + above;
  }

  /** The pixels of the framebuffer layers, in list order. */
  ghost function Selected<P>(fb: seq<bool>, px: seq<P>, n: nat): seq<P>
    requires n <= |fb| == |px|
  {
    if n == 0 then [] else Selected(fb, px, n - 1) + (if fb[n - 1] then [px[n - 1]] else [])
  }

  lemma {:induction false} SelectedInterval<P>(fb: seq<bool>, px: seq<P>, n: nat, start: nat, count: nat)
    requires n <= |fb| == |px| && start + count <= |fb|
    requires forall k :: 0 <= k < |fb| ==> fb[k] == (start <= k < start + count)
    ensures Selected(fb, px, n) ==
            if n <= start then [] else if n <= start + count then px[start..n] else px[start..start + count]
  {
    if n > 0 { SelectedInterval(fb, px, n - 1, start, count); }
  }

  /** The framebuffer layers of a batch are that part of the list. */
  lemma {:induction false} SelectedBatch<P>(fb: seq<bool>, px: seq<P>, start: int, count: int) returns (batch: seq<P>)
    requires |fb| == |px| && IsBatch(fb, start, count) && count > 0
    ensures start + count <= |px| && batch == px[start..start + count] == Selected(fb, px, |px|) && batch != []
  {
    SelectedInterval(fb, px, |px|, start, count);
    batch := px[start..start + count];
  }

  ghost predicate OnItsStage<P>(fb: seq<bool>, px: seq<P>, stages: seq<P>, i: nat)
    requires i < |fb| == |px|
  {
    PipeZ(fb, i) < |stages| && stages[PipeZ(fb, i)] == px[i]
  }

  ghost predicate PipesShown<P>(fb: seq<bool>, px: seq<P>, stages: seq<P>)
    requires |px| == |fb|
  {
    forall i :: 0 <= i < |px| && !fb[i] ==> OnItsStage(fb, px, stages, i)
  }

  /** The mixer shows, at one screen position, on every pipe's stage that layer's pixel and
      on the framebuffer's stage the framebuffer layers blended together. */
  ghost predicate Shows<P>(over: (P, P) -> P, d: Decision, px: seq<P>, stages: seq<P>)
    requires |px| == |d.fb|
  {
    && |stages| == StageCount(d)
    && PipesShown(d.fb, px, stages)
    && (d.fbCount > 0 ==>
          0 <= d.fbZ < |stages| && Selected(d.fb, px, |px|) != [] &&
          stages[d.fbZ] == Blend(over, Selected(d.fb, px, |px|)))
  }

  lemma NoBatchIsTheList<P>(fb: seq<bool>, px: seq<P>, stages: seq<P>)
    requires |fb| == |px| == |stages| && forall k :: 0 <= k < |fb| ==> !fb[k]
    ensures PipesShown(fb, px, stages) <==> stages == px
  {
    forall z | 0 <= z < |px|
      ensures OnItsStage(fb, px, stages, z) <==> stages[z] == px[z]
    {
      PipeZOfInterval(fb, 0, 0, z);
    }
    if PipesShown(fb, px, stages) {
      forall z | 0 <= z < |px|
        ensures stages[z] == px[z]
      {
        assert OnItsStage(fb, px, stages, z);
      }
    }
  }

  /** The layer list with `count` layers from `start` on replaced by one pixel. */
  function Flat<P>(px: seq<P>, start: nat, count: nat, x: P): (r: seq<P>)
    requires 0 < count && start + count <= |px|
    ensures |r| == |px| - count + 1
    ensures forall z :: 0 <= z < |r| ==>
              r[z] == if z < start then px[z] else if z == start then x else px[z + count - 1]
  {
    px[..start] + [x] + px[start + count..]
  }

  /** What the mixer shows is the layer list with the batch replaced by one pixel. */
  lemma StagesAreFlat<P>(over: (P, P) -> P, d: Decision, px: seq<P>, stages: seq<P>)
    requires IsBatch(d.fb, d.fbZ, d.fbCount) && d.fbCount + d.mdpCount == |d.fb| == |px|
    requires d.fbCount > 0 && Shows(over, d, px, stages)
    ensures stages == Flat(px, d.fbZ, d.fbCount, stages[d.fbZ])
  {
    var flat := Flat(px, d.fbZ, d.fbCount, stages[d.fbZ]);
    forall z | 0 <= z < |stages|
      ensures stages[z] == flat[z]
    {
      if z != d.fbZ {
        var i := if z < d.fbZ then z else z + d.fbCount - 1;
        assert !d.fb[i] && OnItsStage(d.fb, px, stages, i);
        PipeZOfInterval(d.fb, d.fbZ, d.fbCount, i);
      }
    }
  }

  lemma BatchKeepsPicture<P(!new)>(over: (P, P) -> P, d: Decision, px: seq<P>, stages: seq<P>)
    requires IsBatch(d.fb, d.fbZ, d.fbCount) && d.fbCount + d.mdpCount == |d.fb| == |px| > 0
    requires Associative(over) && Shows(over, d, px, stages)
    ensures stages != [] && Blend(over, stages) == Blend(over, px)
  {
    if d.fbCount > 0 {
      var batch := SelectedBatch(d.fb, px, d.fbZ, d.fbCount);
      StagesAreFlat(over, d, px, stages);
      assert stages[d.fbZ] == Blend(over, batch);
      BlendFlattened(over, px, d.fbZ, d.fbCount);
    } else {
      NoBatchIsTheList(d.fb, px, stages);
    }
  }

  /** Composition keeps its meaning: for every frame that is composed fully or partially by
      pipes, and any associative blending, the mixer output is the blend of all layers. */
  lemma CompositionKeepsPicture<P(!new)>(c: Cache, a: bool, f: Frame, over: (P, P) -> P, px: seq<P>, stages: seq<P>)
    requires |c.hnd| == MAX_NUM_APP_LAYERS
    requires Prepare(c, a, f).2.kind in {Full, Partial}
    requires Associative(over) && |px| == |f.layers|
    requires Shows(over, Prepare(c, a, f).2, px, stages)
    ensures stages != [] && px != [] && Blend(over, stages) == Blend(over, px)
  {
    BatchIsInterval(c, a, f);
    assert px != [];
    BatchKeepsPicture(over, Prepare(c, a, f).2, px, stages);
  }

  lemma FlatHoldsPipes<P>(d: Decision, px: seq<P>, batch: P)
    requires IsBatch(d.fb, d.fbZ, d.fbCount) && d.fbCount + d.mdpCount == |d.fb| == |px| && d.fbCount > 0
    ensures PipesShown(d.fb, px, Flat(px, d.fbZ, d.fbCount, batch))
  {
    var stages := Flat(px, d.fbZ, d.fbCount, batch);
    forall i | 0 <= i < |px| && !d.fb[i]
      ensures OnItsStage(d.fb, px, stages, i)
    {
      PipeZOfInterval(d.fb, d.fbZ, d.fbCount, i);
    }
  }

  lemma {:induction false} FlatIsShown<P>(over: (P, P) -> P, d: Decision, px: seq<P>, stages: seq<P>, batch: seq<P>)
    requires IsBatch(d.fb, d.fbZ, d.fbCount) && d.fbCount + d.mdpCount == |d.fb| == |px| && d.fbCount > 0
    requires batch == Selected(d.fb, px, |px|) && batch != []
    requires stages == Flat(px, d.fbZ, d.fbCount, Blend(over, batch)) && PipesShown(d.fb, px, stages)
    ensures Shows(over, d, px, stages)
  {
  }

  lemma {:induction false} BatchCanBeShown<P>(over: (P, P) -> P, d: Decision, px: seq<P>) returns (stages: seq<P>)
    requires IsBatch(d.fb, d.fbZ, d.fbCount) && d.fbCount + d.mdpCount == |d.fb| == |px|
    ensures Shows(over, d, px, stages)
  {
    if d.fbCount == 0 {
      stages := px;
      NoBatchIsTheList(d.fb, px, stages);
    } else {
      var batch := SelectedBatch(d.fb, px, d.fbZ, d.fbCount);
      stages := Flat(px, d.fbZ, d.fbCount, Blend(over, batch));
      FlatHoldsPipes(d, px, Blend(over, batch));
      FlatIsShown(over, d, px, stages, batch);
    }
  }

  /** The mixer can always be loaded that way: `Shows` is met by some stages. */
  lemma {:induction false} StagesExist<P>(
    c: Cache, a: bool, f: Frame, over: (P, P) -> P, px: seq<P>)
    returns (stages: seq<P>)
    requires |c.hnd| == MAX_NUM_APP_LAYERS
    requires Prepare(c, a, f).2.kind in {Full, Partial}
    requires |px| == |f.layers|
    ensures Shows(over, Prepare(c, a, f).2, px, stages)
  {
    BatchIsInterval(c, a, f);
    stages := BatchCanBeShown(over, Prepare(c, a, f).2, px);
  }
}
