/** allocLayerPipes: how the layers of a planned frame get pipes from the pool. Videos come
    first and need VG pipes; of the others some may use a DMA pipe, all can use an RGB or a
    VG pipe. The order of the requests is fixed, yet success depends on counts only. */
module LayerPipes {
  import opened Options
  import opened PipeBook
  import opened PipeRuns
  import Overlay

  /** The size of yuvIndex. */
  const MAX_MDP_YUV_COUNT := 2

  /** What a layer asks for: nothing if it is in the framebuffer, a VG pipe if it is a video;
      `dma` if it may use a DMA pipe. */
  datatype Need = Flattened | Video | Other(dma: bool)

  /** All pipes were granted, one was not, or yuvIndex was written beyond its end. */
  datatype Grants = Granted(book: Book) | Refused(book: Book) | Overrun

  // ---------------------------------------------------------------- the requests as values

  /** getMdpPipe, with its cases that fall through. */
  function GetMdpPipe(b: Book, t: PipeType, dpy: int): (Book, Option<nat>)
    requires |b.types| == |b.slots|
  {
    match t
    case DMA => if NextPipe(b, DMA, dpy).1.Some? then NextPipe(b, DMA, dpy) else GetRgbOrVg(b, dpy)
    case ANY => GetRgbOrVg(b, dpy)
    case RGB => NextPipe(b, RGB, dpy)
    case VG => NextPipe(b, VG, dpy)
  }

  function GetRgbOrVg(b: Book, dpy: int): (Book, Option<nat>)
    requires |b.types| == |b.slots|
  {
    if NextPipe(b, RGB, dpy).1.Some? then NextPipe(b, RGB, dpy) else NextPipe(b, VG, dpy)
  }

  lemma GetKeepsTypes(b: Book, t: PipeType, dpy: int)
    requires |b.types| == |b.slots|
    ensures |GetMdpPipe(b, t, dpy).0.types| == |GetMdpPipe(b, t, dpy).0.slots|
  {
  }

  /** The first loop, from layer i on; `counter` entries of yuvIndex are filled. */
  function GrantVideos(b: Book, needs: seq<Need>, i: nat, counter: nat, dpy: int): (g: Grants)
    requires |b.types| == |b.slots| && i <= |needs|
    ensures g.Granted? ==> |g.book.types| == |g.book.slots|
    decreases |needs| - i
  {
    if i == |needs| then Granted(b)
    else if !needs[i].Video? then GrantVideos(b, needs, i + 1, counter, dpy)
    else
      var (b', pipe) := GetMdpPipe(b, VG, dpy);
      GetKeepsTypes(b, VG, dpy);
      if pipe.None? then Refused(b')
      else if counter >= MAX_MDP_YUV_COUNT then Overrun
      else GrantVideos(b', needs, i + 1, counter + 1, dpy)
  }

  /** The second loop. */
  function GrantOthers(b: Book, needs: seq<Need>, i: nat, dpy: int): Grants
    requires |b.types| == |b.slots| && i <= |needs|
    decreases |needs| - i
  {
    if i == |needs| then Granted(b)
    else if !needs[i].Other? then GrantOthers(b, needs, i + 1, dpy)
    else
      var (b', pipe) := GetMdpPipe(b, if needs[i].dma then DMA else ANY, dpy);
      GetKeepsTypes(b, if needs[i].dma then DMA else ANY, dpy);
      if pipe.None? then Refused(b') else GrantOthers(b', needs, i + 1, dpy)
  }

  function AllocLayerPipes(b: Book, needs: seq<Need>, dpy: int): Grants
    requires |b.types| == |b.slots|
  {
    var videos := GrantVideos(b, needs, 0, 0, dpy);
    if videos.Granted? then GrantOthers(videos.book, needs, 0, dpy) else videos
  }

  // ---------------------------------------------------------------- counting

  /** Slot i has the type and is available. */
  predicate IsLeft(b: Book, t: PipeType, dpy: int, i: nat)
    requires |b.types| == |b.slots| && i < |b.slots|
  {
    b.types[i] == t && Available(b, i, dpy)
  }

  /** How many pipes of the type are available among the first n slots. */
  function CountLeft(b: Book, t: PipeType, dpy: int, n: nat): nat
    requires n <= |b.types| == |b.slots|
  {
    if n == 0 then 0 else CountLeft(b, t, dpy, n - 1) + (if IsLeft(b, t, dpy, n - 1) then 1 else 0)
  }

  function Left(b: Book, t: PipeType, dpy: int): nat
    requires |b.types| == |b.slots|
  {
    CountLeft(b, t, dpy, |b.slots|)
  }

  function CountNeeds(needs: seq<Need>, need: Need, i: nat): nat
    requires i <= |needs|
    decreases |needs| - i
  {
    if i == |needs| then 0 else CountNeeds(needs, need, i + 1) + (if needs[i] == need then 1 else 0)
  }

  lemma {:induction false} CountLeftZero(b: Book, t: PipeType, dpy: int, n: nat)
    requires n <= |b.types| == |b.slots|
    ensures CountLeft(b, t, dpy, n) == 0 <==> forall i :: 0 <= i < n ==> !IsLeft(b, t, dpy, i)
  {
    if n > 0 { CountLeftZero(b, t, dpy, n - 1); }
  }

  lemma {:induction false} CountLeftAfter(b: Book, b': Book, t: PipeType, dpy: int, k: nat, n: nat)
    requires |b.types| == |b.slots| == |b'.slots| && b'.types == b.types && k < |b.slots| && n <= |b.slots|
    requires forall i :: 0 <= i < n && i != k ==> IsLeft(b', t, dpy, i) == IsLeft(b, t, dpy, i)
    requires !IsLeft(b', t, dpy, k)
    ensures CountLeft(b', t, dpy, n) == CountLeft(b, t, dpy, n) - (if k < n && IsLeft(b, t, dpy, k) then 1 else 0)
  {
    if n > 0 { CountLeftAfter(b, b', t, dpy, k, n - 1); }
  }

  /** A request for one type succeeds exactly if such a pipe is left, and takes one of them
      and none of another type. */
  lemma {:induction false} TypedRequest(b: Book, t: PipeType, dpy: int, t': PipeType)
    requires Wf(b) && IsDisplay(dpy) && t != ANY && t' != ANY
    ensures var (b', r) := NextPipe(b, t, dpy);
            && Wf(b') && (r.Some? <==> Left(b, t, dpy) > 0)
            && (r.None? ==> b' == b)
            && (r.Some? ==> Left(b', t', dpy) == Left(b, t', dpy) - (if t' == t then 1 else 0))
  {
    var (b', r) := NextPipe(b, t, dpy);
    NextPipeKeepsWf(b, t, dpy);
    NextPipeFailsIffNoneLeft(b, t, dpy);
    CountLeftZero(b, t, dpy, |b.slots|);
    forall i | 0 <= i < |b.slots|
      ensures IsLeft(b, t, dpy, i) <==> Matches(b, t, i) && Available(b, i, dpy)
    {
    }
    if r.Some? {
      NextPipeTakesOne(b, t, dpy, dpy);
      CountLeftAfter(b, b', t', dpy, r.value, |b.slots|);
    }
  }

  // ---------------------------------------------------------------- videos

  /** The first loop succeeds if and only if there are no more videos than VG pipes and than
      entries of yuvIndex, and it writes beyond the end if and only if more than two videos
      meet more than two VG pipes. */
  lemma {:induction false} VideosIff(b: Book, needs: seq<Need>, i: nat, counter: nat, dpy: int)
    requires Wf(b) && IsDisplay(dpy) && i <= |needs| && counter <= MAX_MDP_YUV_COUNT
    ensures var g := GrantVideos(b, needs, i, counter, dpy);
            var (videos, left) := (CountNeeds(needs, Video, i), Left(b, VG, dpy));
            && (g.Granted? <==> videos <= left && counter + videos <= MAX_MDP_YUV_COUNT)
            && (g.Overrun? <==> counter + videos > MAX_MDP_YUV_COUNT && counter + left > MAX_MDP_YUV_COUNT)
            && (g.Granted? ==> AfterVideos(b, g.book, videos, dpy))
    decreases |needs| - i
  {
    if i < |needs| {
      if needs[i].Video? {
        var b' := NextPipe(b, VG, dpy).0;
        TypedRequest(b, VG, dpy, VG);
        TypedRequest(b, VG, dpy, RGB);
        TypedRequest(b, VG, dpy, DMA);
        if NextPipe(b, VG, dpy).1.Some? && counter < MAX_MDP_YUV_COUNT {
          VideosIff(b', needs, i + 1, counter + 1, dpy);
        }
      } else {
        VideosIff(b, needs, i + 1, counter, dpy);
      }
    }
  }

  ghost predicate AfterVideos(b: Book, b': Book, videos: nat, dpy: int)
    requires |b.types| == |b.slots|
  {
    && Wf(b') && Left(b', VG, dpy) == Left(b, VG, dpy) - videos
    && Left(b', RGB, dpy) == Left(b, RGB, dpy) && Left(b', DMA, dpy) == Left(b, DMA, dpy)
  }

  // ---------------------------------------------------------------- all layers

  /** Layers that may use DMA pipes and find none left. */
  function Beyond(d: nat, left: nat): nat { if d > left then d - left else 0 }

  lemma {:induction false} OthersIff(b: Book, needs: seq<Need>, i: nat, dpy: int)
    requires Wf(b) && IsDisplay(dpy) && i <= |needs|
    ensures GrantOthers(b, needs, i, dpy).Granted? <==>
            CountNeeds(needs, Other(false), i) + Beyond(CountNeeds(needs, Other(true), i), Left(b, DMA, dpy)) <=
              Left(b, RGB, dpy) + Left(b, VG, dpy)
    ensures !GrantOthers(b, needs, i, dpy).Overrun?
    decreases |needs| - i
  {
    if i < |needs| {
      if needs[i].Other? {
        var (b', r) := GetMdpPipe(b, if needs[i].dma then DMA else ANY, dpy);
        RequestTakes(b, needs[i].dma, dpy);
        if r.Some? { OthersIff(b', needs, i + 1, dpy); }
      } else {
        OthersIff(b, needs, i + 1, dpy);
      }
    }
  }

  /** A request of an ordinary layer takes a DMA pipe if it may and can, and otherwise one
      RGB or VG pipe. */
  lemma {:induction false} RequestTakes(b: Book, dma: bool, dpy: int)
    requires Wf(b) && IsDisplay(dpy)
    ensures var (b', r) := GetMdpPipe(b, if dma then DMA else ANY, dpy);
            var fromDma := dma && Left(b, DMA, dpy) > 0;
            && (r.Some? <==> fromDma || Left(b, RGB, dpy) + Left(b, VG, dpy) > 0)
            && (r.Some? ==>
                  && Wf(b') && Left(b', DMA, dpy) == Left(b, DMA, dpy) - (if fromDma then 1 else 0)
                  && Left(b', RGB, dpy) + Left(b', VG, dpy) ==
                       Left(b, RGB, dpy) + Left(b, VG, dpy) - (if fromDma then 0 else 1))
  {
    RequestKeeps(b, DMA, dpy);
    RequestKeeps(b, RGB, dpy);
    RequestKeeps(b, VG, dpy);
  }

  lemma {:induction false} RequestKeeps(b: Book, t: PipeType, dpy: int)
    requires Wf(b) && IsDisplay(dpy) && t != ANY
    ensures var (b', r) := NextPipe(b, t, dpy);
            && Wf(b') && (r.Some? <==> Left(b, t, dpy) > 0)
            && (r.Some? ==>
                  && Left(b', DMA, dpy) == Left(b, DMA, dpy) - (if t == DMA then 1 else 0)
                  && Left(b', RGB, dpy) == Left(b, RGB, dpy) - (if t == RGB then 1 else 0)
                  && Left(b', VG, dpy) == Left(b, VG, dpy) - (if t == VG then 1 else 0))
  {
    TypedRequest(b, t, dpy, DMA);
    TypedRequest(b, t, dpy, RGB);
    TypedRequest(b, t, dpy, VG);
  }

  /** Every layer gets a pipe, whatever the order of the layers, if and only if the videos
      fit the VG pipes and yuvIndex, and the other layers fit the remaining RGB and VG pipes
      once those that may use DMA pipes have taken them. yuvIndex is overrun if and only if
      there are more than two videos and more than two VG pipes. */
  lemma {:induction false} AllocLayerPipesIff(b: Book, needs: seq<Need>, dpy: int)
    requires Wf(b) && IsDisplay(dpy)
    ensures var g := AllocLayerPipes(b, needs, dpy);
            var videos := CountNeeds(needs, Video, 0);
            && (g.Granted? <==>
                  && videos <= MAX_MDP_YUV_COUNT && videos <= Left(b, VG, dpy)
                  && videos + CountNeeds(needs, Other(false), 0) +
                       Beyond(CountNeeds(needs, Other(true), 0), Left(b, DMA, dpy)) <=
                     Left(b, RGB, dpy) + Left(b, VG, dpy))
            && (g.Overrun? <==> videos > MAX_MDP_YUV_COUNT && Left(b, VG, dpy) > MAX_MDP_YUV_COUNT)
  {
    VideosIff(b, needs, 0, 0, dpy);
    var videos := GrantVideos(b, needs, 0, 0, dpy);
    if videos.Granted? { OthersIff(videos.book, needs, 0, dpy); }
  }

  // ---------------------------------------------------------------- which pipes are left

  /** What is left of a pipe type after one layer that is no video was served: it takes a DMA
      pipe if it may and can, else an RGB pipe, and a VG pipe only if no RGB pipe is left. */
  lemma {:induction false} VgComesLast(b: Book, dma: bool, dpy: int)
    requires Wf(b) && IsDisplay(dpy) && GetMdpPipe(b, if dma then DMA else ANY, dpy).1.Some?
    ensures var b' := GetMdpPipe(b, if dma then DMA else ANY, dpy).0;
            var (fromDma, fromRgb) := (dma && Left(b, DMA, dpy) > 0, Left(b, RGB, dpy) > 0);
            && Wf(b')
            && Left(b', DMA, dpy) == Left(b, DMA, dpy) - (if fromDma then 1 else 0)
            && Left(b', RGB, dpy) == Left(b, RGB, dpy) - (if !fromDma && fromRgb then 1 else 0)
            && Left(b', VG, dpy) == Left(b, VG, dpy) - (if !fromDma && !fromRgb then 1 else 0)
  {
    RequestKeeps(b, DMA, dpy);
    RequestKeeps(b, RGB, dpy);
    RequestKeeps(b, VG, dpy);
  }

  /** How many DMA, RGB and VG pipes are left. */
  datatype Pipes = Pipes(dma: int, rgb: int, vg: int)

  function PipesLeft(b: Book, dpy: int): Pipes
    requires |b.types| == |b.slots|
  {
    Pipes(Left(b, DMA, dpy), Left(b, RGB, dpy), Left(b, VG, dpy))
  }

  /** What the layers leave: DMA pipes go to those that may use them, then RGB pipes go before
      VG pipes. */
  predicate TakenInOrder(p: Pipes, p': Pipes, dmaLayers: nat, others: nat)
    requires 0 <= p.dma && 0 <= p.rgb
  {
    var n := others + Beyond(dmaLayers, p.dma);
    p' == Pipes(Beyond(p.dma, dmaLayers), Beyond(p.rgb, n), p.vg - Beyond(n, p.rgb))
  }

  /** One layer more. */
  lemma {:induction false} OneMoreTaken(p: Pipes, q: Pipes, r: Pipes, dma: bool, dmaLayers: nat, others: nat)
    requires 0 <= p.dma && 0 <= p.rgb && 0 <= q.dma && 0 <= q.rgb
    requires q == if dma && p.dma > 0 then p.(dma := p.dma - 1)
                  else if p.rgb > 0 then p.(rgb := p.rgb - 1) else p.(vg := p.vg - 1)
    requires TakenInOrder(q, r, dmaLayers, others)
    ensures TakenInOrder(p, r, dmaLayers + (if dma then 1 else 0), others + (if dma then 0 else 1))
  {
  }

  lemma {:induction false} OthersTake(b: Book, needs: seq<Need>, i: nat, dpy: int)
    requires Wf(b) && IsDisplay(dpy) && i <= |needs| && GrantOthers(b, needs, i, dpy).Granted?
    ensures var b' := GrantOthers(b, needs, i, dpy).book;
            Wf(b') && TakenInOrder(PipesLeft(b, dpy), PipesLeft(b', dpy),
                                   CountNeeds(needs, Other(true), i), CountNeeds(needs, Other(false), i))
    decreases |needs| - i
  {
    if i < |needs| {
      if needs[i].Other? {
        var b1 := GetMdpPipe(b, if needs[i].dma then DMA else ANY, dpy).0;
        VgComesLast(b, needs[i].dma, dpy);
        OthersTake(b1, needs, i + 1, dpy);
        OneMoreTaken(PipesLeft(b, dpy), PipesLeft(b1, dpy), PipesLeft(GrantOthers(b, needs, i, dpy).book, dpy),
                     needs[i].dma, CountNeeds(needs, Other(true), i + 1), CountNeeds(needs, Other(false), i + 1));
      } else {
        OthersTake(b, needs, i + 1, dpy);
      }
    }
  }

  /** What all layers of a frame leave of each type, whatever their order: the videos take VG
      pipes; of the other layers those that may take DMA pipes while there are any, and the
      rest take RGB pipes, and VG pipes only when the RGB pipes are used up. */
  lemma {:induction false} AllocLayerPipesTakes(b: Book, needs: seq<Need>, dpy: int)
    requires Wf(b) && IsDisplay(dpy) && AllocLayerPipes(b, needs, dpy).Granted?
    ensures var b' := AllocLayerPipes(b, needs, dpy).book;
            var videos := CountNeeds(needs, Video, 0);
            var n := CountNeeds(needs, Other(false), 0) + Beyond(CountNeeds(needs, Other(true), 0), Left(b, DMA, dpy));
            && Wf(b')
            && Left(b', DMA, dpy) == Beyond(Left(b, DMA, dpy), CountNeeds(needs, Other(true), 0))
            && Left(b', RGB, dpy) == Beyond(Left(b, RGB, dpy), n)
            && Left(b', VG, dpy) == Left(b, VG, dpy) - videos - Beyond(n, Left(b, RGB, dpy))
  {
    VideosIff(b, needs, 0, 0, dpy);
    OthersTake(GrantVideos(b, needs, 0, 0, dpy).book, needs, 0, dpy);
  }

  // ---------------------------------------------------------------- the loops

  method RequestPipe(ov: Overlay.Overlay, t: PipeType, dpy: int) returns (dest: Option<nat>)
    requires ov.Valid()
    modifies ov`taken, ov.mPipe, ov.mDisplay
    ensures ov.Valid() && (ov.View(), dest) == GetMdpPipe(old(ov.View()), t, dpy)
    ensures forall o :: o in ov.Objects() ==> o in old(ov.Objects()) || fresh(o)
  {
    if t == DMA {
      dest := ov.NextPipe(DMA, dpy);
      if dest.Some? { return; }
    }
    if t != VG {
      dest := ov.NextPipe(RGB, dpy);
      if dest.Some? || t == RGB { return; }
    }
    dest := ov.NextPipe(VG, dpy);
  }

  /** What a loop ended with: all granted, or an early return, or a write beyond yuvIndex. */
  predicate Ended(g: Grants, b: Book, ok: bool, overrun: bool)
  {
    if overrun then g.Overrun? else g == if ok then Granted(b) else Refused(b)
  }

  /** One video: the pipe is stored unless yuvIndex is full. */
  method GrantVideo(ov: Overlay.Overlay, yuvIndex: array<int>, counter: nat, dpy: int)
    returns (index: Option<nat>, overrun: bool)
    requires ov.Valid() && yuvIndex != ov.mDisplay
    modifies ov`taken, ov.mPipe, ov.mDisplay, yuvIndex
    ensures ov.Valid() && (ov.View(), index) == GetMdpPipe(old(ov.View()), VG, dpy)
    ensures overrun == (index.Some? && counter >= yuvIndex.Length)
    ensures forall o :: o in ov.Objects() ==> o in old(ov.Objects()) || fresh(o)
  {
    index := RequestPipe(ov, VG, dpy);
    overrun := index.Some? && counter >= yuvIndex.Length;
    if index.Some? && !overrun {
      ghost var b := ov.View();
      yuvIndex[counter] := index.value;
      assert ov.View() == b;
    }
  }

  method AllocVideos(ov: Overlay.Overlay, needs: seq<Need>, dpy: int) returns (ok: bool, overrun: bool)
    requires ov.Valid()
    modifies ov`taken, ov.mPipe, ov.mDisplay
    ensures ov.Valid() && Ended(GrantVideos(old(ov.View()), needs, 0, 0, dpy), ov.View(), ok, overrun)
    ensures forall o :: o in ov.Objects() ==> o in old(ov.Objects()) || fresh(o)
  {
    ghost var goal := GrantVideos(ov.View(), needs, 0, 0, dpy);
    var yuvIndex := new int[MAX_MDP_YUV_COUNT](_ => OV_INVALID);
    var counter := 0;
    for i := 0 to |needs|
      invariant ov.Valid() && 0 <= counter <= MAX_MDP_YUV_COUNT
      invariant GrantVideos(ov.View(), needs, i, counter, dpy) == goal
      invariant forall o :: o in ov.Objects() ==> o in old(ov.Objects()) || fresh(o)
    {
      if needs[i].Video? {
        var index;
        index, overrun := GrantVideo(ov, yuvIndex, counter, dpy);
        if index.None? || overrun {
          return false, overrun;
        }
        counter := counter + 1;
      }
    }
    return true, false;
  }

  method AllocOthers(ov: Overlay.Overlay, needs: seq<Need>, dpy: int) returns (ok: bool)
    requires ov.Valid()
    modifies ov`taken, ov.mPipe, ov.mDisplay
    ensures ov.Valid() && Ended(GrantOthers(old(ov.View()), needs, 0, dpy), ov.View(), ok, false)
    ensures forall o :: o in ov.Objects() ==> o in old(ov.Objects()) || fresh(o)
  {
    ghost var goal := GrantOthers(ov.View(), needs, 0, dpy);
    for i := 0 to |needs|
      invariant ov.Valid() && GrantOthers(ov.View(), needs, i, dpy) == goal
      invariant forall o :: o in ov.Objects() ==> o in old(ov.Objects()) || fresh(o)
    {
      if needs[i].Other? {
        var index := RequestPipe(ov, if needs[i].dma then DMA else ANY, dpy);
        if index.None? {
          return false;
        }
      }
    }
    return true;
  }

  /** allocLayerPipes on the book in place. */
  method AllocAll(ov: Overlay.Overlay, needs: seq<Need>, dpy: int) returns (ok: bool, overrun: bool)
    requires ov.Valid()
    modifies ov`taken, ov.mPipe, ov.mDisplay
    ensures ov.Valid() && Ended(AllocLayerPipes(old(ov.View()), needs, dpy), ov.View(), ok, overrun)
  {
    ok, overrun := AllocVideos(ov, needs, dpy);
    if ok {
      ok := AllocOthers(ov, needs, dpy);
    }
  }

  // ---------------------------------------------------------------- what the planner overlooks

  lemma {:induction false} TypesAmongAvailable(b: Book, dpy: int, n: nat)
    requires n <= |b.types| == |b.slots|
    ensures CountLeft(b, RGB, dpy, n) + CountLeft(b, DMA, dpy, n) <= CountAvailable(b, dpy, n)
  {
    if n > 0 { TypesAmongAvailable(b, dpy, n - 1); }
  }

  /** The planner only asks for as many available pipes as layers, but of two layers that may
      not use DMA pipes one is refused if an RGB and a DMA pipe are left. */
  lemma {:induction false} CountIsNotEnough(b: Book, needs: seq<Need>, dpy: int)
    requires Wf(b) && IsDisplay(dpy) && needs == [Other(false), Other(false)]
    requires Left(b, RGB, dpy) == 1 && Left(b, VG, dpy) == 0 && Left(b, DMA, dpy) == 1
    ensures |needs| <= AvailablePipes(b, dpy) && !AllocLayerPipes(b, needs, dpy).Granted?
  {
    TypesAmongAvailable(b, dpy, |b.slots|);
    AllocLayerPipesIff(b, needs, dpy);
    assert CountNeeds(needs, Other(false), 2) == 0 && CountNeeds(needs, Other(false), 1) == 1;
  }
}
