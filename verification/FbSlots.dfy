/** The slots of the mapped framebuffer: gralloc_alloc_framebuffer_locked hands out windows of
    it and sets a bit of bufferMask for each, free_impl clears the bit again. The address of
    a slot uses the page-rounded buffer size, but the index on free divides by the unrounded
    one. */
module FbSlots {
  import opened Bits

  // ---------------------------------------------------------------- bits of a mask

  /** x & (1 << i) is not 0. */
  predicate TestBit(x: nat, i: nat)
  {
    if i == 0 then x % 2 == 1 else TestBit(x / 2, i - 1)
  }

  /** x | (1 << i) */
  function SetBit(x: nat, i: nat): nat
    decreases i
  {
    if i == 0 then x / 2 * 2 + 1 else 2 * SetBit(x / 2, i - 1) + x % 2
  }

  /** x & ~(1 << i) */
  function ClearBit(x: nat, i: nat): nat
    decreases i
  {
    if i == 0 then x / 2 * 2 else 2 * ClearBit(x / 2, i - 1) + x % 2
  }

  lemma {:induction false} BitAfterSet(x: nat, i: nat, j: nat)
    ensures TestBit(SetBit(x, i), j) <==> i == j || TestBit(x, j)
  {
    if i > 0 && j > 0 { BitAfterSet(x / 2, i - 1, j - 1); }
  }

  lemma {:induction false} BitAfterClear(x: nat, i: nat, j: nat)
    ensures TestBit(ClearBit(x, i), j) <==> i != j && TestBit(x, j)
  {
    if i > 0 && j > 0 { BitAfterClear(x / 2, i - 1, j - 1); }
  }

  lemma {:induction false} SetStaysBelow(x: nat, i: nat, n: nat)
    requires x < Pow2(n) && i < n
    ensures SetBit(x, i) < Pow2(n)
  {
    if i > 0 { SetStaysBelow(x / 2, i - 1, n - 1); }
  }

  lemma {:induction false} ClearStaysBelow(x: nat, i: nat, n: nat)
    requires x < Pow2(n)
    ensures ClearBit(x, i) < Pow2(n)
    decreases i
  {
    if i > 0 && n > 0 { ClearStaysBelow(x / 2, i - 1, n - 1); }
    if i > 0 && n == 0 { ClearStaysBelow(0, i - 1, 0); }
  }

  predicate AllSet(x: nat, n: nat)
  {
    forall i :: 0 <= i < n ==> TestBit(x, i)
  }

  lemma AllSetSplits(x: nat, n: nat)
    requires n > 0
    ensures AllSet(x, n) <==> x % 2 == 1 && AllSet(x / 2, n - 1)
  {
    if AllSet(x, n) {
      assert TestBit(x, 0);
      forall i | 0 <= i < n - 1
        ensures TestBit(x / 2, i)
      {
        assert TestBit(x, i + 1);
      }
    } else if x % 2 == 1 && AllSet(x / 2, n - 1) {
      forall i | 0 <= i < n
        ensures TestBit(x, i)
      {
        assert i > 0 ==> TestBit(x / 2, i - 1);
      }
    }
  }

  /** A mask of n bits compares as full exactly if all bits are set. */
  lemma {:induction false} FullIffAllSet(x: nat, n: nat)
    requires x < Pow2(n)
    ensures x >= Pow2(n) - 1 <==> AllSet(x, n)
  {
    if n > 0 {
      FullIffAllSet(x / 2, n - 1);
      AllSetSplits(x, n);
    }
  }

  // ---------------------------------------------------------------- the module as a value

  const EINVAL := 22
  const ENOMEM := 12

  /** The mapped framebuffer; bytes is the unrounded size of one buffer, line_length * yres. */
  datatype FbInfo = FbInfo(base: nat, bytes: nat, numBuffers: nat)
  {
    predicate Ok() { 0 < bytes && bytes + PAGE_SIZE - 1 < MAX_WORD && 1 <= numBuffers < 32 }

    function Window(): (r: nat)
      requires Ok()
      ensures bytes <= r < bytes + PAGE_SIZE
    {
      RoundUpToPageSizeIsLeastMultipleIff(bytes);
      PageRounded(bytes);
      RoundUpToPageSize(bytes)
    }

    function SlotBase(k: nat): nat
      requires Ok()
    {
      TimesIsNat(k, Window());
      base + k * Window()
    }
  }

  lemma TimesIsNat(k: nat, n: nat)
    ensures 0 <= k * n
  {
  }

  lemma PageRounded(x: nat)
    requires x + PAGE_SIZE - 1 < MAX_WORD
    ensures RoundUpToPageSize(x) == RoundUp(x, PAGE_SIZE)
  {
    assert Pow2(12) == PAGE_SIZE by { assert Pow2(6) == 64; }
    RoundUpToPageSizeIsLeastMultipleIff(x);
    AlignComputes(x, 12);
  }

  datatype Handle = Handle(base: nat, size: nat)

  datatype Fb = Fb(mask: nat, live: set<Handle>)

  /** Regular: an ordinary buffer is allocated instead, without the framebuffer. */
  datatype Result = Error(code: int) | Regular | Buffer(handle: Handle)

  /** The first slot from i on whose bit is clear, or numBuffers. */
  function FirstClear(mask: nat, n: nat, i: nat): (k: nat)
    requires i <= n
    ensures i <= k <= n && (k < n ==> !TestBit(mask, k)) && forall j :: i <= j < k ==> TestBit(mask, j)
    decreases n - i
  {
    if i == n || !TestBit(mask, i) then i else FirstClear(mask, n, i + 1)
  }

  /** heap tells whether the usage has graphics heap flags. */
  function Alloc(g: FbInfo, s: Fb, heap: bool): (Fb, Result)
    requires g.Ok()
  {
    if heap then (s, Error(-EINVAL))
    else if g.numBuffers == 1 then (s, Regular)
    else if s.mask >= Pow2(g.numBuffers) - 1 then (s, Error(-ENOMEM))
    else
      var k := FirstClear(s.mask, g.numBuffers, 0);
      var h := Handle(g.SlotBase(k), g.Window());
      (Fb(if k < g.numBuffers then SetBit(s.mask, k) else s.mask, s.live + {h}), Buffer(h))
  }

  function IndexOf(g: FbInfo, h: Handle): nat
    requires g.Ok() && g.base <= h.base
  {
    (h.base - g.base) / g.bytes
  }

  function Free(g: FbInfo, s: Fb, h: Handle): Fb
    requires g.Ok() && g.base <= h.base
  {
    Fb(ClearBit(s.mask, IndexOf(g, h)), s.live - {h})
  }

  // ---------------------------------------------------------------- the index on free

  /** Free finds the slot if and only if the rounding of the slots before it adds up to less
      than one buffer. */
  lemma {:induction false} IndexIsSlotIff(g: FbInfo, k: nat)
    requires g.Ok()
    ensures IndexOf(g, Handle(g.SlotBase(k), g.Window())) == k <==> k * (g.Window() - g.bytes) < g.bytes
  {
    var b, w := g.bytes, g.Window();
    assert k * w == k * b + k * (w - b);
    MulGrows(0, k, w - b);
    if k * (w - b) < b {
      RestIsUnique(k * w, b, k, k * (w - b));
    } else {
      var q := k * w / b;
      assert k * w == q * b + k * w % b;
    }
  }

  predicate Found(g: FbInfo, k: nat)
    requires g.Ok()
  {
    IndexOf(g, Handle(g.SlotBase(k), g.Window())) == k
  }

  /** Every slot is found if and only if the last one is. */
  predicate RoundsLittle(g: FbInfo)
    requires g.Ok()
  {
    (g.numBuffers - 1) * (g.Window() - g.bytes) < g.bytes
  }

  lemma AllSlotsFoundIff(g: FbInfo)
    requires g.Ok()
    ensures (forall k :: 0 <= k < g.numBuffers ==> Found(g, k)) <==> RoundsLittle(g)
  {
    var last := g.numBuffers - 1;
    IndexIsSlotIff(g, last);
    forall k | 0 <= k < g.numBuffers && RoundsLittle(g)
      ensures Found(g, k)
    {
      IndexIsSlotIff(g, k);
      MulGrows(k, last, g.Window() - g.bytes);
    }
    assert 0 <= last < g.numBuffers && (Found(g, last) ==> RoundsLittle(g));
  }

  /** Free takes slot k for another one: the rounding before it is a whole buffer or more, and
      still its offset is less than all unrounded buffers together. */
  predicate TakenForOther(g: FbInfo, k: nat)
    requires g.Ok()
  {
    k < g.numBuffers && g.bytes <= k * (g.Window() - g.bytes) && k * g.Window() < g.numBuffers * g.bytes
  }

  predicate Mixes(g: FbInfo)
    requires g.Ok()
  {
    exists k :: 0 <= k < g.numBuffers && TakenForOther(g, k)
  }

  lemma {:induction false} TakenForOtherIff(g: FbInfo, k: nat)
    requires g.Ok() && k < g.numBuffers
    ensures k <= IndexOf(g, SlotHandle(g, k))
    ensures TakenForOther(g, k) <==> k < IndexOf(g, SlotHandle(g, k)) < g.numBuffers
  {
    var b, w, n := g.bytes, g.Window(), g.numBuffers;
    assert IndexOf(g, SlotHandle(g, k)) == k * w / b;
    QuotientBelowIff(k * w, b, n);
    QuotientBelowIff(k * w, b, k);
    QuotientBelowIff(k * w, b, k + 1);
    RoundingAddsUp(k, b, w);
  }

  lemma RoundingAddsUp(k: nat, b: nat, w: nat)
    requires b <= w
    ensures k * w == k * b + k * (w - b) && 0 <= k * (w - b) && (k + 1) * b == k * b + b
  {
    MulGrows(0, k, w - b);
  }

  lemma {:induction false} QuotientBelowIff(x: nat, b: nat, n: nat)
    requires b > 0
    ensures x / b < n <==> x < n * b
  {
    var q := x / b;
    assert x == q * b + x % b;
    if q < n { MulMonotone(q, n, b); } else { MulGrows(n, q, b); }
  }

  // ---------------------------------------------------------------- what every run keeps

  datatype Op = OpAlloc(heap: bool) | OpFree(handle: Handle)

  function SlotHandle(g: FbInfo, k: nat): Handle
    requires g.Ok()
  {
    Handle(g.SlotBase(k), g.Window())
  }

  ghost predicate IsSlot(g: FbInfo, h: Handle)
    requires g.Ok()
  {
    exists k :: 0 <= k < g.numBuffers && h == SlotHandle(g, k)
  }

  /** Live handles are slots, and the bits of their slots are set. */
  ghost predicate Covered(g: FbInfo, s: Fb)
    requires g.Ok()
  {
    && s.mask < Pow2(g.numBuffers)
    && (forall k :: 0 <= k < g.numBuffers && SlotHandle(g, k) in s.live ==> TestBit(s.mask, k))
    && (forall h :: h in s.live ==> IsSlot(g, h))
  }

  /** And no other bits are set. */
  ghost predicate Exact(g: FbInfo, s: Fb)
    requires g.Ok()
  {
    Covered(g, s) && forall k :: 0 <= k < g.numBuffers && TestBit(s.mask, k) ==> SlotHandle(g, k) in s.live
  }

  /** Slots before one another have windows before one another. */
  lemma {:induction false} SlotsApart(g: FbInfo, j: nat, k: nat)
    requires g.Ok() && j < k
    ensures g.SlotBase(j) + g.Window() <= g.SlotBase(k)
  {
    MulMonotone(j, k, g.Window());
  }

  lemma {:induction false} SlotsDiffer(g: FbInfo, j: nat, k: nat)
    requires g.Ok() && SlotHandle(g, j) == SlotHandle(g, k)
    ensures j == k
  {
    if j < k { SlotsApart(g, j, k); }
    if k < j { SlotsApart(g, k, j); }
  }

  /** Allocation with a clear bit takes the first such slot, whose handle is not live. */
  lemma {:induction false} AllocTakesSlot(g: FbInfo, s: Fb, heap: bool) returns (k: nat)
    requires g.Ok() && Covered(g, s) && Alloc(g, s, heap).1.Buffer?
    ensures k < g.numBuffers && !TestBit(s.mask, k) && SlotHandle(g, k) !in s.live
    ensures forall j :: 0 <= j < k ==> TestBit(s.mask, j)
    ensures Alloc(g, s, heap) == (Fb(SetBit(s.mask, k), s.live + {SlotHandle(g, k)}), Buffer(SlotHandle(g, k)))
  {
    FullIffAllSet(s.mask, g.numBuffers);
    k := FirstClear(s.mask, g.numBuffers, 0);
  }

  /** The four outcomes: heap buffers are refused, a single buffer is not handed out, with more
      it fails exactly if every bit is set, and only a buffer that is handed out changes
      anything. */
  lemma {:induction false} AllocOutcomes(g: FbInfo, s: Fb, heap: bool)
    requires g.Ok() && Covered(g, s)
    ensures var (s', r) := Alloc(g, s, heap);
            && (r == Error(-EINVAL) <==> heap)
            && (r == Regular <==> !heap && g.numBuffers == 1)
            && (r == Error(-ENOMEM) <==> !heap && g.numBuffers > 1 && AllSet(s.mask, g.numBuffers))
            && (!r.Buffer? ==> s' == s && r in {Error(-EINVAL), Regular, Error(-ENOMEM)})
  {
    FullIffAllSet(s.mask, g.numBuffers);
  }

  lemma {:induction false} TakingKeepsCovered(g: FbInfo, s: Fb, k: nat)
    requires g.Ok() && Covered(g, s) && k < g.numBuffers
    ensures var s' := Fb(SetBit(s.mask, k), s.live + {SlotHandle(g, k)});
            Covered(g, s') && (Exact(g, s) ==> Exact(g, s'))
  {
    var s' := Fb(SetBit(s.mask, k), s.live + {SlotHandle(g, k)});
    SetStaysBelow(s.mask, k, g.numBuffers);
    forall j | 0 <= j < g.numBuffers
      ensures SlotHandle(g, j) in s'.live ==> TestBit(s'.mask, j)
      ensures Exact(g, s) && TestBit(s'.mask, j) ==> SlotHandle(g, j) in s'.live
    {
      BitAfterSet(s.mask, k, j);
      if SlotHandle(g, j) == SlotHandle(g, k) { SlotsDiffer(g, j, k); }
    }
    assert IsSlot(g, SlotHandle(g, k));
  }

  lemma {:induction false} AllocKeepsCovered(g: FbInfo, s: Fb, heap: bool)
    requires g.Ok() && Covered(g, s)
    ensures Covered(g, Alloc(g, s, heap).0) && (Exact(g, s) ==> Exact(g, Alloc(g, s, heap).0))
  {
    if Alloc(g, s, heap).1.Buffer? {
      var k := AllocTakesSlot(g, s, heap);
      TakingKeepsCovered(g, s, k);
    }
  }

  /** What clearing bit j does when the handle of slot k is freed. */
  lemma {:induction false} FreeClears(g: FbInfo, s: Fb, k: nat, j: nat)
    requires g.Ok() && s.mask < Pow2(g.numBuffers) && k < g.numBuffers && IndexOf(g, SlotHandle(g, k)) == j
    ensures var s' := Free(g, s, SlotHandle(g, k));
            && s'.mask < Pow2(g.numBuffers)
            && forall i :: 0 <= i < g.numBuffers ==>
                 (TestBit(s'.mask, i) <==> i != j && TestBit(s.mask, i)) &&
                 (SlotHandle(g, i) in s'.live <==> i != k && SlotHandle(g, i) in s.live)
  {
    ClearStaysBelow(s.mask, j, g.numBuffers);
    forall i | 0 <= i < g.numBuffers
      ensures TestBit(ClearBit(s.mask, j), i) <==> i != j && TestBit(s.mask, i)
      ensures SlotHandle(g, i) == SlotHandle(g, k) ==> i == k
    {
      BitAfterClear(s.mask, j, i);
      if SlotHandle(g, i) == SlotHandle(g, k) { SlotsDiffer(g, i, k); }
    }
  }

  lemma {:induction false} FreeKeepsCovered(g: FbInfo, s: Fb, k: nat)
    requires g.Ok() && Covered(g, s) && !Mixes(g) && k < g.numBuffers
    ensures Covered(g, Free(g, s, SlotHandle(g, k)))
  {
    TakenForOtherIff(g, k);
    FreeClears(g, s, k, IndexOf(g, SlotHandle(g, k)));
  }

  /** Freeing a live handle clears exactly the bit that its allocation set. */
  lemma {:induction false} FreeClearsItsBit(g: FbInfo, s: Fb, k: nat)
    requires g.Ok() && Exact(g, s) && RoundsLittle(g) && k < g.numBuffers
    ensures var s' := Free(g, s, SlotHandle(g, k));
            && Exact(g, s') && !TestBit(s'.mask, k)
            && forall j :: 0 <= j < g.numBuffers && j != k ==> (TestBit(s'.mask, j) <==> TestBit(s.mask, j))
  {
    AllSlotsFoundIff(g);
    assert Found(g, k);
    FreeClears(g, s, k, k);
  }

  /** One call; a handle that is not live is not freed. */
  function Apply(g: FbInfo, s: Fb, op: Op): Fb
    requires g.Ok()
  {
    match op
    case OpAlloc(heap) => Alloc(g, s, heap).0
    case OpFree(h) => if h in s.live && g.base <= h.base then Free(g, s, h) else s
  }

  function Run(g: FbInfo, ops: seq<Op>): Fb
    requires g.Ok()
    decreases |ops|
  {
    if ops == [] then Fb(0, {}) else Apply(g, Run(g, ops[..|ops| - 1]), ops[|ops| - 1])
  }

  lemma {:induction false} NoBits(i: nat)
    ensures !TestBit(0, i)
  {
    if i > 0 { NoBits(i - 1); }
  }

  lemma {:induction false} ApplyKeepsCovered(g: FbInfo, s: Fb, op: Op)
    requires g.Ok() && Covered(g, s) && !Mixes(g)
    ensures Covered(g, Apply(g, s, op)) && (RoundsLittle(g) && Exact(g, s) ==> Exact(g, Apply(g, s, op)))
  {
    match op
    case OpAlloc(heap) => AllocKeepsCovered(g, s, heap);
    case OpFree(h) =>
      if h in s.live {
        assert IsSlot(g, h);
        var k :| 0 <= k < g.numBuffers && h == SlotHandle(g, k);
        FreeKeepsCovered(g, s, k);
        if RoundsLittle(g) && Exact(g, s) { FreeClearsItsBit(g, s, k); }
      }
  }

  lemma {:induction false} RunKeepsCovered(g: FbInfo, ops: seq<Op>)
    requires g.Ok() && !Mixes(g)
    ensures Covered(g, Run(g, ops)) && (RoundsLittle(g) ==> Exact(g, Run(g, ops)))
    decreases |ops|
  {
    if ops == [] {
      forall i: nat ensures !TestBit(0, i) { NoBits(i); }
    } else {
      RunKeepsCovered(g, ops[..|ops| - 1]);
      ApplyKeepsCovered(g, Run(g, ops[..|ops| - 1]), ops[|ops| - 1]);
    }
  }

  // ---------------------------------------------------------------- windows

  predicate Disjoint(h: Handle, h': Handle)
  {
    h.base + h.size <= h'.base || h'.base + h'.size <= h.base
  }

  /** What allocation hands out lies in the mapped framebuffer and overlaps no live window. */
  ghost predicate HandsOutFree(g: FbInfo, s: Fb)
    requires g.Ok()
  {
    var r := Alloc(g, s, false).1;
    r.Buffer? ==>
      && g.base <= r.handle.base && r.handle.base + r.handle.size <= g.base + g.numBuffers * g.Window()
      && forall h :: h in s.live ==> Disjoint(r.handle, h)
  }

  lemma {:induction false} CoveredHandsOutFree(g: FbInfo, s: Fb)
    requires g.Ok() && Covered(g, s)
    ensures HandsOutFree(g, s)
  {
    if Alloc(g, s, false).1.Buffer? {
      var k := AllocTakesSlot(g, s, false);
      SlotsApart(g, k, g.numBuffers);
      TimesIsNat(k, g.Window());
      forall h | h in s.live
        ensures Disjoint(SlotHandle(g, k), h)
      {
        assert IsSlot(g, h);
        var j :| 0 <= j < g.numBuffers && h == SlotHandle(g, j);
        if j < k { SlotsApart(g, j, k); } else if k < j { SlotsApart(g, k, j); }
      }
    }
  }

  function AllAllocs(m: nat): (ops: seq<Op>)
    ensures |ops| == m
  {
    seq(m, i => OpAlloc(false))
  }

  /** The first m slots are live and no others. */
  ghost predicate FilledUpTo(g: FbInfo, s: Fb, m: nat)
    requires g.Ok()
  {
    Exact(g, s) && forall k :: 0 <= k < g.numBuffers ==> (SlotHandle(g, k) in s.live <==> k < m)
  }

  lemma {:induction false} FilledTakesNext(g: FbInfo, s: Fb, m: nat)
    requires g.Ok() && 1 < g.numBuffers && m < g.numBuffers && FilledUpTo(g, s, m)
    ensures Alloc(g, s, false).0.live == s.live + {SlotHandle(g, m)}
  {
    FullIffAllSet(s.mask, g.numBuffers);
    assert !TestBit(s.mask, m);
    var k := FirstClear(s.mask, g.numBuffers, 0);
    forall j | 0 <= j < m
      ensures TestBit(s.mask, j)
    {
      assert SlotHandle(g, j) in s.live;
    }
    assert k == m;
  }

  lemma {:induction false} FillOne(g: FbInfo, s: Fb, m: nat)
    requires g.Ok() && 1 < g.numBuffers && m < g.numBuffers && FilledUpTo(g, s, m)
    ensures FilledUpTo(g, Alloc(g, s, false).0, m + 1)
  {
    FilledTakesNext(g, s, m);
    AllocKeepsCovered(g, s, false);
    forall k | 0 <= k < g.numBuffers && SlotHandle(g, k) == SlotHandle(g, m)
      ensures k == m
    {
      SlotsDiffer(g, k, m);
    }
  }

  /** After m allocations the first m slots are live. */
  lemma {:induction false} Filled(g: FbInfo, m: nat)
    requires g.Ok() && 1 < g.numBuffers && m <= g.numBuffers
    ensures FilledUpTo(g, Run(g, AllAllocs(m)), m)
  {
    if m == 0 {
      forall i: nat ensures !TestBit(0, i) { NoBits(i); }
    } else {
      Filled(g, m - 1);
      assert AllAllocs(m)[..m - 1] == AllAllocs(m - 1);
      FillOne(g, Run(g, AllAllocs(m - 1)), m - 1);
    }
  }

  /** The run that fills all slots and then frees slot k. */
  lemma {:induction false} FilledThenFreed(g: FbInfo, k: nat)
    requires g.Ok() && 1 < g.numBuffers && k < g.numBuffers
    ensures var s := Run(g, AllAllocs(g.numBuffers) + [OpFree(SlotHandle(g, k))]);
            && s.mask < Pow2(g.numBuffers)
            && (forall i :: 0 <= i < g.numBuffers ==> (TestBit(s.mask, i) <==> i != IndexOf(g, SlotHandle(g, k))))
            && forall i :: 0 <= i < g.numBuffers ==> (SlotHandle(g, i) in s.live <==> i != k)
  {
    var n := g.numBuffers;
    var full := Run(g, AllAllocs(n));
    Filled(g, n);
    assert (AllAllocs(n) + [OpFree(SlotHandle(g, k))])[..n] == AllAllocs(n);
    assert SlotHandle(g, k) in full.live;
    TimesIsNat(k, g.Window());
    FreeClears(g, full, k, IndexOf(g, SlotHandle(g, k)));
  }

  /** If slot k is taken for slot j, freeing it makes the next allocation hand out slot j
      although that is live. */
  lemma {:induction false} MixedSlotCollides(g: FbInfo, k: nat)
    requires g.Ok() && TakenForOther(g, k)
    ensures !HandsOutFree(g, Run(g, AllAllocs(g.numBuffers) + [OpFree(SlotHandle(g, k))]))
  {
    var n, j := g.numBuffers, IndexOf(g, SlotHandle(g, k));
    TakenForOtherIff(g, k);
    FilledThenFreed(g, k);
    var s := Run(g, AllAllocs(n) + [OpFree(SlotHandle(g, k))]);
    FullIffAllSet(s.mask, n);
    assert !TestBit(s.mask, j);
    var c := FirstClear(s.mask, n, 0);
    assert c == j;
    assert SlotHandle(g, j) in s.live && !Disjoint(SlotHandle(g, j), SlotHandle(g, j));
  }

  /** In every sequence of allocations and frees, allocation hands out windows that overlap no
      live one, if and only if no slot is taken for another one on free. */
  lemma {:induction false} WindowsStayDisjointIff(g: FbInfo)
    requires g.Ok()
    ensures (forall ops :: HandsOutFree(g, Run(g, ops))) <==> !Mixes(g)
  {
    if Mixes(g) {
      var k :| 0 <= k < g.numBuffers && TakenForOther(g, k);
      MixedSlotCollides(g, k);
    } else {
      forall ops
        ensures HandsOutFree(g, Run(g, ops))
      {
        RunKeepsCovered(g, ops);
        CoveredHandsOutFree(g, Run(g, ops));
      }
    }
  }

  /** If every slot but perhaps the last one is found, none is taken for another. */
  lemma {:induction false} FoundSlotsDoNotMix(g: FbInfo)
    requires g.Ok() && (g.numBuffers - 2) * (g.Window() - g.bytes) < g.bytes
    ensures !Mixes(g)
  {
    forall k | 0 <= k < g.numBuffers
      ensures !TakenForOther(g, k)
    {
      if k < g.numBuffers - 1 {
        MulGrows(k, g.numBuffers - 2, g.Window() - g.bytes);
      } else {
        TakenForOtherIff(g, k);
      }
    }
  }

  ghost predicate AllTaken(g: FbInfo, s: Fb)
    requires g.Ok()
  {
    forall k :: 0 <= k < g.numBuffers ==> SlotHandle(g, k) in s.live
  }

  /** Without heap flags, allocation fails exactly while every slot has a live handle. */
  ghost predicate FailsWhenTaken(g: FbInfo, s: Fb)
    requires g.Ok()
  {
    Alloc(g, s, false).1 == Error(-ENOMEM) <==> AllTaken(g, s)
  }

  lemma {:induction false} ExactFailsWhenTaken(g: FbInfo, s: Fb)
    requires g.Ok() && Exact(g, s) && g.numBuffers > 1
    ensures FailsWhenTaken(g, s)
  {
    FullIffAllSet(s.mask, g.numBuffers);
    if AllTaken(g, s) {
      forall k | 0 <= k < g.numBuffers
        ensures TestBit(s.mask, k)
      {
        assert SlotHandle(g, k) in s.live;
      }
    }
  }

  /** If the last slot is not found on free, its bit stays set for ever. */
  lemma {:induction false} LostSlot(g: FbInfo)
    requires g.Ok() && g.numBuffers > 1 && !RoundsLittle(g)
    ensures !FailsWhenTaken(g, Run(g, AllAllocs(g.numBuffers) + [OpFree(SlotHandle(g, g.numBuffers - 1))]))
  {
    var last := g.numBuffers - 1;
    IndexIsSlotIff(g, last);
    TakenForOtherIff(g, last);
    FilledThenFreed(g, last);
    var s := Run(g, AllAllocs(g.numBuffers) + [OpFree(SlotHandle(g, last))]);
    FullIffAllSet(s.mask, g.numBuffers);
    assert SlotHandle(g, last) !in s.live;
  }

  /** With more than one buffer, allocation fails exactly while all slots are taken, in every
      sequence of calls, if and only if every slot is found on free. */
  lemma {:induction false} AllocFailsWhenTakenIff(g: FbInfo)
    requires g.Ok() && g.numBuffers > 1
    ensures (forall ops :: FailsWhenTaken(g, Run(g, ops))) <==> RoundsLittle(g)
  {
    if RoundsLittle(g) {
      MulGrows(g.numBuffers - 2, g.numBuffers - 1, g.Window() - g.bytes);
      FoundSlotsDoNotMix(g);
      forall ops
        ensures FailsWhenTaken(g, Run(g, ops))
      {
        RunKeepsCovered(g, ops);
        ExactFailsWhenTaken(g, Run(g, ops));
      }
    } else {
      LostSlot(g);
    }
  }

  // ---------------------------------------------------------------- two small framebuffers

  lemma {:induction false} OnePage(g: FbInfo)
    requires g.Ok() && 0 < g.bytes <= PAGE_SIZE
    ensures g.Window() == PAGE_SIZE
  {
    PageRounded(g.bytes);
    RestIsUnique(g.bytes + PAGE_SIZE - 1, PAGE_SIZE, 1, g.bytes - 1);
  }

  /** Three buffers of 64 bytes in 32 lines collide: the second one is taken for the third. */
  lemma {:induction false} HalfPagesCollide(g: FbInfo)
    requires g.bytes == 64 * 32 && g.numBuffers == 3
    ensures Mixes(g) && !HandsOutFree(g, Run(g, AllAllocs(3) + [OpFree(SlotHandle(g, 1))]))
  {
    OnePage(g);
    assert TakenForOther(g, 1);
    MixedSlotCollides(g, 1);
  }

  /** Three buffers of 2500 bytes stay disjoint, but the last one is lost when it is freed. */
  lemma {:induction false} LargerBuffersOnlyLeak(g: FbInfo)
    requires g.bytes == 2500 && g.numBuffers == 3
    ensures !Mixes(g) && !RoundsLittle(g)
  {
    OnePage(g);
    FoundSlotsDoNotMix(g);
  }

  // ---------------------------------------------------------------- the object

  /** The part of private_module_t that the two functions use. */
  class PrivateModule {
    const g: FbInfo
    var bufferMask: nat
    ghost var live: set<Handle>

    ghost function View(): Fb
      reads this
    {
      Fb(bufferMask, live)
    }

    constructor (g: FbInfo)
      ensures this.g == g && View() == Fb(0, {})
    {
      this.g, bufferMask, live := g, 0, {};
    }

    /** gralloc_alloc_framebuffer_locked */
    method AllocFramebuffer(heap: bool) returns (r: Result)
      requires g.Ok()
      modifies this
      ensures (View(), r) == Alloc(g, old(View()), heap)
    {
      if heap {
        return Error(-EINVAL);
      }
      var bufferSize := g.Window();
      if g.numBuffers == 1 {
        return Regular;
      }
      if bufferMask >= Pow2(g.numBuffers) - 1 {
        return Error(-ENOMEM);
      }
      var vaddr := TakeSlot(bufferSize);
      var h := Handle(vaddr, bufferSize);
      live := live + {h};
      return Buffer(h);
    }

    /** The search for a free slot. */
    method TakeSlot(bufferSize: nat) returns (vaddr: nat)
      requires g.Ok() && bufferSize == g.Window()
      modifies `bufferMask
      ensures var k := FirstClear(old(bufferMask), g.numBuffers, 0);
              vaddr == g.SlotBase(k) &&
              bufferMask == if k < g.numBuffers then SetBit(old(bufferMask), k) else old(bufferMask)
    {
      vaddr := g.base;
      var i := 0;
      ghost var k := FirstClear(bufferMask, g.numBuffers, 0);
      FirstSlot(g);
      while i < g.numBuffers
        invariant 0 <= i <= k && bufferMask == old(bufferMask) && vaddr == g.SlotBase(i)
      {
        if !TestBit(bufferMask, i) {
          bufferMask := SetBit(bufferMask, i);
          break;
        }
        NextSlot(g, i);
        vaddr := vaddr + bufferSize;
        i := i + 1;
      }
    }

    /** The branch of free_impl for framebuffer handles. */
    method FreeFramebuffer(h: Handle)
      requires g.Ok() && g.base <= h.base
      modifies this
      ensures View() == Free(g, old(View()), h)
    {
      var index := IndexOf(g, h);
      bufferMask := ClearBit(bufferMask, index);
      live := live - {h};
    }
  }

  lemma FirstSlot(g: FbInfo)
    requires g.Ok()
    ensures g.SlotBase(0) == g.base
  {
  }

  lemma NextSlot(g: FbInfo, i: nat)
    requires g.Ok()
    ensures g.SlotBase(i + 1) == g.SlotBase(i) + g.Window()
  {
  }
}
