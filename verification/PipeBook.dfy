/** The pool of hardware pipes as a value, the operations of Overlay on it, and what holds
    over whole runs of operations. Overlay.dfy has the operations in the source's form.

    A bitmap is modelled by the set of its bit positions. */
module PipeBook {
  import opened Geometry
  import opened Options
  import opened PipeControl

  const DPY_UNUSED := 3
  const OV_INVALID := 10

  datatype PipeType = RGB | VG | DMA | ANY

  /** GenericPipe: the control block and whether the last commit worked. */
  datatype Pipe = Pipe(ctrl: Ctrl, open: bool)

  /** One entry of mPipeBook. */
  datatype Slot = Slot(display: int, pipe: Option<Pipe>)

  datatype Book = Book(slots: seq<Slot>, types: seq<PipeType>, used: set<nat>, last: set<nat>, taken: set<nat>)

  const UNUSED_SLOT := Slot(DPY_UNUSED, None)

  function FreshPipe(): Pipe { Pipe(FreshCtrl(), false) }

  // ---------------------------------------------------------------- operations

  predicate Matches(b: Book, t: PipeType, i: nat)
    requires |b.types| == |b.slots| && i < |b.slots|
  {
    t == ANY || t == b.types[i]
  }

  /** Slot i has the wanted type and owner and is not allocated in this round. */
  predicate Free(b: Book, t: PipeType, owner: int, i: nat)
    requires |b.types| == |b.slots| && i < |b.slots|
  {
    Matches(b, t, i) && b.slots[i].display == owner && i !in b.taken
  }

  /** The first free slot from position i on, or the number of slots. */
  function FirstFree(b: Book, t: PipeType, owner: int, i: nat): (k: nat)
    requires |b.types| == |b.slots| && i <= |b.slots|
    ensures i <= k <= |b.slots|
    ensures forall j :: i <= j < k ==> !Free(b, t, owner, j)
    ensures k < |b.slots| ==> Free(b, t, owner, k)
    decreases |b.slots| - i
  {
    if i == |b.slots| || Free(b, t, owner, i) then i else FirstFree(b, t, owner, i + 1)
  }

  /** The slot nextPipe chooses: one the display already owns, else an unowned one. */
  function Chosen(b: Book, t: PipeType, dpy: int): (k: nat)
    requires |b.types| == |b.slots|
    ensures k <= |b.slots|
  {
    var own := FirstFree(b, t, dpy, 0);
    if own < |b.slots| then own else FirstFree(b, t, DPY_UNUSED, 0)
  }

  function NextPipe(b: Book, t: PipeType, dpy: int): (Book, Option<nat>)
    requires |b.types| == |b.slots|
  {
    var k := Chosen(b, t, dpy);
    if k == |b.slots| then (b, None)
    else
      var pipe := if b.slots[k].pipe.None? then Some(FreshPipe()) else b.slots[k].pipe;
      (b.(slots := b.slots[k := Slot(dpy, pipe)], taken := b.taken + {k}), Some(k))
  }

  /** The arguments of configMdp up to the commit: setSource, setTransform, setCrop, setPosition. */
  function SetUpCtrl(c: Ctrl, a: PipeArgs, orient: Transform, crop: Dim, position: Dim): Ctrl
  {
    var c1 := WithSource(c, a);
    c1.(ov := c1.ov.(userData := MdpOrient(orient), srcRect := crop, dstRect := position),
        orientation := MdpOrient(orient))
  }

  /** setSource marks VG pipes as shared and DMA pipes as forced. */
  function ArgsFor(t: PipeType, a: PipeArgs): PipeArgs
  {
    a.(flags := a.flags.(share := t == VG, forceDma := t == DMA))
  }

  predicate HasPipe(b: Book, i: nat)
  {
    i < |b.slots| && b.slots[i].pipe.Some?
  }

  function SetUp(b: Book, i: nat, a: PipeArgs, orient: Transform, crop: Dim, position: Dim): Book
    requires HasPipe(b, i) && |b.types| == |b.slots|
  {
    var p := b.slots[i].pipe.value;
    var c := SetUpCtrl(p.ctrl, ArgsFor(b.types[i], a), orient, crop, position);
    b.(slots := b.slots[i := b.slots[i].(pipe := Some(p.(ctrl := c)))])
  }

  /** The display gives up its round: no pipe of it is allocated or used, and each will be
      sent to the driver at its next commit. */
  function GiveUp(b: Book, dpy: int): Book
  {
    b.(slots := seq(|b.slots|, i requires 0 <= i < |b.slots| =>
         if b.slots[i].display == dpy && b.slots[i].pipe.Some? then
           b.slots[i].(pipe := Some(b.slots[i].pipe.value.(ctrl := b.slots[i].pipe.value.ctrl.(force := true))))
         else b.slots[i]),
       used := (set i | i in b.used && !OwnedBy(b, i, dpy)),
       taken := (set i | i in b.taken && !OwnedBy(b, i, dpy)))
  }

  predicate OwnedBy(b: Book, i: nat, dpy: int)
  {
    i < |b.slots| && b.slots[i].display == dpy
  }

  function CommitPipe(p: Pipe, downscale: nat, io: Ioctl): (Pipe, bool)
  {
    var (c, ok) := SetCtrl(p.ctrl.(downscale := downscale), io);
    (Pipe(c, ok), ok)
  }

  function Commit(b: Book, i: nat, downscale: nat, io: Ioctl): (Book, bool)
    requires HasPipe(b, i)
  {
    var (p, ok) := CommitPipe(b.slots[i].pipe.value, downscale, io);
    var b' := b.(slots := b.slots[i := b.slots[i].(pipe := Some(p))]);
    if ok then (b'.(used := b.used + {i}), true) else (GiveUp(b', b.slots[i].display), false)
  }

  function ConfigBegin(b: Book): Book
  {
    b.(used := {}, taken := {})
  }

  /** Pipes that were not used are destroyed, but only if the usage differs from last time. */
  function ConfigDone(b: Book): Book
  {
    if b.used == b.last then b
    else
      b.(slots := seq(|b.slots|, i requires 0 <= i < |b.slots| => if i in b.used then b.slots[i] else UNUSED_SLOT),
         last := b.used)
  }

  datatype Outcome = NotUsed | Queued(id: int) | Abort

  /** queueBuffer of Overlay and of the pipe; Abort is a failed OVASSERT. */
  function QueueBuffer(b: Book, i: nat): Outcome
  {
    if !HasPipe(b, i) then Abort
    else if i !in b.used then NotUsed
    else
      var p := b.slots[i].pipe.value;
      if !p.open || p.ctrl.ov.id == NEW_REQUEST then Abort else Queued(p.ctrl.ov.id)
  }

  predicate Available(b: Book, i: nat, dpy: int)
    requires i < |b.slots|
  {
    (b.slots[i].display == DPY_UNUSED || b.slots[i].display == dpy) && i !in b.taken
  }

  /** availablePipes, counted over the first n slots. */
  function CountAvailable(b: Book, dpy: int, n: nat): (k: nat)
    requires n <= |b.slots|
    ensures k <= n
  {
    if n == 0 then 0 else CountAvailable(b, dpy, n - 1) + (if Available(b, n - 1, dpy) then 1 else 0)
  }

  function AvailablePipes(b: Book, dpy: int): nat
  {
    CountAvailable(b, dpy, |b.slots|)
  }

  // ---------------------------------------------------------------- runs

  datatype Op =
    | OpBegin
    | OpDone
    | OpNext(t: PipeType, dpy: int)
    | OpSetUp(i: nat, args: PipeArgs, orient: Transform, crop: Dim, position: Dim)
    | OpCommit(i: nat, downscale: nat, io: Ioctl)
    | OpClear(dpy: int)

  lemma {:induction false} CommitKeepsWf(b: Book, i: nat, downscale: nat, io: Ioctl)
    requires Wf(b) && HasPipe(b, i)
    ensures Wf(Commit(b, i, downscale, io).0) && Commit(b, i, downscale, io).0.types == b.types
  {
    SetKeepsValid(b.slots[i].pipe.value.ctrl.(downscale := downscale), io);
    var (p, ok) := CommitPipe(b.slots[i].pipe.value, downscale, io);
    var b' := b.(slots := b.slots[i := b.slots[i].(pipe := Some(p))]);
    assert Wf(b');
    GiveUpKeepsWf(b', b.slots[i].display);
  }

  lemma GiveUpKeepsWf(b: Book, dpy: int)
    requires Wf(b)
    ensures Wf(GiveUp(b, dpy))
  {
  }

  lemma NextPipeKeepsWf(b: Book, t: PipeType, dpy: int)
    requires Wf(b) && 0 <= dpy < DPY_UNUSED
    ensures Wf(NextPipe(b, t, dpy).0)
  {
  }

  /** One operation. Those on a pipe that does not exist abort in validate() and do not
      belong to a run; they are taken to do nothing. */
  function Apply(b: Book, op: Op): (b': Book)
    requires Wf(b)
    ensures Wf(b') && b'.types == b.types
  {
    match op
    case OpBegin => ConfigBegin(b)
    case OpDone => ConfigDone(b)
    case OpNext(t, dpy) => if 0 <= dpy < DPY_UNUSED then NextPipeKeepsWf(b, t, dpy); NextPipe(b, t, dpy).0 else b
    case OpSetUp(i, a, orient, crop, position) => if HasPipe(b, i) then SetUp(b, i, a, orient, crop, position) else b
    case OpCommit(i, downscale, io) =>
      if HasPipe(b, i) then CommitKeepsWf(b, i, downscale, io); Commit(b, i, downscale, io).0 else b
    case OpClear(dpy) => if 0 <= dpy < DPY_UNUSED then GiveUpKeepsWf(b, dpy); GiveUp(b, dpy) else b
  }

  /** The shape every book keeps: a slot has a pipe exactly if it has an owner, and only
      owned slots are used. */
  ghost predicate Wf(b: Book)
  {
    && |b.types| == |b.slots| <= OV_INVALID
    && (forall i :: i in b.used || i in b.last || i in b.taken ==> i < |b.slots|)
    && (forall i :: 0 <= i < |b.slots| ==> SlotOk(b.slots[i]))
    && (forall i :: i in b.used ==> b.slots[i].pipe.Some?)
  }

  ghost predicate SlotOk(s: Slot)
  {
    && 0 <= s.display <= DPY_UNUSED
    && (s.pipe.Some? <==> s.display != DPY_UNUSED)
    && (s.pipe.Some? ==> ValidCtrl(s.pipe.value.ctrl))
  }

  function Run(b: Book, ops: seq<Op>): (b': Book)
    requires Wf(b)
    ensures Wf(b') && b'.types == b.types
    decreases |ops|
  {
    if ops == [] then b else Apply(Run(b, ops[..|ops| - 1]), ops[|ops| - 1])
  }

  function Initial(types: seq<PipeType>): (b: Book)
    requires |types| <= OV_INVALID
    ensures Wf(b)
  {
    Book(seq(|types|, i => UNUSED_SLOT), types, {}, {}, {})
  }
}
