/** What the pool of pipes guarantees over whole runs of operations: accounting within a
    round, ownership across rounds, and live driver sessions. */
module PipeRuns {
  import opened Geometry
  import opened Options
  import opened PipeControl
  import opened PipeBook

  predicate IsDisplay(dpy: int) { 0 <= dpy < DPY_UNUSED }

  // ---------------------------------------------------------------- accounting

  /** nextPipe fails exactly when no available pipe has the wanted type. */
  lemma NextPipeFailsIffNoneLeft(b: Book, t: PipeType, dpy: int)
    requires Wf(b)
    ensures NextPipe(b, t, dpy).1.None? <==>
            forall i :: 0 <= i < |b.slots| && Matches(b, t, i) ==> !Available(b, i, dpy)
  {
    var own, none := FirstFree(b, t, dpy, 0), FirstFree(b, t, DPY_UNUSED, 0);
    forall i | 0 <= i < |b.slots| && Matches(b, t, i)
      ensures Available(b, i, dpy) <==> Free(b, t, dpy, i) || Free(b, t, DPY_UNUSED, i)
    {
    }
    if own < |b.slots| { assert Matches(b, t, own) && Available(b, own, dpy); }
    if none < |b.slots| { assert Matches(b, t, none) && Available(b, none, dpy); }
  }

  lemma {:induction false} CountZero(b: Book, dpy: int, n: nat)
    requires n <= |b.slots|
    ensures CountAvailable(b, dpy, n) == 0 <==> forall i :: 0 <= i < n ==> !Available(b, i, dpy)
  {
    if n > 0 { CountZero(b, dpy, n - 1); }
  }

  lemma {:induction false} CountAfterTaking(b: Book, b': Book, dpy: int, k: nat, n: nat)
    requires k < |b.slots| == |b'.slots| && n <= |b.slots|
    requires forall i :: 0 <= i < n && i != k ==> Available(b', i, dpy) == Available(b, i, dpy)
    requires !Available(b', k, dpy)
    ensures CountAvailable(b', dpy, n) == CountAvailable(b, dpy, n) - (if k < n && Available(b, k, dpy) then 1 else 0)
  {
    if n > 0 { CountAfterTaking(b, b', dpy, k, n - 1); }
  }

  /** A request for any type fails exactly when availablePipes is 0. */
  lemma AnyRequestFailsIffCountIsZero(b: Book, dpy: int)
    requires Wf(b)
    ensures NextPipe(b, ANY, dpy).1.None? <==> AvailablePipes(b, dpy) == 0
  {
    NextPipeFailsIffNoneLeft(b, ANY, dpy);
    CountZero(b, dpy, |b.slots|);
    if forall i :: 0 <= i < |b.slots| && Matches(b, ANY, i) ==> !Available(b, i, dpy) {
      forall i | 0 <= i < |b.slots| ensures !Available(b, i, dpy) { assert Matches(b, ANY, i); }
    }
  }

  /** Each success gives the display a pipe it may use, lowers its own count by exactly one,
      and another display's count exactly if the pipe had no owner before. */
  lemma NextPipeTakesOne(b: Book, t: PipeType, dpy: int, other: int)
    requires Wf(b) && IsDisplay(dpy) && IsDisplay(other)
    requires NextPipe(b, t, dpy).1.Some?
    ensures var (b', r) := NextPipe(b, t, dpy);
            var k := r.value;
            && k < |b.slots| && Matches(b, t, k) && Available(b, k, dpy)
            && b'.slots[k].display == dpy && HasPipe(b', k) && k in b'.taken
            && AvailablePipes(b', dpy) == AvailablePipes(b, dpy) - 1
            && AvailablePipes(b', other) ==
               AvailablePipes(b, other) - (if other == dpy || b.slots[k].display == DPY_UNUSED then 1 else 0)
  {
    var (b', r) := NextPipe(b, t, dpy);
    var k := r.value;
    CountAfterTaking(b, b', dpy, k, |b.slots|);
    CountAfterTaking(b, b', other, k, |b.slots|);
  }

  /** The operation may take back pipes that display d was given in this round. */
  predicate TakesBack(b: Book, op: Op, d: int)
    requires Wf(b)
  {
    match op
    case OpBegin => true
    case OpClear(dpy) => dpy == d
    case OpCommit(i, downscale, io) => HasPipe(b, i) && b.slots[i].display == d && !Commit(b, i, downscale, io).1
    case _ => false
  }

  /** No operation of the run takes back a pipe of display d, or ends the round. */
  ghost predicate KeepsGrants(b: Book, ops: seq<Op>, d: int)
    requires Wf(b)
  {
    forall k :: 0 <= k < |ops| ==> !TakesBack(Run(b, ops[..k]), ops[k], d) && ops[k] != OpDone
  }

  lemma {:induction false} RunStep(b: Book, ops: seq<Op>, k: nat)
    requires Wf(b) && k < |ops|
    ensures Run(b, ops[..k + 1]) == Apply(Run(b, ops[..k]), ops[k])
  {
    assert ops[..k + 1][..k] == ops[..k];
  }

  lemma {:induction false} GrantStep(b: Book, op: Op, i: nat)
    requires Wf(b) && i in b.taken && b.slots[i].display != DPY_UNUSED
    requires !TakesBack(b, op, b.slots[i].display) && op != OpDone
    ensures var b' := Apply(b, op); i in b'.taken && i < |b'.slots| && b'.slots[i].display == b.slots[i].display
  {
    OwnerStep(b, op, i);
  }

  lemma {:induction false} GrantStays(b: Book, ops: seq<Op>, i: nat, n: nat)
    requires Wf(b) && i in b.taken && b.slots[i].display != DPY_UNUSED
    requires KeepsGrants(b, ops, b.slots[i].display) && n <= |ops|
    ensures var b' := Run(b, ops[..n]); i in b'.taken && i < |b'.slots| && b'.slots[i].display == b.slots[i].display
  {
    if n > 0 {
      GrantStays(b, ops, i, n - 1);
      RunStep(b, ops, n - 1);
      GrantStep(Run(b, ops[..n - 1]), ops[n - 1], i);
    }
  }

  /** Until its display gives up the round, a pipe that was handed out is not handed out
      again, to any display. */
  lemma {:induction false} NoPipeTwice(b: Book, t: PipeType, d: int, ops: seq<Op>, t': PipeType, d': int)
    requires Wf(b) && IsDisplay(d) && IsDisplay(d') && NextPipe(b, t, d).1.Some?
    requires Wf(NextPipe(b, t, d).0) && KeepsGrants(NextPipe(b, t, d).0, ops, d)
    ensures NextPipe(Run(NextPipe(b, t, d).0, ops), t', d').1 != NextPipe(b, t, d).1
  {
    var (b1, r) := NextPipe(b, t, d);
    GrantStays(b1, ops, r.value, |ops|);
    assert ops[..|ops|] == ops;
  }

  // ---------------------------------------------------------------- ownership

  /** The operation destroys the pipe of slot i: the driver is told to unset it. */
  predicate Destroys(b: Book, op: Op, i: nat)
  {
    op == OpDone && b.used != b.last && i !in b.used
  }

  /** One operation changes the owner of a slot only from nobody to the requesting display,
      or to nobody by destroying the pipe. */
  lemma OwnerStep(b: Book, op: Op, i: nat)
    requires Wf(b) && i < |b.slots|
    ensures var b' := Apply(b, op);
            && |b'.slots| == |b.slots|
            && (b'.slots[i].display == b.slots[i].display ||
                (b.slots[i].display == DPY_UNUSED && op.OpNext? && b'.slots[i].display == op.dpy) ||
                (Destroys(b, op, i) && b'.slots[i] == UNUSED_SLOT))
  {
  }

  /** A pipe owned by one display and later by another was destroyed in between, while the
      first one still owned it. */
  lemma {:induction false} NewOwnerNeedsDestroy(b: Book, ops: seq<Op>, i: nat) returns (k: nat)
    requires Wf(b) && i < |b.slots| && b.slots[i].display != DPY_UNUSED
    requires i < |Run(b, ops).slots| && Run(b, ops).slots[i].display != b.slots[i].display
    ensures k < |ops|
    ensures var m := Run(b, ops[..k]);
            i < |m.slots| && m.slots[i].display == b.slots[i].display && Destroys(m, ops[k], i)
    decreases |ops|
  {
    var n := |ops| - 1;
    var before := Run(b, ops[..n]);
    OwnersCount(b, ops[..n]);
    OwnerStep(before, ops[n], i);
    if before.slots[i].display == b.slots[i].display {
      k := n;
    } else {
      k := NewOwnerNeedsDestroy(b, ops[..n], i);
      assert ops[..n][..k] == ops[..k];
    }
  }

  lemma {:induction false} OwnersCount(b: Book, ops: seq<Op>)
    requires Wf(b)
    ensures |Run(b, ops).slots| == |b.slots|
    decreases |ops|
  {
    if ops != [] { OwnersCount(b, ops[..|ops| - 1]); }
  }

  /** The operations between the begin and the end of a round. */
  predicate WithinRound(ops: seq<Op>)
  {
    forall k :: 0 <= k < |ops| ==> ops[k] != OpBegin && ops[k] != OpDone
  }

  lemma {:induction false} StepWithinRound(b: Book, op: Op, i: nat)
    requires Wf(b) && op != OpBegin && op != OpDone && i < |b.slots| && b.slots[i].display != DPY_UNUSED
    ensures var b' := Apply(b, op);
            |b'.slots| == |b.slots| && b'.slots[i].display == b.slots[i].display && b'.last == b.last
  {
    OwnerStep(b, op, i);
  }

  lemma {:induction false} WithinRoundKeeps(b: Book, ops: seq<Op>, i: nat)
    requires Wf(b) && WithinRound(ops) && i < |b.slots| && b.slots[i].display != DPY_UNUSED
    ensures var b' := Run(b, ops);
            |b'.slots| == |b.slots| && b'.slots[i].display == b.slots[i].display && b'.last == b.last
    decreases |ops|
  {
    if ops != [] {
      var n := |ops| - 1;
      WithinRoundKeeps(b, ops[..n], i);
      StepWithinRound(Run(b, ops[..n]), ops[n], i);
    }
  }

  /** A pipe in use at the end of one round stays its display's through the whole next
      round. At the end of that it is in use again and still owned, or destroyed. */
  lemma {:induction false} UsedPipeNextRound(b: Book, ops: seq<Op>, i: nat)
    requires Wf(b) && b.last == b.used && i in b.used && WithinRound(ops)
    ensures var m := Run(ConfigBegin(b), ops);
            var e := ConfigDone(m);
            && i < |m.slots| == |e.slots| && m.slots[i].display == b.slots[i].display
            && e.last == e.used
            && (if i in e.used then e.slots[i] == m.slots[i] else e.slots[i] == UNUSED_SLOT)
  {
    WithinRoundKeeps(ConfigBegin(b), ops, i);
  }

  // ---------------------------------------------------------------- what the early return leaves

  /** At the end of a round an unused pipe is destroyed if and only if the usage differs
      from the round before. */
  lemma UnusedPipeSurvivesIff(b: Book, i: nat)
    requires Wf(b) && HasPipe(b, i) && i !in b.used
    ensures |ConfigDone(b).slots| == |b.slots| && (ConfigDone(b).slots[i] == UNUSED_SLOT <==> b.used != b.last)
  {
  }

  /** Blanking a display, which is an empty round, frees all pipes if and only if the last
      round used one or nothing was owned anyway. */
  lemma {:induction false} BlankFreesAllIff(b: Book)
    requires Wf(b)
    ensures var e := ConfigDone(ConfigBegin(b));
            (forall i :: 0 <= i < |e.slots| ==> e.slots[i] == UNUSED_SLOT)
            <==> (b.last != {} || forall i :: 0 <= i < |b.slots| ==> b.slots[i].display == DPY_UNUSED)
  {
    if b.last == {} {
      assert ConfigDone(ConfigBegin(b)).slots == b.slots;
    }
  }

  lemma RunOfFour(b: Book, ops: seq<Op>)
    requires Wf(b) && |ops| == 4
    ensures Run(b, ops) == Apply(Apply(Apply(Apply(b, ops[0]), ops[1]), ops[2]), ops[3])
  {
    RunStep(b, ops, 0);
    RunStep(b, ops, 1);
    RunStep(b, ops, 2);
    RunStep(b, ops, 3);
    assert ops[..0] == [] && ops[..4] == ops;
  }

  lemma {:induction false} OnlyPipeTaken(b: Book)
    requires b == Initial([RGB])
    ensures Apply(ConfigBegin(b), OpNext(RGB, 0)) == b.(slots := [Slot(0, Some(FreshPipe()))], taken := {0})
  {
    assert ConfigBegin(b) == b;
    assert FirstFree(b, RGB, 0, 0) == 1 && FirstFree(b, RGB, DPY_UNUSED, 0) == 0;
  }

  /** Another display gets nothing while display 0 owns the only pipe. */
  lemma {:induction false} OnlyPipeIsOwned(b: Book)
    requires Wf(b) && b.types == [RGB] && b.slots == [Slot(0, Some(FreshPipe()))]
    ensures NextPipe(b, RGB, 1).1 == None
  {
    NextPipeFailsIffNoneLeft(b, RGB, 1);
  }

  /** A pipe that was handed out but never committed is not given back: display 0 asks for
      the only pipe in an otherwise unchanged round and display 1 cannot have it afterwards. */
  lemma {:induction false} UncommittedPipeIsKept(b0: Book)
    requires b0 == Initial([RGB])
    ensures var b := Run(b0, [OpBegin, OpNext(RGB, 0), OpDone, OpBegin]);
            b.used == {} && b.taken == {} && NextPipe(b, RGB, 1).1 == None
  {
    var ops := [OpBegin, OpNext(RGB, 0), OpDone, OpBegin];
    RunOfFour(b0, ops);
    OnlyPipeTaken(b0);
    OnlyPipeIsOwned(Run(b0, ops));
  }

  // ---------------------------------------------------------------- live sessions

  /** A used pipe is open and the driver holds its saved block. */
  ghost predicate Live(b: Book)
    requires Wf(b)
  {
    && (forall i :: 0 <= i < |b.slots| ==> SlotLive(b.slots[i]))
    && (forall i :: i in b.used ==> b.slots[i].pipe.value.open)
  }

  ghost predicate SlotLive(s: Slot)
  {
    s.pipe.Some? && s.pipe.value.open ==> s.pipe.value.ctrl.ov.id != NEW_REQUEST
  }

  /** Callers give a pipe its source before they commit it first (configMdp does). */
  ghost predicate LegalOp(b: Book, op: Op)
    requires Wf(b)
  {
    op.OpCommit? ==> HasPipe(b, op.i) && Sourced(b.slots[op.i].pipe.value.ctrl)
  }

  ghost predicate LegalRun(b: Book, ops: seq<Op>)
    requires Wf(b)
    decreases |ops|
  {
    ops == [] || (LegalRun(b, ops[..|ops| - 1]) && LegalOp(Run(b, ops[..|ops| - 1]), ops[|ops| - 1]))
  }

  lemma {:induction false} CommitKeepsLive(b: Book, i: nat, downscale: nat, io: Ioctl)
    requires Wf(b) && Live(b) && HasPipe(b, i) && Sourced(b.slots[i].pipe.value.ctrl)
    ensures Wf(Commit(b, i, downscale, io).0) && Live(Commit(b, i, downscale, io).0)
  {
    var c := b.slots[i].pipe.value.ctrl.(downscale := downscale);
    SourcedSetReachesDriver(c, io);
    SetKeepsValid(c, io);
    var b' := Commit(b, i, downscale, io).0;
    assert Apply(b, OpCommit(i, downscale, io)) == b';
  }

  lemma {:induction false} LegalRunIsLive(types: seq<PipeType>, ops: seq<Op>)
    requires |types| <= OV_INVALID && LegalRun(Initial(types), ops)
    ensures Live(Run(Initial(types), ops))
    decreases |ops|
  {
    if ops != [] {
      var n := |ops| - 1;
      LegalRunIsLive(types, ops[..n]);
      var b := Run(Initial(types), ops[..n]);
      match ops[n]
      case OpCommit(i, downscale, io) => CommitKeepsLive(b, i, downscale, io);
      case _ =>
    }
  }

  /** In every run in which each pipe gets a source before its first commit, the aborts of
      queueBuffer cannot fire, and a used pipe queues to the session the driver has for it. */
  lemma {:induction false} QueueNeverAborts(types: seq<PipeType>, ops: seq<Op>, i: nat)
    requires |types| <= OV_INVALID && LegalRun(Initial(types), ops)
    requires HasPipe(Run(Initial(types), ops), i)
    ensures var b := Run(Initial(types), ops);
            var c := b.slots[i].pipe.value.ctrl;
            && QueueBuffer(b, i) != Abort
            && (i in b.used ==> c.driver.Some? && QueueBuffer(b, i) == Queued(c.driver.value.id))
  {
    LegalRunIsLive(types, ops);
  }

  /** A commit that reports success leaves a pipe that can be queued to if and only if it was
      not skipped on a pipe that the driver has never seen. */
  lemma {:induction false} QueueAfterCommitIff(b: Book, i: nat, downscale: nat, io: Ioctl)
    requires Wf(b) && HasPipe(b, i) && Commit(b, i, downscale, io).1
    ensures var c := b.slots[i].pipe.value.ctrl.(downscale := downscale);
            QueueBuffer(Commit(b, i, downscale, io).0, i) != Abort <==> !(c.lkgo.id == NEW_REQUEST && Skipped(c))
  {
    SetSucceeds(b.slots[i].pipe.value.ctrl.(downscale := downscale), io);
    SetKeepsValid(b.slots[i].pipe.value.ctrl.(downscale := downscale), io);
  }
}
