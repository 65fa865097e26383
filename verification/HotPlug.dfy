/** The composition thread (prepare, set, blank) and the uevent thread (hot plug) around the
    draw lock, as a step relation. A section that is entered and left with the lock held is
    one step, except that prepare keeps the lock until set gives it back.

    A wait ends only after a signal; the last lemma shows what happens otherwise. */
module HotPlug {
  import opened Geometry
  import opened Options
  import opened PipeControl
  import opened PipeBook
  import opened PipeRuns

  const PRIMARY := 0
  const EXTERNAL := 1
  const VIRTUAL := 2

  /** The flags of dpyAttr; `comp` says that mMDPComp is not null. */
  datatype Attr = Attr(connected: bool, active: bool, paused: bool, configuring: bool, comp: bool)

  /** The locked sections of the uevent thread: the four events, and within ONLINE: dropping
      the virtual display for an HDMI one, setting mVirtualonExtActive, and the last one. */
  datatype Section = Offline | Online | Pause | Resume | DropVirtual | ChooseMode | SetUpDisplay

  /** What a waiting section needs remembered to state what happened meanwhile: the rounds
      begun so far, the pipes of the display in the saved use bitmap, and how often each pipe
      had been destroyed. */
  datatype Mark = Mark(begun: nat, had: set<nat>, destroyed: seq<nat>)

  datatype Thread =
    | Idle
    | WantsLock(section: Section, dpy: int)
    | Waits(section: Section, dpy: int, mark: Mark, woken: bool)

  datatype Holder = Nobody | Composition | Other

  datatype State = State(
    book: Book, destroyed: seq<nat>, attrs: seq<Attr>, virtualOnExt: bool,
    holder: Holder, thread: Thread, begun: nat, ended: nat)

  datatype Step =
    | Prepare(lists: set<int>, ops: seq<Op>)  // displays that have layers; what is done for them
    | Set
    | Blank(dpy: int, blank: bool, ok: bool)  // ok: the ioctl for the primary display worked
    | Grab
    | Drop
    | Uevent(event: Section, dpy: int)
    | Enter(google: bool)                     // google: the property persist.sys.wfd.virtual is set
    | Return

  predicate External(d: int) { d == EXTERNAL || d == VIRTUAL }

  // ---------------------------------------------------------------- the composition thread

  /** getDpyforExternalDisplay: the virtual display borrows the id of the external one. */
  function Mapped(s: State, d: int): int
  {
    if d == EXTERNAL && s.virtualOnExt then VIRTUAL else d
  }

  /** The guards of prepare and set for each display. */
  predicate Composes(s: State, d: int)
    requires |s.attrs| == 3
  {
    if d == PRIMARY then s.attrs[d].active
    else External(d) && Mapped(s, d) == d && s.attrs[d].active && s.attrs[d].connected && !s.attrs[d].paused
  }

  /** The display for which an operation on the pool is done. */
  function DisplayOf(b: Book, op: Op): int
  {
    match op
    case OpBegin => DPY_UNUSED
    case OpDone => DPY_UNUSED
    case OpNext(t, dpy) => dpy
    case OpSetUp(i, a, orient, crop, position) => if HasPipe(b, i) then b.slots[i].display else DPY_UNUSED
    case OpCommit(i, downscale, io) => if HasPipe(b, i) then b.slots[i].display else DPY_UNUSED
    case OpClear(dpy) => dpy
  }

  /** Between the begin and the end of a round, each composed display works on its own pipes. */
  ghost predicate RoundOps(b: Book, ops: seq<Op>, shown: set<int>)
    requires Wf(b)
  {
    forall k :: 0 <= k < |ops| ==> DisplayOf(Run(b, ops[..k]), ops[k]) in shown && ops[k] != OpBegin && ops[k] != OpDone
  }

  function Round(b: Book, ops: seq<Op>): (b': Book)
    requires Wf(b)
    ensures Wf(b')
  {
    var b1 := Apply(b, OpBegin);
    Apply(Run(b1, ops), OpDone)
  }

  function CountDestroyed(b: Book, n: seq<nat>, ops: seq<Op>): (n': seq<nat>)
    requires Wf(b)
    ensures |n'| == |n|
  {
    var m := Run(Apply(b, OpBegin), ops);
    seq(|n|, i requires 0 <= i < |n| => if Destroys(m, OpDone, i) then n[i] + 1 else n[i])
  }

  function Shown(s: State, lists: set<int>): set<int>
    requires |s.attrs| == 3
  {
    set d | d in lists && Composes(s, d)
  }

  function DoPrepare(s: State, lists: set<int>, ops: seq<Op>): State
    requires Wf(s.book) && |s.attrs| == 3
  {
    s.(book := Round(s.book, ops), destroyed := CountDestroyed(s.book, s.destroyed, ops),
       attrs := seq(3, d requires 0 <= d < 3 =>
         if External(d) && d in Shown(s, lists) then s.attrs[d].(configuring := false) else s.attrs[d]),
       holder := Composition, begun := s.begun + 1)
  }

  function DoSet(s: State): State
  {
    s.(holder := Nobody, ended := s.ended + 1,
       thread := if s.thread.Waits? then s.thread.(woken := true) else s.thread)
  }

  function SetActive(s: State, d: int, active: bool): State
    requires 0 <= d < |s.attrs|
  {
    s.(attrs := s.attrs[d := s.attrs[d].(active := active)])
  }

  /** hwc_blank: the case of the primary display falls through to the virtual one. */
  function DoBlank(s: State, d: int, blank: bool, ok: bool): State
    requires Wf(s.book) && |s.attrs| == 3 && 0 <= d < 3
  {
    var s1 := if blank then s.(book := Round(s.book, []), destroyed := CountDestroyed(s.book, s.destroyed, [])) else s;
    var dpy := Mapped(s, d);
    if dpy == EXTERNAL then SetActive(s1, EXTERNAL, !blank)
    else if dpy == PRIMARY && !ok then s1
    else
      var s2 := if dpy == PRIMARY then SetActive(s1, PRIMARY, !blank) else s1;
      if dpy == PRIMARY && s.virtualOnExt then s2
      else if s.attrs[VIRTUAL].connected then SetActive(s2, VIRTUAL, !blank)
      else s2
  }

  // ---------------------------------------------------------------- the uevent thread

  predicate IsEvent(e: Section) { e in {Offline, Online, Pause, Resume} }

  /** The test on the flags before the lock is taken. */
  predicate Ignored(s: State, e: Section, d: int)
    requires |s.attrs| == 3 && External(d)
  {
    match e
    case Offline => !s.attrs[d].connected
    case Online => s.attrs[d].connected
    case Pause => s.attrs[d].paused
    case Resume => !s.attrs[d].paused
    case _ => true
  }

  function HadPipes(b: Book, d: int): set<nat>
  {
    set i | i in b.last && OwnedBy(b, i, d)
  }

  function StartWait(s: State, e: Section, d: int): State
  {
    s.(thread := Waits(e, d, Mark(s.begun, HadPipes(s.book, d), s.destroyed), false))
  }

  /** What a section that waits does to the flags of its display first; Offline and
      DropVirtual also clear() its objects. */
  function EntryFlags(a: Attr, e: Section): Attr
  {
    match e
    case Offline => a.(connected := false, active := false, comp := false)
    case DropVirtual => a.(connected := false, active := false, comp := false)
    case Online => a.(configuring := true)
    case Pause => a.(active := true, paused := true)
    case Resume => a.(configuring := true, active := true)
    case _ => a
  }

  /** And to mVirtualonExtActive. */
  function EntryMode(s: State, e: Section, d: int): bool
  {
    s.virtualOnExt && e != DropVirtual && e != Offline
  }

  function DoSetUp(s: State, d: int): State
    requires |s.attrs| == 3 && External(d)
  {
    var a := s.attrs[d].(comp := true, paused := false, connected := true, configuring := true);
    var s1 := s.(attrs := s.attrs[d := a], thread := Idle);
    if d == EXTERNAL || s.virtualOnExt then s1 else SetActive(s1, VIRTUAL, true)
  }

  /** A locked section, up to its wait or to its end. */
  function DoEnter(s: State, google: bool): State
    requires |s.attrs| == 3 && s.thread.WantsLock? && External(s.thread.dpy)
  {
    var (e, d) := (s.thread.section, s.thread.dpy);
    if e == SetUpDisplay then DoSetUp(s, d)
    else if e == ChooseMode then s.(virtualOnExt := !google, thread := WantsLock(SetUpDisplay, d))
    else
      StartWait(s.(attrs := s.attrs[d := EntryFlags(s.attrs[d], e)], virtualOnExt := EntryMode(s, e, d)), e, d)
  }

  /** What follows the wait. */
  function DoReturn(s: State): State
    requires |s.attrs| == 3 && s.thread.Waits? && External(s.thread.dpy)
  {
    var d := s.thread.dpy;
    match s.thread.section
    case Online =>
      s.(thread := if d == VIRTUAL then WantsLock(ChooseMode, d)
                   else if s.attrs[VIRTUAL].connected then WantsLock(DropVirtual, VIRTUAL)
                   else WantsLock(SetUpDisplay, d))
    case DropVirtual => s.(thread := WantsLock(SetUpDisplay, EXTERNAL))
    case Resume => s.(attrs := s.attrs[d := s.attrs[d].(paused := false)], thread := Idle)
    case _ => s.(thread := Idle)
  }

  // ---------------------------------------------------------------- steps and runs

  ghost predicate Shape(s: State)
  {
    && Wf(s.book) && |s.attrs| == 3 && |s.destroyed| == |s.book.slots|
    && (!s.thread.Idle? ==> External(s.thread.dpy))
  }

  ghost predicate Enabled(s: State, step: Step)
    requires Shape(s)
  {
    match step
    case Prepare(lists, ops) => s.holder == Nobody && RoundOps(Apply(s.book, OpBegin), ops, Shown(s, lists))
    case Set => s.holder == Composition
    case Blank(d, blank, ok) => s.holder == Nobody && 0 <= d < 3
    case Grab => s.holder == Nobody
    case Drop => s.holder == Other
    case Uevent(e, d) => s.thread == Idle && External(d) && IsEvent(e)
    case Enter(google) => s.holder == Nobody && s.thread.WantsLock?
    case Return => s.holder == Nobody && s.thread.Waits? && s.thread.woken
  }

  ghost function Do(s: State, step: Step): (s': State)
    requires Shape(s) && Enabled(s, step)
    ensures Shape(s')
  {
    match step
    case Prepare(lists, ops) => RoundKeepsSlots(s.book, ops); DoPrepare(s, lists, ops)
    case Set => DoSet(s)
    case Blank(d, blank, ok) => RoundKeepsSlots(s.book, []); DoBlank(s, d, blank, ok)
    case Grab => s.(holder := Other)
    case Drop => s.(holder := Nobody)
    case Uevent(e, d) => if Ignored(s, e, d) then s else s.(thread := WantsLock(e, d))
    case Enter(google) => DoEnter(s, google)
    case Return => DoReturn(s)
  }

  lemma {:induction false} RoundKeepsSlots(b: Book, ops: seq<Op>)
    requires Wf(b)
    ensures |Round(b, ops).slots| == |b.slots|
  {
    OwnersCount(Apply(b, OpBegin), ops);
  }

  ghost predicate Taken(s: State, step: Step, s': State)
  {
    Shape(s) && Enabled(s, step) && s' == Do(s, step)
  }

  /** initContext: only the primary display has a compositor. */
  ghost function Start(types: seq<PipeType>): (s: State)
    requires |types| <= OV_INVALID
    ensures Shape(s)
  {
    var off := Attr(false, false, false, false, false);
    State(Initial(types), seq(|types|, i => 0), [Attr(true, false, false, false, true), off, off],
          false, Nobody, Idle, 0, 0)
  }

  /** The states of a run from the start, and the steps between them. */
  ghost predicate IsRun(types: seq<PipeType>, states: seq<State>, steps: seq<Step>)
    requires |types| <= OV_INVALID
  {
    && |states| == |steps| + 1 && states[0] == Start(types)
    && forall k :: 0 <= k < |steps| ==> Taken(states[k], steps[k], states[k + 1])
  }

  // ---------------------------------------------------------------- one round

  ghost predicate NoneUsed(b: Book, d: int)
  {
    forall i :: i in b.used ==> !OwnedBy(b, i, d)
  }

  lemma {:induction false} OtherUsesNothing(b: Book, op: Op, d: int)
    requires Wf(b) && NoneUsed(b, d) && IsDisplay(d)
    requires DisplayOf(b, op) != d && op != OpBegin && op != OpDone
    ensures NoneUsed(Apply(b, op), d)
  {
    var b' := Apply(b, op);
    forall i | i in b'.used
      ensures !OwnedBy(b', i, d)
    {
      OwnerStep(b, op, i);
    }
  }

  lemma {:induction false} OthersUseNothing(b: Book, ops: seq<Op>, shown: set<int>, d: int, n: nat)
    requires Wf(b) && NoneUsed(b, d) && IsDisplay(d) && d !in shown && RoundOps(b, ops, shown) && n <= |ops|
    ensures NoneUsed(Run(b, ops[..n]), d)
  {
    if n > 0 {
      OthersUseNothing(b, ops, shown, d, n - 1);
      RunStep(b, ops, n - 1);
      OtherUsesNothing(Run(b, ops[..n - 1]), ops[n - 1], d);
    } else {
      assert ops[..0] == [];
    }
  }

  /** After a round in which it is not composed, a display has no pipe in use, and each one
      that it had in use before was destroyed. */
  lemma {:induction false} RoundWithout(b: Book, ops: seq<Op>, shown: set<int>, d: int)
    requires Wf(b) && IsDisplay(d) && d !in shown && b.used == b.last
    requires RoundOps(Apply(b, OpBegin), ops, shown)
    ensures NoneUsed(Round(b, ops), d) && Round(b, ops).used == Round(b, ops).last
    ensures forall i :: i in HadPipes(b, d) ==> Destroys(Run(Apply(b, OpBegin), ops), OpDone, i)
  {
    var b1 := Apply(b, OpBegin);
    OthersUseNothing(b1, ops, shown, d, |ops|);
    assert ops[..|ops|] == ops;
    assert WithinRound(ops);
    var m := Run(b1, ops);
    forall i | i in HadPipes(b, d)
      ensures Destroys(m, OpDone, i)
    {
      WithinRoundKeeps(b1, ops, i);
      assert OwnedBy(m, i, d);
      assert i in m.last && i !in m.used;
    }
  }

  lemma RoundSaves(b: Book, ops: seq<Op>)
    requires Wf(b)
    ensures Round(b, ops).used == Round(b, ops).last
  {
  }

  // ---------------------------------------------------------------- what every run keeps

  /** The sections that take a display away. */
  predicate Quits(e: Section) { e in {Offline, Pause, DropVirtual} }

  predicate Gone(s: State, d: int)
    requires |s.attrs| == 3 && External(d)
  {
    !s.attrs[d].connected || s.attrs[d].paused
  }

  /** The display was told to go, but no round has begun since. */
  predicate Leaving(s: State, d: int)
  {
    s.thread.Waits? && s.thread.dpy == d && Quits(s.thread.section) && s.begun == s.thread.mark.begun
  }

  /** An external or virtual display has a compositor exactly while it is connected. */
  ghost predicate Connections(s: State)
    requires |s.attrs| == 3
  {
    forall d :: External(d) ==> (s.attrs[d].connected <==> s.attrs[d].comp)
  }

  /** The virtual display borrows the id of the external one only while it is connected or
      about to be. */
  predicate Borrows(s: State)
    requires |s.attrs| == 3
  {
    s.virtualOnExt ==> s.attrs[VIRTUAL].connected || s.thread == WantsLock(SetUpDisplay, VIRTUAL)
  }

  ghost predicate Vacated(s: State)
    requires |s.attrs| == 3
  {
    forall d :: External(d) && Gone(s, d) && !Leaving(s, d) ==> NoneUsed(s.book, d)
  }

  /** Flags that only the uevent thread changes, before a section is entered. */
  predicate FlagsBefore(s: State, e: Section, d: int)
    requires |s.attrs| == 3 && External(d)
  {
    match e
    case Offline => true
    case Pause => true
    case Resume => s.attrs[d].paused
    case DropVirtual => d == VIRTUAL && !s.attrs[EXTERNAL].connected
    case ChooseMode => d == VIRTUAL && !s.attrs[VIRTUAL].connected
    case SetUpDisplay => !s.attrs[d].connected && !s.attrs[VIRTUAL].connected
    case _ => !s.attrs[d].connected
  }

  /** The same while it waits. */
  predicate FlagsDuring(s: State, e: Section, d: int)
    requires |s.attrs| == 3 && External(d)
  {
    match e
    case Offline => !s.attrs[d].connected
    case Pause => s.attrs[d].paused
    case Resume => s.attrs[d].paused && s.attrs[d].configuring
    case DropVirtual => d == VIRTUAL && !s.attrs[d].connected && !s.attrs[EXTERNAL].connected
    case Online => !s.attrs[d].connected && s.attrs[d].configuring
    case _ => false
  }

  /** Each pipe in `had` was destroyed since the mark, or is still in use and there was no
      round yet. */
  ghost predicate Released(s: State, d: int, mark: Mark)
    requires |mark.destroyed| == |s.destroyed|
  {
    forall i :: i in mark.had ==>
      && i < |s.destroyed|
      && (s.destroyed[i] > mark.destroyed[i] || (s.begun == mark.begun && i in HadPipes(s.book, d)))
  }

  ghost predicate ThreadOk(s: State)
    requires Shape(s)
  {
    match s.thread
    case Idle => true
    case WantsLock(e, d) => FlagsBefore(s, e, d)
    case Waits(e, d, mark, woken) =>
      && FlagsDuring(s, e, d)
      && mark.begun <= s.begun
      && (woken ==> mark.begun < s.ended)
      && (s.holder == Composition ==> mark.begun < s.begun)
      && |mark.destroyed| == |s.destroyed|
      && (forall i :: 0 <= i < |s.destroyed| ==> mark.destroyed[i] <= s.destroyed[i])
      && (Quits(e) ==> Released(s, d, mark))
  }

  ghost predicate Inv(s: State)
  {
    && Shape(s)
    && s.book.used == s.book.last
    && s.begun == s.ended + (if s.holder == Composition then 1 else 0)
    && Connections(s)
    && Borrows(s)
    && Vacated(s)
    && ThreadOk(s)
  }

  lemma {:induction false} PrepareKeepsInv(s: State, lists: set<int>, ops: seq<Op>)
    requires Inv(s) && Enabled(s, Prepare(lists, ops))
    ensures Inv(Do(s, Prepare(lists, ops)))
  {
    var s' := Do(s, Prepare(lists, ops));
    RoundSaves(s.book, ops);
    RoundKeepsSlots(s.book, ops);
    forall d | External(d) && Gone(s, d)
      ensures NoneUsed(s'.book, d)
      ensures forall i :: i in HadPipes(s.book, d) ==> Destroys(Run(Apply(s.book, OpBegin), ops), OpDone, i)
    {
      RoundWithout(s.book, ops, Shown(s, lists), d);
    }
    if s.thread.Waits? && Quits(s.thread.section) {
      assert Gone(s, s.thread.dpy);
    }
  }

  lemma {:induction false} EmptyRoundKeepsInv(s: State)
    requires Inv(s)
    ensures |Round(s.book, []).slots| == |s.book.slots|
    ensures Inv(s.(book := Round(s.book, []), destroyed := CountDestroyed(s.book, s.destroyed, [])))
  {
    var s' := s.(book := Round(s.book, []), destroyed := CountDestroyed(s.book, s.destroyed, []));
    RoundSaves(s.book, []);
    RoundKeepsSlots(s.book, []);
    forall d | External(d)
      ensures NoneUsed(s'.book, d)
      ensures forall i :: i in HadPipes(s.book, d) ==> Destroys(Run(Apply(s.book, OpBegin), []), OpDone, i)
    {
      RoundWithout(s.book, [], {}, d);
    }
  }

  lemma ActiveKeepsInv(s: State, d: int, active: bool)
    requires Inv(s) && 0 <= d < 3
    ensures Inv(SetActive(s, d, active))
  {
  }

  lemma {:induction false} BlankKeepsInv(s: State, d: int, blank: bool, ok: bool)
    requires Inv(s) && Enabled(s, Blank(d, blank, ok))
    ensures Inv(Do(s, Blank(d, blank, ok)))
  {
    EmptyRoundKeepsInv(s);
    var s1 := if blank then s.(book := Round(s.book, []), destroyed := CountDestroyed(s.book, s.destroyed, [])) else s;
    ActiveKeepsInv(s1, EXTERNAL, !blank);
    ActiveKeepsInv(s1, PRIMARY, !blank);
    ActiveKeepsInv(s1, VIRTUAL, !blank);
    ActiveKeepsInv(SetActive(s1, PRIMARY, !blank), VIRTUAL, !blank);
  }

  lemma {:induction false} WaitingKeepsInv(s: State, google: bool)
    requires Inv(s) && Enabled(s, Enter(google)) && s.thread.section !in {ChooseMode, SetUpDisplay}
    ensures Inv(Do(s, Enter(google)))
  {
    var s' := Do(s, Enter(google));
    forall c | External(c) && Gone(s', c) && !Leaving(s', c)
      ensures NoneUsed(s'.book, c)
    {
      assert Gone(s, c) && !Leaving(s, c);
    }
  }

  lemma {:induction false} SetUpKeepsInv(s: State)
    requires Inv(s) && s.thread.WantsLock? && s.thread.section == SetUpDisplay
    ensures Inv(DoSetUp(s, s.thread.dpy))
  {
    var d := s.thread.dpy;
    var a := s.attrs[d].(comp := true, paused := false, connected := true, configuring := true);
    var s1 := s.(attrs := s.attrs[d := a], thread := Idle);
    assert Inv(s1);
    ActiveKeepsInv(s1, VIRTUAL, true);
  }

  lemma {:induction false} EnterKeepsInv(s: State, google: bool)
    requires Inv(s) && Enabled(s, Enter(google))
    ensures Inv(Do(s, Enter(google)))
  {
    if s.thread.section == SetUpDisplay {
      SetUpKeepsInv(s);
    } else if s.thread.section != ChooseMode {
      WaitingKeepsInv(s, google);
    }
  }

  /** Nothing is left to release once the wait is over. */
  lemma {:induction false} WokenIsVacant(s: State, c: int)
    requires Inv(s) && Enabled(s, Return) && External(c) && Gone(s, c)
    ensures NoneUsed(s.book, c)
  {
    assert !Leaving(s, c);
  }

  lemma {:induction false} ReturnKeepsInv(s: State)
    requires Inv(s) && Enabled(s, Return)
    ensures Inv(Do(s, Return))
  {
    var s' := Do(s, Return);
    forall c | External(c) && Gone(s', c)
      ensures NoneUsed(s'.book, c)
    {
      WokenIsVacant(s, c);
    }
  }

  lemma {:induction false} StepKeepsInv(s: State, step: Step)
    requires Inv(s) && Enabled(s, step)
    ensures Inv(Do(s, step))
  {
    match step
    case Prepare(lists, ops) => PrepareKeepsInv(s, lists, ops);
    case Blank(d, blank, ok) => BlankKeepsInv(s, d, blank, ok);
    case Enter(google) => EnterKeepsInv(s, google);
    case Return => ReturnKeepsInv(s);
    case _ =>
  }

  lemma {:induction false} RunKeepsInv(types: seq<PipeType>, states: seq<State>, steps: seq<Step>, n: nat)
    requires |types| <= OV_INVALID && IsRun(types, states, steps) && n <= |steps|
    ensures Inv(states[n])
  {
    if n > 0 {
      RunKeepsInv(types, states, steps, n - 1);
      assert Taken(states[n - 1], steps[n - 1], states[n]);
      StepKeepsInv(states[n - 1], steps[n - 1]);
    }
  }

  // ---------------------------------------------------------------- the handshake

  /** The thread waits in the section that it entered in state s0. */
  ghost predicate WaitsSince(s0: State, t: Thread)
    requires Shape(s0) && s0.thread.WantsLock?
  {
    && t.Waits? && t.section == s0.thread.section && t.dpy == s0.thread.dpy
    && t.mark == Mark(s0.begun, HadPipes(s0.book, t.dpy), s0.destroyed)
  }

  lemma EnterMarks(s0: State, google: bool, s: State)
    requires Taken(s0, Enter(google), s) && Quits(s0.thread.section)
    ensures WaitsSince(s0, s.thread)
  {
  }

  lemma WaitGoesOn(s0: State, s: State, step: Step, s': State)
    requires Shape(s0) && s0.thread.WantsLock? && Taken(s, step, s')
    requires WaitsSince(s0, s.thread) && step != Return
    ensures WaitsSince(s0, s'.thread)
  {
  }

  /** Steps k and n of the run enter a section that takes a display away and return from its
      wait. */
  ghost predicate EnterToReturn(types: seq<PipeType>, states: seq<State>, steps: seq<Step>, k: nat, n: nat)
    requires |types| <= OV_INVALID
  {
    && IsRun(types, states, steps) && k < n < |steps|
    && steps[k].Enter? && states[k].thread.WantsLock? && Quits(states[k].thread.section)
    && steps[n] == Return && forall j :: k < j < n ==> steps[j] != Return
  }

  lemma {:induction false} MarkStays(types: seq<PipeType>, states: seq<State>, steps: seq<Step>, k: nat, n: nat, m: nat)
    requires |types| <= OV_INVALID && EnterToReturn(types, states, steps, k, n) && k < m <= n
    ensures Shape(states[k]) && WaitsSince(states[k], states[m].thread)
  {
    assert Taken(states[m - 1], steps[m - 1], states[m]);
    if m > k + 1 {
      MarkStays(types, states, steps, k, n, m - 1);
      WaitGoesOn(states[k], states[m - 1], steps[m - 1], states[m]);
    } else {
      EnterMarks(states[k], steps[k].google, states[m]);
    }
  }

  /** What a display that was told to go in state s0 has left behind in state s1: a whole
      round began and ended, the display is still gone and has no pipe in use, and each pipe
      that it had in the saved use bitmap was destroyed. */
  ghost predicate Left(s0: State, s1: State, d: int)
    requires Shape(s0) && Shape(s1) && External(d)
  {
    && s0.ended == s0.begun < s1.ended
    && Gone(s1, d) && NoneUsed(s1.book, d)
    && forall i :: i in HadPipes(s0.book, d) ==>
         i < |s0.destroyed| == |s1.destroyed| && s0.destroyed[i] < s1.destroyed[i]
  }

  lemma {:induction false} WokenMeansLeft(s0: State, s1: State)
    requires Inv(s0) && Inv(s1) && s0.holder == Nobody && s0.thread.WantsLock? && Quits(s0.thread.section)
    requires WaitsSince(s0, s1.thread) && s1.thread.woken
    ensures Left(s0, s1, s0.thread.dpy)
  {
    var d := s0.thread.dpy;
    assert Gone(s1, d) && !Leaving(s1, d);
    assert Released(s1, d, s1.thread.mark);
  }

  /** In every interleaving, when the wait of OFFLINE, PAUSE or the dropping of the virtual
      display returns, the display has left, counted from the moment its flags changed. */
  lemma HandshakeHolds(types: seq<PipeType>, states: seq<State>, steps: seq<Step>, k: nat, n: nat)
    requires |types| <= OV_INVALID && EnterToReturn(types, states, steps, k, n)
    ensures Shape(states[k]) && Shape(states[n]) && External(states[k].thread.dpy)
    ensures Left(states[k], states[n], states[k].thread.dpy)
  {
    MarkStays(types, states, steps, k, n, n);
    RunKeepsInv(types, states, steps, k);
    RunKeepsInv(types, states, steps, n);
    assert Taken(states[k], steps[k], states[k + 1]) && Taken(states[n], steps[n], states[n + 1]);
    WokenMeansLeft(states[k], states[n]);
  }

  ghost predicate Reachable(types: seq<PipeType>, s: State)
    requires |types| <= OV_INVALID
  {
    exists states, steps :: IsRun(types, states, steps) && states[|steps|] == s
  }

  lemma ReachableKeepsInv(types: seq<PipeType>, s: State)
    requires |types| <= OV_INVALID && Reachable(types, s)
    ensures Inv(s)
  {
    var states, steps :| IsRun(types, states, steps) && states[|steps|] == s;
    RunKeepsInv(types, states, steps, |steps|);
  }

  /** In every reachable state, except while it is told to leave, a display that is
      disconnected or paused has no pipe in use. */
  lemma GoneDisplayHasNoPipes(types: seq<PipeType>, s: State, d: int)
    requires |types| <= OV_INVALID && Reachable(types, s) && External(d)
    ensures Shape(s) && (Gone(s, d) && !Leaving(s, d) ==> NoneUsed(s.book, d))
  {
    ReachableKeepsInv(types, s);
  }

  /** An external or virtual display is connected exactly while its mMDPComp is not null; so
      prepare and set never follow a null pointer, and setup never drops a compositor. */
  lemma ConnectedIffCompositor(types: seq<PipeType>, s: State, d: int)
    requires |types| <= OV_INVALID && Reachable(types, s) && External(d)
    ensures Shape(s)
    ensures s.attrs[d].connected <==> s.attrs[d].comp
    ensures Composes(s, d) ==> s.attrs[d].comp
    ensures s.thread == WantsLock(SetUpDisplay, d) ==> !s.attrs[d].comp
  {
    ReachableKeepsInv(types, s);
  }

  /** While ONLINE or RESUME waits for the primary display to give up its pipes, every round
      sees the connection pending and the new display is not composed; when it goes on, a
      whole round has passed. */
  lemma ConnectionStaysPending(types: seq<PipeType>, s: State)
    requires |types| <= OV_INVALID && Reachable(types, s)
    requires s.thread.Waits? && s.thread.section in {Online, Resume}
    ensures Shape(s) && s.attrs[s.thread.dpy].configuring && !Composes(s, s.thread.dpy)
    ensures s.thread.woken ==> s.thread.mark.begun < s.ended
  {
    ReachableKeepsInv(types, s);
  }

  // ---------------------------------------------------------------- a wait without a signal

  lemma Reach(types: seq<PipeType>, s: State, step: Step)
    requires |types| <= OV_INVALID && Reachable(types, s) && Shape(s) && Enabled(s, step)
    ensures Reachable(types, Do(s, step))
  {
    var states, steps :| IsRun(types, states, steps) && states[|steps|] == s;
    var s' := Do(s, step);
    assert Taken(s, step, s');
    assert IsRun(types, states + [s'], steps + [step]);
  }

  function OnePipe(): seq<Op>
  {
    var none := Dim(0, 0, 0, 0);
    var args := PipeArgs(Whf(0, 0, 0), Flags(false, false, false, 0), 0, false, 0, 0);
    [OpNext(RGB, EXTERNAL), OpSetUp(0, args, IDENTITY, none, none), OpCommit(0, 0, Ioctl(true, 7))]
  }

  lemma RunOfThree(b: Book, ops: seq<Op>)
    requires Wf(b) && |ops| == 3
    ensures var b2 := Apply(b, ops[0]);
            var b3 := Apply(b2, ops[1]);
            && Run(b, ops[..0]) == b && Run(b, ops[..1]) == b2 && Run(b, ops[..2]) == b3
            && Run(b, ops) == Apply(b3, ops[2])
  {
    RunStep(b, ops, 0);
    RunStep(b, ops, 1);
    RunStep(b, ops, 2);
    assert ops[..0] == [] && ops[..3] == ops;
  }

  /** The only pipe goes to the external display, gets a source and is committed. */
  lemma {:induction false} OnePipeTaken(b: Book)
    requires b == Initial([RGB])
    ensures Apply(b, OnePipe()[0]) == b.(slots := [Slot(EXTERNAL, Some(FreshPipe()))], taken := {0})
  {
    assert FirstFree(b, RGB, EXTERNAL, 0) == 1 && FirstFree(b, RGB, DPY_UNUSED, 0) == 0;
  }

  lemma {:induction false} OnePipeSource(b: Book) returns (c: Ctrl)
    requires Wf(b) && b.slots == [Slot(EXTERNAL, Some(FreshPipe()))]
    ensures Apply(b, OnePipe()[1]) == b.(slots := [Slot(EXTERNAL, Some(Pipe(c, false)))])
    ensures ValidCtrl(c) && Sourced(c)
  {
    c := Apply(b, OnePipe()[1]).slots[0].pipe.value.ctrl;
  }

  lemma {:induction false} OnePipeCommitted(b: Book, c: Ctrl)
    requires Wf(b) && b.slots == [Slot(EXTERNAL, Some(Pipe(c, false)))] && Sourced(c) && b.used == b.last == {}
    ensures var b' := Apply(b, OnePipe()[2]);
            b'.used == {0} && b'.last == {} && OwnedBy(b', 0, EXTERNAL) && Apply(b', OpDone).used == {0}
    ensures OwnedBy(Apply(Apply(b, OnePipe()[2]), OpDone), 0, EXTERNAL)
  {
    assert SetCtrl(c.(downscale := 0), Ioctl(true, 7)).1;
  }

  /** A round in which the external display takes and commits the only pipe. */
  lemma {:induction false} OnePipeRound(b: Book)
    requires b == Initial([RGB])
    ensures RoundOps(Apply(b, OpBegin), OnePipe(), {EXTERNAL})
    ensures Round(b, OnePipe()).used == {0} && OwnedBy(Round(b, OnePipe()), 0, EXTERNAL)
  {
    var ops := OnePipe();
    assert Apply(b, OpBegin) == b;
    RunOfThree(b, ops);
    OnePipeTaken(b);
    var b2 := Apply(b, ops[0]);
    var c := OnePipeSource(b2);
    OnePipeCommitted(Apply(b2, ops[1]), c);
    forall k | 0 <= k < |ops|
      ensures DisplayOf(Run(b, ops[..k]), ops[k]) == EXTERNAL
    {
      assert k == 0 || k == 1 || k == 2;
    }
  }

  lemma EmptyRound(b: Book, shown: set<int>)
    requires b == Initial([RGB])
    ensures Round(b, []) == b && RoundOps(Apply(b, OpBegin), [], shown)
  {
  }

  /** ONLINE waits for the external display. */
  lemma Announced() returns (s: State)
    ensures Reachable([RGB], s) && Shape(s) && s.holder == Nobody && s.book == Initial([RGB]) && !s.virtualOnExt
    ensures s.thread.Waits? && s.thread.section == Online && s.thread.dpy == EXTERNAL
    ensures s.attrs[VIRTUAL] == Start([RGB]).attrs[VIRTUAL]
  {
    s := Start([RGB]);
    assert IsRun([RGB], [s], []);
    Reach([RGB], s, Uevent(Online, EXTERNAL));
    s := Do(s, Uevent(Online, EXTERNAL));
    Reach([RGB], s, Enter(false));
    s := Do(s, Enter(false));
  }

  /** A round without layers has passed and the wait is over. */
  lemma Configured() returns (s: State)
    ensures Reachable([RGB], s) && Shape(s) && s.holder == Nobody && s.book == Initial([RGB]) && !s.virtualOnExt
    ensures s.thread == WantsLock(SetUpDisplay, EXTERNAL)
  {
    s := Announced();
    EmptyRound(s.book, Shown(s, {}));
    Reach([RGB], s, Prepare({}, []));
    s := Do(s, Prepare({}, []));
    Reach([RGB], s, Set);
    s := Do(s, Set);
    Reach([RGB], s, Return);
    s := Do(s, Return);
  }

  /** The external display is connected and was unblanked. */
  lemma Unblanked() returns (s: State)
    ensures Reachable([RGB], s) && Shape(s) && s.holder == Nobody && s.book == Initial([RGB])
    ensures s.thread == Idle && s.attrs[EXTERNAL].connected && Composes(s, EXTERNAL)
  {
    s := Configured();
    Reach([RGB], s, Enter(false));
    s := Do(s, Enter(false));
    Reach([RGB], s, Blank(EXTERNAL, false, true));
    s := Do(s, Blank(EXTERNAL, false, true));
  }

  /** It has the only pipe in use. */
  lemma OnlineWithPipe() returns (s: State)
    ensures Reachable([RGB], s) && Shape(s) && s.holder == Nobody && s.thread == Idle
    ensures s.attrs[EXTERNAL].connected && s.book.used == {0} && OwnedBy(s.book, 0, EXTERNAL)
  {
    s := Unblanked();
    OnePipeRound(s.book);
    assert Shown(s, {EXTERNAL}) == {EXTERNAL};
    Reach([RGB], s, Prepare({EXTERNAL}, OnePipe()));
    s := Do(s, Prepare({EXTERNAL}, OnePipe()));
    Reach([RGB], s, Set);
    s := Do(s, Set);
  }

  /** If the wait could end without a signal, OFFLINE could go on while a pipe of its display
      is still in use. */
  lemma WaitNeedsSignal() returns (s: State)
    ensures Reachable([RGB], s) && Shape(s)
    ensures s.holder == Nobody && s.thread.Waits? && s.thread.section == Offline && !s.thread.woken
    ensures !NoneUsed(s.book, s.thread.dpy)
  {
    s := OnlineWithPipe();
    Reach([RGB], s, Uevent(Offline, EXTERNAL));
    s := Do(s, Uevent(Offline, EXTERNAL));
    Reach([RGB], s, Enter(false));
    s := Do(s, Enter(false));
    assert 0 in s.book.used && OwnedBy(s.book, 0, EXTERNAL);
  }
}
