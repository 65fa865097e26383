/** That displays come back: what runs of the two threads show after ONLINE, RESUME and
    unblanking, and what stays dark. HotPlug.dfy has the steps and the handshake when a
    display leaves. */
module HotPlugRuns {
  import opened PipeBook
  import opened PipeRuns
  import opened HotPlug

  // ---------------------------------------------------------------- what a step does to the flags

  lemma PrepareFlags(s: State, lists: set<int>, ops: seq<Op>, s': State, d: int)
    requires Taken(s, Prepare(lists, ops), s') && External(d)
    ensures |s'.attrs| == 3 && s'.virtualOnExt == s.virtualOnExt && s'.attrs[PRIMARY] == s.attrs[PRIMARY]
    ensures s'.attrs[d] == s.attrs[d].(configuring := s.attrs[d].configuring && !(d in lists && Composes(s, d)))
  {
  }

  lemma BlankFlags(s: State, x: int, blank: bool, ok: bool, s': State, d: int)
    requires Taken(s, Blank(x, blank, ok), s') && 0 <= d < 3
    ensures |s'.attrs| == 3 && s'.virtualOnExt == s.virtualOnExt
    ensures s'.attrs[d] in {s.attrs[d], s.attrs[d].(active := !blank)}
    ensures d == VIRTUAL && !s.attrs[d].connected ==> s'.attrs[d] == s.attrs[d]
  {
  }

  /** A section changes the flags of its own display only. */
  lemma EnterFlagsOther(s: State, google: bool, s': State, d: int)
    requires Taken(s, Enter(google), s') && 0 <= d < 3 && s.thread.dpy != d
    ensures |s'.attrs| == 3 && s'.attrs[d] == s.attrs[d]
  {
  }

  lemma EnterFlagsOwn(s: State, google: bool, s': State, d: int)
    requires Taken(s, Enter(google), s') && External(d) && s.thread.dpy == d
    ensures |s'.attrs| == 3
    ensures s.thread.section == SetUpDisplay ==>
              s'.attrs[d] == Attr(true, s.attrs[d].active || (d == VIRTUAL && !s.virtualOnExt), false, true, true)
    ensures s.thread.section != SetUpDisplay ==> s'.attrs[d] == EntryFlags(s.attrs[d], s.thread.section)
  {
  }

  // ---------------------------------------------------------------- what takes a display away

  /** A blank, a section that takes the display away, or a virtual display that takes over the
      id of the external one. */
  predicate TakesAway(s: State, step: Step, d: int)
  {
    || (step.Blank? && step.blank)
    || (step.Enter? && s.thread.WantsLock? && s.thread.dpy == d && Quits(s.thread.section))
    || (step.Enter? && s.thread.WantsLock? && s.thread.section == ChooseMode && !step.google && d == EXTERNAL)
  }

  lemma {:induction false} ComposedAfterPrepare(s: State, lists: set<int>, ops: seq<Op>, s': State, d: int)
    requires Inv(s) && Taken(s, Prepare(lists, ops), s') && 0 <= d < 3 && Composes(s, d)
    ensures |s'.attrs| == 3 && Composes(s', d)
  {
    PrepareFlags(s, lists, ops, s', if d == PRIMARY then EXTERNAL else d);
  }

  lemma {:induction false} ComposedAfterUnblank(s: State, x: int, ok: bool, s': State, d: int)
    requires Inv(s) && Taken(s, Blank(x, false, ok), s') && 0 <= d < 3 && Composes(s, d)
    ensures |s'.attrs| == 3 && Composes(s', d)
  {
    BlankFlags(s, x, false, ok, s', d);
  }

  lemma {:induction false} ComposedAfterEnter(s: State, google: bool, s': State, d: int)
    requires Inv(s) && Taken(s, Enter(google), s') && 0 <= d < 3 && Composes(s, d) && !TakesAway(s, Enter(google), d)
    ensures |s'.attrs| == 3 && Composes(s', d)
  {
  }

  lemma {:induction false} ComposedStays(s: State, step: Step, s': State, d: int)
    requires Inv(s) && Taken(s, step, s') && 0 <= d < 3 && Composes(s, d) && !TakesAway(s, step, d)
    ensures |s'.attrs| == 3 && Composes(s', d)
  {
    match step
    case Prepare(lists, ops) => ComposedAfterPrepare(s, lists, ops, s', d);
    case Blank(x, blank, ok) => ComposedAfterUnblank(s, x, ok, s', d);
    case Enter(google) => ComposedAfterEnter(s, google, s', d);
    case _ =>
  }

  /** A display that is composed stays so, in every round, until something takes it away. */
  lemma {:induction false} ComposedGoesOn(
    types: seq<PipeType>, states: seq<State>, steps: seq<Step>, d: int, k: nat, n: nat)
    requires |types| <= OV_INVALID && IsRun(types, states, steps) && k <= n <= |steps| && 0 <= d < 3
    requires |states[k].attrs| == 3 && Composes(states[k], d)
    requires forall j :: k <= j < n ==> !TakesAway(states[j], steps[j], d)
    ensures |states[n].attrs| == 3 && Composes(states[n], d)
    decreases n - k
  {
    if k < n {
      RunKeepsInv(types, states, steps, k);
      ComposedStays(states[k], steps[k], states[k + 1], d);
      ComposedGoesOn(types, states, steps, d, k + 1, n);
    }
  }

  // ---------------------------------------------------------------- RESUME

  /** RESUME waits, with the flags that it leaves to the time after. */
  predicate Resuming(s: State, d: int)
    requires |s.attrs| == 3 && External(d)
  {
    s.thread.Waits? && s.thread.section == Resume && s.thread.dpy == d && s.attrs[d].active && s.attrs[d].configuring
  }

  /** The flags that decide, with those of RESUME, whether a display is composed. */
  predicate SameConnection(s: State, s': State, d: int)
    requires |s.attrs| == 3 && |s'.attrs| == 3 && External(d)
  {
    s'.attrs[d].connected == s.attrs[d].connected && s'.virtualOnExt == s.virtualOnExt
  }

  lemma {:induction false} ResumeStep(s: State, step: Step, s': State, d: int)
    requires Inv(s) && Taken(s, step, s') && External(d) && Resuming(s, d)
    requires step != Return && !(step.Blank? && step.blank)
    ensures |s'.attrs| == 3 && Resuming(s', d) && SameConnection(s, s', d)
  {
  }

  /** Steps k and n enter RESUME for display d and return from its wait, without a blank in
      between. */
  ghost predicate ResumeToReturn(
    types: seq<PipeType>, states: seq<State>, steps: seq<Step>, d: int, k: nat, n: nat)
    requires |types| <= OV_INVALID
  {
    && IsRun(types, states, steps) && k < n < |steps| && External(d)
    && steps[k].Enter? && states[k].thread == WantsLock(Resume, d) && steps[n] == Return
    && forall j :: k < j < n ==> steps[j] != Return && !(steps[j].Blank? && steps[j].blank)
  }

  lemma {:induction false} ResumeWaits(
    types: seq<PipeType>, states: seq<State>, steps: seq<Step>, d: int, k: nat, n: nat)
    requires |types| <= OV_INVALID && IsRun(types, states, steps) && k <= n <= |steps| && External(d)
    requires |states[k].attrs| == 3 && Resuming(states[k], d)
    requires forall j :: k <= j < n ==> steps[j] != Return && !(steps[j].Blank? && steps[j].blank)
    ensures |states[n].attrs| == 3 && Resuming(states[n], d) && SameConnection(states[k], states[n], d)
    decreases n - k
  {
    if k < n {
      RunKeepsInv(types, states, steps, k);
      ResumeStep(states[k], steps[k], states[k + 1], d);
      ResumeWaits(types, states, steps, d, k + 1, n);
    }
  }

  lemma ResumeBegins(s: State, step: Step, s': State, d: int)
    requires Taken(s, step, s') && step.Enter? && s.thread == WantsLock(Resume, d)
    ensures External(d) && |s'.attrs| == 3 && Resuming(s', d) && SameConnection(s, s', d)
  {
  }

  lemma ResumeEnds(s: State, s': State, d: int)
    requires Taken(s, Return, s') && External(d) && Resuming(s, d)
    ensures |s'.attrs| == 3 && SameConnection(s, s', d)
    ensures s'.thread == Idle && s'.attrs[d].active && !s'.attrs[d].paused && s'.attrs[d].configuring
  {
  }

  /** When RESUME returns, the display is active, no longer paused, and its connection is
      pending until it is composed; if it is connected and not mapped to another one, the next
      round composes it. */
  lemma {:induction false} ResumeShowsAgain(
    types: seq<PipeType>, states: seq<State>, steps: seq<Step>, d: int, k: nat, n: nat)
    requires |types| <= OV_INVALID && ResumeToReturn(types, states, steps, d, k, n)
    ensures |states[k].attrs| == |states[n + 1].attrs| == 3
    ensures var (s, s') := (states[k], states[n + 1]);
            && s'.thread == Idle && s'.attrs[d].active && !s'.attrs[d].paused && s'.attrs[d].configuring
            && s'.attrs[d].connected == s.attrs[d].connected && Mapped(s', d) == Mapped(s, d)
            && (s.attrs[d].connected && Mapped(s, d) == d ==> Composes(s', d))
  {
    ResumeBegins(states[k], steps[k], states[k + 1], d);
    ResumeWaits(types, states, steps, d, k + 1, n);
    ResumeEnds(states[n], states[n + 1], d);
  }

  /** PAUSE marks the display active, so that it counts as present, but hides it. */
  lemma PauseHides(s: State, step: Step, s': State, d: int)
    requires Taken(s, step, s') && step.Enter? && s.thread == WantsLock(Pause, d)
    ensures External(d) && |s'.attrs| == 3 && s'.attrs[d].active && s'.attrs[d].paused && !Composes(s', d)
    ensures SameConnection(s, s', d)
  {
  }

  /** Whatever the section, the end of a round lets it go on. */
  lemma RoundEndsWait(s: State, s': State)
    requires Taken(s, Set, s') && s.thread.Waits?
    ensures Shape(s') && Enabled(s', Return)
  {
  }

  // ---------------------------------------------------------------- ONLINE

  /** The uevent thread is on its way through ONLINE of display d. */
  predicate Connecting(s: State, d: int)
  {
    match s.thread
    case Idle => false
    case WantsLock(e, x) =>
      || (e in {Online, SetUpDisplay} && x == d) || (e == ChooseMode && d == VIRTUAL)
      || (e == DropVirtual && d == EXTERNAL)
    case Waits(e, x, mark, woken) => (e == Online && x == d) || (e == DropVirtual && d == EXTERNAL)
  }

  /** The display is set up: the next round may compose it once it is active. */
  predicate IsUp(s: State, d: int)
    requires |s.attrs| == 3 && External(d)
  {
    s.attrs[d].connected && s.attrs[d].comp && !s.attrs[d].paused
  }

  /** ONLINE of display d is over: it is set up, and its connection is pending. */
  predicate JustUp(s: State, d: int)
    requires |s.attrs| == 3 && External(d)
  {
    s.thread == Idle && IsUp(s, d) && s.attrs[d].configuring
  }

  lemma {:induction false} ConnectingGoesOn(s: State, step: Step, s': State, d: int)
    requires Inv(s) && Taken(s, step, s') && External(d) && Connecting(s, d)
    ensures |s'.attrs| == 3 && (Connecting(s', d) || JustUp(s', d))
  {
  }

  lemma {:induction false} StillConnecting(
    types: seq<PipeType>, states: seq<State>, steps: seq<Step>, d: int, k: nat, n: nat)
    requires |types| <= OV_INVALID && IsRun(types, states, steps) && k <= n <= |steps| && External(d)
    requires Connecting(states[k], d) || (|states[k].attrs| == 3 && JustUp(states[k], d))
    requires forall j :: k <= j < n ==> states[j].thread != Idle
    ensures Connecting(states[n], d) || (|states[n].attrs| == 3 && JustUp(states[n], d))
    decreases n - k
  {
    if k < n {
      RunKeepsInv(types, states, steps, k);
      ConnectingGoesOn(states[k], steps[k], states[k + 1], d);
      StillConnecting(types, states, steps, d, k + 1, n);
    }
  }

  /** Once ONLINE of a display that was not connected is over, by whatever sections and in
      whatever interleaving, the display is set up and its connection is pending. */
  lemma {:induction false} OnlineConnects(
    types: seq<PipeType>, states: seq<State>, steps: seq<Step>, d: int, k: nat, n: nat)
    requires |types| <= OV_INVALID && IsRun(types, states, steps) && k < n <= |steps| && External(d)
    requires |states[k].attrs| == 3 && steps[k] == Uevent(Online, d) && !states[k].attrs[d].connected
    requires states[n].thread == Idle && forall j :: k < j < n ==> states[j].thread != Idle
    ensures |states[n].attrs| == 3 && IsUp(states[n], d) && states[n].attrs[d].configuring
  {
    assert Taken(states[k], steps[k], states[k + 1]);
    StillConnecting(types, states, steps, d, k + 1, n);
  }

  /** When the external display is about to be set up, the virtual one is disconnected and no
      longer borrows its id. */
  lemma HdmiTakesOver(types: seq<PipeType>, s: State)
    requires |types| <= OV_INVALID && Reachable(types, s) && s.thread == WantsLock(SetUpDisplay, EXTERNAL)
    ensures |s.attrs| == 3 && !s.attrs[VIRTUAL].connected && Mapped(s, EXTERNAL) == EXTERNAL
  {
    ReachableKeepsInv(types, s);
  }

  lemma {:induction false} UpStays(s: State, step: Step, s': State, d: int)
    requires Inv(s) && Taken(s, step, s') && External(d) && IsUp(s, d)
    requires step.Enter? && s.thread.dpy == d ==> !Quits(s.thread.section)
    ensures |s'.attrs| == 3 && IsUp(s', d)
  {
    match step
    case Prepare(lists, ops) => PrepareFlags(s, lists, ops, s', d);
    case Blank(x, blank, ok) => BlankFlags(s, x, blank, ok, s', d);
    case _ =>
  }

  lemma {:induction false} UpGoesOn(types: seq<PipeType>, states: seq<State>, steps: seq<Step>, d: int, k: nat, n: nat)
    requires |types| <= OV_INVALID && IsRun(types, states, steps) && k <= n <= |steps| && External(d)
    requires |states[k].attrs| == 3 && IsUp(states[k], d)
    requires forall j :: k <= j < n && steps[j].Enter? && states[j].thread.WantsLock? && states[j].thread.dpy == d ==>
               !Quits(states[j].thread.section)
    ensures |states[n].attrs| == 3 && IsUp(states[n], d)
    decreases n - k
  {
    if k < n {
      RunKeepsInv(types, states, steps, k);
      UpStays(states[k], steps[k], states[k + 1], d);
      UpGoesOn(types, states, steps, d, k + 1, n);
    }
  }

  /** A display that was set up and not taken away since is composed after the unblanking of
      the id that is mapped to it. */
  lemma {:induction false} UnblankedIsShown(
    types: seq<PipeType>, states: seq<State>, steps: seq<Step>, d: int, x: int, ok: bool, k: nat, n: nat)
    requires |types| <= OV_INVALID && IsRun(types, states, steps) && k <= n < |steps| && External(d)
    requires |states[k].attrs| == 3 && IsUp(states[k], d)
    requires forall j :: k <= j < n && steps[j].Enter? && states[j].thread.WantsLock? && states[j].thread.dpy == d ==>
               !Quits(states[j].thread.section)
    requires steps[n] == Blank(x, false, ok) && Mapped(states[n], x) == d
    ensures |states[n + 1].attrs| == 3 && Composes(states[n + 1], d)
  {
    UpGoesOn(types, states, steps, d, k, n);
    RunKeepsInv(types, states, steps, n);
    assert Taken(states[n], steps[n], states[n + 1]);
    UnblankShows(states[n], x, ok);
  }

  /** The mode of a virtual display, from its choice to its set up. */
  lemma {:induction false} ModeStays(types: seq<PipeType>, states: seq<State>, steps: seq<Step>, k: nat, n: nat)
    requires |types| <= OV_INVALID && IsRun(types, states, steps) && k < n < |steps|
    requires steps[k].Enter? && states[k].thread == WantsLock(ChooseMode, VIRTUAL)
    requires forall j :: k < j < n ==> !steps[j].Enter?
    ensures states[n].thread == WantsLock(SetUpDisplay, VIRTUAL) && states[n].virtualOnExt == !steps[k].google
    decreases n
  {
    assert Taken(states[n - 1], steps[n - 1], states[n]);
    if n > k + 1 { ModeStays(types, states, steps, k, n - 1); }
  }

  /** A virtual display of the platform's own kind is composed as soon as it is set up, since it
      gets no unblanking; one of the other kind takes over the id of the external display. */
  lemma {:induction false} VirtualIsShown(types: seq<PipeType>, states: seq<State>, steps: seq<Step>, k: nat, n: nat)
    requires |types| <= OV_INVALID && IsRun(types, states, steps) && k < n < |steps|
    requires steps[k].Enter? && states[k].thread == WantsLock(ChooseMode, VIRTUAL)
    requires steps[n].Enter? && forall j :: k < j < n ==> !steps[j].Enter?
    ensures |states[n + 1].attrs| == 3 && IsUp(states[n + 1], VIRTUAL)
    ensures if steps[k].google then Composes(states[n + 1], VIRTUAL) else Mapped(states[n + 1], EXTERNAL) == VIRTUAL
  {
    ModeStays(types, states, steps, k, n);
    assert Taken(states[n], steps[n], states[n + 1]);
  }

  /** As long as it has the id of the external display, that one is not composed. */
  lemma BorrowedIdIsHidden(s: State)
    requires |s.attrs| == 3 && s.virtualOnExt
    ensures Mapped(s, EXTERNAL) == VIRTUAL && !Composes(s, EXTERNAL)
  {
  }

  // ---------------------------------------------------------------- blanking

  /** Unblanking shows the display that the id is mapped to, if it is set up, and with the
      primary display a virtual one that gets no unblanking of its own; no display goes dark. */
  lemma {:induction false} UnblankShows(s: State, x: int, ok: bool)
    requires Inv(s) && Enabled(s, Blank(x, false, ok))
    ensures var (s', d) := (Do(s, Blank(x, false, ok)), Mapped(s, x));
            && (External(d) && IsUp(s, d) && Mapped(s, d) == d ==> Composes(s', d))
            && (d == PRIMARY && ok ==> Composes(s', PRIMARY))
            && (d == PRIMARY && ok && !s.virtualOnExt && IsUp(s, VIRTUAL) ==> Composes(s', VIRTUAL))
            && s'.book == s.book && s'.thread == s.thread
            && forall c :: 0 <= c < 3 && Composes(s, c) ==> Composes(s', c)
  {
  }

  /** Blanking hides the display that the id is mapped to, and a virtual one with the primary
      display; no pipe of any display is left in use, and those that were are destroyed. Other
      displays stay as they are. */
  lemma {:induction false} BlankHides(s: State, x: int, ok: bool)
    requires Inv(s) && Enabled(s, Blank(x, true, ok))
    ensures var (s', d) := (Do(s, Blank(x, true, ok)), Mapped(s, x));
            var withPrimary := d == PRIMARY && ok && !s.virtualOnExt;
            && ((d == PRIMARY ==> ok) ==> !Composes(s', d))
            && (withPrimary ==> !Composes(s', VIRTUAL))
            && (forall c :: 0 <= c < 3 && c != d && !(withPrimary && c == VIRTUAL) ==>
                  (Composes(s', c) <==> Composes(s, c)))
    ensures forall c :: IsDisplay(c) ==> NoneUsed(Do(s, Blank(x, true, ok)).book, c)
    ensures forall i :: i in s.book.last ==>
              i < |s.destroyed| && Do(s, Blank(x, true, ok)).destroyed[i] == s.destroyed[i] + 1
  {
    RoundKeepsSlots(s.book, []);
    forall c | IsDisplay(c)
      ensures NoneUsed(Round(s.book, []), c)
    {
      RoundWithout(s.book, [], {}, c);
    }
  }

  // ---------------------------------------------------------------- after OFFLINE

  /** Steps that may light up display d: unblanking, for a virtual display only while it is
      connected, PAUSE and RESUME, which mark it active, and the set up of a virtual display. */
  predicate LightsUp(s: State, step: Step, d: int)
    requires |s.attrs| == 3 && External(d)
  {
    || (step.Blank? && !step.blank && (d == EXTERNAL || s.attrs[d].connected))
    || (step.Enter? && s.thread.WantsLock? && s.thread.dpy == d &&
        (s.thread.section in {Pause, Resume} || (s.thread.section == SetUpDisplay && d == VIRTUAL)))
  }

  lemma {:induction false} DarkAfterEnter(s: State, google: bool, s': State, d: int)
    requires Taken(s, Enter(google), s') && External(d) && !s.attrs[d].active && !LightsUp(s, Enter(google), d)
    ensures |s'.attrs| == 3 && !s'.attrs[d].active
  {
    if s.thread.dpy == d {
      EnterFlagsOwn(s, google, s', d);
    } else {
      EnterFlagsOther(s, google, s', d);
    }
  }

  lemma {:induction false} DarkStays(s: State, step: Step, s': State, d: int)
    requires Taken(s, step, s') && External(d) && !s.attrs[d].active && !LightsUp(s, step, d)
    ensures |s'.attrs| == 3 && !s'.attrs[d].active
  {
    match step
    case Prepare(lists, ops) => PrepareFlags(s, lists, ops, s', d);
    case Blank(x, blank, ok) => BlankFlags(s, x, blank, ok, s', d);
    case Enter(google) => DarkAfterEnter(s, google, s', d);
    case _ =>
  }

  lemma {:induction false} DarkGoesOn(
    types: seq<PipeType>, states: seq<State>, steps: seq<Step>, d: int, k: nat, n: nat)
    requires |types| <= OV_INVALID && IsRun(types, states, steps) && k <= n <= |steps| && External(d)
    requires |states[k].attrs| == 3 && !states[k].attrs[d].active
    requires forall j :: k <= j < n ==> |states[j].attrs| == 3 && !LightsUp(states[j], steps[j], d)
    ensures |states[n].attrs| == 3 && !states[n].attrs[d].active
    decreases n - k
  {
    if k < n {
      DarkStays(states[k], steps[k], states[k + 1], d);
      DarkGoesOn(types, states, steps, d, k + 1, n);
    }
  }

  /** After OFFLINE, or after it made way for HDMI, a display stays dark, even once it is
      connected again, until it is unblanked, paused, resumed or set up as a virtual one. */
  lemma {:induction false} GoneStaysDark(
    types: seq<PipeType>, states: seq<State>, steps: seq<Step>, d: int, k: nat, n: nat)
    requires |types| <= OV_INVALID && IsRun(types, states, steps) && k < n <= |steps| && External(d)
    requires steps[k].Enter? && states[k].thread in {WantsLock(Offline, d), WantsLock(DropVirtual, d)}
    requires forall j :: k < j < n ==> |states[j].attrs| == 3 && !LightsUp(states[j], steps[j], d)
    ensures |states[n].attrs| == 3 && !states[n].attrs[d].active && !Composes(states[n], d)
  {
    assert Taken(states[k], steps[k], states[k + 1]);
    DarkGoesOn(types, states, steps, d, k + 1, n);
  }

  lemma {:induction false} GoneAfterEnter(s: State, google: bool, s': State, d: int)
    requires Taken(s, Enter(google), s') && External(d) && Gone(s, d) && s.thread != WantsLock(SetUpDisplay, d)
    ensures |s'.attrs| == 3 && Gone(s', d)
  {
    if s.thread.dpy == d {
      EnterFlagsOwn(s, google, s', d);
    } else {
      EnterFlagsOther(s, google, s', d);
    }
  }

  /** And a display that is disconnected or paused stays gone until it is set up again or RESUME
      returns. */
  lemma {:induction false} GoneStays(s: State, step: Step, s': State, d: int)
    requires Taken(s, step, s') && External(d) && Gone(s, d)
    requires !(step.Enter? && s.thread == WantsLock(SetUpDisplay, d))
    requires !(step == Return && s.thread.section == Resume && s.thread.dpy == d)
    ensures |s'.attrs| == 3 && Gone(s', d) && !Composes(s', d)
  {
    match step
    case Prepare(lists, ops) => PrepareFlags(s, lists, ops, s', d);
    case Blank(x, blank, ok) => BlankFlags(s, x, blank, ok, s', d);
    case Enter(google) => GoneAfterEnter(s, google, s', d);
    case _ =>
  }

  // ---------------------------------------------------------------- pending connections

  lemma {:induction false} StillPending(s: State, google: bool, s': State, d: int)
    requires Taken(s, Enter(google), s') && External(d) && s.attrs[d].configuring
    ensures |s'.attrs| == 3 && s'.attrs[d].configuring
  {
    if s.thread.dpy == d {
      EnterFlagsOwn(s, google, s', d);
    } else {
      EnterFlagsOther(s, google, s', d);
    }
  }

  /** A pending connection ends exactly with the round that composes the display. */
  lemma {:induction false} PendingEndsIff(s: State, step: Step, s': State, d: int)
    requires Taken(s, step, s') && External(d) && s.attrs[d].configuring
    ensures |s'.attrs| == 3
    ensures !s'.attrs[d].configuring <==> step.Prepare? && d in step.lists && Composes(s, d)
  {
    match step
    case Prepare(lists, ops) => PrepareFlags(s, lists, ops, s', d);
    case Blank(x, blank, ok) => BlankFlags(s, x, blank, ok, s', d);
    case Enter(google) => StillPending(s, google, s', d);
    case _ =>
  }

  lemma {:induction false} EnterPending(s: State, google: bool, s': State, d: int)
    requires Taken(s, Enter(google), s') && External(d) && !s.attrs[d].configuring
    ensures |s'.attrs| == 3
    ensures s'.attrs[d].configuring <==> s.thread.dpy == d && s.thread.section in {Online, SetUpDisplay, Resume}
  {
    if s.thread.dpy == d {
      EnterFlagsOwn(s, google, s', d);
    } else {
      EnterFlagsOther(s, google, s', d);
    }
  }

  /** And it begins exactly with ONLINE, its set up, and RESUME. */
  lemma {:induction false} PendingBeginsIff(s: State, step: Step, s': State, d: int)
    requires Taken(s, step, s') && External(d) && !s.attrs[d].configuring
    ensures |s'.attrs| == 3
    ensures s'.attrs[d].configuring <==>
            step.Enter? && s.thread.dpy == d && s.thread.section in {Online, SetUpDisplay, Resume}
  {
    match step
    case Prepare(lists, ops) => PrepareFlags(s, lists, ops, s', d);
    case Blank(x, blank, ok) => BlankFlags(s, x, blank, ok, s', d);
    case Enter(google) => EnterPending(s, google, s', d);
    case _ =>
  }

  /** An event starts its section exactly if it asks for a change. */
  lemma {:induction false} EventIsTakenIff(s: State, e: Section, d: int)
    requires Inv(s) && Enabled(s, Uevent(e, d))
    ensures var a := s.attrs[d];
            var changes := (e == Offline && a.connected) || (e == Online && !a.connected) ||
                           (e == Pause && !a.paused) || (e == Resume && a.paused);
            Do(s, Uevent(e, d)) == if changes then s.(thread := WantsLock(e, d)) else s
  {
  }
}
