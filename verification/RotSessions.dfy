/** Rotator sessions: a stack of at most three rotators (RotMgr), the top of which a display
    gives back when its configuration fails, and the map of each display from layers to
    rotators (LayerRotMap). */
module RotSessions {
  import opened Bits

  const MAX_SESS := 3          // MAX_ROT_SESS of RotMgr and MAX_SESS of LayerRotMap
  const NUM_DISPLAYS := 3

  /** RotMgr: alive[i] says that mRot[i] is not null; use is mUseCount. */
  datatype Pool = Pool(alive: seq<bool>, use: int)

  /** held[d]: the positions of the rotators that the map of display d refers to. */
  datatype Sessions = Sessions(pool: Pool, held: seq<seq<nat>>)

  /** What configuring a display does: ask for a rotator for a layer (makes: a new one can be
      made; configures: configRotator works), or clear its map after a failure. */
  datatype Op = Next(makes: bool, configures: bool) | ClearMap

  predicate Shape(s: Sessions)
  {
    |s.pool.alive| == MAX_SESS && |s.held| == NUM_DISPLAYS
  }

  // ---------------------------------------------------------------- operations

  /** getNext, and whether there is a rotator. */
  function NextOf(p: Pool, makes: bool): (Pool, bool)
    requires |p.alive| == MAX_SESS && 0 <= p.use
  {
    if p.use >= MAX_SESS then (p, false)
    else
      var alive := p.alive[p.use] || makes;
      (Pool(p.alive[p.use := alive], p.use + 1), alive)
  }

  /** configDone deletes the rotators above the used ones. */
  function KeepUsed(p: Pool): Pool
    requires |p.alive| == MAX_SESS
  {
    p.(alive := seq(MAX_SESS, i requires 0 <= i < MAX_SESS => p.alive[i] && i < p.use))
  }

  function MarkUnusedTop(p: Pool, count: nat): Pool
  {
    p.(use := (p.use - count) % MAX_WORD)
  }

  /** add of a map. */
  function Added(h: seq<nat>, rot: nat): seq<nat>
  {
    if |h| >= MAX_SESS then h else h + [rot]
  }

  /** The resets of the maps in reset() and configBegin. */
  function Begin(s: Sessions): Sessions
  {
    Sessions(s.pool.(use := 0), [[], [], []])
  }

  function Done(s: Sessions): Sessions
    requires Shape(s)
  {
    s.(pool := KeepUsed(s.pool))
  }

  function Apply(s: Sessions, d: nat, op: Op): Sessions
    requires Shape(s) && 0 <= s.pool.use && d < NUM_DISPLAYS
  {
    match op
    case Next(makes, configures) =>
      var (p, some) := NextOf(s.pool, makes);
      Sessions(p, if some && configures then s.held[d := Added(s.held[d], s.pool.use)] else s.held)
    case ClearMap => Sessions(MarkUnusedTop(s.pool, |s.held[d]|), s.held[d := []])
  }

  // ---------------------------------------------------------------- counts, in any order

  function Total(s: Sessions): nat
    requires Shape(s)
  {
    |s.held[0]| + |s.held[1]| + |s.held[2]|
  }

  predicate CountsOk(s: Sessions)
  {
    Shape(s) && Total(s) <= s.pool.use <= MAX_SESS
  }

  /** In whatever order displays are configured, and whatever fails, the maps never hold more
      than are used, and giving back never underflows. */
  lemma ApplyKeepsCounts(s: Sessions, d: nat, op: Op)
    requires CountsOk(s) && d < NUM_DISPLAYS
    ensures CountsOk(Apply(s, d, op))
    ensures op.ClearMap? ==> Apply(s, d, op).pool.use == s.pool.use - |s.held[d]| >= 0
  {
  }

  // ---------------------------------------------------------------- one display after the other

  ghost predicate InUse(s: Sessions, h: seq<nat>)
    requires Shape(s)
  {
    forall k :: 0 <= k < |h| ==> h[k] < s.pool.use && h[k] < MAX_SESS && s.pool.alive[h[k]]
  }

  predicate Increasing(h: seq<nat>)
  {
    forall j, k :: 0 <= j < k < |h| ==> h[j] < h[k]
  }

  predicate Apart(h: seq<nat>, h': seq<nat>)
  {
    forall j, k :: 0 <= j < |h| && 0 <= k < |h'| ==> h[j] != h'[k]
  }

  /** Every rotator in a map is in use and alive, and no other layer has it. */
  ghost predicate HeldOk(s: Sessions)
    requires Shape(s)
  {
    && (forall d :: 0 <= d < NUM_DISPLAYS ==> InUse(s, s.held[d]) && Increasing(s.held[d]))
    && (forall c, d :: 0 <= c < d < NUM_DISPLAYS ==> Apart(s.held[c], s.held[d]))
  }

  /** While display d is configured, the others hold rotators below the base and d above. */
  ghost predicate AtBase(s: Sessions, d: nat, base: int)
    requires Shape(s) && d < NUM_DISPLAYS
  {
    && 0 <= base && base + |s.held[d]| <= s.pool.use
    && (forall k :: 0 <= k < |s.held[d]| ==> base <= s.held[d][k])
    && (forall c, k :: 0 <= c < NUM_DISPLAYS && c != d && 0 <= k < |s.held[c]| ==> s.held[c][k] < base)
  }

  ghost predicate AllBelow(s: Sessions, top: int)
    requires Shape(s)
  {
    forall c, k :: 0 <= c < NUM_DISPLAYS && 0 <= k < |s.held[c]| ==> s.held[c][k] < top
  }

  lemma {:induction false} GetNextKeepsHeld(s: Sessions, d: nat, makes: bool, base: int)
    requires CountsOk(s) && d < NUM_DISPLAYS && HeldOk(s) && AtBase(s, d, base)
    ensures var s' := s.(pool := NextOf(s.pool, makes).0);
            CountsOk(s') && HeldOk(s') && AtBase(s', d, base) && AllBelow(s', s.pool.use)
  {
    var s' := s.(pool := NextOf(s.pool, makes).0);
    forall c | 0 <= c < NUM_DISPLAYS
      ensures InUse(s', s'.held[c])
      ensures forall k :: 0 <= k < |s.held[c]| ==> s.held[c][k] < s.pool.use
    {
      assert InUse(s, s.held[c]);
    }
  }

  lemma OnTop(s: Sessions, h: seq<nat>, top: nat)
    requires Shape(s) && InUse(s, h) && Increasing(h) && (forall k :: 0 <= k < |h| ==> h[k] < top)
    requires top < s.pool.use <= MAX_SESS && s.pool.alive[top]
    ensures InUse(s, h + [top]) && Increasing(h + [top])
  {
  }

  lemma OnTopApart(h: seq<nat>, h': seq<nat>, top: nat)
    requires forall k :: 0 <= k < |h'| ==> h'[k] < top
    ensures Apart(h, h') ==> Apart(h + [top], h')
    ensures Apart(h', h) ==> Apart(h', h + [top])
  {
  }

  lemma {:induction false} AddStaysApart(held: seq<seq<nat>>, d: nat, top: nat)
    requires |held| == NUM_DISPLAYS && d < NUM_DISPLAYS
    requires forall c, k :: 0 <= c < NUM_DISPLAYS && 0 <= k < |held[c]| ==> held[c][k] < top
    requires forall b, c :: 0 <= b < c < NUM_DISPLAYS ==> Apart(held[b], held[c])
    ensures var now := held[d := held[d] + [top]]; forall b, c :: 0 <= b < c < NUM_DISPLAYS ==> Apart(now[b], now[c])
  {
    var now := held[d := held[d] + [top]];
    forall b, c | 0 <= b < c < NUM_DISPLAYS
      ensures Apart(now[b], now[c])
    {
      assert Apart(held[b], held[c]);
      if b == d { OnTopApart(held[b], held[c], top); }
      if c == d { OnTopApart(held[c], held[b], top); }
    }
  }

  function Put(s: Sessions, d: nat, top: nat): Sessions
    requires d < |s.held|
  {
    s.(held := s.held[d := s.held[d] + [top]])
  }

  lemma {:induction false} AddStaysInUse(s: Sessions, d: nat, top: nat)
    requires Shape(s) && d < NUM_DISPLAYS && HeldOk(s) && AllBelow(s, top)
    requires top < s.pool.use <= MAX_SESS && s.pool.alive[top]
    ensures forall c :: 0 <= c < NUM_DISPLAYS ==> InUse(s, Put(s, d, top).held[c]) && Increasing(Put(s, d, top).held[c])
  {
    OnTop(s, s.held[d], top);
    forall c | 0 <= c < NUM_DISPLAYS
      ensures InUse(s, Put(s, d, top).held[c]) && Increasing(Put(s, d, top).held[c])
    {
      assert InUse(s, s.held[c]) && Increasing(s.held[c]);
    }
  }

  lemma AddKeepsBase(s: Sessions, d: nat, base: int, top: nat)
    requires Shape(s) && d < NUM_DISPLAYS && AtBase(s, d, base)
    requires base <= top && base + |s.held[d]| < s.pool.use
    ensures AtBase(Put(s, d, top), d, base)
  {
  }

  lemma {:induction false} AddKeepsHeld(s: Sessions, d: nat, base: int, top: nat)
    requires CountsOk(s) && d < NUM_DISPLAYS && HeldOk(s) && AtBase(s, d, base) && AllBelow(s, top)
    requires base <= top < s.pool.use && s.pool.alive[top] && base + |s.held[d]| < s.pool.use && Total(s) < s.pool.use
    ensures var s' := Put(s, d, top); CountsOk(s') && HeldOk(s') && AtBase(s', d, base)
  {
    var s' := Put(s, d, top);
    AddStaysApart(s.held, d, top);
    AddStaysInUse(s, d, top);
    AddKeepsBase(s, d, base, top);
    forall c | 0 <= c < NUM_DISPLAYS
      ensures InUse(s', s'.held[c])
    {
      assert InUse(s, s'.held[c]);
    }
  }

  lemma {:induction false} NextKeepsHeld(s: Sessions, d: nat, makes: bool, configures: bool, base: int)
    requires CountsOk(s) && d < NUM_DISPLAYS && HeldOk(s) && AtBase(s, d, base)
    ensures CountsOk(Apply(s, d, Next(makes, configures)))
    ensures var s' := Apply(s, d, Next(makes, configures));
            HeldOk(s') && AtBase(s', d, base) && forall c :: 0 <= c < NUM_DISPLAYS && c != d ==> s'.held[c] == s.held[c]
  {
    ApplyKeepsCounts(s, d, Next(makes, configures));
    GetNextKeepsHeld(s, d, makes, base);
    var (p, some) := NextOf(s.pool, makes);
    if some { AddKeepsHeld(s.(pool := p), d, base, s.pool.use); }
  }

  lemma {:induction false} ClearKeepsHeld(s: Sessions, d: nat, base: int)
    requires CountsOk(s) && d < NUM_DISPLAYS && HeldOk(s) && AtBase(s, d, base)
    ensures CountsOk(Apply(s, d, ClearMap))
    ensures var s' := Apply(s, d, ClearMap);
            HeldOk(s') && AtBase(s', d, base) && forall c :: 0 <= c < NUM_DISPLAYS && c != d ==> s'.held[c] == s.held[c]
  {
    ApplyKeepsCounts(s, d, ClearMap);
    var s' := Apply(s, d, ClearMap);
    assert s'.held[d] == [] && base <= s'.pool.use;
    forall c | 0 <= c < NUM_DISPLAYS
      ensures InUse(s', s'.held[c]) && Increasing(s'.held[c])
    {
      assert InUse(s, s.held[c]) && Increasing(s.held[c]);
    }
  }

  lemma {:induction false} ApplyKeepsHeld(s: Sessions, d: nat, op: Op, base: int)
    requires CountsOk(s) && d < NUM_DISPLAYS && HeldOk(s) && AtBase(s, d, base)
    ensures CountsOk(Apply(s, d, op)) && HeldOk(Apply(s, d, op)) && AtBase(Apply(s, d, op), d, base)
    ensures forall c :: 0 <= c < NUM_DISPLAYS && c != d ==> Apply(s, d, op).held[c] == s.held[c]
  {
    match op
    case Next(makes, configures) => NextKeepsHeld(s, d, makes, configures, base);
    case ClearMap => ClearKeepsHeld(s, d, base);
  }

  /** The configuration of one display. */
  datatype Phase = Phase(dpy: nat, ops: seq<Op>)

  function RunOps(s: Sessions, d: nat, ops: seq<Op>): (s': Sessions)
    requires CountsOk(s) && d < NUM_DISPLAYS
    ensures CountsOk(s')
    decreases |ops|
  {
    if ops == [] then s
    else
      var s1 := RunOps(s, d, ops[..|ops| - 1]);
      ApplyKeepsCounts(s1, d, ops[|ops| - 1]);
      Apply(s1, d, ops[|ops| - 1])
  }

  // ---------------------------------------------------------------- who is served

  predicate OnlyNext(ops: seq<Op>)
  {
    forall k :: 0 <= k < |ops| ==> ops[k].Next?
  }

  /** The k-th request of a display finds a session left, whose rotator exists or can be made. */
  predicate GetsRotator(s: Sessions, ops: seq<Op>, k: int)
    requires Shape(s) && 0 <= s.pool.use && 0 <= k < |ops| && ops[k].Next?
  {
    s.pool.use + k < MAX_SESS && (s.pool.alive[s.pool.use + k] || ops[k].makes)
  }

  /** Each request uses up a session while there is one, also if it fails, and the rotator of
      the k-th one exists from then on if it got one. */
  ghost predicate SessionsUsed(s: Sessions, e: Sessions, ops: seq<Op>)
    requires Shape(s) && Shape(e) && 0 <= s.pool.use && OnlyNext(ops)
  {
    && e.pool.use == (if s.pool.use + |ops| < MAX_SESS then s.pool.use + |ops| else MAX_SESS)
    && (forall i :: 0 <= i < MAX_SESS && !(s.pool.use <= i < s.pool.use + |ops|) ==>
          (e.pool.alive[i] <==> s.pool.alive[i]))
    && (forall k :: 0 <= k < |ops| && s.pool.use + k < MAX_SESS ==>
          (e.pool.alive[s.pool.use + k] <==> GetsRotator(s, ops, k)))
  }

  /** And display d holds it exactly if it was configured, too. */
  ghost predicate RotatorsHeld(s: Sessions, e: Sessions, d: nat, ops: seq<Op>)
    requires Shape(s) && Shape(e) && 0 <= s.pool.use && d < NUM_DISPLAYS && OnlyNext(ops)
  {
    && (forall i :: 0 <= i < MAX_SESS && !(s.pool.use <= i < s.pool.use + |ops|) ==>
          (i in e.held[d] <==> i in s.held[d]))
    && (forall k :: 0 <= k < |ops| && s.pool.use + k < MAX_SESS ==>
          (s.pool.use + k in e.held[d] <==> GetsRotator(s, ops, k) && ops[k].configures))
  }

  /** What the requests of display d leave. */
  lemma {:induction false} RequestsAreServed(s: Sessions, d: nat, ops: seq<Op>)
    requires CountsOk(s) && d < NUM_DISPLAYS && OnlyNext(ops)
    requires forall i :: i in s.held[d] ==> i < s.pool.use
    ensures SessionsUsed(s, RunOps(s, d, ops), ops) && RotatorsHeld(s, RunOps(s, d, ops), d, ops)
    decreases |ops|
  {
    if ops != [] {
      var n := |ops| - 1;
      RequestsAreServed(s, d, ops[..n]);
      OneMoreUsed(s, RunOps(s, d, ops[..n]), d, ops);
      OneMoreHeld(s, RunOps(s, d, ops[..n]), d, ops);
    }
  }

  lemma {:induction false} EarlierRequests(s: Sessions, ops: seq<Op>)
    requires CountsOk(s) && OnlyNext(ops) && ops != []
    ensures forall k :: 0 <= k < |ops| - 1 ==>
              GetsRotator(s, ops, k) == GetsRotator(s, ops[..|ops| - 1], k) && ops[k] == ops[..|ops| - 1][k]
  {
  }

  lemma {:induction false} OneMoreUsed(s: Sessions, m: Sessions, d: nat, ops: seq<Op>)
    requires CountsOk(s) && CountsOk(m) && d < NUM_DISPLAYS && OnlyNext(ops) && ops != []
    requires SessionsUsed(s, m, ops[..|ops| - 1])
    ensures SessionsUsed(s, Apply(m, d, ops[|ops| - 1]), ops)
  {
    EarlierRequests(s, ops);
  }

  lemma {:induction false} OneMoreHeld(s: Sessions, m: Sessions, d: nat, ops: seq<Op>)
    requires CountsOk(s) && CountsOk(m) && d < NUM_DISPLAYS && OnlyNext(ops) && ops != []
    requires forall i :: i in s.held[d] ==> i < s.pool.use
    requires SessionsUsed(s, m, ops[..|ops| - 1]) && RotatorsHeld(s, m, d, ops[..|ops| - 1])
    ensures RotatorsHeld(s, Apply(m, d, ops[|ops| - 1]), d, ops)
  {
    EarlierRequests(s, ops);
    var top := m.pool.use;
    var e := Apply(m, d, ops[|ops| - 1]);
    assert forall i :: i != top ==> (i in e.held[d] <==> i in m.held[d]);
  }

  predicate DistinctDisplays(phases: seq<Phase>)
  {
    && (forall i :: 0 <= i < |phases| ==> phases[i].dpy < NUM_DISPLAYS)
    && (forall i, j :: 0 <= i < j < |phases| ==> phases[i].dpy != phases[j].dpy)
  }

  function RunPhases(s: Sessions, phases: seq<Phase>): (s': Sessions)
    requires CountsOk(s) && DistinctDisplays(phases)
    ensures CountsOk(s')
    decreases |phases|
  {
    if phases == [] then s
    else
      var n := |phases| - 1;
      RunOps(RunPhases(s, phases[..n]), phases[n].dpy, phases[n].ops)
  }

  lemma {:induction false} OpsKeepHeld(s: Sessions, d: nat, ops: seq<Op>, base: int)
    requires CountsOk(s) && d < NUM_DISPLAYS && HeldOk(s) && AtBase(s, d, base)
    ensures HeldOk(RunOps(s, d, ops)) && AtBase(RunOps(s, d, ops), d, base)
    ensures forall c :: 0 <= c < NUM_DISPLAYS && c != d ==> RunOps(s, d, ops).held[c] == s.held[c]
    decreases |ops|
  {
    if ops != [] {
      var n := |ops| - 1;
      OpsKeepHeld(s, d, ops[..n], base);
      ApplyKeepsHeld(RunOps(s, d, ops[..n]), d, ops[n], base);
    }
  }

  predicate Untouched(phases: seq<Phase>, d: nat)
  {
    forall i :: 0 <= i < |phases| ==> phases[i].dpy != d
  }

  lemma {:induction false} AboveOthers(s: Sessions, d: nat)
    requires CountsOk(s) && d < NUM_DISPLAYS && HeldOk(s) && s.held[d] == []
    ensures AtBase(s, d, s.pool.use)
  {
    forall c, k | 0 <= c < NUM_DISPLAYS && c != d && 0 <= k < |s.held[c]|
      ensures s.held[c][k] < s.pool.use
    {
      assert InUse(s, s.held[c]);
    }
  }

  lemma {:induction false} PhasesKeepHeld(s: Sessions, phases: seq<Phase>)
    requires CountsOk(s) && DistinctDisplays(phases) && s.held == [[], [], []]
    ensures HeldOk(RunPhases(s, phases))
    ensures forall d :: 0 <= d < NUM_DISPLAYS && Untouched(phases, d) ==> RunPhases(s, phases).held[d] == []
    decreases |phases|
  {
    if phases != [] {
      var n := |phases| - 1;
      PhasesKeepHeld(s, phases[..n]);
      var m := RunPhases(s, phases[..n]);
      var d := phases[n].dpy;
      assert Untouched(phases[..n], d);
      AboveOthers(m, d);
      OpsKeepHeld(m, d, phases[n].ops, m.pool.use);
      forall c | 0 <= c < NUM_DISPLAYS && Untouched(phases, c)
        ensures RunPhases(s, phases).held[c] == []
      {
        assert phases[n].dpy != c && Untouched(phases[..n], c);
      }
    }
  }

  /** At the end of every round, including failed configurations, each rotator that a layer
      holds is alive and held by that layer only, and the maps hold at most as many as are
      used, which are at most three. */
  lemma RoundKeepsRotators(s: Sessions, phases: seq<Phase>)
    requires Shape(s) && DistinctDisplays(phases)
    ensures CountsOk(Begin(s))
    ensures var e := Done(RunPhases(Begin(s), phases));
            CountsOk(e) && HeldOk(e) && forall i :: e.pool.use <= i < MAX_SESS ==> !e.pool.alive[i]
  {
    PhasesKeepHeld(Begin(s), phases);
  }

  lemma {:induction false} OpsKeepAlive(s: Sessions, d: nat, ops: seq<Op>, i: nat)
    requires CountsOk(s) && d < NUM_DISPLAYS && i < MAX_SESS && s.pool.alive[i]
    ensures RunOps(s, d, ops).pool.alive[i]
    decreases |ops|
  {
    if ops != [] { OpsKeepAlive(s, d, ops[..|ops| - 1], i); }
  }

  lemma {:induction false} PhasesKeepAlive(s: Sessions, phases: seq<Phase>, i: nat)
    requires CountsOk(s) && DistinctDisplays(phases) && i < MAX_SESS && s.pool.alive[i]
    ensures RunPhases(s, phases).pool.alive[i]
    decreases |phases|
  {
    if phases != [] {
      var n := |phases| - 1;
      PhasesKeepAlive(s, phases[..n], i);
      OpsKeepAlive(RunPhases(s, phases[..n]), phases[n].dpy, phases[n].ops, i);
    }
  }

  /** A rotator survives a round exactly if as many sessions are used in it. */
  lemma RotatorSurvivesIff(s: Sessions, phases: seq<Phase>, i: nat)
    requires Shape(s) && DistinctDisplays(phases) && i < MAX_SESS && s.pool.alive[i]
    ensures CountsOk(Begin(s))
    ensures var e := Done(RunPhases(Begin(s), phases)); Shape(e) && (e.pool.alive[i] <==> i < e.pool.use)
  {
    PhasesKeepAlive(Begin(s), phases, i);
  }

  /** If the configurations of two displays were interleaved, clearing one map could take the
      rotator of the other: display 1 and then 2 take one each, 1 fails, and 0 gets the one
      that 2 holds. */
  lemma InterleavingSharesRotators()
    ensures var s := Begin(Sessions(Pool([false, false, false], 0), [[], [], []]));
            var s1 := Apply(s, 1, Next(true, true));
            var s2 := Apply(s1, 2, Next(true, true));
            var s3 := Apply(s2, 1, ClearMap);
            var s4 := Apply(s3, 0, Next(true, true));
            s4.held[0] == s4.held[2] == [1]
  {
  }

  // ---------------------------------------------------------------- the objects

  class RotMgr {
    const rots: array<bool>
    var useCount: int

    ghost function View(): Pool
      reads this, rots
    {
      Pool(rots[..], useCount)
    }

    constructor ()
      ensures View() == Pool([false, false, false], 0) && fresh(rots)
    {
      rots := new bool[MAX_SESS](i => false);
      useCount := 0;
      new;
      assert rots[..] == [false, false, false];
    }

    method ConfigBegin()
      modifies this
      ensures View() == old(View()).(use := 0)
    {
      useCount := 0;
    }

    method ConfigDone()
      requires rots.Length == MAX_SESS && 0 <= useCount
      modifies rots
      ensures View() == KeepUsed(old(View()))
    {
      var i := useCount;
      while i < MAX_SESS
        invariant useCount <= i && (i > MAX_SESS ==> i == useCount)
        invariant forall k :: 0 <= k < MAX_SESS ==> rots[k] == (old(rots[k]) && (k < useCount || k >= i))
      {
        if rots[i] {
          rots[i] := false;
        }
        i := i + 1;
      }
      assert rots[..] == KeepUsed(old(View())).alive;
    }

    /** The position of the rotator, if there is one. */
    method GetNext(makes: bool) returns (some: bool, rot: nat)
      requires rots.Length == MAX_SESS && 0 <= useCount
      modifies this, rots
      ensures (View(), some) == NextOf(old(View()), makes) && rot == old(useCount)
    {
      rot := useCount;
      if useCount >= MAX_SESS {
        return false, rot;
      }
      if !rots[useCount] {
        rots[useCount] := makes;
      }
      some := rots[useCount];
      assert rots[..] == old(rots[..])[useCount := some];
      useCount := useCount + 1;
    }

    method MarkUnused(count: nat)
      modifies this
      ensures View() == MarkUnusedTop(old(View()), count)
    {
      useCount := (useCount - count) % MAX_WORD;
    }
  }

  class LayerRotMap {
    const layers: array<int>
    const rots: array<nat>
    var count: nat

    ghost predicate Valid()
      reads this
    {
      layers.Length == MAX_SESS == rots.Length && count <= MAX_SESS
    }

    ghost function View(): seq<nat>
      requires Valid()
      reads this, rots
    {
      rots[..count]
    }

    constructor ()
      ensures Valid() && View() == [] && fresh(layers) && fresh(rots)
    {
      layers := new int[MAX_SESS](i => 0);
      rots := new nat[MAX_SESS](i => 0);
      count := 0;
    }

    method Add(layer: int, rot: nat)
      requires Valid()
      modifies this, layers, rots
      ensures Valid() && View() == Added(old(View()), rot)
    {
      if count >= MAX_SESS {
        return;
      }
      layers[count] := layer;
      rots[count] := rot;
      count := count + 1;
    }

    method Reset()
      requires Valid()
      modifies this, layers, rots
      ensures Valid() && View() == []
    {
      for i := 0 to MAX_SESS
        invariant Valid()
      {
        layers[i] := 0;
        rots[i] := 0;
      }
      count := 0;
    }

    method Clear(mgr: RotMgr)
      requires Valid()
      modifies this, layers, rots, mgr
      ensures Valid() && View() == [] && mgr.View() == MarkUnusedTop(old(mgr.View()), |old(View())|)
    {
      mgr.MarkUnused(count);
      Reset();
    }
  }

  /** The rotator part of configuring a layer of a display. */
  method ConfigureRotator(mgr: RotMgr, rotMap: LayerRotMap, layer: int, makes: bool, configures: bool)
    returns (ok: bool)
    requires mgr.rots.Length == MAX_SESS && 0 <= mgr.useCount && rotMap.Valid()
    modifies mgr, mgr.rots, rotMap, rotMap.layers, rotMap.rots
    ensures rotMap.Valid()
    ensures var (p, some) := NextOf(old(mgr.View()), makes);
            && mgr.View() == p && ok == (some && configures)
            && rotMap.View() == if ok then Added(old(rotMap.View()), old(mgr.useCount)) else old(rotMap.View())
  {
    var some, rot := mgr.GetNext(makes);
    if !some || !configures {
      return false;
    }
    rotMap.Add(layer, rot);
    return true;
  }
}
