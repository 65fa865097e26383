/** The memory of a rotator: two slots, so that a new buffer can be allocated before the old
    one is freed when the size changes, each holding two windows that are used in turn.
    Allocation, rotation and freeing may fail; the outcomes are parameters. */
module Rotator {
  import opened Options

  const NO_FD := -1
  const ROT_NUM_BUFS := 2
  const MAX_ROT_MEM := 2

  /** RotMem::Mem with its OvMem: file descriptor, buffer size and count, the offsets of the
      windows, and the one that is next. */
  datatype Mem = Mem(fd: int, size: nat, numBufs: nat, offsets: seq<nat>, next: nat)
  {
    predicate IsMapped() { fd != NO_FD }
  }

  const EMPTY_MEM := Mem(NO_FD, 0, 0, [0, 0], 0)

  /** RotMem: m[curr % 2] is current, the other one previous. */
  datatype Rot = Rot(curr: nat, m: seq<Mem>)

  function Curr(r: Rot): nat { r.curr % MAX_ROT_MEM }
  function Prev(r: Rot): nat { (r.curr + 1) % MAX_ROT_MEM }

  /** One call of queueBuffer: whether the session is enabled, the size that the output
      needs, the descriptor of a new allocation if it works, and whether rotating and
      freeing work. */
  datatype Queue = Queue(enabled: bool, size: nat, alloc: Option<nat>, rotates: bool, frees: bool)

  /** Written: the window of the allocation fd that was written, and whether the call
      reported success. Abort: a failed OVASSERT. */
  datatype Outcome =
    | Off
    | Written(fd: int, offset: nat, size: nat, ok: bool)
    | Unwritten(fd: int, offset: nat, size: nat)
    | Abort

  // ---------------------------------------------------------------- as a function

  /** remap and open_i, if it does not abort. */
  function Remapped(r: Rot, q: Queue): Option<Rot>
    requires |r.m| == MAX_ROT_MEM
  {
    if q.size == r.m[Curr(r)].size then Some(r)
    else if r.m[Prev(r)].IsMapped() then None
    else
      var r' := r.(curr := r.curr + 1);
      if q.size == 0 then None
      else if q.alloc.None? then Some(r')
      else
        var mem := Mem(q.alloc.value, q.size, ROT_NUM_BUFS, [0, q.size], r'.m[Curr(r')].next);
        Some(r'.(m := r'.m[Curr(r') := mem]))
  }

  function Closed(m: Mem): Mem { m.(fd := NO_FD, size := 0, numBufs := 0) }

  /** The rest of queueBuffer: the next window of the current memory is written, and the
      previous memory is freed. */
  function Rotate(r: Rot, q: Queue): (Rot, Outcome)
    requires |r.m| == MAX_ROT_MEM && MemOk(r.m[Curr(r)]) && r.m[Curr(r)].IsMapped()
  {
    var m := r.m[Curr(r)];
    var r2 := r.(m := r.m[Curr(r) := m.(next := (m.next + 1) % m.numBufs)]);
    var p := r.m[Prev(r)];
    if !q.rotates then (r2, Unwritten(m.fd, m.offsets[m.next], m.size))
    else if !p.IsMapped() then (r2, Written(m.fd, m.offsets[m.next], m.size, true))
    else if !q.frees then (r2, Written(m.fd, m.offsets[m.next], m.size, false))
    else (r2.(m := r2.m[Prev(r) := Closed(p)]), Written(m.fd, m.offsets[m.next], m.size, true))
  }

  /** queueBuffer; the state does not matter after an abort. */
  function AfterQueue(r: Rot, q: Queue): (Rot, Outcome)
    requires Ok(r)
  {
    if !q.enabled then (r, Off)
    else
      var r1 := Remapped(r, q);
      if r1.None? || r1.value.m[Curr(r1.value)].numBufs == 0 then (r, Abort)
      else
        RemapKeepsOk(r, q);
        Rotate(r1.value, q)
  }

  // ---------------------------------------------------------------- what every call keeps

  predicate MemOk(m: Mem)
  {
    && |m.offsets| == ROT_NUM_BUFS && m.next < ROT_NUM_BUFS
    && (if m.IsMapped() then m.fd >= 0 && m.size > 0 && m.numBufs == ROT_NUM_BUFS && m.offsets == [0, m.size]
        else m.size == 0 && m.numBufs == 0)
  }

  predicate Ok(r: Rot)
  {
    |r.m| == MAX_ROT_MEM && MemOk(r.m[0]) && MemOk(r.m[1])
  }

  /** A new rotator. */
  function Fresh(): (r: Rot)
    ensures Ok(r)
  {
    Rot(0, [EMPTY_MEM, EMPTY_MEM])
  }

  lemma RemapKeepsOk(r: Rot, q: Queue)
    requires Ok(r) && Remapped(r, q).Some?
    ensures var r1 := Remapped(r, q).value;
            && Ok(r1)
            && (r1.m[Curr(r1)].numBufs > 0 ==> r1.m[Curr(r1)].IsMapped() && r1.m[Curr(r1)].size == q.size > 0)
  {
  }

  lemma RotateKeepsOk(r: Rot, q: Queue)
    requires Ok(r) && r.m[Curr(r)].IsMapped()
    ensures var (r', o) := Rotate(r, q);
            && Ok(r') && r'.curr == r.curr && o != Abort && !o.Off?
            && r'.m[Curr(r)] == r.m[Curr(r)].(next := (r.m[Curr(r)].next + 1) % 2)
            && o.fd == r.m[Curr(r)].fd && o.size == r.m[Curr(r)].size && o.offset == r.m[Curr(r)].next * o.size
            && (r'.m[Prev(r)].IsMapped() <==> r.m[Prev(r)].IsMapped() && !(q.rotates && q.frees))
  {
  }

  lemma {:induction false} QueueKeepsOk(r: Rot, q: Queue)
    requires Ok(r) && AfterQueue(r, q).1 != Abort
    ensures Ok(AfterQueue(r, q).0)
  {
    if q.enabled {
      RemapKeepsOk(r, q);
      RotateKeepsOk(Remapped(r, q).value, q);
    }
  }

  /** A call aborts if and only if it is enabled and needs no memory at all, or memory of
      another size while the previous memory is still there or no new one can be had. */
  lemma AbortsIff(r: Rot, q: Queue)
    requires Ok(r)
    ensures AfterQueue(r, q).1 == Abort <==>
            q.enabled && (q.size == 0 || (q.size != r.m[Curr(r)].size && (r.m[Prev(r)].IsMapped() || q.alloc.None?)))
  {
  }

  /** After a call, the previous memory is still there if and only if it was before, or the
      call replaced the current one, and rotating or freeing did not work. */
  lemma {:induction false} PreviousStaysIff(r: Rot, q: Queue)
    requires Ok(r) && q.enabled && AfterQueue(r, q).1 != Abort
    ensures var r' := AfterQueue(r, q).0;
            r'.m[Prev(r')].IsMapped() <==>
              (r.m[Prev(r)].IsMapped() || (q.size != r.m[Curr(r)].size && r.m[Curr(r)].IsMapped())) &&
                !(q.rotates && q.frees)
  {
    RemapKeepsOk(r, q);
    RotateKeepsOk(Remapped(r, q).value, q);
  }

  /** The window lies within the current allocation, which has the size that was asked for. */
  lemma {:induction false} WindowIsInside(r: Rot, q: Queue)
    requires Ok(r) && q.enabled && AfterQueue(r, q).1 != Abort
    ensures var (r', o) := AfterQueue(r, q);
            var m := r'.m[Curr(r')];
            !o.Off? && o.fd == m.fd && o.size == m.size == q.size && m.IsMapped()
            && o.offset + o.size <= m.numBufs * m.size
  {
    RemapKeepsOk(r, q);
    RotateKeepsOk(Remapped(r, q).value, q);
  }

  /** Two calls of equal size in a row use disjoint windows of the same allocation. */
  lemma {:induction false} ConsecutiveWindowsAreDisjoint(r: Rot, q: Queue, q': Queue)
    requires Ok(r) && q.enabled && q'.enabled && q.size == q'.size && AfterQueue(r, q).1 != Abort
    ensures Ok(AfterQueue(r, q).0)
    ensures var (r1, o1) := AfterQueue(r, q);
            var o2 := AfterQueue(r1, q').1;
            !o1.Off? && !o2.Off? && o2 != Abort && o1.fd == o2.fd
            && (o1.offset + o1.size <= o2.offset || o2.offset + o2.size <= o1.offset)
  {
    RemapKeepsOk(r, q);
    RotateKeepsOk(Remapped(r, q).value, q);
    var r1 := AfterQueue(r, q).0;
    assert Remapped(r1, q') == Some(r1);
    RotateKeepsOk(r1, q');
  }

  /** The call replaces the current memory by memory of another size. */
  predicate Replaces(r: Rot, q: Queue)
    requires Ok(r)
  {
    q.size != r.m[Curr(r)].size
  }

  /** What a call reports: nothing was written exactly if rotating failed; a window was written
      but the call failed exactly if then the previous memory was there and was not freed. */
  lemma {:induction false} ReportsIff(r: Rot, q: Queue)
    requires Ok(r) && q.enabled && AfterQueue(r, q).1 != Abort
    ensures var o := AfterQueue(r, q).1;
            var hasPrevious := r.m[Prev(r)].IsMapped() || (Replaces(r, q) && r.m[Curr(r)].IsMapped());
            && (o.Unwritten? <==> !q.rotates)
            && (o.Written? <==> q.rotates)
            && (o.Written? ==> (o.ok <==> !(hasPrevious && !q.frees)))
  {
    RemapKeepsOk(r, q);
  }

  /** A call of another size writes into the new allocation, in the other slot, and the old one
      becomes the previous memory until it is freed; a call of the same size stays where it is. */
  lemma {:induction false} NewSizeMovesOn(r: Rot, q: Queue)
    requires Ok(r) && q.enabled && AfterQueue(r, q).1 != Abort
    ensures var (r', o) := AfterQueue(r, q);
            && !o.Off?
            && (Replaces(r, q) ==> q.alloc.Some? && o.fd == q.alloc.value && Curr(r') == Prev(r))
            && (!Replaces(r, q) ==> o.fd == r.m[Curr(r)].fd && Curr(r') == Curr(r))
            && (Replaces(r, q) && !(q.rotates && q.frees) ==> r'.m[Prev(r')] == r.m[Curr(r)])
            && (!Replaces(r, q) && !(q.rotates && q.frees) ==> r'.m[Prev(r')] == r.m[Prev(r)])
  {
    RemapKeepsOk(r, q);
  }

  /** The two windows of a slot are used in turn, also across allocations and failed rotations;
      the other slot's turn does not change. */
  lemma {:induction false} WindowsTakeTurns(r: Rot, q: Queue)
    requires Ok(r) && q.enabled && AfterQueue(r, q).1 != Abort
    ensures var (r', o) := AfterQueue(r, q);
            var k := Curr(r');
            && !o.Off? && |r'.m| == MAX_ROT_MEM
            && o.offset == r.m[k].next * q.size && r'.m[k].next == 1 - r.m[k].next
            && r'.m[1 - k].next == r.m[1 - k].next
  {
    RemapKeepsOk(r, q);
    RotateKeepsOk(Remapped(r, q).value, q);
  }

  /** A call while the session is disabled does nothing. */
  lemma DisabledDoesNothing(r: Rot, q: Queue)
    requires Ok(r)
    ensures AfterQueue(r, q).1 == Off <==> !q.enabled
    ensures !q.enabled ==> AfterQueue(r, q).0 == r
  {
  }

  // ---------------------------------------------------------------- runs

  predicate Works(q: Queue) { q.size > 0 && q.alloc.Some? && q.rotates && q.frees }

  function Run(qs: seq<Queue>): (r: Option<Rot>)
    ensures r.Some? ==> Ok(r.value)
    decreases |qs|
  {
    if qs == [] then Some(Fresh())
    else
      var r := Run(qs[..|qs| - 1]);
      if r.None? then None
      else
        var (r', o) := AfterQueue(r.value, qs[|qs| - 1]);
        if o == Abort then None else QueueKeepsOk(r.value, qs[|qs| - 1]); Some(r')
  }

  /** While allocation, rotation and freeing work, nothing aborts, and the previous memory is
      free whenever a call is entered, across any sequence of size changes. */
  lemma {:induction false} WorkingRunNeverAborts(qs: seq<Queue>)
    requires forall k :: 0 <= k < |qs| ==> Works(qs[k])
    ensures Run(qs).Some? && !Run(qs).value.m[Prev(Run(qs).value)].IsMapped()
    decreases |qs|
  {
    if qs != [] {
      var n := |qs| - 1;
      WorkingRunNeverAborts(qs[..n]);
      var r := Run(qs[..n]).value;
      assert Works(qs[n]);
      AbortsIff(r, qs[n]);
      if qs[n].enabled { PreviousStaysIff(r, qs[n]); }
    }
  }

  lemma {:induction false} RunMore(qs: seq<Queue>, q: Queue)
    requires Run(qs).Some?
    ensures var (r', o) := AfterQueue(Run(qs).value, q);
            Run(qs + [q]) == if o == Abort then None else Some(r')
  {
    assert (qs + [q])[..|qs|] == qs;
  }

  /** One failed rotation right after a size change, and the next size change aborts. */
  lemma {:induction false} FailedRotationAborts(fd: nat, fd': nat, a: nat, b: nat, c: nat)
    requires 0 < a != b && b != c && c > 0 && b > 0
    ensures Run([Queue(true, a, Some(fd), true, true), Queue(true, b, Some(fd'), false, true)]).Some?
    ensures Run([Queue(true, a, Some(fd), true, true), Queue(true, b, Some(fd'), false, true),
                 Queue(true, c, Some(fd), true, true)]) == None
  {
    var q1, q2 := Queue(true, a, Some(fd), true, true), Queue(true, b, Some(fd'), false, true);
    var q3 := Queue(true, c, Some(fd), true, true);
    assert [] + [q1] == [q1] && [q1] + [q2] == [q1, q2] && [q1, q2] + [q3] == [q1, q2, q3];
    RunMore([], q1);
    AbortsIff(Fresh(), q1);
    PreviousStaysIff(Fresh(), q1);
    WindowIsInside(Fresh(), q1);
    var r1 := Run([q1]).value;
    RunMore([q1], q2);
    AbortsIff(r1, q2);
    PreviousStaysIff(r1, q2);
    WindowIsInside(r1, q2);
    RunMore([q1, q2], q3);
    AbortsIff(Run([q1, q2]).value, q3);
  }

  // ---------------------------------------------------------------- the object

  /** The memory of MdpRot: an array of two slots that is updated in place. */
  class MdpRot {
    var curr: nat
    const m: array<Mem>

    ghost function View(): Rot
      reads this, m
    {
      Rot(curr, m[..])
    }

    constructor ()
      ensures View() == Fresh() && fresh(m)
    {
      curr := 0;
      m := new Mem[MAX_ROT_MEM](i => EMPTY_MEM);
      new;
      assert m[..] == [EMPTY_MEM, EMPTY_MEM];
    }

    /** remap with open_i; ok is false if an assertion in them fails. */
    method Remap(q: Queue) returns (ok: bool)
      requires m.Length == MAX_ROT_MEM
      modifies this, m
      ensures ok == Remapped(old(View()), q).Some?
      ensures ok ==> View() == Remapped(old(View()), q).value
    {
      if q.size == m[curr % 2].size {
        return true;
      }
      if m[(curr + 1) % 2].IsMapped() {
        return false;
      }
      curr := curr + 1;
      if q.size == 0 {
        return false;
      }
      if q.alloc.Some? {
        var k := curr % 2;
        m[k] := m[k].(fd := q.alloc.value, size := q.size, numBufs := ROT_NUM_BUFS);
        m[k] := m[k].(offsets := [0, q.size]);
      }
      return true;
    }

    method QueueBuffer(q: Queue) returns (o: Outcome)
      requires Ok(View())
      modifies this, m
      ensures o == AfterQueue(old(View()), q).1
      ensures o != Abort ==> View() == AfterQueue(old(View()), q).0
    {
      if !q.enabled {
        return Off;
      }
      ghost var before := View();
      var ok := Remap(q);
      if !ok || m[curr % 2].numBufs == 0 {
        return Abort;
      }
      RemapKeepsOk(before, q);
      o := RotateWindow(q);
    }

    method RotateWindow(q: Queue) returns (o: Outcome)
      requires Ok(View()) && m[curr % 2].IsMapped()
      modifies m
      ensures (View(), o) == Rotate(old(View()), q)
    {
      var k, p := curr % 2, (curr + 1) % 2;
      var offset := m[k].offsets[m[k].next];
      m[k] := m[k].(next := (m[k].next + 1) % m[k].numBufs);
      if !q.rotates {
        return Unwritten(m[k].fd, offset, m[k].size);
      }
      if m[p].IsMapped() {
        if !q.frees {
          return Written(m[k].fd, offset, m[k].size, false);
        }
        m[p] := Closed(m[p]);
      }
      return Written(m[k].fd, offset, m[k].size, true);
    }
  }
}
