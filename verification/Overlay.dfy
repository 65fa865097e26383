/** GenericPipe and Overlay in the source's form: pipe objects that are created and deleted,
    a book of them that is updated in place, and the operations that PipeBook describes. */
module Overlay {
  import opened Geometry
  import opened Options
  import opened PipeControl
  import opened PipeBook

  class GenericPipe {
    const ctrl: MdpCtrl
    var open: bool

    ghost function View(): Pipe
      reads this, ctrl
    {
      Pipe(ctrl.View(), open)
    }

    constructor ()
      ensures View() == FreshPipe() && fresh(ctrl)
    {
      ctrl := new MdpCtrl();
      open := false;
    }

    /** setSource, setTransform, setCrop and setPosition, in the order of configMdp. */
    method SetUp(args: PipeArgs, orient: Transform, crop: Dim, position: Dim)
      modifies ctrl
      ensures View() == old(View()).(ctrl := SetUpCtrl(old(ctrl.View()), args, orient, crop, position))
      ensures ctrl.mOVInfo.srcRect == crop && ctrl.mOVInfo.dstRect == position && ctrl.mOrientation == MdpOrient(orient)
    {
      ctrl.SetSource(args);
      ctrl.SetTransform(orient);
      ctrl.SetCrop(crop);
      ctrl.SetPosition(position);
    }

    method Commit(downscale: nat, io: Ioctl) returns (ok: bool)
      modifies this, ctrl
      ensures (View(), ok) == CommitPipe(old(View()), downscale, io)
    {
      ctrl.SetDownscale(downscale);
      ok := ctrl.Set(io);
      open := ok;
    }

    method ForceSet()
      modifies ctrl
      ensures View() == old(View()).(ctrl := old(ctrl.View()).(force := true))
    {
      ctrl.ForceSet();
    }

    /** The destructor. */
    method Close(unsetOk: bool)
      modifies this, ctrl
      ensures View() == FreshPipe()
    {
      var ok := ctrl.Close(unsetOk);
      open := false;
    }
  }

  class Overlay {
    const types: seq<PipeType>
    const mPipe: array<GenericPipe?>
    const mDisplay: array<int>
    var used: set<nat>
    var last: set<nat>
    var taken: set<nat>

    /** The pipe objects and their control blocks. */
    ghost function Objects(): set<object>
      reads this, mPipe
    {
      (set i | 0 <= i < mPipe.Length && mPipe[i] != null :: mPipe[i] as object) +
      (set i | 0 <= i < mPipe.Length && mPipe[i] != null :: mPipe[i].ctrl as object)
    }

    /** No two slots share a pipe. */
    ghost predicate Valid()
      reads this, mPipe
    {
      && mPipe.Length == mDisplay.Length == |types| <= OV_INVALID
      && forall i, j :: 0 <= i < j < mPipe.Length && mPipe[i] != null && mPipe[j] != null ==>
           mPipe[i] != mPipe[j] && mPipe[i].ctrl != mPipe[j].ctrl
    }

    ghost function SlotAt(i: nat): Slot
      requires Valid() && i < mPipe.Length
      reads this, mPipe, mDisplay, Objects()
    {
      Slot(mDisplay[i], if mPipe[i] == null then None else Some(mPipe[i].View()))
    }

    ghost function View(): (b: Book)
      requires Valid()
      reads this, mPipe, mDisplay, Objects()
      ensures |b.slots| == |b.types| == mPipe.Length
      ensures forall i :: 0 <= i < mPipe.Length ==> b.slots[i] == SlotAt(i)
    {
      Book(seq(mPipe.Length,
               i requires Valid() && 0 <= i < mPipe.Length reads this, mPipe, mDisplay, Objects() => SlotAt(i)),
           types, used, last, taken)
    }

    constructor (pipeTypes: seq<PipeType>)
      requires |pipeTypes| <= OV_INVALID
      ensures Valid() && View() == Initial(pipeTypes)
      ensures fresh(mPipe) && fresh(mDisplay)
    {
      types := pipeTypes;
      mPipe := new GenericPipe?[|pipeTypes|](_ => null);
      mDisplay := new int[|pipeTypes|](_ => DPY_UNUSED);
      used, last, taken := {}, {}, {};
    }

    method ConfigBegin()
      requires Valid()
      modifies this
      ensures Valid() && View() == PipeBook.ConfigBegin(old(View()))
    {
      used, taken := {}, {};
    }

    /** The first slot of the type and owner that is not allocated, or the number of slots. */
    method Search(t: PipeType, owner: int) returns (k: nat)
      requires Valid()
      ensures View() == old(View()) && k == FirstFree(old(View()), t, owner, 0)
    {
      ghost var b := View();
      k := 0;
      while k < mPipe.Length
        invariant 0 <= k <= mPipe.Length
        invariant FirstFree(b, t, owner, 0) == FirstFree(b, t, owner, k)
      {
        if t == ANY || t == types[k] {
          if mDisplay[k] == owner && k !in taken {
            return;
          }
        }
        k := k + 1;
      }
    }

    /** Registers slot k with the display and creates its pipe object if there is none. */
    method Take(k: nat, dpy: int)
      requires Valid() && k < mPipe.Length
      modifies this`taken, mPipe, mDisplay
      ensures Valid()
      ensures taken == old(taken) + {k}
      ensures SlotAt(k) == Slot(dpy, if old(SlotAt(k)).pipe.None? then Some(FreshPipe()) else old(SlotAt(k)).pipe)
      ensures forall i :: 0 <= i < mPipe.Length && i != k ==> SlotAt(i) == old(SlotAt(i))
      ensures forall o :: o in Objects() ==> o in old(Objects()) || fresh(o)
    {
      taken := taken + {k};
      mDisplay[k] := dpy;
      if mPipe[k] == null {
        var p := new GenericPipe();
        mPipe[k] := p;
      }
    }

    /** A pipe the display already owns, else one that nobody owns. */
    method Choose(t: PipeType, dpy: int) returns (k: nat)
      requires Valid()
      ensures View() == old(View()) && k == Chosen(old(View()), t, dpy)
    {
      ghost var b := View();
      k := Search(t, dpy);
      if k == mPipe.Length {
        k := Search(t, DPY_UNUSED);
      }
    }

    method NextPipe(t: PipeType, dpy: int) returns (dest: Option<nat>)
      requires Valid()
      modifies this`taken, mPipe, mDisplay
      ensures Valid() && View() == PipeBook.NextPipe(old(View()), t, dpy).0
      ensures dest == PipeBook.NextPipe(old(View()), t, dpy).1
      ensures forall o :: o in Objects() ==> o in old(Objects()) || fresh(o)
    {
      ghost var b := View();
      var k := Choose(t, dpy);
      if k == mPipe.Length {
        return None;
      }
      assert SlotAt(k) == b.slots[k];
      Take(k, dpy);
      ghost var pipe := if b.slots[k].pipe.None? then Some(FreshPipe()) else b.slots[k].pipe;
      assert View().slots == b.slots[k := Slot(dpy, pipe)];
      return Some(k);
    }

    method AvailablePipes(dpy: int) returns (avail: nat)
      requires Valid()
      ensures avail == PipeBook.AvailablePipes(View(), dpy)
    {
      avail := 0;
      for i := 0 to mPipe.Length
        invariant avail == CountAvailable(View(), dpy, i)
      {
        if (mDisplay[i] == DPY_UNUSED || mDisplay[i] == dpy) && i !in taken {
          avail := avail + 1;
        }
      }
    }

    method SetUp(i: nat, args: PipeArgs, orient: Transform, crop: Dim, position: Dim)
      requires Valid() && HasPipe(View(), i)
      modifies Objects()
      ensures Valid() && View() == PipeBook.SetUp(old(View()), i, args, orient, crop, position)
      ensures var ov := View().slots[i].pipe.value.ctrl.ov;
              && ov.srcRect == crop && ov.dstRect == position && ov.format == args.whf.format
              && (ov.flags.share <==> types[i] == VG) && (ov.flags.forceDma <==> types[i] == DMA)
    {
      ghost var b := View();
      var share, forceDma := types[i] == VG, types[i] == DMA;
      var newArgs := args.(flags := args.flags.(share := share, forceDma := forceDma));
      mPipe[i].SetUp(newArgs, orient, crop, position);
      assert View().slots == PipeBook.SetUp(b, i, args, orient, crop, position).slots;
    }

    /** Gives up the display's round: the loop that clear() and a failed commit share. */
    method GiveUpRound(dpy: int)
      requires Valid()
      modifies this`used, this`taken, Objects()
      ensures Valid() && View() == GiveUp(old(View()), dpy)
    {
      ghost var b := View();
      ghost var given := GiveUp(b, dpy);
      var i := 0;
      while i < mPipe.Length
        invariant 0 <= i <= mPipe.Length && Valid()
        invariant forall j :: 0 <= j < i ==> SlotAt(j) == given.slots[j]
        invariant forall j :: i <= j < mPipe.Length ==> SlotAt(j) == b.slots[j]
        invariant used == set j | j in b.used && !(j < i && OwnedBy(b, j, dpy))
        invariant taken == set j | j in b.taken && !(j < i && OwnedBy(b, j, dpy))
      {
        assert SlotAt(i) == b.slots[i];
        if mDisplay[i] == dpy {
          Release(i);
        }
        i := i + 1;
      }
      assert View().slots == given.slots;
      assert used == given.used && taken == given.taken;
    }

    /** Marks slot i as available for this round; its pipe will be sent to the driver again. */
    method Release(i: nat)
      requires Valid() && i < mPipe.Length
      modifies this`used, this`taken, Objects()
      ensures Valid() && used == old(used) - {i} && taken == old(taken) - {i}
      ensures var s := old(SlotAt(i));
              SlotAt(i) == if s.pipe.None? then s
                else s.(pipe := Some(s.pipe.value.(ctrl := s.pipe.value.ctrl.(force := true))))
      ensures forall j :: 0 <= j < mPipe.Length && j != i ==> SlotAt(j) == old(SlotAt(j))
    {
      used, taken := used - {i}, taken - {i};
      if mPipe[i] != null {
        mPipe[i].ForceSet();
      }
    }

    method Clear(dpy: int)
      requires Valid()
      modifies this`used, this`taken, Objects()
      ensures Valid() && View() == GiveUp(old(View()), dpy)
    {
      GiveUpRound(dpy);
    }

    method Commit(i: nat, downscale: nat, io: Ioctl) returns (ok: bool)
      requires Valid() && HasPipe(View(), i)
      modifies this`used, this`taken, Objects()
      ensures Valid() && (View(), ok) == PipeBook.Commit(old(View()), i, downscale, io)
    {
      ghost var b := View();
      ok := CommitOne(i, downscale, io);
      ghost var m := View();
      if ok {
        used := used + {i};
        assert View().slots == m.slots;
      } else {
        assert SlotAt(i) == m.slots[i];
        GiveUpRound(mDisplay[i]);
      }
    }

    method CommitOne(i: nat, downscale: nat, io: Ioctl) returns (ok: bool)
      requires Valid() && HasPipe(View(), i)
      modifies Objects()
      ensures Valid()
      ensures var (p, r) := CommitPipe(old(View()).slots[i].pipe.value, downscale, io);
              View() == old(View()).(slots := old(View()).slots[i := old(View()).slots[i].(pipe := Some(p))]) && ok == r
    {
      ghost var b := View();
      ok := mPipe[i].Commit(downscale, io);
      ghost var p := CommitPipe(b.slots[i].pipe.value, downscale, io).0;
      assert View().slots == b.slots[i := b.slots[i].(pipe := Some(p))];
    }

    /** Ends the round: destroys the pipes that were not used. */
    method ConfigDone(unsetOk: seq<bool>)
      requires Valid() && |unsetOk| == |types|
      modifies this`last, mPipe, mDisplay, Objects()
      ensures Valid() && View() == PipeBook.ConfigDone(old(View()))
    {
      if used == last { return; }
      ghost var b := View();
      var i := 0;
      while i < mPipe.Length
        invariant 0 <= i <= mPipe.Length && Valid()
        invariant Objects() <= old(Objects())
        invariant forall j :: 0 <= j < i ==> SlotAt(j) == if j in used then b.slots[j] else UNUSED_SLOT
        invariant forall j :: i <= j < mPipe.Length ==> SlotAt(j) == b.slots[j]
      {
        if i !in used {
          Destroy(i, unsetOk[i]);
        }
        i := i + 1;
      }
      last := used;
      assert View().slots == PipeBook.ConfigDone(b).slots;
    }

    /** PipeBook::destroy. */
    method Destroy(i: nat, unsetOk: bool)
      requires Valid() && i < mPipe.Length
      modifies mPipe, mDisplay, Objects()
      ensures Valid() && Objects() <= old(Objects())
      ensures SlotAt(i) == UNUSED_SLOT
      ensures forall j :: 0 <= j < mPipe.Length && j != i ==> SlotAt(j) == old(SlotAt(j))
    {
      if mPipe[i] != null {
        mPipe[i].Close(unsetOk);
        mPipe[i] := null;
      }
      mDisplay[i] := DPY_UNUSED;
    }

    /** Queues only to pipes whose commit succeeded in this round. */
    method QueueBuffer(i: nat) returns (r: Outcome)
      requires Valid()
      ensures r == PipeBook.QueueBuffer(View(), i)
    {
      if i >= mPipe.Length || mPipe[i] == null { return Abort; }
      if i !in used { return NotUsed; }
      if !mPipe[i].open || mPipe[i].ctrl.mOVInfo.id == NEW_REQUEST { return Abort; }
      return Queued(mPipe[i].ctrl.mOVInfo.id);
    }
  }
}
