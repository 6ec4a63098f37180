/** The queue of module FrameQueue on a ring buffer that owns its copies of the frames.
  *
  * The mutex makes each method below one step.  `Pop` is the part of a pop that runs after the
  * condition-variable wait; module QueueWaiters models the wait itself. */
module FrameQueueRing {
  import opened Base
  import FQ = FrameQueue

  /** A heap copy of a frame's bytes; `id` is the pointer: which allocation it is. */
  datatype Copy = Copy(id: nat, bytes: seq<byte>)

  /** `data` is None where the source holds NULL. */
  datatype Slot = Slot(data: Option<Copy>, len: nat, isKey: bool, ptsUs: int)

  const EMPTY_SLOT := Slot(None, 0, false, 0)

  ghost function SlotOf(id: nat, f: FQ.Frame): Slot
  {
    Slot(Some(Copy(id, f.bytes)), |f.bytes|, f.isKey, f.ptsUs)
  }

  /** x mod n for x below 2n. */
  function Wrap(x: nat, n: nat): nat
    requires x < 2 * n
  {
    if x < n then x else x - n
  }

  /** The source's (i + 1) % n. */
  method Succ(i: nat, n: nat) returns (r: nat)
    requires i < n
    ensures r == Wrap(i + 1, n)
  {
    WrapIsMod(i + 1, n);
    r := (i + 1) % n;
  }

  lemma WrapIsMod(x: nat, n: nat)
    requires x < 2 * n
    ensures x % n == Wrap(x, n)
  {
  }

  /** The first k waiting frames freed. */
  ghost function DropHeads(q: FQ.Queue, k: nat): FQ.Queue
    requires k <= |q.queued|
  {
    q.(queued := q.queued[k..], dropped := q.dropped + q.queued[..k])
  }

  lemma DropHeadsOneMore(q: FQ.Queue, k: nat)
    requires k < |q.queued|
    ensures DropHeads(DropHeads(q, k), 1) == DropHeads(q, k + 1)
  {
  }

  /** Distance of slot i behind the head of a ring of n slots. */
  function Offset(i: nat, head: nat, n: nat): nat
    requires i < n && head < n
  {
    if i >= head then i - head else i + n - head
  }

  /** Slot i holds the copy it should: a live one inside the window, none outside. */
  ghost predicate SlotOk(slot: Slot, offset: nat, queued: seq<nat>, offered: seq<FQ.Frame>)
  {
    if offset < |queued|
    then queued[offset] < |offered| && slot == SlotOf(queued[offset], offered[queued[offset]])
    else slot.data == None
  }

  ghost predicate Window(slots: seq<Slot>, head: nat, queued: seq<nat>, offered: seq<FQ.Frame>)
  {
    && head < |slots| && |queued| <= |slots|
    && forall i :: 0 <= i < |slots| ==> SlotOk(slots[i], Offset(i, head, |slots|), queued, offered)
  }

  lemma WindowHead(slots: seq<Slot>, head: nat, queued: seq<nat>, offered: seq<FQ.Frame>)
    requires Window(slots, head, queued, offered) && queued != []
    ensures queued[0] < |offered| && slots[head] == SlotOf(queued[0], offered[queued[0]])
  {
  }

  lemma WindowAdvances(slots: seq<Slot>, head: nat, queued: seq<nat>, offered: seq<FQ.Frame>, gone: Slot)
    requires Window(slots, head, queued, offered) && queued != [] && gone.data == None
    ensures Window(slots[head := gone], Wrap(head + 1, |slots|), queued[1..], offered)
  {
  }

  lemma WindowGrows(slots: seq<Slot>, head: nat, queued: seq<nat>, offered: seq<FQ.Frame>, id: nat, slot: Slot)
    requires Window(slots, head, queued, offered) && |queued| < |slots| && id < |offered|
    requires slot.data == Some(Copy(id, offered[id].bytes)) && slot.len == |offered[id].bytes|
    requires slot.isKey == offered[id].isKey && slot.ptsUs == offered[id].ptsUs
    ensures Window(slots[Wrap(head + |queued|, |slots|) := slot], head, queued + [id], offered)
  {
  }

  function Members(s: seq<nat>): set<nat>
  {
    set x | x in s
  }

  lemma MembersSnoc(s: seq<nat>, x: nat)
    ensures Members(s + [x]) == Members(s) + {x}
  {
  }

  lemma TailLacksHead(s: seq<nat>, bound: nat)
    requires FQ.Increasing(s, bound) && s != []
    ensures FQ.Increasing(s[1..], bound)
    ensures Members(s[1..]) == Members(s) - {s[0]} && s[0] in Members(s)
  {
  }

  /** The ring's cells and indices represent the waiting ids. */
  ghost predicate RingOk(slots: seq<Slot>, head: nat, tail: nat, queued: seq<nat>, offered: seq<FQ.Frame>)
  {
    && Window(slots, head, queued, offered)
    && tail == Wrap(head + |queued|, |slots|)
    && FQ.Increasing(queued, |offered|)
  }

  lemma RingOffered(slots: seq<Slot>, head: nat, tail: nat, queued: seq<nat>,
                    offered: seq<FQ.Frame>, f: FQ.Frame)
    requires RingOk(slots, head, tail, queued, offered)
    ensures RingOk(slots, head, tail, queued, offered + [f]) && FQ.Increasing(queued, |offered|)
  {
  }

  lemma RingAdvances(slots: seq<Slot>, head: nat, tail: nat, queued: seq<nat>, offered: seq<FQ.Frame>, gone: Slot)
    requires RingOk(slots, head, tail, queued, offered) && queued != [] && gone.data == None
    ensures RingOk(slots[head := gone], Wrap(head + 1, |slots|), tail, queued[1..], offered)
  {
  }

  lemma RingGrows(slots: seq<Slot>, head: nat, tail: nat, queued: seq<nat>, offered: seq<FQ.Frame>, id: nat, slot: Slot)
    requires RingOk(slots, head, tail, queued, offered) && |queued| < |slots|
    requires id + 1 == |offered| && FQ.Increasing(queued, id)
    requires slot.data == Some(Copy(id, offered[id].bytes)) && slot.len == |offered[id].bytes|
    requires slot.isKey == offered[id].isKey && slot.ptsUs == offered[id].ptsUs
    ensures RingOk(slots[tail := slot], head, Wrap(tail + 1, |slots|), queued + [id], offered)
  {
    WindowGrows(slots, head, queued, offered, id, slot);
  }

  /** What poppers were handed, one for one the frames offered under the popped ids. */
  ghost predicate HandedOk(handed: seq<FQ.Frame>, popped: seq<nat>, offered: seq<FQ.Frame>)
  {
    && |handed| == |popped|
    && forall k :: 0 <= k < |popped| ==> popped[k] < |offered| && handed[k] == offered[popped[k]]
  }

  class FrameQueue {
    const slots: array<Slot>
    const capacity: nat
    var head: nat
    var tail: nat
    var count: nat
    var dropped: nat
    var closed: bool
    var dropping: bool
    var allocations: nat      // copies made so far, which numbers the next one
    ghost var view: FQ.Queue
    ghost var live: set<nat>  // copies allocated that are neither freed nor handed out
    ghost var freed: set<nat>
    ghost var handed: seq<FQ.Frame>  // what each pop gave, as read from its slot
    ghost var inHand: set<nat>  // live copies in no slot, while a method below works on them

    ghost predicate Valid()
      reads this, slots
    {
      && slots.Length == capacity == view.capacity && capacity >= 1
      && RingOk(slots[..], head, tail, view.queued, view.offered)
      && count == |view.queued|
      && dropped == |view.dropped| && closed == view.closed && dropping == view.dropping
      && allocations == |view.offered|
      && live == Members(view.queued) + inHand && inHand !! Members(view.queued)
      && freed == Members(view.dropped) + Members(view.refused)
      && HandedOk(handed, view.popped, view.offered)
    }

    constructor (n: nat)
      requires n >= 1
      ensures Valid() && fresh(slots) && view == FQ.Init(n) && inHand == {}
    {
      slots := new Slot[n](_ => EMPTY_SLOT);
      capacity := n;
      head, tail, count, dropped, allocations := 0, 0, 0, 0, 0;
      closed, dropping := false, false;
      view, live, freed, inHand, handed := FQ.Init(n), {}, {}, {}, [];
      new;
    }

    /** malloc(): a copy not made before. */
    ghost method Allocate(id: nat)
      requires id !in live
      modifies this`live, this`inHand
      ensures live == old(live) + {id} && inHand == old(inHand) + {id}
    {
      live, inHand := live + {id}, inHand + {id};
    }

    /** free(), of a copy that is there. */
    ghost method Free(id: nat)
      requires id in live
      modifies this`live, this`freed, this`inHand
      ensures live == old(live) - {id} && freed == old(freed) + {id} && inHand == old(inHand) - {id}
    {
      live, freed, inHand := live - {id}, freed + {id}, inHand - {id};
    }

    /** The copy now belongs to the popper. */
    ghost method HandOut(id: nat)
      requires id in live
      modifies this`live, this`inHand
      ensures live == old(live) - {id} && inHand == old(inHand) - {id}
    {
      live, inHand := live - {id}, inHand - {id};
    }

    /** Takes the head slot out of the window, leaving `gone` in it; its copy is still to be freed or
      * handed out. */
    method AdvanceHead(gone: Slot)
      requires Valid() && count > 0 && gone.data == None
      modifies slots, this`head, this`count, this`view, this`inHand
      ensures Valid()
      ensures inHand == old(inHand) + {old(view).queued[0]} && old(view).queued[0] !in old(inHand)
      ensures view == old(view).(queued := old(view).queued[1..])
    {
      RingAdvances(slots[..], head, tail, view.queued, view.offered, gone);
      TailLacksHead(view.queued, |view.offered|);
      slots[head] := gone;
      assert slots[..] == old(slots[..])[old(head) := gone];
      head := Succ(head, capacity);
      count := count - 1;
      inHand := inHand + {view.queued[0]};
      view := view.(queued := view.queued[1..]);
    }

    /** Frees the frame at the head. */
    method DropOldest()
      requires Valid() && count > 0
      modifies slots, this`head, this`count, this`dropped, this`view, this`live, this`freed, this`inHand
      ensures Valid() && inHand == old(inHand)
      ensures view == DropHeads(old(view), 1)
    {
      WindowHead(slots[..], head, view.queued, view.offered);
      var data := slots[head].data;
      AdvanceHead(slots[head].(data := None, len := 0, isKey := false));
      Free(data.value.id);
      MembersSnoc(view.dropped, data.value.id);
      dropped := dropped + 1;
      view := DropHeads(old(view), 1);
    }

    /** The eviction's stop test, read from the head slot. */
    method Stops() returns (stop: bool)
      requires Valid()
      ensures stop <==> view.queued == [] || view.Key(view.queued[0])
    {
      if count > 0 {
        WindowHead(slots[..], head, view.queued, view.offered);
      }
      stop := !(!slots[head].isKey && count > 0);
    }

    /** Evicts from the head up to the next keyframe, at least one frame; an empty ring stays as it is,
      * its mode too. */
    method DropFrames()
      requires Valid()
      modifies slots, this`head, this`count, this`dropped, this`dropping, this`view, this`live, this`freed, this`inHand
      ensures Valid() && inHand == old(inHand)
      ensures view == if old(view).queued == [] then old(view)
                      else DropHeads(old(view), FQ.EvictCount(old(view))).(dropping := true)
    {
      if count == 0 {
        return;
      }
      dropping := true;
      view := view.(dropping := true);
      ghost var q0 := view;
      DropOldest();
      ghost var k := 1;
      var stop := Stops();
      while !stop
        invariant Valid() && 1 <= k <= |q0.queued| && inHand == old(inHand)
        invariant view == DropHeads(q0, k)
        invariant FQ.EvictCount(q0) == FQ.EvictCount(q0, k)
        invariant stop <==> k == |q0.queued| || q0.Key(q0.queued[k])
        decreases count
      {
        DropOldest();
        DropHeadsOneMore(q0, k);
        k := k + 1;
        stop := Stops();
      }
      FQ.EvictCountStable(old(view), q0, 1);
    }

    /** Puts the newest copy at the tail. */
    method Enqueue(copy: Copy, isKey: bool, ptsUs: int)
      requires Valid() && count < capacity
      requires copy.id + 1 == |view.offered| && view.offered[copy.id] == FQ.Frame(copy.bytes, isKey, ptsUs)
      requires FQ.Increasing(view.queued, copy.id) && copy.id in inHand
      modifies slots, this`tail, this`count, this`view, this`inHand
      ensures Valid() && inHand == old(inHand) - {copy.id}
      ensures view == old(view).(queued := old(view.queued) + [copy.id])
    {
      var slot := Slot(Some(copy), |copy.bytes|, isKey, ptsUs);
      RingGrows(slots[..], head, tail, view.queued, view.offered, copy.id, slot);
      slots[tail] := slot;
      assert slots[..] == old(slots[..])[tail := slot];
      tail := Succ(tail, capacity);
      count := count + 1;
      view := view.(queued := view.queued + [copy.id]);
      inHand := inHand - {copy.id};
      MembersSnoc(old(view).queued, copy.id);
    }

    /** fq_push: copies the frame and offers it; -1 without any effect on the queue when there is
      * nothing to copy or no memory for the copy. */
    method Push(data: Option<seq<byte>>, isKey: bool, ptsUs: int, memory: bool) returns (rc: int)
      requires Valid() && inHand == {}
      modifies slots, this
      ensures Valid() && inHand == {}
      ensures rc == (if data.Some? && data.value != [] && memory then 0 else -1) && handed == old(handed)
      ensures rc == -1 ==> view == old(view)
      ensures rc == 0 ==> view == FQ.Push(old(view), FQ.Frame(data.value, isKey, ptsUs))
    {
      if data.None? || data.value == [] {
        return -1;
      }
      if !memory {
        return -1;
      }
      var copy := MakeCopy(data.value, isKey, ptsUs);
      ghost var q1 := view;
      if closed {
        Refuse(copy);
        return 0;
      }
      if dropping {
        if !isKey {
          Skip(copy);
          return 0;
        } else {
          dropping := false;
          view := view.(dropping := false);
        }
      }
      if count == capacity {
        EvictForPush(q1, copy.id, isKey);
      }
      Enqueue(copy, isKey, ptsUs);
      return 0;
    }

    /** malloc() and memcpy() */
    method MakeCopy(bytes: seq<byte>, isKey: bool, ptsUs: int) returns (copy: Copy)
      requires Valid() && inHand == {}
      modifies this`view, this`allocations, this`live, this`inHand
      ensures Valid() && inHand == {copy.id} && copy == Copy(|old(view).offered|, bytes)
      ensures view == old(view).(offered := old(view).offered + [FQ.Frame(bytes, isKey, ptsUs)])
      ensures FQ.Increasing(view.queued, copy.id)
    {
      copy := Copy(allocations, bytes);
      ghost var f := FQ.Frame(bytes, isKey, ptsUs);
      RingOffered(slots[..], head, tail, view.queued, view.offered, f);
      Allocate(copy.id);
      view, allocations := view.(offered := view.offered + [f]), allocations + 1;
    }

    /** The discard path on a closed queue. */
    method Refuse(copy: Copy)
      requires Valid() && inHand == {copy.id}
      modifies this`view, this`live, this`freed, this`inHand
      ensures Valid() && inHand == {} && view == old(view).(refused := old(view).refused + [copy.id])
    {
      Free(copy.id);
      MembersSnoc(view.refused, copy.id);
      view := view.(refused := view.refused + [copy.id]);
    }

    /** The discard path while waiting for a keyframe. */
    method Skip(copy: Copy)
      requires Valid() && inHand == {copy.id}
      modifies this`dropped, this`view, this`live, this`freed, this`inHand
      ensures Valid() && inHand == {} && view == old(view).(dropped := old(view).dropped + [copy.id])
    {
      dropped := dropped + 1;
      Free(copy.id);
      MembersSnoc(view.dropped, copy.id);
      view := view.(dropped := view.dropped + [copy.id]);
    }

    /** The eviction inside a push, with the history it leaves. */
    method EvictForPush(ghost q1: FQ.Queue, id: nat, isKey: bool)
      requires Valid() && count == capacity && view == q1.(dropping := false)
      modifies slots, this
      ensures Valid() && count < capacity && allocations == old(allocations) && inHand == old(inHand)
      ensures var k := FQ.EvictCount(q1);
              view == q1.(queued := q1.queued[k..],
                          dropped := q1.dropped + q1.queued[..k],
                          dropping := true,
                          overflows := q1.overflows + 1,
                          orphans := if k == |q1.queued| && !isKey then q1.orphans + {id} else q1.orphans)
    {
      DropFrames();
      FQ.EvictCountStable(q1, old(view), 1);
      view := view.(overflows := view.overflows + 1);
      if view.queued == [] && !isKey {
        view := view.(orphans := view.orphans + {id});
      }
    }

    /** fq_pop once its wait has ended: the oldest frame, its bytes, length, flag and time as they were
      * offered, whose copy now belongs to the caller; or None when the queue is closed and empty. */
    method Pop() returns (out: Option<Slot>)
      requires Valid() && (count > 0 || closed)
      modifies slots, this`head, this`count, this`view, this`live, this`inHand, this`handed
      ensures Valid() && inHand == old(inHand)
      ensures view == FQ.Pop(old(view))
      ensures out.None? ==> handed == old(handed)
      ensures out.None? <==> old(view).queued == []
      ensures out.Some? ==> var id := old(view).queued[0];
                            && out.value.data.Some? && out.value.data.value == Copy(id, view.offered[id].bytes)
                            && out.value.len == |view.offered[id].bytes|
                            && out.value.isKey == view.offered[id].isKey
                            && out.value.ptsUs == view.offered[id].ptsUs
                            && handed == old(handed) + [view.offered[id]]
                            && id in old(live) && live == old(live) - {id}
    {
      if count == 0 {
        return None;
      }
      WindowHead(slots[..], head, view.queued, view.offered);
      out := Some(slots[head]);
      AdvanceHead(slots[head].(data := None));
      HandOut(out.value.data.value.id);
      handed := handed + [FQ.Frame(out.value.data.value.bytes, out.value.isKey, out.value.ptsUs)];
      view := FQ.Pop(old(view));
    }

    method Close()
      requires Valid()
      modifies this`closed, this`view
      ensures Valid() && view == FQ.Close(old(view))
    {
      closed := true;
      view := FQ.Close(view);
    }

    method Dropped() returns (v: nat)
      requires Valid()
      ensures v == |view.dropped|
    {
      v := dropped;
    }

    method Depth() returns (v: nat)
      requires Valid()
      ensures v == |view.queued|
    {
      v := count;
    }

    /** fq_destroy: frees exactly the waiting copies, each once; afterwards none is left. */
    method Destroy()
      requires Valid() && inHand == {}
      modifies this`live, this`freed, this`inHand
      ensures live == {} && freed == old(freed) + Members(view.queued)
    {
      var i := 0;
      while i < capacity
        invariant i <= capacity
        invariant live <= Members(view.queued) && freed == old(freed) + (Members(view.queued) - live)
        invariant forall k :: 0 <= k < |view.queued| ==>
                    (view.queued[k] in live <==> i <= Wrap(head + k, capacity))
      {
        var offset := Offset(i, head, capacity);
        assert SlotOk(slots[..][i], offset, view.queued, view.offered);
        if slots[i].data.Some? {
          assert Wrap(head + offset, capacity) == i;
          Free(slots[i].data.value.id);
        }
        i := i + 1;
      }
    }
  }
}
