/** The frame queue of FFmpeg/fftools/ffplay.c: a ring of max_size slots between one decoding and
    one displaying thread. Indices move outside the lock, only size moves under it, so every call
    is split into the steps between which the other thread may run. */
module FfplayFrameRing {
  import opened Wrappers
  import opened Modulo

  type Frame = nat

  // Writer: may a slot be taken, slot granted, slot filled, windex moved but size not yet.
  datatype Writer = WIdle | WGranted | WFilled | WMoved
  // Reader: looking for a frame, one is readable, slot released, rindex moved but size not yet.
  datatype Reader = RIdle | RReady | RReleased | RMoved

  datatype Ring = Ring(slots: seq<Option<Frame>>, keepLast: bool, rindex: nat, windex: nat, size: int, shown: nat)

  datatype State = State(
    ring: Ring,
    writer: Writer,
    reader: Reader,
    pushed: seq<Frame>,   // frames pushed so far, oldest first
    released: nat,        // slots given back so far
    nexts: nat)           // completed calls of frame_queue_next

  datatype Step =
    | PeekWritable | Fill(f: Frame) | MoveWindex | GrowSize
    | PeekReadable | NextFrame | MoveRindex | ShrinkSize

  function Peek(r: Ring): Option<Frame>
    requires |r.slots| > 0
  {
    r.slots[(r.rindex + r.shown) % |r.slots|]
  }

  function Init(max: nat, keepLast: bool): State {
    State(Ring(seq(max, i => None), keepLast, 0, 0, 0, 0), WIdle, RIdle, [], 0, 0)
  }

  predicate Shape(s: State) {
    |s.ring.slots| > 0 && s.ring.rindex < |s.ring.slots| && s.ring.windex < |s.ring.slots|
  }

  // A step that its thread cannot take changes nothing; a waiting thread repeats its test.
  function Next(s: State, a: Step): State
    requires Shape(s)
  {
    var r := s.ring;
    match a
    case PeekWritable => if s.writer.WIdle? && r.size < |r.slots| then s.(writer := WGranted) else s
    case Fill(f) =>
      if s.writer.WGranted? then s.(writer := WFilled, ring := r.(slots := r.slots[r.windex := Some(f)])) else s
    case MoveWindex =>
      if s.writer.WFilled? && r.slots[r.windex].Some? then
        s.(writer := WMoved, ring := r.(windex := Bump(r.windex, |r.slots|)),
           pushed := s.pushed + [r.slots[r.windex].value])
      else s
    case GrowSize => if s.writer.WMoved? then s.(writer := WIdle, ring := r.(size := r.size + 1)) else s
    case PeekReadable => if s.reader.RIdle? && r.size - r.shown > 0 then s.(reader := RReady) else s
    case NextFrame =>
      if !s.reader.RReady? then s
      else if r.keepLast && r.shown == 0 then s.(reader := RIdle, ring := r.(shown := 1), nexts := s.nexts + 1)
      else s.(reader := RReleased, ring := r.(slots := r.slots[r.rindex := None]))
    case MoveRindex =>
      if s.reader.RReleased? then
        s.(reader := RMoved, ring := r.(rindex := Bump(r.rindex, |r.slots|)), released := s.released + 1)
      else s
    case ShrinkSize =>
      if s.reader.RMoved? then s.(reader := RIdle, ring := r.(size := r.size - 1), nexts := s.nexts + 1) else s
  }

  function Run(max: nat, keepLast: bool, steps: seq<Step>): (s: State)
    requires max > 0
    ensures Shape(s) && |s.ring.slots| == max && s.ring.keepLast == keepLast
    decreases |steps|
  {
    if steps == [] then Init(max, keepLast) else Next(Run(max, keepLast, steps[..|steps| - 1]), steps[|steps| - 1])
  }

  // ------------------------------------------------------------------ the invariant

  // Frames whose push is complete, and slots whose release is complete.
  function Committed(s: State): int { |s.pushed| - if s.writer.WMoved? then 1 else 0 }
  function Freed(s: State): int { s.released - if s.reader.RMoved? then 1 else 0 }

  ghost predicate Counts(s: State) {
    && Shape(s) && s.ring.shown <= (if s.ring.keepLast then 1 else 0)
    && s.ring.windex == |s.pushed| % |s.ring.slots| && s.ring.rindex == s.released % |s.ring.slots|
    && s.ring.size == Committed(s) - Freed(s)
    && s.nexts == Freed(s) + s.ring.shown
    && s.released + s.ring.shown + (if s.reader.RReady? || s.reader.RReleased? then 1 else 0) <= Committed(s)
    && Committed(s) - Freed(s) <= |s.ring.slots|
    && (s.writer.WGranted? || s.writer.WFilled? ==> Committed(s) - Freed(s) < |s.ring.slots|)
    && (s.writer.WMoved? ==> |s.pushed| - Freed(s) <= |s.ring.slots|)
    && (s.reader.RReleased? ==> s.ring.keepLast ==> s.ring.shown == 1)
  }

  // Slot k mod max holds the k-th frame, unless it has just been released.
  ghost predicate Holds(s: State)
    requires Counts(s)
  {
    && (s.writer.WFilled? ==> s.ring.slots[s.ring.windex].Some?)
    && forall k: nat | s.released <= k < |s.pushed| && !(s.reader.RReleased? && k == s.released) ::
         s.ring.slots[k % |s.ring.slots|] == Some(s.pushed[k])
  }

  ghost predicate Inv(s: State) { Counts(s) && Holds(s) }

  lemma CountsKept(s: State, a: Step)
    requires Inv(s)
    ensures Counts(Next(s, a))
  {
    BumpIsRemainder(|s.pushed|, |s.ring.slots|);
    BumpIsRemainder(s.released, |s.ring.slots|);
  }

  // The slot being filled is neither readable nor the kept last frame.
  lemma WriterStaysClear(s: State, k: nat)
    requires Counts(s) && (s.writer.WGranted? || s.writer.WFilled?) && s.released <= k < |s.pushed|
    ensures k % |s.ring.slots| != s.ring.windex
  {
    NearbySlotsDiffer(k, |s.pushed|, |s.ring.slots|);
  }

  lemma FillKeepsHolds(s: State, a: Step)
    requires Inv(s) && a.Fill? && Counts(Next(s, a))
    ensures Holds(Next(s, a))
  {
    if s.writer.WGranted? {
      forall k: nat | s.released <= k < |s.pushed| ensures k % |s.ring.slots| != s.ring.windex {
        WriterStaysClear(s, k);
      }
    }
  }

  lemma ReleaseKeepsHolds(s: State, a: Step)
    requires Inv(s) && a.NextFrame? && Counts(Next(s, a))
    ensures Holds(Next(s, a))
  {
    if s.reader.RReady? {
      forall k: nat | s.released < k < |s.pushed| ensures k % |s.ring.slots| != s.ring.rindex {
        NearbySlotsDiffer(s.released, k, |s.ring.slots|);
      }
      if s.writer.WFilled? { WriterStaysClear(s, s.released); }
    }
  }

  lemma OthersKeepHolds(s: State, a: Step)
    requires Inv(s) && !a.Fill? && !a.NextFrame? && Counts(Next(s, a))
    ensures Holds(Next(s, a))
  {}

  lemma StepKeepsInv(s: State, a: Step)
    requires Inv(s)
    ensures Inv(Next(s, a))
  {
    hide Next, Counts, Holds;
    CountsKept(s, a);
    if a.Fill? { FillKeepsHolds(s, a); }
    else if a.NextFrame? { ReleaseKeepsHolds(s, a); }
    else { OthersKeepHolds(s, a); }
  }

  lemma {:induction false} RunKeepsInv(max: nat, keepLast: bool, steps: seq<Step>)
    requires max > 0
    ensures Inv(Run(max, keepLast, steps))
    decreases |steps|
  {
    if steps != [] {
      RunKeepsInv(max, keepLast, steps[..|steps| - 1]);
      StepKeepsInv(Run(max, keepLast, steps[..|steps| - 1]), steps[|steps| - 1]);
    }
  }

  // ------------------------------------------------------------------ what the two threads did

  // The frames the writer has put into slots it was granted, oldest first.
  function Filled(max: nat, keepLast: bool, steps: seq<Step>): seq<Frame>
    requires max > 0
    decreases |steps|
  {
    if steps == [] then []
    else
      var front, a := steps[..|steps| - 1], steps[|steps| - 1];
      Filled(max, keepLast, front)
      + if a.Fill? && Run(max, keepLast, front).writer.WGranted? then [a.f] else []
  }

  // How often the reader has come back from a call of frame_queue_next.
  function Returns(max: nat, keepLast: bool, steps: seq<Step>): nat
    requires max > 0
    decreases |steps|
  {
    if steps == [] then 0
    else
      var front := steps[..|steps| - 1];
      Returns(max, keepLast, front)
      + if !Run(max, keepLast, front).reader.RIdle? && Run(max, keepLast, steps).reader.RIdle? then 1 else 0
  }

  // The frame that is in its slot and not pushed yet.
  function InHand(s: State): seq<Frame>
    requires Shape(s)
  {
    if s.writer.WFilled? && s.ring.slots[s.ring.windex].Some? then [s.ring.slots[s.ring.windex].value] else []
  }

  lemma StepKeepsFilled(s: State, a: Step)
    requires Inv(s)
    ensures Shape(Next(s, a))
    ensures Next(s, a).pushed + InHand(Next(s, a))
         == s.pushed + InHand(s) + if a.Fill? && s.writer.WGranted? then [a.f] else []
    ensures Next(s, a).nexts == s.nexts + if !s.reader.RIdle? && Next(s, a).reader.RIdle? then 1 else 0
  {
    CountsKept(s, a);
    assert s.pushed + [] == s.pushed;
    if a.NextFrame? && s.reader.RReady? && s.writer.WFilled? { WriterStaysClear(s, s.released); }
  }

  // The frames pushed are those filled in, and calls of next are counted rightly.
  lemma {:induction false} PushedIsFilled(max: nat, keepLast: bool, steps: seq<Step>)
    requires max > 0
    ensures var s := Run(max, keepLast, steps); Filled(max, keepLast, steps) == s.pushed + InHand(s)
    ensures Returns(max, keepLast, steps) == Run(max, keepLast, steps).nexts
    decreases |steps|
  {
    if steps == [] {
      assert Run(max, keepLast, steps).pushed + [] == [];
    } else {
      var front := steps[..|steps| - 1];
      PushedIsFilled(max, keepLast, front);
      RunKeepsInv(max, keepLast, front);
      StepKeepsFilled(Run(max, keepLast, front), steps[|steps| - 1]);
      hide Next, Inv, InHand;
      assert Filled(max, keepLast, front) + [] == Filled(max, keepLast, front);
    }
  }

  // ------------------------------------------------------------------ what the two threads see

  // First in, first out: whenever a frame is readable, frame_queue_peek shows the frame whose
  // number in the order of filling is the number of completed frame_queue_next calls.
  lemma PeekIsFifo(max: nat, keepLast: bool, steps: seq<Step>)
    requires max > 0 && Run(max, keepLast, steps).reader.RReady?
    ensures var filled, n := Filled(max, keepLast, steps), Returns(max, keepLast, steps);
            n < |filled| && Peek(Run(max, keepLast, steps).ring) == Some(filled[n])
  {
    RunKeepsInv(max, keepLast, steps);
    PushedIsFilled(max, keepLast, steps);
    ReadableIsNext(Run(max, keepLast, steps));
  }

  lemma ReadableIsNext(s: State)
    requires Inv(s) && s.reader.RReady?
    ensures s.nexts < |s.pushed| && Peek(s.ring) == Some(s.pushed[s.nexts])
  {
    var max := |s.ring.slots|;
    BumpIsRemainder(s.released, max);
    if s.ring.shown == 0 { RemainderOf(s.ring.rindex, max, 0, s.ring.rindex); }
    assert s.ring.slots[s.nexts % max] == Some(s.pushed[s.nexts]);
  }

  ghost predicate OnScreen(s: State) {
    s.ring.shown <= 1 && (s.nexts > 0 <==> s.ring.shown == 1) && (s.released > 0 ==> s.ring.shown == 1)
  }

  lemma StepKeepsOnScreen(s: State, a: Step)
    requires Counts(s) && s.ring.keepLast && OnScreen(s)
    ensures OnScreen(Next(s, a))
  {}

  // A ring that keeps its last frame has one on screen from the first call of next on.
  lemma {:induction false} OneIsOnScreen(max: nat, keepLast: bool, steps: seq<Step>)
    requires max > 0 && keepLast
    ensures OnScreen(Run(max, keepLast, steps))
    decreases |steps|
  {
    if steps != [] {
      var s, a := Run(max, keepLast, steps[..|steps| - 1]), steps[|steps| - 1];
      OneIsOnScreen(max, keepLast, steps[..|steps| - 1]);
      RunKeepsInv(max, keepLast, steps[..|steps| - 1]);
      assert Run(max, keepLast, steps) == Next(s, a) && s.ring.keepLast && Counts(s);
      hide *;
      StepKeepsOnScreen(s, a);
    }
  }

  lemma ShownIsKept(s: State)
    requires Inv(s) && s.ring.shown == 1 && (s.reader.RIdle? || s.reader.RReady?)
    ensures 0 < s.nexts <= |s.pushed| && s.ring.slots[s.ring.rindex] == Some(s.pushed[s.nexts - 1])
  {
    assert s.ring.slots[s.released % |s.ring.slots|] == Some(s.pushed[s.released]);
  }

  // The frame on screen survives until it is replaced: between two calls of the reader the slot
  // that frame_queue_peek_last names holds the frame shown last.
  lemma LastFrameIsKept(max: nat, keepLast: bool, steps: seq<Step>)
    requires max > 0 && keepLast && Returns(max, keepLast, steps) > 0
    requires var s := Run(max, keepLast, steps); s.reader.RIdle? || s.reader.RReady?
    ensures var s, filled, n := Run(max, keepLast, steps), Filled(max, keepLast, steps), Returns(max, keepLast, steps);
            n <= |filled| && s.ring.slots[s.ring.rindex] == Some(filled[n - 1])
  {
    var s := Run(max, keepLast, steps);
    RunKeepsInv(max, keepLast, steps);
    PushedIsFilled(max, keepLast, steps);
    OneIsOnScreen(max, keepLast, steps);
    hide Run, Filled, Returns, Inv;
    ShownIsKept(s);
  }

  // A slot is granted exactly while fewer frames are held than there are slots, counting the frame
  // shown last, if it is kept, and a slot that is being given back.
  lemma GrantedExactly(max: nat, keepLast: bool, steps: seq<Step>)
    requires max > 0 && Run(max, keepLast, steps).writer.WIdle?
    ensures var s, held := Run(max, keepLast, steps),
                           |Filled(max, keepLast, steps)| - Returns(max, keepLast, steps);
            Next(s, PeekWritable).writer.WGranted? <==> held + s.ring.shown < max
  {
    RunKeepsInv(max, keepLast, steps);
    PushedIsFilled(max, keepLast, steps);
  }

  // A frame is readable exactly if more were pushed completely than calls of next are complete.
  lemma ReadableExactly(max: nat, keepLast: bool, steps: seq<Step>)
    requires max > 0 && Run(max, keepLast, steps).reader.RIdle?
    ensures var s := Run(max, keepLast, steps);
            Next(s, PeekReadable).reader.RReady? <==> Committed(s) > Returns(max, keepLast, steps)
  {
    RunKeepsInv(max, keepLast, steps);
    PushedIsFilled(max, keepLast, steps);
  }

  // The slot the writer fills is never one the reader may look at.
  lemma WriterIsExclusive(max: nat, keepLast: bool, steps: seq<Step>, k: nat)
    requires max > 0
    requires var s := Run(max, keepLast, steps);
             (s.writer.WGranted? || s.writer.WFilled?) && s.released <= k < |s.pushed|
    ensures var s := Run(max, keepLast, steps); k % max != s.ring.windex
  {
    RunKeepsInv(max, keepLast, steps);
    WriterStaysClear(Run(max, keepLast, steps), k);
  }

  // Some frame that is pushed and not given back, or just being pushed, is in this slot.
  ghost predicate InUse(s: State, i: nat)
    requires Shape(s)
  {
    || (s.writer.WFilled? && i == s.ring.windex)
    || exists k: nat :: s.released <= k < |s.pushed| && !(s.reader.RReleased? && k == s.released)
                        && i == k % |s.ring.slots|
  }

  // Slots that are not in use hold nothing.
  ghost predicate Cleared(s: State)
    requires Shape(s)
  {
    forall i: nat | i < |s.ring.slots| && s.ring.slots[i].Some? :: InUse(s, i)
  }

  lemma StepKeepsCleared(s: State, a: Step)
    requires Inv(s) && Cleared(s) && Shape(Next(s, a))
    ensures Cleared(Next(s, a))
  {
    var t := Next(s, a);
    forall i: nat | i < |t.ring.slots| && t.ring.slots[i].Some? ensures InUse(t, i) {
      if a.Fill? && s.writer.WGranted? && i == s.ring.windex {
      } else {
        assert InUse(s, i);
        if !(s.writer.WFilled? && i == s.ring.windex) {
          var k: nat :| s.released <= k < |s.pushed| && !(s.reader.RReleased? && k == s.released)
                        && i == k % |s.ring.slots|;
          assert t.released <= k < |t.pushed| && !(t.reader.RReleased? && k == t.released);
        } else if a.MoveWindex? {
          assert |s.pushed| < |t.pushed| && i == |s.pushed| % |t.ring.slots|;
        }
      }
    }
  }

  // Nothing is leaked: every frame that is still in a slot is pushed and not given back, or just
  // being pushed.
  lemma {:induction false} SlotsAreCleared(max: nat, keepLast: bool, steps: seq<Step>)
    requires max > 0
    ensures Cleared(Run(max, keepLast, steps))
    decreases |steps|
  {
    if steps == [] {
      NewIsCleared(max, keepLast);
    } else {
      var front := steps[..|steps| - 1];
      SlotsAreCleared(max, keepLast, front);
      RunKeepsInv(max, keepLast, front);
      var s, a := Run(max, keepLast, front), steps[|steps| - 1];
      assert Run(max, keepLast, steps) == Next(s, a);
      hide *;
      StepKeepsCleared(s, a);
    }
  }

  lemma NewIsCleared(max: nat, keepLast: bool)
    requires max > 0
    ensures Shape(Init(max, keepLast)) && Cleared(Init(max, keepLast))
  {}

  predicate BothWait(s: State) {
    s.writer.WIdle? && s.ring.size >= |s.ring.slots| && s.reader.RIdle? && s.ring.size - s.ring.shown <= 0
  }

  // Both threads can only wait for each other in a ring of one slot that keeps its last frame.
  lemma NoMutualWait(max: nat, keepLast: bool, steps: seq<Step>)
    requires max > 0 && BothWait(Run(max, keepLast, steps))
    ensures max == 1 && keepLast
  {
    RunKeepsInv(max, keepLast, steps);
  }

  // In such a ring they do, after the first frame was pushed and shown.
  lemma OneSlotDeadlocks()
    ensures BothWait(Run(1, true, [PeekWritable, Fill(7), MoveWindex, GrowSize, PeekReadable, NextFrame]))
  {
    hide Run;
    var push := [PeekWritable, Fill(7), MoveWindex, GrowSize];
    OneFramePushed();
    RunExtends(1, true, push, PeekReadable);
    RunExtends(1, true, push + [PeekReadable], NextFrame);
    assert push + [PeekReadable] + [NextFrame]
        == [PeekWritable, Fill(7), MoveWindex, GrowSize, PeekReadable, NextFrame];
  }

  lemma OneFramePushed()
    ensures Run(1, true, [PeekWritable, Fill(7), MoveWindex, GrowSize])
         == State(Ring([Some(7)], true, 0, 0, 1, 0), WIdle, RIdle, [7], 0, 0)
  {
    hide Run;
    RunExtends(1, true, [], PeekWritable);
    RunExtends(1, true, [PeekWritable], Fill(7));
    RunExtends(1, true, [PeekWritable, Fill(7)], MoveWindex);
    RunExtends(1, true, [PeekWritable, Fill(7), MoveWindex], GrowSize);
    assert [] + [PeekWritable] == [PeekWritable] && [PeekWritable] + [Fill(7)] == [PeekWritable, Fill(7)];
    assert [PeekWritable, Fill(7)] + [MoveWindex] == [PeekWritable, Fill(7), MoveWindex];
    assert [PeekWritable, Fill(7), MoveWindex] + [GrowSize] == [PeekWritable, Fill(7), MoveWindex, GrowSize];
    assert Run(1, true, [PeekWritable, Fill(7)]).ring.slots == [Some(7)];
  }

  lemma RunExtends(max: nat, keepLast: bool, steps: seq<Step>, a: Step)
    requires max > 0
    ensures Run(max, keepLast, steps + [a]) == Next(Run(max, keepLast, steps), a)
    ensures Run(max, keepLast, []) == Init(max, keepLast)
  {
    assert (steps + [a])[..|steps|] == steps;
  }

  // ------------------------------------------------------------------ the queue in place

  class FrameQueue {
    const queue: array<Option<Frame>>
    const keepLast: bool
    var rindex: nat
    var windex: nat
    var size: int
    var rindexShown: nat

    ghost predicate Valid()
      reads this
    {
      queue.Length > 0 && rindex < queue.Length && windex < queue.Length
    }

    ghost function Model(): Ring
      reads this, queue
    {
      Ring(queue[..], keepLast, rindex, windex, size, rindexShown)
    }

    // What the queue becomes if a thread takes a step of the model.
    ghost predicate Steps(before: Ring, w: Writer, r: Reader, a: Step)
      requires |before.slots| > 0 && before.rindex < |before.slots| && before.windex < |before.slots|
      reads this, queue
    {
      Model() == Next(State(before, w, r, [], 0, 0), a).ring
    }

    constructor (maxSize: nat, keepLast: bool)
      requires maxSize > 0
      ensures Valid() && fresh(queue) && Model() == Init(maxSize, keepLast).ring
    {
      queue := new Option<Frame>[maxSize](_ => None);
      this.keepLast := keepLast;
      rindex, windex, size, rindexShown := 0, 0, 0, 0;
      new;
      assert queue[..] == seq(maxSize, i => None);
    }

    method PeekFrame() returns (f: Option<Frame>)
      requires Valid()
      ensures f == Peek(Model())
    {
      f := queue[(rindex + rindexShown) % queue.Length];
    }

    method FillSlot(f: Frame)
      requires Valid()
      modifies queue
      ensures Valid() && Steps(old(Model()), WGranted, RIdle, Fill(f))
    {
      queue[windex] := Some(f);
    }

    // frame_queue_push up to taking the lock.
    method PushIndex()
      requires Valid() && queue[windex].Some?
      modifies this`windex
      ensures Valid() && Steps(old(Model()), WFilled, RIdle, MoveWindex)
    {
      windex := windex + 1;
      if windex == queue.Length { windex := 0; }
    }

    // frame_queue_push under the lock.
    method PushSize()
      requires Valid()
      modifies this`size
      ensures Valid() && Steps(old(Model()), WMoved, RIdle, GrowSize)
    {
      size := size + 1;
    }

    // frame_queue_next up to releasing the slot; done if the first frame is only marked as shown.
    method NextRelease() returns (done: bool)
      requires Valid()
      modifies this`rindexShown, queue
      ensures Valid() && Steps(old(Model()), WIdle, RReady, NextFrame)
      ensures done == (keepLast && old(rindexShown) == 0)
    {
      if keepLast && rindexShown == 0 {
        rindexShown := 1;
        return true;
      }
      queue[rindex] := None;
      return false;
    }

    method NextIndex()
      requires Valid()
      modifies this`rindex
      ensures Valid() && Steps(old(Model()), WIdle, RReleased, MoveRindex)
    {
      rindex := rindex + 1;
      if rindex == queue.Length { rindex := 0; }
    }

    method NextSize()
      requires Valid()
      modifies this`size
      ensures Valid() && Steps(old(Model()), WIdle, RMoved, ShrinkSize)
    {
      size := size - 1;
    }
  }
}
