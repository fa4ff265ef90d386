/** The frame ring and the wake-up protocol of jni/VideoDecoder.cpp. A decoding thread fills the
    slots, a calling thread shows them one by one and finally destroys the player. Every access to
    a shared variable is a step of its own. An unlock by a thread that does not hold the mutex is
    taken to do nothing, and a waiting thread may wake up without a signal. */
module ArcPlayer {
  import opened Wrappers
  import opened Modulo

  type Frame = nat

  datatype Thread = Decoding | Calling

  // Where the decoding thread stands in run().
  datatype DecoderAt =
    | Starting | Checking | SawRoom | SawEnd | AskEnded | Leaving | Unlocking | Receiving
    | Scaling(f: Frame) | Scaled(f: Frame) | Relocking | Waiting | Asleep(signalled: bool) | Woken
    | Finishing | Finished

  // Where the calling thread stands in nextVideoFrame(), or in the destructor (destroy).
  datatype CallerAt =
    | Idle | Empty | EmptyNotEnded | Locking(destroy: bool) | Changing(destroy: bool) | Signalling(destroy: bool)
    | Releasing(destroy: bool) | Returning | Joining | Gone

  // Slot 0 is shown before anything was decoded if index is 0; its content is then None.
  datatype Shown = Shown(index: nat, content: Option<Frame>)

  datatype Player = Player(
    slots: seq<Option<Frame>>,   // None: not decoded yet, or half written
    cur: nat, total: nat, ended: bool,
    owner: Option<Thread>,
    dec: DecoderAt, caller: CallerAt,
    decoded: seq<Frame>,         // frames counted in total, oldest first
    log: seq<Shown>)             // frames handed to the caller

  // What the codec answers: another packet is needed, no more frames, or a frame.
  datatype Outcome = Again | End | Got(f: Frame)
  datatype Step = Decode(o: Outcome) | WakeUp | Call(destroy: bool)

  // A player with two or more slots.
  type State = s: Player | |s.slots| >= 2
    witness Player([None, None], 0, 0, false, None, Starting, Idle, [], [])

  function Slot(n: nat, s: State): (i: nat)
    ensures i < |s.slots|
  {
    n % |s.slots|
  }

  function Buffered(s: State): int { s.total - s.cur }

  function Unlocked(s: State, t: Thread): State { if s.owner == Some(t) then s.(owner := None) else s }

  function Decoder(s: State, o: Outcome): State
  {
    match s.dec
    case Starting => if s.owner.None? then s.(owner := Some(Decoding), dec := Checking) else s
    case Checking => s.(dec := if Buffered(s) == |s.slots| - 1 then Leaving else SawRoom)
    case SawRoom => s.(dec := if s.ended then SawEnd else AskEnded)
    case SawEnd => s.(dec := if Buffered(s) >= 1 then Leaving else AskEnded)
    case AskEnded => s.(dec := if s.ended then Leaving else Unlocking)
    case Unlocking => Unlocked(s, Decoding).(dec := Receiving)
    case Receiving => (
      match o
      case Again => s.(dec := Checking)
      case End => s.(ended := true, dec := Leaving)
      case Got(f) => s.(slots := s.slots[Slot(s.total + 1, s) := None], dec := Scaling(f)))
    case Scaling(f) => s.(slots := s.slots[Slot(s.total + 1, s) := Some(f)], dec := Scaled(f))
    case Scaled(f) => s.(total := s.total + 1, decoded := s.decoded + [f], dec := Relocking)
    case Relocking => if s.owner.None? then s.(owner := Some(Decoding), dec := Checking) else s
    case Leaving => s.(dec := if s.ended then Finishing else Waiting)
    case Waiting => Unlocked(s, Decoding).(dec := Asleep(false))
    case Asleep(signalled) => if signalled then s.(dec := Woken) else s
    case Woken => if s.owner.None? then s.(owner := Some(Decoding), dec := Checking) else s
    case Finishing => Unlocked(s, Decoding).(dec := Finished)
    case Finished => s
  }

  function Caller(s: State, destroy: bool): State
  {
    match s.caller
    case Idle => s.(caller := if destroy then Locking(true) else if Buffered(s) >= 1 then Locking(false) else Empty)
    case Empty => s.(caller := if s.ended then Idle else EmptyNotEnded)
    case EmptyNotEnded => s.(caller := if s.total == 0 then Idle else Returning)
    case Locking(d) => if s.owner.None? then s.(owner := Some(Calling), caller := Changing(d)) else s
    case Changing(d) => (
      if d then s.(ended := true, caller := Signalling(d)) else s.(cur := s.cur + 1, caller := Signalling(d)))
    case Signalling(d) => s.(dec := if s.dec.Asleep? then Asleep(true) else s.dec, caller := Releasing(d))
    case Releasing(d) => Unlocked(s, Calling).(caller := if d then Joining else Returning)
    case Returning => s.(log := s.log + [Shown(s.cur, s.slots[Slot(s.cur, s)])], caller := Idle)
    case Joining => if s.dec.Finished? then s.(caller := Gone) else s
    case Gone => s
  }

  function Next(s: State, a: Step): State
  {
    match a
    case Decode(o) => Decoder(s, o)
    case WakeUp => if s.dec.Asleep? then s.(dec := Woken) else s
    case Call(d) => Caller(s, d)
  }

  function Init(n: nat): State
    requires n >= 2
  {
    Player(seq(n, i => None), 0, 0, false, None, Starting, Idle, [], [])
  }

  function Run(n: nat, steps: seq<Step>): (s: State)
    requires n >= 2
    ensures |s.slots| == n
    decreases |steps|
  {
    if steps == [] then Init(n) else Next(Run(n, steps[..|steps| - 1]), steps[|steps| - 1])
  }

  // ------------------------------------------------------------------ the ring

  // The thread has seen a free slot and will act on it.
  predicate ReliesOnRoom(d: DecoderAt) {
    d.SawRoom? || d.SawEnd? || d.AskEnded? || d.Unlocking? || d.Receiving? || d.Scaling? || d.Scaled?
  }

  ghost predicate Counts(s: State) {
    && s.cur <= s.total && |s.decoded| == s.total && Buffered(s) <= |s.slots| - 1
    && (ReliesOnRoom(s.dec) ==> Buffered(s) <= |s.slots| - 2)
    && ((s.caller.Locking? || s.caller.Changing?) && !s.caller.destroy ==> Buffered(s) >= 1)
  }

  // The slots of frames cur to total, frame 0 standing for the slot shown before any was decoded.
  ghost predicate Holds(s: State)
    requires Counts(s)
  {
    && (forall k: nat | s.cur <= k <= s.total :: s.slots[Slot(k, s)] == FrameNo(s.decoded, k))
    && (s.dec.Scaled? ==> s.slots[Slot(s.total + 1, s)] == Some(s.dec.f))
  }

  function FrameNo(decoded: seq<Frame>, k: nat): Option<Frame>
    requires k <= |decoded|
  {
    if k == 0 then None else Some(decoded[k - 1])
  }

  // Nobody looks at the slot that is being written.
  lemma WriterIsAlone(s: State, k: nat)
    requires Counts(s) && ReliesOnRoom(s.dec) && s.cur <= k <= s.total
    ensures Slot(k, s) != Slot(s.total + 1, s)
  {
    NearbySlotsDiffer(k, s.total + 1, |s.slots|);
  }

  // ------------------------------------------------------------------ the mutex

  // Places where the decoding thread does not hold the mutex.
  predicate Outside(d: DecoderAt) {
    d.Starting? || d.Receiving? || d.Scaling? || d.Scaled? || d.Relocking? || d.Asleep? || d.Woken? || d.Finished?
  }

  predicate Critical(c: CallerAt) { c.Changing? || c.Signalling? || c.Releasing? }

  // The destructor has told the decoding thread to stop.
  predicate Destroying(c: CallerAt) {
    ((c.Signalling? || c.Releasing?) && c.destroy) || c.Joining? || c.Gone?
  }

  predicate Full(s: State) { Buffered(s) == |s.slots| - 1 }

  ghost predicate Mutex(s: State) {
    && (s.owner == Some(Calling) <==> Critical(s.caller))
    && (Outside(s.dec) ==> s.owner != Some(Decoding))
    && (s.dec.Checking? ==> s.owner == Some(Decoding) || !Full(s))
    && (s.dec.Leaving? ==> s.ended || (s.owner == Some(Decoding) && Full(s)))
    && (s.dec.Waiting? ==> s.owner == Some(Decoding) && Full(s) && !s.ended)
    && (s.dec.Asleep? && !s.dec.signalled && !s.caller.Signalling? ==> Full(s) && !s.ended)
    && (s.dec.Finishing? || s.dec.Finished? ==> s.ended)
    && (Destroying(s.caller) || s.dec.SawEnd? ==> s.ended)
  }

  // ------------------------------------------------------------------ what was shown

  function Last(log: seq<Shown>): nat { if log == [] then 0 else log[|log| - 1].index }

  // An entry holds the frame of its number, the same as the entry before it or the next one.
  ghost predicate EntryOk(log: seq<Shown>, decoded: seq<Frame>, k: nat)
    requires k < |log|
  {
    && log[k].index <= |decoded| && log[k].content == FrameNo(decoded, log[k].index)
    && var before := if k == 0 then 0 else log[k - 1].index;
       before <= log[k].index <= before + 1
  }

  ghost predicate LogOk(log: seq<Shown>, decoded: seq<Frame>) {
    forall k: nat | k < |log| :: EntryOk(log, decoded, k)
  }

  ghost predicate Orderly(s: State) {
    LogOk(s.log, s.decoded) && s.cur == Last(s.log) + if Advanced(s) then 1 else 0
  }

  // The counter was moved and the frame not yet handed out.
  predicate Advanced(s: State) {
    Last(s.log) < s.cur && (((s.caller.Signalling? || s.caller.Releasing?) && !s.caller.destroy) || s.caller.Returning?)
  }

  ghost predicate Inv(s: State) { Counts(s) && Holds(s) && Mutex(s) && Orderly(s) }

  lemma DecoderKeepsCounts(s: State, o: Outcome)
    requires Counts(s) && Mutex(s)
    ensures Counts(Decoder(s, o))
  {
    hide Slot;
  }

  // The states behind the decoding loop.
  predicate BehindLoop(d: DecoderAt) {
    d.Leaving? || d.Waiting? || d.Asleep? || d.Woken? || d.Finishing? || d.Finished?
  }

  lemma DecoderKeepsMutex(s: State, o: Outcome)
    requires Counts(s) && Mutex(s)
    ensures Mutex(Decoder(s, o))
  {
    hide Counts, Mutex, Decoder;
    if BehindLoop(s.dec) { RestKeepsMutex(s, o); } else { LoopKeepsMutex(s, o); }
  }

  lemma RestKeepsMutex(s: State, o: Outcome)
    requires Mutex(s) && BehindLoop(s.dec)
    ensures Mutex(Decoder(s, o))
  {
    hide Slot;
  }

  lemma LoopKeepsMutex(s: State, o: Outcome)
    requires Counts(s) && Mutex(s) && !BehindLoop(s.dec)
    ensures Mutex(Decoder(s, o))
  {
    hide Slot;
  }

  lemma CallerKeepsCounts(s: State, destroy: bool)
    requires Counts(s)
    ensures Counts(Caller(s, destroy))
  {}

  lemma CallerKeepsMutex(s: State, destroy: bool)
    requires Counts(s) && Mutex(s)
    ensures Mutex(Caller(s, destroy))
  {}

  // Only the decoding thread writes slots, and none that anybody looks at.
  lemma DecoderKeepsHolds(s: State, o: Outcome)
    requires Counts(s) && Holds(s) && Counts(Decoder(s, o))
    ensures Holds(Decoder(s, o))
  {
    if s.dec.Receiving? || s.dec.Scaling? {
      WriteKeepsHolds(s, o);
    } else if s.dec.Scaled? {
      CountKeepsHolds(s, o);
    } else {
      hide ReliesOnRoom, Slot;
    }
  }

  lemma WriteKeepsHolds(s: State, o: Outcome)
    requires Counts(s) && Holds(s) && Counts(Decoder(s, o)) && (s.dec.Receiving? || s.dec.Scaling?)
    ensures Holds(Decoder(s, o))
  {
    forall k: nat | s.cur <= k <= s.total ensures Slot(k, s) != Slot(s.total + 1, s) { WriterIsAlone(s, k); }
    hide ReliesOnRoom;
  }

  lemma CountKeepsHolds(s: State, o: Outcome)
    requires Counts(s) && Holds(s) && Counts(Decoder(s, o)) && s.dec.Scaled?
    ensures Holds(Decoder(s, o))
  {
    var t := Decoder(s, o);
    forall k: nat | t.cur <= k <= t.total ensures t.slots[Slot(k, t)] == FrameNo(t.decoded, k) {
      assert k <= s.total ==> t.slots[Slot(k, s)] == FrameNo(s.decoded, k);
    }
    hide ReliesOnRoom;
  }

  // The calling thread moves past frames, it never changes one.
  lemma CallerOnlyReads(s: State, destroy: bool)
    requires Counts(s)
    ensures var t := Caller(s, destroy);
            && t.slots == s.slots && t.decoded == s.decoded && t.total == s.total && s.cur <= t.cur
            && (t.dec.Scaled? <==> s.dec.Scaled?) && (s.dec.Scaled? ==> t.dec == s.dec)
  {}

  lemma CallerKeepsHolds(s: State, destroy: bool)
    requires Counts(s) && Holds(s) && Counts(Caller(s, destroy))
    ensures Holds(Caller(s, destroy))
  {
    CallerOnlyReads(s, destroy);
    hide ReliesOnRoom, Caller;
  }

  lemma LogGrows(log: seq<Shown>, decoded: seq<Frame>, e: Shown)
    requires LogOk(log, decoded) && Last(log) <= e.index <= Last(log) + 1
    requires e.index <= |decoded| && e.content == FrameNo(decoded, e.index)
    ensures LogOk(log + [e], decoded)
  {
    forall k: nat | k < |log| + 1 ensures EntryOk(log + [e], decoded, k) {
      if k < |log| { assert EntryOk(log, decoded, k); }
    }
  }

  lemma DecodedGrows(log: seq<Shown>, decoded: seq<Frame>, f: Frame)
    requires LogOk(log, decoded)
    ensures LogOk(log, decoded + [f])
  {
    forall k: nat | k < |log| ensures EntryOk(log, decoded + [f], k) { assert EntryOk(log, decoded, k); }
  }

  lemma DecoderKeepsOrder(s: State, o: Outcome)
    requires Counts(s) && Orderly(s)
    ensures Orderly(Decoder(s, o))
  {
    hide LogOk, Counts, Slot;
    if s.dec.Scaled? { DecodedGrows(s.log, s.decoded, s.dec.f); }
  }

  lemma CallerKeepsOrder(s: State, destroy: bool)
    requires Counts(s) && Holds(s) && Orderly(s)
    ensures Orderly(Caller(s, destroy))
  {
    hide LogOk, Slot;
    if s.caller.Returning? {
      var e := Shown(s.cur, s.slots[Slot(s.cur, s)]);
      LogGrows(s.log, s.decoded, e);
    }
  }

  lemma StepKeepsInv(s: State, a: Step)
    requires Inv(s)
    ensures Inv(Next(s, a))
  {
    hide Counts, Holds, Mutex, Orderly, Decoder, Caller;
    match a
    case Decode(o) =>
      DecoderKeepsCounts(s, o);
      DecoderKeepsMutex(s, o);
      DecoderKeepsHolds(s, o);
      DecoderKeepsOrder(s, o);
    case Call(d) =>
      CallerKeepsCounts(s, d);
      CallerKeepsMutex(s, d);
      CallerKeepsHolds(s, d);
      CallerKeepsOrder(s, d);
    case WakeUp => WakeUpKeepsInv(s);
  }

  lemma WakeUpKeepsInv(s: State)
    requires Inv(s)
    ensures Inv(Next(s, WakeUp))
  {
    hide LogOk;
  }

  lemma {:induction false} RunKeepsInv(n: nat, steps: seq<Step>)
    requires n >= 2
    ensures Inv(Run(n, steps))
    decreases |steps|
  {
    if steps != [] {
      RunKeepsInv(n, steps[..|steps| - 1]);
      StepKeepsInv(Run(n, steps[..|steps| - 1]), steps[|steps| - 1]);
    }
  }

  // ------------------------------------------------------------------ what the codec gave

  // The frames the codec has handed to the decoding thread, oldest first.
  function Given(n: nat, steps: seq<Step>): seq<Frame>
    requires n >= 2
    decreases |steps|
  {
    if steps == [] then []
    else
      var front, a := steps[..|steps| - 1], steps[|steps| - 1];
      Given(n, front) + if Run(n, front).dec.Receiving? && a.Decode? && a.o.Got? then [a.o.f] else []
  }

  // The frame that is being scaled or not counted yet.
  function InHand(d: DecoderAt): seq<Frame> {
    match d
    case Scaling(f) => [f]
    case Scaled(f) => [f]
    case _ => []
  }

  lemma StepKeepsGiven(s: State, a: Step)
    ensures var t := Next(s, a);
            t.decoded + InHand(t.dec)
            == s.decoded + InHand(s.dec) + if s.dec.Receiving? && a.Decode? && a.o.Got? then [a.o.f] else []
  {
    hide Slot;
    assert s.decoded + [] == s.decoded;
  }

  // The frames counted, and the one in hand, are those the codec gave.
  lemma {:induction false} CountedIsGiven(n: nat, steps: seq<Step>)
    requires n >= 2
    ensures var s := Run(n, steps); Given(n, steps) == s.decoded + InHand(s.dec)
    ensures |Run(n, steps).decoded| <= |Given(n, steps)| <= |Run(n, steps).decoded| + 1
    decreases |steps|
  {
    if steps == [] {
      assert Run(n, steps).decoded + [] == [];
    } else {
      var front := steps[..|steps| - 1];
      CountedIsGiven(n, front);
      StepKeepsGiven(Run(n, front), steps[|steps| - 1]);
      hide Next;
    }
  }

  // ------------------------------------------------------------------ what the player promises

  // At most N-1 frames wait, and every frame from the shown to the newest is in its slot, as the
  // codec gave it.
  lemma RingHoldsItsWindow(n: nat, steps: seq<Step>, k: nat)
    requires n >= 2
    ensures var s, given := Run(n, steps), Given(n, steps);
            && 0 <= s.total - s.cur <= n - 1 && s.total == |s.decoded| && s.total <= |given| <= s.total + 1
            && (1 <= k && s.cur <= k <= s.total ==> s.slots[k % n] == Some(given[k - 1]))
  {
    RunKeepsInv(n, steps);
    CountedIsGiven(n, steps);
    WindowIsHeld(Run(n, steps), Given(n, steps), k);
  }

  lemma WindowIsHeld(s: State, given: seq<Frame>, k: nat)
    requires Inv(s) && s.decoded + InHand(s.dec) == given
    ensures 0 <= s.total - s.cur <= |s.slots| - 1 && s.total == |s.decoded| && s.total <= |given| <= s.total + 1
    ensures 1 <= k && s.cur <= k <= s.total ==> s.slots[k % |s.slots|] == Some(given[k - 1])
  {
    hide Orderly, Mutex;
    assert s.cur <= k <= s.total ==> s.slots[Slot(k, s)] == FrameNo(s.decoded, k);
  }

  // The slot being decoded into is neither the one on screen nor one waiting to be shown.
  lemma WriteSlotIsFree(n: nat, steps: seq<Step>, k: nat)
    requires n >= 2
    requires var s := Run(n, steps); (s.dec.Receiving? || s.dec.Scaling? || s.dec.Scaled?) && s.cur <= k <= s.total
    ensures var s := Run(n, steps); k % n != (s.total + 1) % n
  {
    RunKeepsInv(n, steps);
    WriterIsAlone(Run(n, steps), k);
  }

  // Whatever the decoding thread does, the slot on screen keeps its content, decoded or not.
  lemma ScreenIsStable(n: nat, steps: seq<Step>, o: Outcome)
    requires n >= 2
    ensures var s := Run(n, steps); Decoder(s, o).slots[s.cur % n] == s.slots[s.cur % n]
  {
    RunKeepsInv(n, steps);
    var s := Run(n, steps);
    if ReliesOnRoom(s.dec) { WriterIsAlone(s, s.cur); }
  }

  // Frames are handed out in the order in which the codec gave them, none skipped, each being the
  // one of its number; number 0 is the slot that no frame was decoded into.
  lemma FramesInOrder(n: nat, steps: seq<Step>, k: nat)
    requires n >= 2 && k < |Run(n, steps).log|
    ensures var s, given := Run(n, steps), Given(n, steps);
            && s.log[k].index <= s.total == |s.decoded| <= |given| && s.log[k].content == FrameNo(given, s.log[k].index)
            && (s.log[k].content.None? <==> s.log[k].index == 0)
            && (k > 0 ==> s.log[k - 1].index <= s.log[k].index <= s.log[k - 1].index + 1)
            && (k == 0 ==> s.log[k].index <= 1)
  {
    RunKeepsInv(n, steps);
    CountedIsGiven(n, steps);
    assert EntryOk(Run(n, steps).log, Run(n, steps).decoded, k);
  }

  function RunFrom(s: State, steps: seq<Step>): (t: State)
    ensures |t.slots| == |s.slots|
    decreases |steps|
  {
    if steps == [] then s else RunFrom(Next(s, steps[0]), steps[1..])
  }

  lemma OneStep(s: State, a: Step, rest: seq<Step>)
    ensures RunFrom(s, [a] + rest) == RunFrom(Next(s, a), rest)
  {}

  lemma {:induction false} StepByStep(s: State, a: seq<Step>, b: seq<Step>)
    ensures RunFrom(s, a + b) == RunFrom(RunFrom(s, a), b)
    decreases |a|
  {
    if a == [] {
      assert a + b == b;
    } else {
      assert (a + b)[1..] == a[1..] + b;
      StepByStep(Next(s, a[0]), a[1..], b);
    }
  }

  // ------------------------------------------------------------------ waking up

  // The decoding thread goes to sleep only holding the mutex, and only with a full ring.
  lemma WaitHoldsTheMutex(n: nat, steps: seq<Step>)
    requires n >= 2 && Run(n, steps).dec.Waiting?
    ensures var s := Run(n, steps); s.owner == Some(Decoding) && Full(s) && !s.ended
  {
    RunKeepsInv(n, steps);
  }

  // It never takes the mutex twice.
  lemma NeverLocksItself(n: nat, steps: seq<Step>)
    requires n >= 2
    ensures var s := Run(n, steps); s.dec.Relocking? || s.dec.Woken? || s.dec.Starting? ==> s.owner != Some(Decoding)
  {
    RunKeepsInv(n, steps);
  }

  // No wake-up is lost: asleep with no signal under way means that there is nothing to do.
  lemma SleepMeansFull(n: nat, steps: seq<Step>)
    requires n >= 2
    requires var s := Run(n, steps); s.dec == Asleep(false) && !s.caller.Signalling?
    ensures var s := Run(n, steps); Full(s) && !s.ended
  {
    RunKeepsInv(n, steps);
  }

  // The next frame request, or the destructor, wakes the sleeping thread.
  lemma NextCallWakes(n: nat, steps: seq<Step>, destroy: bool)
    requires n >= 2
    requires var s := Run(n, steps); s.dec == Asleep(false) && s.caller.Idle?
    ensures var c := Call(destroy); Next(Next(Next(Next(Run(n, steps), c), c), c), c).dec == Asleep(true)
  {
    RunKeepsInv(n, steps);
    hide Holds, Orderly;
    MutexIsFree(Run(n, steps));
  }

  lemma OwnerIs(o: Option<Thread>)
    ensures o == None || o == Some(Decoding) || o == Some(Calling)
  {
    match o {
      case None =>
      case Some(t) => match t case Decoding => case Calling =>
    }
  }

  lemma MutexIsFree(s: State)
    requires Mutex(s) && Outside(s.dec) && !Critical(s.caller)
    ensures s.owner == None
  {
    OwnerIs(s.owner);
  }

  // A thread inside a call of the player is never stuck for good: it or the decoder can move.
  lemma CallsAreNeverStuck(n: nat, steps: seq<Step>, o: Outcome, destroy: bool)
    requires n >= 2
    requires var s := Run(n, steps); !s.caller.Idle? && !s.caller.Gone?
    ensures var s := Run(n, steps); Caller(s, destroy).caller != s.caller || Decoder(s, o).dec != s.dec
  {
    RunKeepsInv(n, steps);
    var s := Run(n, steps);
    hide Holds, Orderly;
    if Outside(s.dec) && !Critical(s.caller) { MutexIsFree(s); }
  }

  // How many steps the decoding thread may still take once the output has ended.
  function StepsToFinish(d: DecoderAt): nat {
    match d
    case Finished => 0
    case Finishing => 1
    case Leaving => 2
    case AskEnded => 3
    case SawEnd => 4
    case SawRoom => 5
    case Checking => 6
    case Woken => 7
    case Starting => 7
    case Relocking => 7
    case Asleep(_) => 8
    case Scaled(_) => 8
    case Scaling(_) => 9
    case Waiting => 9
    case Receiving => 10
    case Unlocking => 11
  }

  lemma JoinGetsCloser(s: State, o: Outcome)
    requires Inv(s) && s.caller.Joining? && !s.dec.Finished?
    ensures StepsToFinish(Decoder(s, o).dec) < StepsToFinish(s.dec) && Decoder(s, o).caller.Joining?
  {
    hide Holds, Orderly;
    if Outside(s.dec) { MutexIsFree(s); }
  }

  function DecoderSteps(os: seq<Outcome>): seq<Step>
    decreases |os|
  {
    if os == [] then [] else [Decode(os[0])] + DecoderSteps(os[1..])
  }

  // Once the destructor waits, the decoding thread stops after at most eleven steps of its own,
  // whatever the codec answers.
  lemma {:induction false} DestructorReturns(s: State, os: seq<Outcome>)
    requires Inv(s) && s.caller.Joining? && |os| >= StepsToFinish(s.dec)
    ensures RunFrom(s, DecoderSteps(os)).dec.Finished?
    decreases |os|
  {
    if os != [] {
      var t := Decoder(s, os[0]);
      assert DecoderSteps(os)[1..] == DecoderSteps(os[1..]);
      StepKeepsInv(s, Decode(os[0]));
      if !s.dec.Finished? { JoinGetsCloser(s, os[0]); }
      hide Inv, Decoder;
      assert Next(s, Decode(os[0])) == t;
      DestructorReturns(t, os[1..]);
    }
  }

  // From waiting on, the decoding thread rests until another thread signals it or it is woken up:
  // it does nothing by itself.
  lemma {:induction false} SleepsByItself(s: State, os: seq<Outcome>)
    requires s.dec.Waiting? || s.dec == Asleep(false)
    ensures os != [] ==> RunFrom(s, DecoderSteps(os)).dec == Asleep(false)
    decreases |os|
  {
    if os != [] {
      var t := Decoder(s, os[0]);
      assert t.dec == Asleep(false) && Next(s, Decode(os[0])) == t;
      hide Decoder;
      OneStep(s, Decode(os[0]), DecoderSteps(os[1..]));
      SleepsByItself(t, os[1..]);
    }
  }
}
