/** When the player of ArcPlayer hands out a slot that no frame was decoded into: exactly from a
    state in which no frame was counted and the output has not ended. */
module ArcPlayerStart {
  import opened Wrappers
  import opened ArcPlayer

  lemma {:induction false} Continues(n: nat, steps: seq<Step>, more: seq<Step>)
    requires n >= 2
    ensures RunFrom(Run(n, steps), more) == Run(n, steps + more)
    decreases |more|
  {
    if more == [] {
      assert steps + more == steps;
    } else {
      var next := steps + [more[0]];
      assert next[..|steps|] == steps && next + more[1..] == steps + more;
      Continues(n, next, more[1..]);
    }
  }

  // ------------------------------------------------------------------ once a frame was counted

  // The decoding thread has nothing more to count.
  predicate Stopping(d: DecoderAt) { d.Leaving? || d.Finishing? || d.Finished? }

  // Output ends only if the decoding thread stops, or the destructor makes it.
  ghost predicate EndIsMeant(s: State) { s.ended ==> Stopping(s.dec) || Destroying(s.caller) }

  lemma {:induction false} RunEndIsMeant(n: nat, steps: seq<Step>)
    requires n >= 2
    ensures EndIsMeant(Run(n, steps))
    decreases |steps|
  {
    if steps != [] {
      RunEndIsMeant(n, steps[..|steps| - 1]);
      RunKeepsInv(n, steps[..|steps| - 1]);
    }
  }

  // The call under way saw no frame, or was given one that is not counted as shown yet.
  predicate PastTest(c: CallerAt) {
    c.Empty? || c.EmptyNotEnded? || c.Returning? || ((c.Signalling? || c.Releasing?) && !c.destroy)
  }

  predicate FrameCounted(s: State) { s.total > 0 && (s.cur == 0 ==> !PastTest(s.caller)) }

  predicate NoFrameComes(s: State) {
    && s.total == 0 && s.ended && Stopping(s.dec)
    && !s.caller.EmptyNotEnded? && !s.caller.Returning?
    && ((s.caller.Signalling? || s.caller.Releasing?) ==> s.caller.destroy)
  }

  ghost predicate Safe(s: State) { Inv(s) && (FrameCounted(s) || NoFrameComes(s)) }

  lemma StepStaysSafe(s: State, a: Step)
    requires Safe(s)
    ensures Safe(Next(s, a))
  {
    StepKeepsInv(s, a);
    assert Counts(s);
    hide Inv, Slot;
    match a
    case Decode(o) => DecoderStaysSafe(s, o);
    case Call(d) => CallerStaysSafe(s, d);
    case WakeUp =>
  }

  lemma DecoderStaysSafe(s: State, o: Outcome)
    requires Counts(s) && (FrameCounted(s) || NoFrameComes(s))
    ensures FrameCounted(Decoder(s, o)) || NoFrameComes(Decoder(s, o))
  {
    hide Counts, Slot;
  }

  lemma CallerStaysSafe(s: State, destroy: bool)
    requires Counts(s) && (FrameCounted(s) || NoFrameComes(s))
    ensures FrameCounted(Caller(s, destroy)) || NoFrameComes(Caller(s, destroy))
  {
    hide Slot;
  }

  // Some entry behind the given log holds no decoded frame.
  predicate ShowsUndecoded(log: seq<Shown>, later: seq<Shown>) {
    exists k: nat :: |log| <= k < |later| && later[k].content.None?
  }

  // The later log continues the given one with decoded frames.
  predicate AddsDecoded(log: seq<Shown>, later: seq<Shown>) {
    |log| <= |later| && later[..|log|] == log && forall k: nat | |log| <= k < |later| :: later[k].content.Some?
  }

  // A safe step hands out decoded frames only.
  lemma StepShowsDecoded(s: State, a: Step)
    requires Safe(s)
    ensures AddsDecoded(s.log, Next(s, a).log)
  {
    hide Orderly, Mutex, Slot;
    if a.Call? && s.caller.Returning? {
      assert s.slots[Slot(s.cur, s)] == FrameNo(s.decoded, s.cur);
    }
  }

  lemma AddedTwice(a: seq<Shown>, b: seq<Shown>, c: seq<Shown>)
    requires AddsDecoded(a, b) && AddsDecoded(b, c)
    ensures AddsDecoded(a, c)
  {
    assert c[..|a|] == c[..|b|][..|a|];
    forall k: nat | |a| <= k < |c| ensures c[k].content.Some? { assert k < |b| ==> c[k] == c[..|b|][k]; }
  }

  lemma {:induction false} SafeStaysDecoded(s: State, more: seq<Step>)
    requires Safe(s)
    ensures AddsDecoded(s.log, RunFrom(s, more).log)
    decreases |more|
  {
    assert AddsDecoded(s.log, s.log);
    hide *;
    if more != [] {
      var t := Next(s, more[0]);
      StepStaysSafe(s, more[0]);
      StepShowsDecoded(s, more[0]);
      SafeStaysDecoded(t, more[1..]);
      AddedTwice(s.log, t.log, RunFrom(s, more).log);
    }
  }

  // ------------------------------------------------------------------ before the first frame

  // The call has seen no frame, and no frame is counted yet.
  ghost predicate Early(s: State) {
    Inv(s) && EndIsMeant(s) && s.total == 0 && !s.ended && s.caller.EmptyNotEnded?
  }

  // How far the decoding thread is from counting its next frame.
  function StepsToCount(d: DecoderAt): nat {
    match d
    case Scaled(_) => 1
    case Scaling(_) => 2
    case Receiving => 3
    case Unlocking => 4
    case AskEnded => 5
    case SawRoom => 6
    case Checking => 7
    case Woken => 8
    case Starting => 8
    case Relocking => 8
    case Asleep(_) => 9
    case _ => 10
  }

  // Until then the thread gets nearer with every step, if the codec gives it a frame.
  lemma NearerToCount(s: State, f: Frame)
    requires Early(s) && !s.dec.Scaled?
    ensures var t := Next(Next(s, WakeUp), Decode(Got(f)));
            Early(t) && t.log == s.log && StepsToCount(t.dec) < StepsToCount(s.dec)
  {
    var w := Next(s, WakeUp);
    StepKeepsInv(s, WakeUp);
    StepKeepsInv(w, Decode(Got(f)));
    hide Holds, Orderly, Slot;
    assert Counts(s) && Mutex(s);
    if Outside(w.dec) { MutexIsFree(w); }
  }

  lemma {:induction false} FirstFrameIsCounted(s: State, f: Frame) returns (steps: seq<Step>)
    requires Early(s)
    ensures var t := RunFrom(s, steps);
            Inv(t) && t.total == 1 && t.cur == 0 && t.caller.EmptyNotEnded? && t.log == s.log
    decreases StepsToCount(s.dec)
  {
    if s.dec.Scaled? {
      steps := [Decode(Got(f))];
      StepKeepsInv(s, Decode(Got(f)));
      assert RunFrom(s, steps) == Next(s, Decode(Got(f)));
    } else {
      var t := Next(Next(s, WakeUp), Decode(Got(f)));
      NearerToCount(s, f);
      var rest := FirstFrameIsCounted(t, f);
      steps := [WakeUp] + ([Decode(Got(f))] + rest);
      OneStep(s, WakeUp, [Decode(Got(f))] + rest);
      OneStep(Next(s, WakeUp), Decode(Got(f)), rest);
    }
  }

  // The call then hands out slot 0.
  lemma SlotZeroIsHandedOut(s: State)
    requires Inv(s) && s.total == 1 && s.cur == 0 && s.caller.EmptyNotEnded?
    ensures var t := RunFrom(s, [Call(false)] + ([Call(false)] + [])); t.log == s.log + [Shown(0, None)] && t.total == 1
  {
    var c := Call(false);
    LastTwoSteps(s);
    hide *;
    OneStep(s, c, [c] + []);
    OneStep(Next(s, c), c, []);
  }

  lemma LastTwoSteps(s: State)
    requires Inv(s) && s.total == 1 && s.cur == 0 && s.caller.EmptyNotEnded?
    ensures var t := Next(Next(s, Call(false)), Call(false)); t.log == s.log + [Shown(0, None)] && t.total == 1
  {
    assert s.slots[Slot(0, s)] == FrameNo(s.decoded, 0);
    hide Orderly, Mutex, Slot, Holds;
  }

  // A single call, begun before any frame was counted and output ended, may do so.
  lemma NextCallMayShowUndecoded(n: nat, steps: seq<Step>) returns (more: seq<Step>)
    requires n >= 2 && Run(n, steps).caller.Idle? && Run(n, steps).total == 0 && !Run(n, steps).ended
    ensures Run(n, steps + more).log == Run(n, steps).log + [Shown(0, None)] && Run(n, steps + more).total == 1
  {
    var s, c := Run(n, steps), Call(false);
    RunKeepsInv(n, steps);
    RunEndIsMeant(n, steps);
    var t := Next(Next(s, c), c);
    var wait := FirstFrameIsCounted(t, 7);
    var last := [c] + ([c] + []);
    SlotZeroIsHandedOut(RunFrom(t, wait));
    more := [c] + ([c] + (wait + last));
    OneStep(s, c, [c] + (wait + last));
    OneStep(Next(s, c), c, wait + last);
    StepByStep(t, wait, last);
    Continues(n, steps, more);
  }

  // From the start: the first call can see no frame, then a frame counted after all, and hand out
  // slot 0 although frame 1 is ready.
  lemma UndecodedSlotIsShown(n: nat) returns (steps: seq<Step>)
    requires n >= 2
    ensures Run(n, steps).log == [Shown(0, None)] && Run(n, steps).total == 1
  {
    steps := NextCallMayShowUndecoded(n, []);
    assert [] + steps == steps && [] + [Shown(0, None)] == [Shown(0, None)];
  }

  // ------------------------------------------------------------------ the exact condition

  // Some continuation of the run hands out a slot without a decoded frame.
  ghost predicate MayShowUndecoded(n: nat, steps: seq<Step>)
    requires n >= 2
  {
    exists more :: ShowsUndecoded(Run(n, steps).log, Run(n, steps + more).log)
  }

  // Between two calls: this may still happen if and only if no frame was counted and the output
  // has not ended.
  lemma UndecodedExactly(n: nat, steps: seq<Step>)
    requires n >= 2 && Run(n, steps).caller.Idle?
    ensures MayShowUndecoded(n, steps) <==> Run(n, steps).total == 0 && !Run(n, steps).ended
  {
    var s := Run(n, steps);
    if s.total == 0 && !s.ended {
      var more := NextCallMayShowUndecoded(n, steps);
      var later := Run(n, steps + more).log;
      assert later[|s.log|].content.None?;
      assert ShowsUndecoded(s.log, later);
    } else {
      RunKeepsInv(n, steps);
      RunEndIsMeant(n, steps);
      assert Safe(s);
      forall more ensures !ShowsUndecoded(s.log, Run(n, steps + more).log) {
        Continues(n, steps, more);
        SafeStaysDecoded(s, more);
      }
    }
  }
}
