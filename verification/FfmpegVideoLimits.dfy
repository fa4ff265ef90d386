/** The balance of shown, dropped and duplicated pictures over any calls of FfmpegVideoOut: by
    exactly how much each call misses it and on which condition, and an input for each kind. */
module FfmpegVideoLimits {
  import opened Wrappers
  import opened FfmpegVideoOut

  // How many of n frames from time t on come before the end of the recording.
  function InTime(c: Config, t: int, n: nat): nat {
    if c.recordEnd.None? || t + n <= c.recordEnd.value then n
    else if c.recordEnd.value <= t then 0
    else c.recordEnd.value - t
  }

  // What the frame loop outputs and how it ends depends on the recording time alone.
  lemma {:induction false} OutputIsInTime(c: Config, s: Stream, next: Option<Input>, i: int, p: Plan)
    requires 0 <= i <= p.nb && PictureAtHand(s, next, p)
    ensures var n := InTime(c, s.syncOpts, p.nb - i);
            var (exit, t) := Output(c, s, next, i, p);
            && exit == (if n == p.nb - i then Finished else RecordingOver)
            && |t.out| == |s.out| + n && t.drop == s.drop && t.dup == s.dup && t.lastDropped == s.lastDropped
    decreases p.nb - i
  {
    if i < p.nb && Recording(c, s.syncOpts) {
      var pic := Chosen(s.last, next, i, p.nb0).value;
      var t := s.(out := s.out + [Encoded(pic, s.syncOpts)], syncOpts := s.syncOpts + 1,
                  frameNumber := s.frameNumber + 1);
      OutputIsInTime(c, t, next, i + 1, p);
    }
  }

  // The call is refused for too many duplicates.
  predicate Refused(c: Config, s: Stream, next: Option<Input>) {
    var p := Limited(c, s, next);
    p.nb > FirstShown(p, s.lastDropped) && p.nb as real > c.dupLimit
  }

  // A flush that finds no picture to repeat: a further one, or one after refused calls only.
  predicate NoPicture(s: Stream, next: Option<Input>) { next.None? && s.last.None? }

  // How many of the planned frames are output if the call is not refused.
  function Shown(c: Config, s: Stream, next: Option<Input>): nat {
    var p := Limited(c, s, next);
    if p.nb <= 0 || NoPicture(s, next) then 0 else InTime(c, p.sync, p.nb)
  }

  // By how much a call misses the balance. A negative number of frames is planned only under a
  // negative frame limit.
  function Excess(c: Config, s: Stream, next: Option<Input>): int {
    var p := Limited(c, s, next);
    if Refused(c, s, next) then One(next.None?) + One(p.nb0 == 0 && s.lastDropped)
    else if p.nb < 0 then -One(s.lastDropped)
    else Shown(c, s, next) - p.nb
  }

  // The shape of every plan, in whatever state the call finds the stream.
  lemma PlanShape(c: Config, s: Stream, next: Option<Input>)
    ensures var p := Limited(c, s, next);
            && p.nb0 <= p.nb && (next.None? || p.nb < 0 ==> p.nb0 == p.nb) && (p.nb >= 0 ==> p.nb0 >= 0)
  {
    if next.Some? {
      var delta0 := next.value.start - s.syncOpts as real;
      var delta := delta0 + next.value.duration;
    }
  }

  // What a call adds to the balance, in whatever state it finds the stream and whichever way it ends.
  lemma CallBalance(c: Config, s: Stream, next: Option<Input>)
    ensures var (exit, t) := Call(c, s, next);
            && Balance(t) == Balance(s) + One(next.Some?) + Excess(c, s, next)
            && (exit.TooManyDups? <==> Refused(c, s, next))
            && (exit.RecordingOver? <==> !Refused(c, s, next) && !NoPicture(s, next)
                                         && Shown(c, s, next) < Limited(c, s, next).nb)
  {
    var p := Limited(c, s, next);
    PlanShape(c, s, next);
    var shown := FirstShown(p, s.lastDropped);
    var s2 := s.(syncOpts := p.sync, lastNb0 := (p.nb0, s.lastNb0.0, s.lastNb0.1),
                 drop := s.drop + One(p.nb0 == 0 && s.lastDropped),
                 dup := s.dup + if p.nb > shown then p.nb - shown else 0,
                 lastDropped := p.nb == p.nb0 && next.Some?);
    if p.nb > 0 && !NoPicture(s, next) { OutputIsInTime(c, s2, next, 0, p); }
    hide Limited;
  }

  // A call that ends with the recording time falls short by exactly the planned frames it leaves out.
  lemma RecordingEndBalance(c: Config, s: Stream, next: Option<Input>)
    requires Call(c, s, next).0.RecordingOver?
    ensures var p, t := Limited(c, s, next), Call(c, s, next).1;
            && Balance(t) == Balance(s) + One(next.Some?) - (p.nb - InTime(c, p.sync, p.nb))
            && InTime(c, p.sync, p.nb) < p.nb
            && Balance(t) < Balance(s) + One(next.Some?)
  {
    CallBalance(c, s, next);
    hide Call, Limited, Refused;
  }

  // A flush that finds no picture counts the repetitions it plans as duplicates, yet outputs none.
  lemma EmptyFlushBalance(c: Config, s: Stream)
    requires s.last.None? && !Refused(c, s, None) && Limited(c, s, None).nb >= 0
    ensures Call(c, s, None).0.Finished?
    ensures Balance(Call(c, s, None).1) == Balance(s) - Limited(c, s, None).nb
  {
    CallBalance(c, s, None);
    hide Call, Limited, Refused;
  }

  // The exact condition for one call, in terms of what it finds: a refused call must have an input
  // and no pending picture left out; any other one must plan no frame, or have a picture to show
  // and end before the recording does.
  predicate KeepsBalance(c: Config, s: Stream, next: Option<Input>) {
    var p := Limited(c, s, next);
    if Refused(c, s, next) then next.Some? && !(p.nb0 == 0 && s.lastDropped)
    else if p.nb < 0 then !s.lastDropped
    else p.nb == 0 || (!NoPicture(s, next) && (c.recordEnd.None? || p.sync + p.nb <= c.recordEnd.value))
  }

  lemma KeptIsNoExcess(c: Config, s: Stream, next: Option<Input>)
    ensures KeepsBalance(c, s, next) <==> Excess(c, s, next) == 0
  {
    hide Limited;
  }

  lemma BalanceExactly(c: Config, s: Stream, next: Option<Input>)
    ensures Balance(Call(c, s, next).1) == Balance(s) + One(next.Some?) <==> KeepsBalance(c, s, next)
  {
    CallBalance(c, s, next);
    KeptIsNoExcess(c, s, next);
    hide Call, Limited, KeepsBalance, Excess;
  }

  // ------------------------------------------------------------------ runs of any calls

  // The stream after inputs and flushes in any order, however each call ended.
  function AfterCalls(c: Config, calls: seq<Option<Input>>): Stream
    decreases |calls|
  {
    if calls == [] then Init() else Call(c, AfterCalls(c, calls[..|calls| - 1]), calls[|calls| - 1]).1
  }

  function InputCount(calls: seq<Option<Input>>): nat
    decreases |calls|
  {
    if calls == [] then 0 else InputCount(calls[..|calls| - 1]) + One(calls[|calls| - 1].Some?)
  }

  function TotalExcess(c: Config, calls: seq<Option<Input>>): int
    decreases |calls|
  {
    if calls == [] then 0
    else
      var front := calls[..|calls| - 1];
      TotalExcess(c, front) + Excess(c, AfterCalls(c, front), calls[|calls| - 1])
  }

  lemma LastCall(c: Config, calls: seq<Option<Input>>)
    requires calls != []
    ensures var front, next := calls[..|calls| - 1], calls[|calls| - 1];
            && Balance(AfterCalls(c, calls))
               == Balance(AfterCalls(c, front)) + One(next.Some?) + Excess(c, AfterCalls(c, front), next)
            && InputCount(calls) == InputCount(front) + One(next.Some?)
            && TotalExcess(c, calls) == TotalExcess(c, front) + Excess(c, AfterCalls(c, front), next)
  {
    CallBalance(c, AfterCalls(c, calls[..|calls| - 1]), calls[|calls| - 1]);
    hide Call, Excess, Refused, Shown, Limited, Balance;
  }

  lemma {:induction false} RunBalance(c: Config, calls: seq<Option<Input>>)
    ensures Balance(AfterCalls(c, calls)) == InputCount(calls) + TotalExcess(c, calls)
    decreases |calls|
  {
    if calls != [] {
      LastCall(c, calls);
      hide *;
      RunBalance(c, calls[..|calls| - 1]);
    }
  }

  // The account of every run: outputs and reported drops are the inputs and the reported
  // duplicates, but for what single calls counted too much or too little.
  lemma EveryRunIsAccounted(c: Config, calls: seq<Option<Input>>)
    ensures var s := AfterCalls(c, calls);
            |s.out| + ReportedDrops(s) == InputCount(calls) + s.dup + TotalExcess(c, calls)
  {
    RunBalance(c, calls);
    hide AfterCalls, InputCount, TotalExcess;
  }

  // No input was lost or counted twice, and every other output is a reported duplicate.
  predicate Conserved(c: Config, calls: seq<Option<Input>>) {
    var s := AfterCalls(c, calls);
    |s.out| + ReportedDrops(s) == InputCount(calls) + s.dup
  }

  predicate AlwaysConserved(c: Config, calls: seq<Option<Input>>)
    decreases |calls|
  {
    Conserved(c, calls) && (calls == [] || AlwaysConserved(c, calls[..|calls| - 1]))
  }

  predicate EachKeepsBalance(c: Config, calls: seq<Option<Input>>)
    decreases |calls|
  {
    calls == [] || (EachKeepsBalance(c, calls[..|calls| - 1])
                    && KeepsBalance(c, AfterCalls(c, calls[..|calls| - 1]), calls[|calls| - 1]))
  }

  // Frames are conserved all along a run exactly if each of its calls meets the condition.
  lemma {:induction false} ConservedExactly(c: Config, calls: seq<Option<Input>>)
    ensures AlwaysConserved(c, calls) <==> EachKeepsBalance(c, calls)
    decreases |calls|
  {
    ConservedIsNoExcess(c, calls);
    hide Conserved, KeepsBalance, AfterCalls, Excess;
    if calls != [] {
      var front, next := calls[..|calls| - 1], calls[|calls| - 1];
      ConservedExactly(c, front);
      ConservedIsNoExcess(c, front);
      KeptIsNoExcess(c, AfterCalls(c, front), next);
    }
  }

  lemma ConservedIsNoExcess(c: Config, calls: seq<Option<Input>>)
    ensures Conserved(c, calls) <==> TotalExcess(c, calls) == 0
  {
    EveryRunIsAccounted(c, calls);
    hide AfterCalls, InputCount, TotalExcess;
  }

  // ------------------------------------------------------------------ inputs that lose the balance

  function Cfr10(recordEnd: Option<int>): Config { Config(Cfr, 0.0, 10.0, 1000, recordEnd) }

  // What a call with this plan leaves behind, if it is neither refused nor cut short.
  predicate Leaves(s: Stream, next: Option<Input>, p: Plan, t: Stream) {
    && t.syncOpts == p.sync + p.nb && t.frameNumber == s.frameNumber + p.nb
    && t.lastNb0 == (p.nb0, s.lastNb0.0, s.lastNb0.1) && t.lastDropped == (p.nb == p.nb0 && next.Some?)
    && t.last == (match next case None => None case Some(x) => Some(x.picture))
  }

  lemma FinishedLeaves(c: Config, s: Stream, next: Option<Input>, p: Plan)
    requires Sound(c, s) && Limited(c, s, next) == p && !Refused(c, s, next) && Shown(c, s, next) == p.nb
    ensures var (exit, t) := Call(c, s, next);
            && exit.Finished? && Leaves(s, next, p, t) && Balance(t) == Balance(s) + One(next.Some?)
            && (next.Some? ==> Sound(c, t))
  {
    PlanIsSane(c, s, next);
    CallBalance(c, s, next);
    var shown := FirstShown(p, s.lastDropped);
    var s2 := s.(syncOpts := p.sync, lastNb0 := (p.nb0, s.lastNb0.0, s.lastNb0.1),
                 drop := s.drop + One(p.nb0 == 0 && s.lastDropped),
                 dup := s.dup + if p.nb > shown then p.nb - shown else 0,
                 lastDropped := p.nb == p.nb0 && next.Some?);
    OutputIsInTime(c, s2, next, 0, p);
    OutputIsThePlan(c, s2, next, 0, p);
    hide Output, Limited, Frames;
  }

  lemma RunAt(c: Config, front: seq<Input>, next: Input)
    ensures Run(c, front + [next]) == Call(c, Run(c, front), Some(next)).1
    ensures Undisturbed(c, front + [next]) <==> Undisturbed(c, front) && Call(c, Run(c, front), Some(next)).0.Finished?
  {
    assert (front + [next])[..|front|] == front;
  }

  const First: Input := Input(1, 0.0, 1.0)

  // One picture at its time.
  lemma AfterFirst(recordEnd: Option<int>)
    requires recordEnd.None? || recordEnd.value >= 1
    ensures var c, s := Cfr10(recordEnd), Run(Cfr10(recordEnd), [First]);
            && Undisturbed(c, [First]) && Sound(c, s) && Balance(s) == 1
            && s.syncOpts == 1 && s.frameNumber == 1 && s.lastNb0 == (0, 0, 0) && !s.lastDropped && s.last == Some(1)
  {
    var c := Cfr10(recordEnd);
    RunAt(c, [], First);
    assert [] + [First] == [First];
    assert Limited(c, Init(), Some(First)) == Plan(0, 1, 0);
    FinishedLeaves(c, Init(), Some(First), Plan(0, 1, 0));
  }

  // A picture that comes too late is pending as dropped when a gap of 100 frames is refused; it is
  // then counted twice.
  lemma RefusedCallLosesBalance()
    ensures var c, inputs, next := Cfr10(None), [First] + [Input(2, -2.0, 0.5)], Some(Input(3, 1.0, 100.0));
            && Undisturbed(c, inputs) && Balance(Run(c, inputs)) == 2
            && Call(c, Run(c, inputs), next).0.TooManyDups? && Balance(Call(c, Run(c, inputs), next).1) == 4
  {
    var c, late, gap := Cfr10(None), Input(2, -2.0, 0.5), Some(Input(3, 1.0, 100.0));
    AfterFirst(None);
    RunAt(c, [First], late);
    var s1, s2 := Run(c, [First]), Run(c, [First] + [late]);
    hide Run, Call, Undisturbed, Limited;
    FinishedLeaves(c, s1, Some(late), Plan(0, 0, 1));
    CallBalance(c, s2, gap);
  }

  // Two gaps of two frames; the flush repeats the last picture once, and a second flush counts a
  // repetition that it has no picture for.
  lemma SecondFlushLosesBalance()
    ensures var c, inputs := Cfr10(None), [First] + [Input(2, 3.0, 1.0)] + [Input(3, 6.0, 1.0)];
            var flushed := Call(c, Run(c, inputs), None);
            && Undisturbed(c, inputs) && flushed.0.Finished? && Balance(flushed.1) == 3
            && Call(c, flushed.1, None).0.Finished? && Balance(Call(c, flushed.1, None).1) == 2
  {
    var c, b, d := Cfr10(None), Input(2, 3.0, 1.0), Input(3, 6.0, 1.0);
    AfterFirst(None);
    RunAt(c, [First], b);
    RunAt(c, [First] + [b], d);
    var s1, s2, s3 := Run(c, [First]), Run(c, [First] + [b]), Run(c, [First] + [b] + [d]);
    hide Run, Call, Undisturbed;
    PlanOfStep(s1, 1, b);
    FinishedLeaves(c, s1, Some(b), Plan(1, 3, 1));
    PlanOfStep(s2, 4, d);
    FinishedLeaves(c, s2, Some(d), Plan(1, 3, 4));
    assert Limited(c, s3, None) == Plan(1, 1, 7);
    FinishedLeaves(c, s3, None, Plan(1, 1, 7));
  }

  // An input two frames ahead is preceded by one repetition and followed by one more of itself.
  lemma PlanOfStep(s: Stream, n: int, next: Input)
    requires s.syncOpts == n == s.frameNumber && n < 100 && next.start == (n + 2) as real && next.duration == 1.0
    ensures Limited(Cfr10(None), s, Some(next)) == Plan(1, 3, n)
  {
    assert Round(3.0) == 3 && Round(1.4) == 1;
    assert next.start - n as real == 2.0;
  }

  // The recording ends before the second picture: it is neither shown nor dropped.
  lemma RecordingEndLosesBalance()
    ensures var c, next := Cfr10(Some(1)), Some(Input(2, 1.0, 1.0));
            && Undisturbed(c, [First]) && Balance(Run(c, [First])) == 1
            && Call(c, Run(c, [First]), next).0.RecordingOver? && Balance(Call(c, Run(c, [First]), next).1) == 1
  {
    var c, next := Cfr10(Some(1)), Some(Input(2, 1.0, 1.0));
    AfterFirst(Some(1));
    var s := Run(c, [First]);
    NextIsNotShown(s);
    hide *;
    CallBalance(c, s, next);
  }

  lemma NextIsNotShown(s: Stream)
    requires s.syncOpts == 1 && s.frameNumber == 1 && !s.lastDropped
    ensures var c, next := Cfr10(Some(1)), Some(Input(2, 1.0, 1.0)); !Refused(c, s, next) && Shown(c, s, next) == 0
    ensures var c, next := Cfr10(Some(1)), Some(Input(2, 1.0, 1.0));
            Limited(c, s, next).nb == 1 && !NoPicture(s, next) && Excess(c, s, next) == -1 && One(next.Some?) == 1
  {
    assert Limited(Cfr10(Some(1)), s, Some(Input(2, 1.0, 1.0))) == Plan(0, 1, 1);
    hide Limited;
  }

  const Far: Option<Input> := Some(Input(1, 5.0, 20.0))
  const Farther: Option<Input> := Some(Input(2, 6.0, 20.0))

  function BothRefused(): Stream { AfterCalls(Cfr10(None), [] + [Far] + [Farther]) }

  lemma BothAreRefused()
    ensures var s := BothRefused();
            && s.frameNumber == 0 && s.lastNb0 == (5, 4, 0) && !s.lastDropped && s.last == None && Balance(s) == 2
  {
    var c := Cfr10(None);
    CallsAt(c, [], Far);
    CallsAt(c, [] + [Far], Farther);
    PlansFarAhead(Init(), 5, 1);
    RefusedLeaves(c, Init(), Far, Plan(4, 25, 0));
    var s1 := AfterCalls(c, [] + [Far]);
    hide Call, Refused, Limited;
    PlansFarAhead(s1, 6, 2);
    RefusedLeaves(c, s1, Farther, Plan(5, 26, 0));
  }

  // Two pictures far ahead of the output are refused before any is shown. The first flush then
  // counts four repetitions and has no picture for them.
  lemma FirstFlushLosesBalance()
    ensures var c, s := Cfr10(None), BothRefused();
            && Balance(s) == 2 && s.last == None
            && Call(c, s, None).0.Finished? && Balance(Call(c, s, None).1) == -2
  {
    BothAreRefused();
    hide BothRefused, Call;
    FlushPlansFour(BothRefused());
    EmptyFlushBalance(Cfr10(None), BothRefused());
  }

  lemma CallsAt(c: Config, front: seq<Option<Input>>, next: Option<Input>)
    ensures AfterCalls(c, front + [next]) == Call(c, AfterCalls(c, front), next).1
  {
    assert (front + [next])[..|front|] == front;
  }

  lemma RefusedLeaves(c: Config, s: Stream, next: Option<Input>, p: Plan)
    requires Limited(c, s, next) == p && Refused(c, s, next) && p.nb0 > 0
    ensures var t := Call(c, s, next).1;
            && t.syncOpts == p.sync && t.frameNumber == s.frameNumber
            && t.lastNb0 == (p.nb0, s.lastNb0.0, s.lastNb0.1)
            && t.last == s.last && t.lastDropped == s.lastDropped && Balance(t) == Balance(s) + 1
  {
    hide Limited, Output;
  }

  lemma FlushPlansFour(s: Stream)
    requires s.lastNb0 == (5, 4, 0) && s.frameNumber == 0 && !s.lastDropped
    ensures Limited(Cfr10(None), s, None).nb == 4 && !Refused(Cfr10(None), s, None)
  {
    assert Limited(Cfr10(None), s, None) == Plan(4, 4, s.syncOpts);
  }

  lemma PlansFarAhead(s: Stream, start: nat, picture: nat)
    requires s.syncOpts == 0 == s.frameNumber && !s.lastDropped && 5 <= start <= 6
    ensures var c, next := Cfr10(None), Some(Input(picture, start as real, 20.0));
            Limited(c, s, next) == Plan(start - 1, start + 20, 0) && Refused(c, s, next)
  {
    assert Round((start + 20) as real) == start + 20;
    assert Round(start as real - 0.6) == start - 1;
  }
}
