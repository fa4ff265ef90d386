/** At what times FfmpegVideoOut outputs which picture, for every way of choosing frame times, and
    the limits that hold over whole runs. */
module FfmpegVideoTimes {
  import opened Wrappers
  import opened FfmpegVideoOut
  import opened FfmpegVideoLimits

  function Later(a: real, b: real): real { if a >= b then a else b }

  lemma RoundIsNear(x: real)
    ensures -0.5 <= Round(x) as real - x <= 0.5
  {}

  // Times are rounded to the nearest integer, and half-way cases to the even one.
  lemma RoundIsHalfEven(x: real)
    ensures -0.5 <= Round(x) as real - x <= 0.5
    ensures Round(x) as real - x == -0.5 || Round(x) as real - x == 0.5 ==> Round(x) % 2 == 0
  {}

  // One frame planned: it shows the new picture.
  lemma OneFrame(c: Config, s: Stream, next: Input, t: int)
    requires Limited(c, s, Some(next)) == Plan(0, 1, t) && Call(c, s, Some(next)).0.Finished?
    ensures Call(c, s, Some(next)).1.out == s.out + [Encoded(next.picture, t)]
  {
    hide Limited;
    var p := Plan(0, 1, t);
    var s2 := s.(syncOpts := p.sync, lastNb0 := (p.nb0, s.lastNb0.0, s.lastNb0.1),
                 drop := s.drop + One(p.nb0 == 0 && s.lastDropped), dup := s.dup,
                 lastDropped := p.nb == p.nb0 && true);
    assert Call(c, s, Some(next)) == Output(c, s2, Some(next), 0, p);
  }

  lemma NoFrame(c: Config, s: Stream, next: Input, t: int)
    requires Limited(c, s, Some(next)) == Plan(0, 0, t)
    ensures Call(c, s, Some(next)).0.Finished? && Call(c, s, Some(next)).1.out == s.out
  {}

  // ------------------------------------------------------------------ variable rate

  // At variable rate a picture that ends 0.6 frames or more before the output time is not output.
  // Another one is output once: at the output time if it ends no more than 0.6 behind it, and else
  // within half a frame of the later of its start and the output time.
  lemma VfrTimes(c: Config, s: Stream, next: Input)
    requires c.vsync.Vfr? && next.duration >= 0.0 && s.frameNumber < c.maxFrames
    requires Call(c, s, Some(next)).0.Finished?
    ensures var t, ahead := Call(c, s, Some(next)).1, End(next) - s.syncOpts as real;
            && (ahead <= -0.6 ==> t.out == s.out)
            && (ahead > -0.6 ==>
                  && |t.out| == |s.out| + 1 && t.out[..|s.out|] == s.out && t.out[|s.out|].picture == next.picture
                  && -0.6 <= t.out[|s.out|].pts as real - Later(next.start, s.syncOpts as real) <= 0.5
                  && (ahead <= 0.6 ==> t.out[|s.out|].pts == s.syncOpts)
                  && (ahead > 0.6 ==>
                        -0.5 <= t.out[|s.out|].pts as real - Later(next.start, s.syncOpts as real) <= 0.5))
  {
    var p := Limited(c, s, Some(next));
    var delta0 := next.start - s.syncOpts as real;
    var delta := delta0 + next.duration;
    RoundIsNear(next.start);
    assert Round(s.syncOpts as real) == s.syncOpts;
    assert p == Plan(0, if delta <= -0.6 then 0 else 1, p.sync);
    hide Limited, Call, Round;
    if delta <= -0.6 { NoFrame(c, s, next, p.sync); } else { OneFrame(c, s, next, p.sync); }
  }

  // ------------------------------------------------------------------ times passed through

  // With times passed through or dropped every picture is output once, within half a frame of its start.
  lemma PassedThrough(c: Config, s: Stream, next: Input)
    requires (c.vsync.Passthrough? || c.vsync.Drop?) && s.frameNumber < c.maxFrames
    requires Call(c, s, Some(next)).0.Finished?
    ensures var t := Call(c, s, Some(next)).1;
            && |t.out| == |s.out| + 1 && t.out[..|s.out|] == s.out && t.out[|s.out|].picture == next.picture
            && -0.5 <= t.out[|s.out|].pts as real - next.start <= 0.5
  {
    var p := Limited(c, s, Some(next));
    RoundIsNear(next.start);
    assert p == Plan(0, 1, Round(next.start));
    hide Limited, Call, Round;
    OneFrame(c, s, next, p.sync);
  }

  // ------------------------------------------------------------------ constant rate

  // The frames a finished call appends: at consecutive times, first the previous picture.
  lemma AppendedFrames(c: Config, s: Stream, next: Option<Input>, k: nat)
    requires Sound(c, s) && Call(c, s, next).0.Finished? && k < Limited(c, s, next).nb
    ensures var t, p := Call(c, s, next).1, Limited(c, s, next);
            && |t.out| == |s.out| + p.nb && t.out[..|s.out|] == s.out && t.out[|s.out| + k].pts == p.sync + k
            && Some(t.out[|s.out| + k].picture) == Chosen(s.last, next, k, p.nb0)
  {
    CallFollowsPlan(c, s, next);
    hide Call, Limited;
    var p := Limited(c, s, next);
    FramesAreConsecutive(s.last, next, p, 0, p.sync, k);
  }

  // What the plan at constant rate says about the frame at time syncOpts + k.
  lemma CfrRepeats(c: Config, s: Stream, next: Input, k: nat)
    requires c.vsync.Cfr? && next.duration >= 0.0 && k < Limited(c, s, Some(next)).nb
    ensures var p, t := Limited(c, s, Some(next)), (s.syncOpts + k) as real;
            && p.sync == s.syncOpts
            && (t < next.start - 1.1 ==> k < p.nb0) && (t > next.start - 0.1 ==> k >= p.nb0)
  {
    RoundIsNear(next.start - s.syncOpts as real - 0.6);
    hide Round;
  }

  // At constant rate the frames up to 1.1 before a picture's start repeat the previous one, and
  // from 0.1 before its start on they show the new one.
  lemma CfrPictures(c: Config, s: Stream, next: Input, k: nat)
    requires c.vsync.Cfr? && Sound(c, s) && s.last.Some? && next.duration >= 0.0
    requires Call(c, s, Some(next)).0.Finished? && k < Limited(c, s, Some(next)).nb
    ensures var t := Call(c, s, Some(next)).1;
            |t.out| > |s.out| + k &&
            var e := t.out[|s.out| + k];
            && e.pts == s.syncOpts + k
            && (e.pts as real < next.start - 1.1 ==> Some(e.picture) == s.last)
            && (e.pts as real > next.start - 0.1 ==> e.picture == next.picture)
            && (Some(e.picture) == s.last || e.picture == next.picture)
  {
    AppendedFrames(c, s, Some(next), k);
    CfrRepeats(c, s, next, k);
    hide Call, Limited;
  }

  // At constant rate a call outputs nothing exactly if the picture ends more than 1.1 frames before
  // the output time, or, behind the first frame, by less than a given threshold after it.
  lemma CfrSilentExactly(c: Config, s: Stream, next: Input)
    requires c.vsync.Cfr? && Sound(c, s) && Unlimited(c, s, Some(next)) && Call(c, s, Some(next)).0.Finished?
    ensures var ahead := End(next) - s.syncOpts as real;
            Call(c, s, Some(next)).1.out == s.out <==>
            ahead < -1.1 || (c.dropThreshold != 0.0 && s.frameNumber != 0 && ahead < c.dropThreshold)
  {
    CallFollowsPlan(c, s, Some(next));
    RoundIsNear(End(next) - s.syncOpts as real);
    CfrCount(c, s, next);
    hide Call, Limited, Round, Frames;
  }

  lemma CfrCount(c: Config, s: Stream, next: Input)
    requires c.vsync.Cfr? && Unlimited(c, s, Some(next))
    ensures var ahead, nb := End(next) - s.syncOpts as real, Limited(c, s, Some(next)).nb;
            if ahead < -1.1 || (c.dropThreshold != 0.0 && s.frameNumber != 0 && ahead < c.dropThreshold) then nb == 0
            else nb > 0
  {}

  // ------------------------------------------------------------------ a late first picture

  // With a variable start, a first picture half a frame late or later is not preceded by repetitions:
  // all frames show it, the first within half a frame of its start, as many as its duration asks for.
  lemma VscfrStart(c: Config, s: Stream, next: Input, k: nat)
    requires c.vsync.Vscfr? && Sound(c, s) && s.frameNumber == 0 && next.start - s.syncOpts as real >= 0.5
    requires next.duration >= 0.0 && Unlimited(c, s, Some(next)) && Call(c, s, Some(next)).0.Finished?
    ensures var n := |Call(c, s, Some(next)).1.out| - |s.out|; n >= 1 && -0.5 <= n as real - next.duration <= 1.0
    ensures var t := Call(c, s, Some(next)).1;
            |s.out| + k < |t.out| ==>
              && t.out[|s.out| + k].picture == next.picture
              && -0.5 <= (t.out[|s.out| + k].pts - k) as real - next.start <= 0.5
  {
    VscfrPlan(c, s, next);
    CallFollowsPlan(c, s, Some(next));
    if k < Limited(c, s, Some(next)).nb { AppendedFrames(c, s, Some(next), k); }
    hide Call, Limited, Frames;
  }

  lemma VscfrPlan(c: Config, s: Stream, next: Input)
    requires c.vsync.Vscfr? && s.frameNumber == 0 && next.start - s.syncOpts as real >= 0.5
    requires next.duration >= 0.0 && Unlimited(c, s, Some(next))
    ensures var p := Limited(c, s, Some(next));
            && p.nb0 == 0 && p.nb >= 1 && -0.5 <= p.nb as real - next.duration <= 1.0
            && -0.5 <= p.sync as real - next.start <= 0.5
  {
    RoundIsNear(next.start);
    RoundIsNear(next.duration);
    hide Round;
  }

  // Otherwise it plans as a constant rate does.
  lemma VscfrIsCfr(c: Config, s: Stream, next: Input)
    requires c.vsync.Vscfr? && !(s.frameNumber == 0 && next.start - s.syncOpts as real >= 0.5)
    ensures Limited(c, s, Some(next)) == Limited(c.(vsync := Cfr), s, Some(next))
  {}

  // ------------------------------------------------------------------ the flush

  predicate IsMedian(m: int, a: int, b: int, c: int) {
    || (m == a && (b <= a <= c || c <= a <= b)) || (m == b && (a <= b <= c || c <= b <= a))
    || (m == c && (a <= c <= b || b <= c <= a))
  }

  // How many frames a call planned to repeat the picture before, 0 before the first call.
  function Repeats(c: Config, calls: seq<Option<Input>>): int {
    if calls == [] then 0
    else
      var front := calls[..|calls| - 1];
      Limited(c, AfterCalls(c, front), calls[|calls| - 1]).nb0
  }

  function Before(calls: seq<Option<Input>>): seq<Option<Input>> {
    if calls == [] then [] else calls[..|calls| - 1]
  }

  // The stream remembers the repetitions of its last three calls.
  lemma LastThreeRepeats(c: Config, calls: seq<Option<Input>>)
    ensures AfterCalls(c, calls).lastNb0
         == (Repeats(c, calls), Repeats(c, Before(calls)), Repeats(c, Before(Before(calls))))
  {
    hide Limited;
    if calls != [] {
      RepeatsAreNoted(c, AfterCalls(c, Before(calls)), calls[|calls| - 1]);
      hide Call;
      LastThreeAgain(c, Before(calls));
    }
  }

  lemma LastThreeAgain(c: Config, calls: seq<Option<Input>>)
    ensures AfterCalls(c, calls).lastNb0.0 == Repeats(c, calls)
    ensures AfterCalls(c, calls).lastNb0.1 == Repeats(c, Before(calls))
  {
    hide Limited;
    if calls != [] {
      RepeatsAreNoted(c, AfterCalls(c, Before(calls)), calls[|calls| - 1]);
      if Before(calls) != [] {
        RepeatsAreNoted(c, AfterCalls(c, Before(Before(calls))), Before(calls)[|Before(calls)| - 1]);
      }
      hide Call;
    }
  }

  lemma RepeatsAreNoted(c: Config, s: Stream, next: Option<Input>)
    ensures Call(c, s, next).1.lastNb0 == (Limited(c, s, next).nb0, s.lastNb0.0, s.lastNb0.1)
  {
    var p := Limited(c, s, next);
    var s2 := s.(syncOpts := p.sync, lastNb0 := (p.nb0, s.lastNb0.0, s.lastNb0.1),
                 drop := s.drop + One(p.nb0 == 0 && s.lastDropped),
                 dup := s.dup + if p.nb > FirstShown(p, s.lastDropped) then p.nb - FirstShown(p, s.lastDropped) else 0,
                 lastDropped := p.nb == p.nb0 && next.Some?);
    OutputKeepsRepeats(c, s2, next, 0, p);
    hide Output, Limited;
  }

  lemma {:induction false} OutputKeepsRepeats(c: Config, s: Stream, next: Option<Input>, i: int, p: Plan)
    ensures Output(c, s, next, i, p).1.lastNb0 == s.lastNb0
    decreases p.nb - i
  {
    if i < p.nb && Chosen(s.last, next, i, p.nb0).Some? && Recording(c, s.syncOpts) {
      var e := Encoded(Chosen(s.last, next, i, p.nb0).value, s.syncOpts);
      OutputKeepsRepeats(c, s.(out := s.out + [e], syncOpts := s.syncOpts + 1, frameNumber := s.frameNumber + 1),
                         next, i + 1, p);
    }
  }

  // The flush repeats the last picture as often as the median of the repetitions before the last
  // three calls, as far as the frame limit allows.
  lemma FlushRepeatsTheMedian(c: Config, s: Stream, k: nat)
    requires Sound(c, s) && s.last.Some? && Call(c, s, None).0.Finished?
    ensures var n := |Call(c, s, None).1.out| - |s.out|;
            exists m :: IsMedian(m, s.lastNb0.0, s.lastNb0.1, s.lastNb0.2) && n == Min(m, c.maxFrames - s.frameNumber)
    ensures var t := Call(c, s, None).1;
            |s.out| + k < |t.out| ==> t.out[|s.out| + k] == Encoded(s.last.value, s.syncOpts + k)
  {
    var m := MidPred(s.lastNb0.0, s.lastNb0.1, s.lastNb0.2);
    assert IsMedian(m, s.lastNb0.0, s.lastNb0.1, s.lastNb0.2);
    var p := Limited(c, s, None);
    assert p == Plan(Min(m, c.maxFrames - s.frameNumber), Min(m, c.maxFrames - s.frameNumber), s.syncOpts);
    hide Limited, MidPred;
    CallFollowsPlan(c, s, None);
    if k < p.nb { AppendedFrames(c, s, None, k); }
    hide Call, Frames;
  }

  // ------------------------------------------------------------------ limits of whole runs

  ghost predicate WithinLimits(c: Config, s: Stream) {
    && s.frameNumber == |s.out| && (0 <= c.maxFrames ==> s.frameNumber <= c.maxFrames)
    && forall i | 0 <= i < |s.out| :: Recording(c, s.out[i].pts)
  }

  lemma {:induction false} OutputStaysWithin(c: Config, s: Stream, next: Option<Input>, i: int, p: Plan)
    requires WithinLimits(c, s) && 0 <= i && (i <= p.nb ==> s.frameNumber + p.nb - i <= c.maxFrames)
    ensures WithinLimits(c, Output(c, s, next, i, p).1)
    decreases p.nb - i
  {
    if i < p.nb && Chosen(s.last, next, i, p.nb0).Some? && Recording(c, s.syncOpts) {
      var e := Encoded(Chosen(s.last, next, i, p.nb0).value, s.syncOpts);
      OutputStaysWithin(c, s.(out := s.out + [e], syncOpts := s.syncOpts + 1, frameNumber := s.frameNumber + 1),
                        next, i + 1, p);
    }
  }

  // However the calls end: never more frames than allowed, and none at or behind the recording's end.
  lemma {:induction false} LimitsAreKept(c: Config, calls: seq<Option<Input>>)
    ensures WithinLimits(c, AfterCalls(c, calls))
    decreases |calls|
  {
    if calls != [] {
      var front, next := calls[..|calls| - 1], calls[|calls| - 1];
      LimitsAreKept(c, front);
      CallStaysWithin(c, AfterCalls(c, front), next);
      hide Call, WithinLimits;
    }
  }

  lemma CallStaysWithin(c: Config, s: Stream, next: Option<Input>)
    requires WithinLimits(c, s)
    ensures WithinLimits(c, Call(c, s, next).1)
  {
    var p := Limited(c, s, next);
    assert p.nb <= c.maxFrames - s.frameNumber;
    var s2 := s.(syncOpts := p.sync, lastNb0 := (p.nb0, s.lastNb0.0, s.lastNb0.1),
                 drop := s.drop + One(p.nb0 == 0 && s.lastDropped),
                 dup := s.dup + if p.nb > FirstShown(p, s.lastDropped) then p.nb - FirstShown(p, s.lastDropped) else 0,
                 lastDropped := p.nb == p.nb0 && next.Some?);
    OutputStaysWithin(c, s2, next, 0, p);
    hide Output, Limited;
  }

  // A call refused for too many duplicates outputs nothing; it is refused exactly if it would count
  // a duplicate and its frames are more than the limit.
  lemma RefusalIsSilent(c: Config, s: Stream, next: Option<Input>)
    ensures var p := Limited(c, s, next);
            Call(c, s, next).0.TooManyDups? <==>
            p.nb > FirstShown(p, s.lastDropped) && p.nb as real > c.dupLimit
    ensures Call(c, s, next).0.TooManyDups? ==>
              Call(c, s, next).1.out == s.out && Call(c, s, next).1.dup == s.dup && Call(c, s, next).1.last == s.last
  {
    CallBalance(c, s, next);
  }
}
