/** Frame-rate conversion: do_video_out and the closing drop count of print_report in
    FFmpeg/fftools/ffmpeg.c. Times are reals in units of the encoder's time base. */
module FfmpegVideoOut {
  import opened Wrappers

  // lrint and its relatives: to the nearest integer, halves to the even one.
  function Round(x: real): int {
    var f := x.Floor;
    var d := x - f as real;
    if d < 0.5 || (d == 0.5 && f % 2 == 0) then f else f + 1
  }

  function MidPred(a: int, b: int, c: int): int {
    if a > b then (if c > b then (if c > a then a else c) else b)
    else (if b > c then (if c > a then c else a) else b)
  }

  datatype Vsync = Vscfr | Cfr | Vfr | Drop | Passthrough

  // dropThreshold is frame_drop_threshold, dupLimit 30 times dts_error_threshold; recordEnd is the
  // first output time at which the recording time is over.
  datatype Config = Config(vsync: Vsync, dropThreshold: real, dupLimit: real, maxFrames: int, recordEnd: Option<int>)

  // A picture with its start time and duration on the encoder's time base.
  datatype Input = Input(picture: nat, start: real, duration: real)

  datatype Encoded = Encoded(picture: nat, pts: int)

  // Exit notes why a call returned early: frame duplication too large, or recording time over.
  datatype Exit = Finished | TooManyDups | RecordingOver

  datatype Stream = Stream(
    syncOpts: int, frameNumber: int, lastNb0: (int, int, int), lastDropped: bool, last: Option<nat>,
    dup: int, drop: int, out: seq<Encoded>)

  function Init(): Stream { Stream(0, 0, (0, 0, 0), false, None, 0, 0, []) }

  // ------------------------------------------------------------------ how often to show which picture

  // How many frames to output, how many of them repeat the previous picture, and the output time.
  datatype Plan = Plan(nb0: int, nb: int, sync: int)

  function PlanInput(c: Config, s: Stream, next: Input): Plan {
    var delta0 := next.start - s.syncOpts as real;
    var delta := delta0 + next.duration;
    var clip := delta0 < 0.0 && delta > 0.0 && !c.vsync.Passthrough? && !c.vsync.Drop?;
    var start := if clip then s.syncOpts as real else next.start;
    var duration := if clip then next.duration + delta0 else next.duration;
    var delta0' := if clip then 0.0 else delta0;
    match c.vsync
    case Vscfr =>
      if s.frameNumber == 0 && delta0' >= 0.5 then PlanCfr(c, s, 0.0, duration, Round(start))
      else PlanCfr(c, s, delta0', delta, s.syncOpts)
    case Cfr => PlanCfr(c, s, delta0', delta, s.syncOpts)
    case Vfr =>
      if delta <= -0.6 then Plan(0, 0, s.syncOpts)
      else Plan(0, 1, if delta > 0.6 then Round(start) else s.syncOpts)
    case Drop => Plan(0, 1, Round(start))
    case Passthrough => Plan(0, 1, Round(start))
  }

  function PlanCfr(c: Config, s: Stream, delta0: real, delta: real, sync: int): Plan {
    if c.dropThreshold != 0.0 && delta < c.dropThreshold && s.frameNumber != 0 then Plan(0, 0, sync)
    else if delta < -1.1 then Plan(0, 0, sync)
    else if delta > 1.1 then Plan(if delta0 > 1.1 then Round(delta0 - 0.6) else 0, Round(delta), sync)
    else Plan(0, 1, sync)
  }

  function PlanCall(c: Config, s: Stream, next: Option<Input>): Plan {
    match next
    case None => var n := MidPred(s.lastNb0.0, s.lastNb0.1, s.lastNb0.2); Plan(n, n, s.syncOpts)
    case Some(i) => PlanInput(c, s, i)
  }

  function Min(a: int, b: int): int { if a < b then a else b }

  // The plan cut down to the frames still allowed.
  function Limited(c: Config, s: Stream, next: Option<Input>): Plan {
    var p := PlanCall(c, s, next);
    var nb := Min(p.nb, c.maxFrames - s.frameNumber);
    Plan(Min(p.nb0, nb), nb, p.sync)
  }

  function One(b: bool): int { if b then 1 else 0 }

  // Of the frames of a plan, those that show a picture not shown yet.
  function FirstShown(p: Plan, lastDropped: bool): int { One(p.nb0 != 0 && lastDropped) + One(p.nb > p.nb0) }

  // ------------------------------------------------------------------ one call

  function Chosen(last: Option<nat>, next: Option<Input>, i: int, nb0: int): Option<nat> {
    if i < nb0 && last.Some? then last else match next case None => None case Some(x) => Some(x.picture)
  }

  predicate Recording(c: Config, t: int) { c.recordEnd.None? || t < c.recordEnd.value }

  // Outputs frames i up to nb; stops at the first one it has no picture for or that comes too late.
  function Output(c: Config, s: Stream, next: Option<Input>, i: int, p: Plan): (Exit, Stream)
    decreases p.nb - i
  {
    if i >= p.nb then (Finished, s.(last := match next case None => None case Some(x) => Some(x.picture)))
    else
      match Chosen(s.last, next, i, p.nb0)
      case None => (Finished, s)
      case Some(pic) =>
        if !Recording(c, s.syncOpts) then (RecordingOver, s)
        else Output(c, s.(out := s.out + [Encoded(pic, s.syncOpts)], syncOpts := s.syncOpts + 1,
                          frameNumber := s.frameNumber + 1), next, i + 1, p)
  }

  function Call(c: Config, s: Stream, next: Option<Input>): (Exit, Stream) {
    var p := Limited(c, s, next);
    var s1 := s.(syncOpts := p.sync, lastNb0 := (p.nb0, s.lastNb0.0, s.lastNb0.1),
                 drop := s.drop + One(p.nb0 == 0 && s.lastDropped));
    var shown := FirstShown(p, s.lastDropped);
    if p.nb > shown && p.nb as real > c.dupLimit then (TooManyDups, s1.(drop := s1.drop + 1))
    else
      Output(c, s1.(dup := s1.dup + if p.nb > shown then p.nb - shown else 0,
                    lastDropped := p.nb == p.nb0 && next.Some?), next, 0, p)
  }

  // ------------------------------------------------------------------ the call in place

  class OutputStream {
    const c: Config
    var syncOpts: int
    var frameNumber: int
    var lastNb0: (int, int, int)
    var lastDropped: bool
    var lastFrame: Option<nat>
    var nbFramesDup: int
    var nbFramesDrop: int
    var encoded: seq<Encoded>

    ghost function Model(): Stream
      reads this
    {
      Stream(syncOpts, frameNumber, lastNb0, lastDropped, lastFrame, nbFramesDup, nbFramesDrop, encoded)
    }

    constructor (c: Config)
      ensures this.c == c && Model() == Init()
    {
      this.c := c;
      syncOpts, frameNumber, lastNb0, lastDropped, lastFrame := 0, 0, (0, 0, 0), false, None;
      nbFramesDup, nbFramesDrop, encoded := 0, 0, [];
    }

    method DoVideoOut(next: Option<Input>) returns (exit: Exit)
      modifies this
      ensures (exit, Model()) == Call(c, old(Model()), next)
    {
      hide PlanCall, Output, Round, MidPred;
      var nb0, nb, sync := Measure(next);
      syncOpts := sync;
      nb := Min(nb, c.maxFrames - frameNumber);
      nb0 := Min(nb0, nb);
      lastNb0 := (nb0, lastNb0.0, lastNb0.1);
      if nb0 == 0 && lastDropped {
        nbFramesDrop := nbFramesDrop + 1;
      }
      var p := Plan(nb0, nb, sync);
      assert p == Limited(c, old(Model()), next);
      hide Limited;
      var shown := One(nb0 != 0 && lastDropped) + One(nb > nb0);
      if nb > shown {
        if nb as real > c.dupLimit {
          nbFramesDrop := nbFramesDrop + 1;
          return TooManyDups;
        }
        nbFramesDup := nbFramesDup + nb - shown;
      }
      lastDropped := nb == nb0 && next.Some?;
      exit := EmitFrames(next, p);
    }

    method EmitFrames(next: Option<Input>, p: Plan) returns (exit: Exit)
      modifies this
      ensures (exit, Model()) == Output(c, old(Model()), next, 0, p)
    {
      var i := 0;
      ghost var s := Model();
      while i < p.nb
        invariant Output(c, Model(), next, i, p) == Output(c, s, next, 0, p)
        decreases p.nb - i
      {
        var inPicture := Chosen(lastFrame, next, i, p.nb0);
        if inPicture.None? {
          return Finished;
        }
        if !Recording(c, syncOpts) {
          return RecordingOver;
        }
        encoded := encoded + [Encoded(inPicture.value, syncOpts)];
        syncOpts := syncOpts + 1;
        frameNumber := frameNumber + 1;
        i := i + 1;
      }
      lastFrame := match next case None => None case Some(x) => Some(x.picture);
      return Finished;
    }

    // The part of the call that compares input and output time.
    method Measure(next: Option<Input>) returns (nb0: int, nb: int, sync: int)
      ensures Plan(nb0, nb, sync) == PlanCall(c, Model(), next)
    {
      sync := syncOpts;
      if next.None? {
        nb := MidPred(lastNb0.0, lastNb0.1, lastNb0.2);
        return nb, nb, sync;
      }
      var start, duration := next.value.start, next.value.duration;
      var delta0 := start - syncOpts as real;
      var delta := delta0 + duration;
      nb0, nb := 0, 1;
      if delta0 < 0.0 && delta > 0.0 && c.vsync != Passthrough && c.vsync != Drop {
        start := syncOpts as real;
        duration := duration + delta0;
        delta0 := 0.0;
      }
      if c.vsync == Vscfr && frameNumber == 0 && delta0 >= 0.5 {
        delta := duration;
        delta0 := 0.0;
        sync := Round(start);
      }
      if c.vsync == Vscfr || c.vsync == Cfr {
        if c.dropThreshold != 0.0 && delta < c.dropThreshold && frameNumber != 0 {
          nb := 0;
        } else if delta < -1.1 {
          nb := 0;
        } else if delta > 1.1 {
          nb := Round(delta);
          if delta0 > 1.1 { nb0 := Round(delta0 - 0.6); }
        }
      } else if c.vsync == Vfr {
        if delta <= -0.6 { nb := 0; } else if delta > 0.6 { sync := Round(start); }
      } else {
        sync := Round(start);
      }
    }
  }

  // ------------------------------------------------------------------ what a call outputs

  // The frames of a plan from number i on, at consecutive times from t on.
  function Frames(last: Option<nat>, next: Option<Input>, p: Plan, i: int, t: int): seq<Encoded>
    decreases p.nb - i
  {
    if i >= p.nb || Chosen(last, next, i, p.nb0).None? then []
    else [Encoded(Chosen(last, next, i, p.nb0).value, t)] + Frames(last, next, p, i + 1, t + 1)
  }

  predicate PictureAtHand(s: Stream, next: Option<Input>, p: Plan) {
    p.nb0 <= p.nb && (next.Some? || (p.nb == p.nb0 && (p.nb <= 0 || s.last.Some?)))
  }

  // An undisturbed call outputs exactly the planned frames at consecutive times.
  lemma {:induction false} OutputIsThePlan(c: Config, s: Stream, next: Option<Input>, i: int, p: Plan)
    requires 0 <= i && i <= p.nb && PictureAtHand(s, next, p)
    requires Output(c, s, next, i, p).0.Finished?
    ensures Output(c, s, next, i, p).1
         == s.(out := s.out + Frames(s.last, next, p, i, s.syncOpts), syncOpts := s.syncOpts + (p.nb - i),
               frameNumber := s.frameNumber + (p.nb - i),
               last := match next case None => None case Some(x) => Some(x.picture))
    ensures |Frames(s.last, next, p, i, s.syncOpts)| == p.nb - i
    decreases p.nb - i
  {
    if i < p.nb {
      var e := Encoded(Chosen(s.last, next, i, p.nb0).value, s.syncOpts);
      OutputIsThePlan(c, s.(out := s.out + [e], syncOpts := s.syncOpts + 1, frameNumber := s.frameNumber + 1), next,
                      i + 1, p);
      assert s.out + [e] + Frames(s.last, next, p, i + 1, s.syncOpts + 1)
          == s.out + Frames(s.last, next, p, i, s.syncOpts);
    } else {
      assert s.out + [] == s.out;
    }
  }

  lemma {:induction false} FramesAreConsecutive(last: Option<nat>, next: Option<Input>, p: Plan, i: int, t: int, k: nat)
    requires k < |Frames(last, next, p, i, t)|
    ensures Frames(last, next, p, i, t)[k].pts == t + k
    ensures Some(Frames(last, next, p, i, t)[k].picture) == Chosen(last, next, i + k, p.nb0)
    decreases p.nb - i
  {
    if k > 0 {
      FramesAreConsecutive(last, next, p, i + 1, t + 1, k - 1);
      assert Frames(last, next, p, i, t)[k] == Frames(last, next, p, i + 1, t + 1)[k - 1];
      assert (i + 1) + (k - 1) == i + k;
    }
  }

  // ------------------------------------------------------------------ frame accounting

  // A plan never asks for negative counts, nor for more repetitions than frames.
  lemma PlanIsSane(c: Config, s: Stream, next: Option<Input>)
    requires 0 <= c.maxFrames && s.frameNumber <= c.maxFrames && 0 <= s.lastNb0.0 && 0 <= s.lastNb0.1
        && 0 <= s.lastNb0.2
    ensures var p := Limited(c, s, next); 0 <= p.nb0 <= p.nb <= c.maxFrames - s.frameNumber
    ensures next.None? ==> Limited(c, s, next).nb0 == Limited(c, s, next).nb
  {
    if next.Some? {
      var delta0 := next.value.start - s.syncOpts as real;
      var delta := delta0 + next.value.duration;
    }
  }

  // What keeps the books of a stream in order between calls.
  ghost predicate Sound(c: Config, s: Stream) {
    && 0 <= c.maxFrames && s.frameNumber <= c.maxFrames
    && 0 <= s.lastNb0.0 && 0 <= s.lastNb0.1 && 0 <= s.lastNb0.2
    && (s.last.None? ==> s.lastNb0 == (0, 0, 0) && !s.lastDropped)
  }

  function Balance(s: Stream): int { |s.out| + s.drop + One(s.lastDropped) - s.dup }

  // Pictures shown or dropped, plus the one pending as dropped, minus duplicates: every finished
  // call with an input adds one to this balance, and the flush adds nothing.
  lemma CallKeepsBalance(c: Config, s: Stream, next: Option<Input>)
    requires Sound(c, s) && Call(c, s, next).0.Finished?
    ensures Balance(Call(c, s, next).1) == Balance(s) + One(next.Some?)
    ensures next.Some? ==> Sound(c, Call(c, s, next).1)
  {
    var p := Limited(c, s, next);
    PlanIsSane(c, s, next);
    var shown := FirstShown(p, s.lastDropped);
    assert p.nb >= shown;
    var s2 := s.(syncOpts := p.sync, lastNb0 := (p.nb0, s.lastNb0.0, s.lastNb0.1),
                 drop := s.drop + One(p.nb0 == 0 && s.lastDropped),
                 dup := s.dup + if p.nb > shown then p.nb - shown else 0,
                 lastDropped := p.nb == p.nb0 && next.Some?);
    OutputIsThePlan(c, s2, next, 0, p);
  }

  function Run(c: Config, inputs: seq<Input>): Stream
    decreases |inputs|
  {
    if inputs == [] then Init() else Call(c, Run(c, inputs[..|inputs| - 1]), Some(inputs[|inputs| - 1])).1
  }

  // No call of the run left early.
  ghost predicate Undisturbed(c: Config, inputs: seq<Input>)
    decreases |inputs|
  {
    inputs == [] || (Undisturbed(c, inputs[..|inputs| - 1])
                     && Call(c, Run(c, inputs[..|inputs| - 1]), Some(inputs[|inputs| - 1])).0.Finished?)
  }

  lemma {:induction false} RunIsBalanced(c: Config, inputs: seq<Input>)
    requires 0 <= c.maxFrames && Undisturbed(c, inputs)
    ensures Sound(c, Run(c, inputs)) && Balance(Run(c, inputs)) == |inputs|
    decreases |inputs|
  {
    if inputs != [] {
      var front := inputs[..|inputs| - 1];
      RunIsBalanced(c, front);
      CallKeepsBalance(c, Run(c, front), Some(inputs[|inputs| - 1]));
    }
  }

  // The drop count of the final report also counts a picture that was still pending.
  function ReportedDrops(s: Stream): int { s.drop + One(s.lastDropped) }

  // Every input picture is output or reported as dropped; every further output is a reported duplicate.
  lemma FramesAreConserved(c: Config, inputs: seq<Input>, flushed: bool)
    requires 0 <= c.maxFrames && Undisturbed(c, inputs)
    requires flushed ==> Call(c, Run(c, inputs), None).0.Finished?
    ensures var s := if flushed then Call(c, Run(c, inputs), None).1 else Run(c, inputs);
            |s.out| + ReportedDrops(s) == |inputs| + s.dup
  {
    RunIsBalanced(c, inputs);
    if flushed { CallKeepsBalance(c, Run(c, inputs), None); }
  }

  // A call refused for too many duplicates still counts its input, except that a picture pending
  // as dropped is then counted twice if the call does not show it.
  lemma RefusedCallBalance(c: Config, s: Stream, next: Option<Input>)
    requires Call(c, s, next).0.TooManyDups?
    ensures Balance(Call(c, s, next).1) == Balance(s) + 1
        <==> !(Limited(c, s, next).nb0 == 0 && s.lastDropped)
  {
    var p := Limited(c, s, next);
    OutputNeverRefuses(c, s.(syncOpts := p.sync, lastNb0 := (p.nb0, s.lastNb0.0, s.lastNb0.1),
                             drop := s.drop + One(p.nb0 == 0 && s.lastDropped),
                             dup := s.dup + if p.nb > FirstShown(p, s.lastDropped)
                                            then p.nb - FirstShown(p, s.lastDropped) else 0,
                             lastDropped := p.nb == p.nb0 && next.Some?), next, 0, p);
  }

  lemma {:induction false} OutputNeverRefuses(c: Config, s: Stream, next: Option<Input>, i: int, p: Plan)
    ensures !Output(c, s, next, i, p).0.TooManyDups?
    decreases p.nb - i
  {
    if i < p.nb && Chosen(s.last, next, i, p.nb0).Some? && Recording(c, s.syncOpts) {
      var e := Encoded(Chosen(s.last, next, i, p.nb0).value, s.syncOpts);
      OutputNeverRefuses(c, s.(out := s.out + [e], syncOpts := s.syncOpts + 1, frameNumber := s.frameNumber + 1), next,
                         i + 1, p);
    }
  }

  // ------------------------------------------------------------------ constant frame rate

  // The end of the input picture on the output time line.
  function End(i: Input): real { i.start + i.duration }

  // The plan was not cut short by the frame limit.
  predicate Unlimited(c: Config, s: Stream, next: Option<Input>) {
    PlanCall(c, s, next).nb <= c.maxFrames - s.frameNumber
  }

  ghost predicate SteadyCfr(c: Config) { c.vsync.Cfr? && c.dropThreshold == 0.0 && 0 <= c.maxFrames }

  // A call that outputs frames leaves the output time within [-0.5, 2.1] frames of the input's end;
  // one that outputs none leaves the output time where it was, more than 1.1 frames past this end.
  lemma CfrDrift(c: Config, s: Stream, next: Input)
    requires SteadyCfr(c) && Sound(c, s) && Unlimited(c, s, Some(next)) && Call(c, s, Some(next)).0.Finished?
    ensures var t := Call(c, s, Some(next)).1; var drift := t.syncOpts as real - End(next);
            if |t.out| > |s.out| then -0.5 <= drift <= 2.1 else t.syncOpts == s.syncOpts && drift > 1.1
  {
    var p := Limited(c, s, Some(next));
    PlanIsSane(c, s, Some(next));
    CallFollowsPlan(c, s, Some(next));
    var delta := next.start - s.syncOpts as real + next.duration;
  }

  // The effect of a finished call on times and output.
  lemma CallFollowsPlan(c: Config, s: Stream, next: Option<Input>)
    requires Sound(c, s) && Call(c, s, next).0.Finished?
    ensures var p, t := Limited(c, s, next), Call(c, s, next).1;
            t.syncOpts == p.sync + p.nb && t.frameNumber == s.frameNumber + p.nb
            && t.out == s.out + Frames(s.last, next, p, 0, p.sync) && |t.out| == |s.out| + p.nb
            && t.last == (match next case None => None case Some(x) => Some(x.picture))
  {
    var p := Limited(c, s, next);
    PlanIsSane(c, s, next);
    var s2 := s.(syncOpts := p.sync, lastNb0 := (p.nb0, s.lastNb0.0, s.lastNb0.1),
                 drop := s.drop + One(p.nb0 == 0 && s.lastDropped),
                 dup := s.dup + if p.nb > FirstShown(p, s.lastDropped) then p.nb - FirstShown(p, s.lastDropped) else 0,
                 lastDropped := p.nb == p.nb0 && next.Some?);
    OutputIsThePlan(c, s2, next, 0, p);
  }

  // The frame limit was never reached.
  ghost predicate NeverLimited(c: Config, inputs: seq<Input>)
    decreases |inputs|
  {
    inputs == [] || (NeverLimited(c, inputs[..|inputs| - 1])
                     && Unlimited(c, Run(c, inputs[..|inputs| - 1]), Some(inputs[|inputs| - 1])))
  }

  // Whole runs at a constant rate: the k-th encoded frame has time k, and as soon as a frame was
  // output the output time never runs more than 2.1 frames ahead of input ends that never decrease.
  lemma {:induction false} CfrRun(c: Config, inputs: seq<Input>)
    requires SteadyCfr(c) && Undisturbed(c, inputs) && NeverLimited(c, inputs)
    requires forall i | 0 < i < |inputs| :: End(inputs[i - 1]) <= End(inputs[i])
    ensures var s := Run(c, inputs);
            && s.syncOpts == s.frameNumber == |s.out|
            && (forall k | 0 <= k < |s.out| :: s.out[k].pts == k)
            && (s.out != [] ==> s.syncOpts as real - End(inputs[|inputs| - 1]) <= 2.1)
    decreases |inputs|
  {
    if inputs != [] {
      var front, next := inputs[..|inputs| - 1], inputs[|inputs| - 1];
      CfrRun(c, front);
      RunIsBalanced(c, front);
      var s := Run(c, front);
      CfrCallFollows(c, s, next);
      CfrDrift(c, s, next);
      if front != [] { assert End(front[|front| - 1]) <= End(next); }
    }
  }

  // At a constant rate a call appends frames at the times that follow the last one.
  lemma CfrCallFollows(c: Config, s: Stream, next: Input)
    requires SteadyCfr(c) && Sound(c, s) && Call(c, s, Some(next)).0.Finished?
    requires s.syncOpts == s.frameNumber == |s.out| && forall k | 0 <= k < |s.out| :: s.out[k].pts == k
    ensures var t := Call(c, s, Some(next)).1;
            t.syncOpts == t.frameNumber == |t.out| && forall k | 0 <= k < |t.out| :: t.out[k].pts == k
    ensures |s.out| <= |Call(c, s, Some(next)).1.out|
  {
    var p := Limited(c, s, Some(next));
    CallFollowsPlan(c, s, Some(next));
    PlanIsSane(c, s, Some(next));
    assert p.sync == s.syncOpts;
    hide Limited, Call, Frames;
    var fs := Frames(s.last, Some(next), p, 0, p.sync);
    forall k: nat | k < |fs| ensures fs[k].pts == p.sync + k {
      FramesAreConsecutive(s.last, Some(next), p, 0, p.sync, k);
    }
  }

  // ------------------------------------------------------------------ order of the output

  ghost predicate Increasing(out: seq<Encoded>, bound: int) {
    && (forall i, j | 0 <= i < j < |out| :: out[i].pts < out[j].pts && out[i].picture <= out[j].picture)
    && (forall i | 0 <= i < |out| :: out[i].pts < bound)
  }

  ghost predicate UpTo(s: Stream) {
    && Increasing(s.out, s.syncOpts)
    && forall i | 0 <= i < |s.out| :: s.last.Some? && s.out[i].picture <= s.last.value
  }

  // Unless timestamps are passed through, encoded times strictly increase, and pictures appear in
  // input order.
  lemma {:induction false} OutputIsOrdered(c: Config, inputs: seq<Input>)
    requires 0 <= c.maxFrames && Undisturbed(c, inputs) && !c.vsync.Drop? && !c.vsync.Passthrough?
    requires forall i | 0 < i < |inputs| :: inputs[i - 1].picture <= inputs[i].picture
    ensures UpTo(Run(c, inputs))
    ensures inputs != [] ==> Run(c, inputs).last == Some(inputs[|inputs| - 1].picture)
    ensures inputs == [] ==> Run(c, inputs).last == None
    decreases |inputs|
  {
    if inputs != [] {
      var front, next := inputs[..|inputs| - 1], inputs[|inputs| - 1];
      OutputIsOrdered(c, front);
      RunIsBalanced(c, front);
      CallFollowsPlan(c, Run(c, front), Some(next));
      if front != [] { assert front[|front| - 1].picture <= next.picture; }
      CallExtends(Run(c, front), next, Limited(c, Run(c, front), Some(next)));
    }
  }

  lemma CallExtends(s: Stream, next: Input, p: Plan)
    requires UpTo(s) && p.sync >= s.syncOpts && (s.last.Some? ==> s.last.value <= next.picture)
    ensures var f := Frames(s.last, Some(next), p, 0, p.sync);
            Increasing(s.out + f, p.sync + |f|)
                && forall i | 0 <= i < |s.out + f| :: (s.out + f)[i].picture <= next.picture
  {
    var f := Frames(s.last, Some(next), p, 0, p.sync);
    forall k: nat | k < |f|
      ensures f[k].pts == p.sync + k && Some(f[k].picture) == Chosen(s.last, Some(next), k, p.nb0)
    {
      FramesAreConsecutive(s.last, Some(next), p, 0, p.sync, k);
    }
  }
}
