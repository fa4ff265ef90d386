/** What FfmpegMux does to single stamps, when it gives up, and what whole runs of it accept. */
module FfmpegMuxRuns {
  import opened FfmpegMux

  // ------------------------------------------------------------------ stamps

  // The stamps a packet arrives with, on the container's time base.
  function Arriving(c: FileConfig, s: OStream, stamp: Ts): Ts {
    if stamp == NOPTS then NOPTS else c.rescale(stamp, s.muxTb, s.c.stTb)
  }

  // The earliest dts that may follow.
  function Least(c: FileConfig, s: OStream): int { s.lastDts + if c.nonStrict then 0 else 1 }

  // For streams whose dts must not fall back: a packet in order keeps its stamps as far as the
  // previous dts allows, and is moved no further than it must be.
  lemma RepairIsLeast(c: FileConfig, s: OStream, p: Packet, pts: Ts, dts: Ts)
    requires !c.noTimestamps && !Stampless(c, s) && s.c.media != Other && s.lastDts != NOPTS
    requires pts == Arriving(c, s, p.pts) && dts == Arriving(c, s, p.dts) && dts != NOPTS
    requires pts == NOPTS || dts <= pts
    ensures var r := Repaired(c, s, p);
            && r.id == p.id && r.size == p.size && r.dts == Max(dts, Least(c, s))
            && r.pts == if pts == NOPTS then NOPTS else Max(pts, Least(c, s))
  {}

  // A packet whose dts lies behind its pts gets the median of both and the last dts + 1 for both,
  // moved up in the same way.
  lemma MisorderedGetTheMedian(c: FileConfig, s: OStream, p: Packet, pts: Ts, dts: Ts) returns (m: int)
    requires !c.noTimestamps && !Stampless(c, s)
    requires pts == Arriving(c, s, p.pts) && dts == Arriving(c, s, p.dts)
    requires pts != NOPTS && dts != NOPTS && dts > pts
    ensures IsMedian(m, pts, dts, s.lastDts + 1)
    ensures var r := Repaired(c, s, p);
            && r.id == p.id && r.size == p.size && r.pts == r.dts
            && r.dts == if s.c.media == Other || s.lastDts == NOPTS then m else Max(m, Least(c, s))
  {
    m := Guess(pts, dts, s.lastDts);
    GuessIsMedian(pts, dts, s.lastDts);
  }

  // Formats without timestamps get them as they arrive.
  lemma NoTimestampsNoRepair(c: FileConfig, s: OStream, p: Packet)
    requires c.noTimestamps && !Stampless(c, s)
    ensures Repaired(c, s, p) == Packet(p.id, Arriving(c, s, p.pts), Arriving(c, s, p.dts), p.size)
  {}

  // ------------------------------------------------------------------ giving up

  // Told to stop at errors, the program ends at a packet exactly if its dts would have to be moved.
  lemma AbortsExactly(c: FileConfig, f: File, i: nat, p: Packet)
    requires i < |f.streams| && !f.exited
    ensures var s := f.streams[i];
            var moved := !c.noTimestamps && s.c.media != Other && s.lastDts != NOPTS
                         && Ordered(Rescaled(c, s, p), s.lastDts).dts != NOPTS
                         && Ordered(Rescaled(c, s, p), s.lastDts).dts < Least(c, s);
            MuxPacket(c, f, i, p).exited <==> c.exitOnError && moved
    ensures var s := f.streams[i];
            Repaired(c, s, p).dts != Ordered(Rescaled(c, s, p), s.lastDts).dts && !c.noTimestamps ==>
              Ordered(Rescaled(c, s, p), s.lastDts).dts < Least(c, s)
  {}

  // A queue has room for eight packets or more.
  predicate HasRoom(s: OStream) { |s.queue| <= s.capacity && s.capacity >= 8 }

  // The program gives up exactly if a queue is full, the bytes would exceed the threshold and the
  // limit is reached. Otherwise a full queue doubles, but not beyond the limit once the bytes do.
  lemma FullExactly(s: OStream, p: Packet)
    requires HasRoom(s)
    ensures var over := s.queueBytes + p.size > s.c.threshold;
            && (IsStuck(s, p) <==> |s.queue| == s.capacity && over && s.c.maxQueue <= s.capacity)
            && (!IsStuck(s, p) ==>
                  && HasRoom(Queued(s, p)) && Queued(s, p).queue == s.queue + [p]
                  && Queued(s, p).capacity == if |s.queue| < s.capacity then s.capacity
                                              else if over && s.c.maxQueue < 2 * s.capacity then s.c.maxQueue
                                              else 2 * s.capacity)
  {}

  ghost predicate Roomy(f: File) { forall i | 0 <= i < |f.streams| :: HasRoom(f.streams[i]) }

  lemma {:induction false} FlushKeepsRoom(c: FileConfig, f: File, i: nat)
    requires Roomy(f) && i < |f.streams|
    ensures Roomy(FlushStream(c, f, i))
    decreases |f.streams[i].queue|
  {
    if !f.exited && f.streams[i].queue != [] {
      var p := f.streams[i].queue[0];
      SendKeepsQueue(c, Pop(f, i), i, p);
      MuxKeepsRoom(c, Pop(f, i), i, p);
      hide MuxPacket;
      FlushKeepsRoom(c, MuxPacket(c, Pop(f, i), i, p), i);
    }
  }

  lemma MuxKeepsRoom(c: FileConfig, f: File, i: nat, p: Packet)
    requires Roomy(f) && i < |f.streams|
    ensures Roomy(MuxPacket(c, f, i, p))
  {
    hide Repaired, Aborts;
  }

  lemma {:induction false} FlushAllKeepsRoom(c: FileConfig, f: File, i: nat)
    requires Roomy(f) && i <= |f.streams|
    ensures Roomy(FlushFrom(c, f, i))
    decreases |f.streams| - i
  {
    if !f.exited && i < |f.streams| {
      var g := WithTimeBase(f, i);
      FlushKeepsRoom(c, g, i);
      hide FlushStream;
      FlushAllKeepsRoom(c, FlushStream(c, g, i), i + 1);
    }
  }

  // So it is in every run.
  lemma {:induction false} QueuesHaveRoom(c: FileConfig, cs: seq<StreamConfig>, tbs: seq<TimeBase>, steps: seq<Step>)
    requires |cs| == |tbs|
    ensures Roomy(Run(c, cs, tbs, steps))
    decreases |steps|
  {
    if steps != [] {
      QueuesHaveRoom(c, cs, tbs, steps[..|steps| - 1]);
      StepKeepsRoom(c, Run(c, cs, tbs, steps[..|steps| - 1]), steps[|steps| - 1]);
      hide Next, Roomy;
    }
  }

  lemma StepKeepsRoom(c: FileConfig, f: File, a: Step)
    requires Roomy(f)
    ensures Roomy(Next(c, f, a))
  {
    if !f.exited && a.i < |f.streams| {
      match a
      case Deliver(i, p) => SubmitKeepsRoom(c, f, i, p);
      case Initialize(i, ok, sdp) => InitKeepsRoom(c, f, i, ok, sdp);
    }
  }

  lemma SubmitKeepsRoom(c: FileConfig, f: File, i: nat, p: Packet)
    requires Roomy(f) && i < |f.streams|
    ensures Roomy(Submit(c, f, i, p))
  {
    var g := With(f, i, CountIn(f.streams[i], p));
    assert Roomy(g);
    FullExactly(g.streams[i], p);
    MuxKeepsRoom(c, g, i, p);
    hide MuxPacket;
  }

  lemma InitKeepsRoom(c: FileConfig, f: File, i: nat, headerOk: bool, sdpOk: bool)
    requires Roomy(f) && i < |f.streams|
    ensures Roomy(Initialized(c, f, i, headerOk, sdpOk))
  {
    var g := With(f, i, f.streams[i].(initialized := true));
    assert Roomy(g);
    var h := g.(headerWritten := true, log := g.log + [Header]);
    FlushAllKeepsRoom(c, h, 0);
    hide FlushFrom;
  }

  // ------------------------------------------------------------------ what is accepted

  // The packets delivered to one stream.
  function DeliveredTo(steps: seq<Step>, i: nat): seq<Packet>
    decreases |steps|
  {
    if steps == [] then []
    else
      var front, a := DeliveredTo(steps[..|steps| - 1], i), steps[|steps| - 1];
      if a.Deliver? && a.i == i then front + [a.p] else front
  }

  // Some step makes this stream ready.
  predicate MadeReady(steps: seq<Step>, i: nat)
    decreases |steps|
  {
    steps != [] &&
    (MadeReady(steps[..|steps| - 1], i) || (steps[|steps| - 1].Initialize? && steps[|steps| - 1].i == i))
  }

  ghost predicate AllReady(steps: seq<Step>, n: nat) { forall i: nat | i < n :: MadeReady(steps, i) }

  // How many of n delivered packets a stream accepts.
  function Allowed(sc: StreamConfig, n: nat): nat {
    if sc.media == Video && sc.encoded then n
    else if sc.maxFrames <= 0 then 0
    else if n < sc.maxFrames then n else sc.maxFrames
  }

  // What one stream knows of the steps so far.
  ghost predicate Recalls(s: OStream, sc: StreamConfig, steps: seq<Step>, i: nat) {
    && s.c == sc
    && s.accepted == DeliveredTo(steps, i)[..Allowed(sc, |DeliveredTo(steps, i)|)]
    && s.frameNumber == (if sc.media == Video && sc.encoded then 0 else |s.accepted|)
    && (s.initialized <==> MadeReady(steps, i))
  }

  ghost predicate AllRecall(f: File, cs: seq<StreamConfig>, steps: seq<Step>) {
    |f.streams| == |cs| && forall i: nat | i < |cs| :: Recalls(f.streams[i], cs[i], steps, i)
  }

  // Neither muxing nor flushing changes what a stream has accepted.
  predicate SameTaken(s: OStream, t: OStream) {
    t.c == s.c && t.accepted == s.accepted && t.frameNumber == s.frameNumber && t.initialized == s.initialized
  }

  ghost predicate AllSame(f: File, g: File) {
    |g.streams| == |f.streams| && forall i | 0 <= i < |f.streams| :: SameTaken(f.streams[i], g.streams[i])
  }

  lemma MuxTakesNothing(c: FileConfig, f: File, i: nat, p: Packet)
    requires i < |f.streams|
    ensures AllSame(f, MuxPacket(c, f, i, p))
  {
    hide Repaired, Aborts;
  }

  lemma {:induction false} FlushTakesNothing(c: FileConfig, f: File, i: nat)
    requires i < |f.streams|
    ensures AllSame(f, FlushStream(c, f, i))
    decreases |f.streams[i].queue|
  {
    if !f.exited && f.streams[i].queue != [] {
      var p := f.streams[i].queue[0];
      SendKeepsQueue(c, Pop(f, i), i, p);
      MuxTakesNothing(c, Pop(f, i), i, p);
      hide MuxPacket;
      FlushTakesNothing(c, MuxPacket(c, Pop(f, i), i, p), i);
    }
  }

  lemma {:induction false} FlushAllTakesNothing(c: FileConfig, f: File, i: nat)
    requires i <= |f.streams|
    ensures AllSame(f, FlushFrom(c, f, i))
    decreases |f.streams| - i
  {
    if !f.exited && i < |f.streams| {
      var g := WithTimeBase(f, i);
      FlushTakesNothing(c, g, i);
      hide FlushStream;
      FlushAllTakesNothing(c, FlushStream(c, g, i), i + 1);
    }
  }

  lemma OpeningTakesNothing(c: FileConfig, f: File, headerOk: bool, sdpOk: bool)
    ensures AllSame(f, Opened(c, f, headerOk, sdpOk).1)
  {
    FlushAllTakesNothing(c, f.(headerWritten := true, log := f.log + [Header]), 0);
    hide FlushFrom;
  }

  // The file has its header exactly when all its streams are ready.
  predicate HeaderIsDue(f: File) { f.headerWritten <==> |f.streams| > 0 && AllInitialized(f) }

  lemma InitRecalls(c: FileConfig, f: File, cs: seq<StreamConfig>, steps: seq<Step>, a: Step)
    requires AllRecall(f, cs, steps) && a.Initialize? && a.i < |cs|
    ensures AllRecall(Initialized(c, f, a.i, a.headerOk, a.sdpOk), cs, steps + [a])
  {
    assert (steps + [a])[..|steps|] == steps;
    var g := With(f, a.i, f.streams[a.i].(initialized := true));
    OpeningTakesNothing(c, g, a.headerOk, a.sdpOk);
    hide Opened;
    var h := Initialized(c, f, a.i, a.headerOk, a.sdpOk);
    forall i: nat | i < |cs| ensures Recalls(h.streams[i], cs[i], steps + [a], i) {
      assert Recalls(f.streams[i], cs[i], steps, i);
      assert DeliveredTo(steps + [a], i) == DeliveredTo(steps, i);
      assert MadeReady(steps + [a], i) <==> MadeReady(steps, i) || i == a.i;
    }
  }

  lemma DeliverRecalls(c: FileConfig, f: File, cs: seq<StreamConfig>, steps: seq<Step>, a: Step)
    requires AllRecall(f, cs, steps) && a.Deliver? && a.i < |cs| && !Submit(c, f, a.i, a.p).exited
    ensures AllRecall(Submit(c, f, a.i, a.p), cs, steps + [a])
  {
    var h := Submit(c, f, a.i, a.p);
    SubmitTakesOne(c, f, a.i, a.p);
    hide Submit, Recalls;
    forall i: nat | i < |cs| ensures Recalls(h.streams[i], cs[i], steps + [a], i) {
      assert Recalls(f.streams[i], cs[i], steps, i);
      if i == a.i {
        OneMoreRecalled(f.streams[i], h.streams[i], cs[i], steps, a);
      } else {
        OthersRecall(f.streams[i], h.streams[i], cs[i], steps, a, i);
      }
    }
  }

  lemma OneMoreRecalled(s: OStream, t: OStream, sc: StreamConfig, steps: seq<Step>, a: Step)
    requires Recalls(s, sc, steps, a.i) && a.Deliver?
    requires SameTaken(if Counted(s) && s.frameNumber >= s.c.maxFrames then s else CountIn(s, a.p), t)
    ensures Recalls(t, sc, steps + [a], a.i)
  {
    assert (steps + [a])[..|steps|] == steps;
    assert DeliveredTo(steps + [a], a.i) == DeliveredTo(steps, a.i) + [a.p];
    assert MadeReady(steps + [a], a.i) <==> MadeReady(steps, a.i);
    OneMoreAllowed(s, t, sc, DeliveredTo(steps, a.i), a.p);
    hide DeliveredTo, MadeReady, Allowed;
  }

  lemma OthersRecall(s: OStream, t: OStream, sc: StreamConfig, steps: seq<Step>, a: Step, i: nat)
    requires Recalls(s, sc, steps, i) && SameTaken(s, t) && a.Deliver? && i != a.i
    ensures Recalls(t, sc, steps + [a], i)
  {
    assert (steps + [a])[..|steps|] == steps;
    assert DeliveredTo(steps + [a], i) == DeliveredTo(steps, i);
    assert MadeReady(steps + [a], i) <==> MadeReady(steps, i);
    hide DeliveredTo, MadeReady, Allowed;
  }

  lemma SubmitTakesOne(c: FileConfig, f: File, i: nat, p: Packet)
    requires i < |f.streams| && !Submit(c, f, i, p).exited
    ensures var s, g := f.streams[i], Submit(c, f, i, p);
            && |g.streams| == |f.streams|
            && (forall k | 0 <= k < |f.streams| && k != i :: SameTaken(f.streams[k], g.streams[k]))
            && SameTaken(if Counted(s) && s.frameNumber >= s.c.maxFrames then s else CountIn(s, p), g.streams[i])
  {
    var f' := With(f, i, CountIn(f.streams[i], p));
    MuxTakesNothing(c, f', i, p);
    hide MuxPacket;
  }

  lemma OneMoreAllowed(s: OStream, t: OStream, sc: StreamConfig, delivered: seq<Packet>, p: Packet)
    requires s.c == sc && s.accepted == delivered[..Allowed(sc, |delivered|)]
    requires s.frameNumber == if sc.media == Video && sc.encoded then 0 else |s.accepted|
    requires SameTaken(if Counted(s) && s.frameNumber >= s.c.maxFrames then s else CountIn(s, p), t)
    ensures t.c == sc && t.accepted == (delivered + [p])[..Allowed(sc, |delivered + [p]|)]
    ensures t.frameNumber == if sc.media == Video && sc.encoded then 0 else |t.accepted|
  {
    var n := Allowed(sc, |delivered|);
    assert (delivered + [p])[..n] == delivered[..n];
    assert delivered[..|delivered|] == delivered && (delivered + [p])[..|delivered| + 1] == delivered + [p];
  }

  lemma {:induction false} RunRecalls(c: FileConfig, cs: seq<StreamConfig>, tbs: seq<TimeBase>, steps: seq<Step>)
    requires |cs| == |tbs| && !Run(c, cs, tbs, steps).exited
    ensures AllRecall(Run(c, cs, tbs, steps), cs, steps)
    decreases |steps|
  {
    if steps == [] {
      var f := Start(cs, tbs);
      forall i: nat | i < |cs| ensures Recalls(f.streams[i], cs[i], steps, i) {}
    } else {
      var front, a := steps[..|steps| - 1], steps[|steps| - 1];
      assert front + [a] == steps;
      var f := Run(c, cs, tbs, front);
      assert !f.exited;
      RunRecalls(c, cs, tbs, front);
      hide AllRecall, Submit, Initialized;
      if a.i >= |cs| {
        OutsideRecalls(f, cs, front, a);
      } else if a.Deliver? {
        DeliverRecalls(c, f, cs, front, a);
      } else {
        InitRecalls(c, f, cs, front, a);
      }
    }
  }

  lemma OutsideRecalls(f: File, cs: seq<StreamConfig>, steps: seq<Step>, a: Step)
    requires AllRecall(f, cs, steps) && a.i >= |cs|
    ensures AllRecall(f, cs, steps + [a])
  {
    assert (steps + [a])[..|steps|] == steps;
    forall i: nat | i < |cs| ensures Recalls(f.streams[i], cs[i], steps + [a], i) {
      assert Recalls(f.streams[i], cs[i], steps, i);
      assert DeliveredTo(steps + [a], i) == DeliveredTo(steps, i);
    }
  }

  // As long as the program has not given up, every stream has accepted exactly the packets
  // delivered to it, up to its frame limit, and counted them, unless they are encoded video.
  lemma DeliveredAreAccepted(c: FileConfig, cs: seq<StreamConfig>, tbs: seq<TimeBase>, steps: seq<Step>, i: nat)
    requires |cs| == |tbs| && !Run(c, cs, tbs, steps).exited && i < |cs|
    ensures var s, all := Run(c, cs, tbs, steps).streams[i], DeliveredTo(steps, i);
            && s.c == cs[i] && s.accepted == all[..Allowed(cs[i], |all|)]
            && s.frameNumber == if cs[i].media == Video && cs[i].encoded then 0 else |s.accepted|
  {
    RunRecalls(c, cs, tbs, steps);
    assert Recalls(Run(c, cs, tbs, steps).streams[i], cs[i], steps, i);
  }

  // ------------------------------------------------------------------ the header and the time base

  // Flushing changes nothing but queues, stamps and time bases, and no time base of a stream that
  // has packets waiting.
  ghost predicate Settled(f: File, g: File, n: nat) {
    && |g.streams| == |f.streams| && g.headerWritten == f.headerWritten
    && forall i | 0 <= i < |f.streams| ::
         g.streams[i].muxTb == if i >= n && f.streams[i].queue == [] then f.streams[i].c.stTb else f.streams[i].muxTb
  }

  ghost predicate Untimed(f: File, g: File, k: nat) {
    && |g.streams| == |f.streams| && g.headerWritten == f.headerWritten
    && forall i | 0 <= i < |f.streams| ::
         && g.streams[i].muxTb == f.streams[i].muxTb && g.streams[i].c == f.streams[i].c
         && (i != k ==> g.streams[i].queue == f.streams[i].queue)
  }

  lemma {:induction false} FlushKeepsTimeBase(c: FileConfig, f: File, i: nat)
    requires i < |f.streams|
    ensures Untimed(f, FlushStream(c, f, i), i)
    decreases |f.streams[i].queue|
  {
    if !f.exited && f.streams[i].queue != [] {
      var p := f.streams[i].queue[0];
      var g := MuxPacket(c, Pop(f, i), i, p);
      SendKeepsQueue(c, Pop(f, i), i, p);
      MuxKeepsTimeBase(c, Pop(f, i), i, p);
      hide MuxPacket;
      FlushKeepsTimeBase(c, g, i);
    }
  }

  lemma MuxKeepsTimeBase(c: FileConfig, f: File, i: nat, p: Packet)
    requires i < |f.streams|
    ensures Untimed(f, MuxPacket(c, f, i, p), |f.streams|)
  {
    hide Repaired, Aborts;
  }

  lemma {:induction false} FlushAllSettles(c: FileConfig, f: File, n: nat)
    requires n <= |f.streams| && !FlushFrom(c, f, n).exited && !f.exited
    ensures Settled(f, FlushFrom(c, f, n), n)
    decreases |f.streams| - n
  {
    if n < |f.streams| {
      var g := WithTimeBase(f, n);
      var h := FlushStream(c, g, n);
      FlushKeepsTimeBase(c, g, n);
      hide FlushStream;
      assert !h.exited;
      FlushAllSettles(c, h, n + 1);
    }
  }

  lemma {:induction false} HeaderStaysDue(c: FileConfig, cs: seq<StreamConfig>, tbs: seq<TimeBase>, steps: seq<Step>)
    requires |cs| == |tbs| && !Run(c, cs, tbs, steps).exited
    ensures HeaderIsDue(Run(c, cs, tbs, steps))
    decreases |steps|
  {
    if steps == [] {
      var f := Start(cs, tbs);
      assert |cs| > 0 ==> !f.streams[0].initialized;
    } else {
      var f, a := Run(c, cs, tbs, steps[..|steps| - 1]), steps[|steps| - 1];
      assert !f.exited;
      HeaderStaysDue(c, cs, tbs, steps[..|steps| - 1]);
      if a.i < |f.streams| {
        if a.Deliver? { DeliverKeepsHeader(c, f, a.i, a.p); } else { InitMakesHeader(c, f, a); }
      }
      hide HeaderIsDue, Submit, Initialized;
    }
  }

  lemma DeliverKeepsHeader(c: FileConfig, f: File, i: nat, p: Packet)
    requires i < |f.streams| && HeaderIsDue(f) && !Submit(c, f, i, p).exited
    ensures HeaderIsDue(Submit(c, f, i, p)) && Submit(c, f, i, p).headerWritten == f.headerWritten
    ensures forall k | 0 <= k < |f.streams| :: Submit(c, f, i, p).streams[k].muxTb == f.streams[k].muxTb
  {
    SubmitTakesOne(c, f, i, p);
    var f' := With(f, i, CountIn(f.streams[i], p));
    MuxKeepsTimeBase(c, f', i, p);
    var g := Submit(c, f, i, p);
    assert forall k | 0 <= k < |f.streams| :: g.streams[k].initialized == f.streams[k].initialized;
    hide MuxPacket;
  }

  // The step that makes the last stream ready writes the header, and gives every stream that has
  // accepted nothing yet the time base of its container.
  lemma InitMakesHeader(c: FileConfig, f: File, a: Step)
    requires a.Initialize? && a.i < |f.streams| && HeaderIsDue(f) && !f.exited
    requires !Initialized(c, f, a.i, a.headerOk, a.sdpOk).exited
    ensures var g := Initialized(c, f, a.i, a.headerOk, a.sdpOk);
            && HeaderIsDue(g)
            && forall k | 0 <= k < |f.streams| ::
                 g.streams[k].muxTb == if !f.headerWritten && g.headerWritten && f.streams[k].queue == []
                                       then f.streams[k].c.stTb else f.streams[k].muxTb
  {
    var m := With(f, a.i, f.streams[a.i].(initialized := true));
    OpeningTakesNothing(c, m, a.headerOk, a.sdpOk);
    var h := m.(headerWritten := true, log := m.log + [Header]);
    if !f.streams[a.i].initialized && AllInitialized(m) && a.headerOk && a.sdpOk { FlushAllSettles(c, h, 0); }
    hide FlushFrom;
    var g := Initialized(c, f, a.i, a.headerOk, a.sdpOk);
    assert forall k | 0 <= k < |f.streams| :: g.streams[k].initialized == (f.streams[k].initialized || k == a.i);
  }

  // As long as the program has not given up, the header is written exactly if every stream was made
  // ready, and there is one.
  lemma HeaderExactly(c: FileConfig, cs: seq<StreamConfig>, tbs: seq<TimeBase>, steps: seq<Step>)
    requires |cs| == |tbs| && !Run(c, cs, tbs, steps).exited
    ensures Run(c, cs, tbs, steps).headerWritten <==> |cs| > 0 && AllReady(steps, |cs|)
  {
    HeaderStaysDue(c, cs, tbs, steps);
    RunRecalls(c, cs, tbs, steps);
    var f := Run(c, cs, tbs, steps);
    forall i: nat | i < |cs| ensures f.streams[i].initialized <==> MadeReady(steps, i) {
      assert Recalls(f.streams[i], cs[i], steps, i);
    }
    assert |f.streams| == |cs|;
    hide Run, MadeReady;
    if AllReady(steps, |cs|) {
      forall i: nat | i < |cs| ensures f.streams[i].initialized { assert MadeReady(steps, i); }
    }
  }

  // Stamps are taken from the time base a stream starts with, until the header is written; from
  // then on from the container's, unless packets were waiting then.
  lemma TimeBaseExactly(c: FileConfig, cs: seq<StreamConfig>, tbs: seq<TimeBase>, steps: seq<Step>, a: Step, i: nat)
    requires |cs| == |tbs| && !Run(c, cs, tbs, steps + [a]).exited && i < |cs|
    ensures Run(c, cs, tbs, []).streams[i].muxTb == tbs[i]
    ensures var f, g := Run(c, cs, tbs, steps), Run(c, cs, tbs, steps + [a]);
            g.streams[i].muxTb == if !f.headerWritten && g.headerWritten && f.streams[i].accepted == []
                                  then cs[i].stTb else f.streams[i].muxTb
  {
    assert (steps + [a])[..|steps|] == steps;
    var f, g := Run(c, cs, tbs, steps), Run(c, cs, tbs, steps + [a]);
    assert g == Next(c, f, a) && !f.exited;
    HeaderStaysDue(c, cs, tbs, steps);
    DeliveredAreAccepted(c, cs, tbs, steps, i);
    RunKeepsInv(c, cs, tbs, steps);
    assert !f.headerWritten ==> MuxedOf(f.log, i) == [];
    NothingIsLost(c, cs, tbs, steps, i);
    hide Run, Initialized, Submit, MuxedOf, HeaderIsDue;
    if a.i < |f.streams| {
      if a.Deliver? { DeliverKeepsHeader(c, f, a.i, a.p); } else { InitMakesHeader(c, f, a); }
    }
  }

  // ------------------------------------------------------------------ when the program gives up

  lemma {:induction false} FlushGoesOn(c: FileConfig, f: File, i: nat)
    requires i < |f.streams| && !c.exitOnError && !f.exited
    ensures !FlushStream(c, f, i).exited
    decreases |f.streams[i].queue|
  {
    if f.streams[i].queue != [] {
      var p := f.streams[i].queue[0];
      SendKeepsQueue(c, Pop(f, i), i, p);
      MuxGoesOn(c, Pop(f, i), i, p);
      hide MuxPacket;
      FlushGoesOn(c, MuxPacket(c, Pop(f, i), i, p), i);
    }
  }

  lemma MuxGoesOn(c: FileConfig, f: File, i: nat, p: Packet)
    requires i < |f.streams| && !c.exitOnError && !f.exited
    ensures !MuxPacket(c, f, i, p).exited
  {
    hide Repaired;
  }

  lemma {:induction false} FlushAllGoesOn(c: FileConfig, f: File, i: nat)
    requires i <= |f.streams| && !c.exitOnError && !f.exited
    ensures !FlushFrom(c, f, i).exited
    decreases |f.streams| - i
  {
    if i < |f.streams| {
      var g := WithTimeBase(f, i);
      FlushGoesOn(c, g, i);
      hide FlushStream;
      FlushAllGoesOn(c, FlushStream(c, g, i), i + 1);
    }
  }

  // The stream takes the packet, but there is no room to keep it.
  predicate NoRoomFor(f: File, i: nat, p: Packet)
    requires i < |f.streams|
  {
    var s := f.streams[i];
    && ((s.c.media == Video && s.c.encoded) || s.frameNumber < s.c.maxFrames)
    && |s.queue| == s.capacity && s.c.maxQueue <= s.capacity && s.queueBytes + p.size > s.c.threshold
  }

  // This is the last stream that was not ready.
  predicate LastToBeReady(f: File, i: nat)
    requires i < |f.streams|
  {
    !f.streams[i].initialized && forall k | 0 <= k < |f.streams| && k != i :: f.streams[k].initialized
  }

  // Before the first step nothing is given up, and every queue has room for eight packets.
  lemma StartsWithRoom(c: FileConfig, cs: seq<StreamConfig>, tbs: seq<TimeBase>)
    requires |cs| == |tbs|
    ensures var f := Run(c, cs, tbs, []);
            && !f.exited && !f.headerWritten && f.log == []
            && forall i | 0 <= i < |cs| :: f.streams[i].capacity == 8 && f.streams[i].queue == []
  {}

  // Unless it was told to stop at errors, the program gives up exactly at a packet that waits for
  // the header and finds no room, and at the last stream to be ready if header or SDP fail.
  lemma GivesUpExactly(c: FileConfig, cs: seq<StreamConfig>, tbs: seq<TimeBase>, steps: seq<Step>, a: Step)
    requires |cs| == |tbs| && !Run(c, cs, tbs, steps).exited && !c.exitOnError && a.i < |cs|
    ensures var f := Run(c, cs, tbs, steps);
            Run(c, cs, tbs, steps + [a]).exited <==>
            if a.Deliver? then !f.headerWritten && NoRoomFor(f, a.i, a.p)
            else LastToBeReady(f, a.i) && !(a.headerOk && a.sdpOk)
  {
    assert (steps + [a])[..|steps|] == steps;
    var f := Run(c, cs, tbs, steps);
    QueuesHaveRoom(c, cs, tbs, steps);
    hide Run;
    if a.Deliver? { DeliveryGivesUp(c, f, a.i, a.p); } else { OpeningGivesUp(c, f, a.i, a.headerOk, a.sdpOk); }
  }

  lemma DeliveryGivesUp(c: FileConfig, f: File, i: nat, p: Packet)
    requires i < |f.streams| && Roomy(f) && !f.exited && !c.exitOnError
    ensures Submit(c, f, i, p).exited <==> !f.headerWritten && NoRoomFor(f, i, p)
  {
    var g := With(f, i, CountIn(f.streams[i], p));
    FullExactly(g.streams[i], p);
    MuxGoesOn(c, g, i, p);
    hide MuxPacket, Queued, IsStuck;
  }

  lemma OpeningGivesUp(c: FileConfig, f: File, i: nat, headerOk: bool, sdpOk: bool)
    requires i < |f.streams| && !f.exited && !c.exitOnError
    ensures Initialized(c, f, i, headerOk, sdpOk).exited <==> LastToBeReady(f, i) && !(headerOk && sdpOk)
  {
    var m := With(f, i, f.streams[i].(initialized := true));
    assert !f.streams[i].initialized ==> (AllInitialized(m) <==> LastToBeReady(f, i)) by {
      assert forall k | 0 <= k < |f.streams| && k != i :: m.streams[k] == f.streams[k];
    }
    var h := m.(headerWritten := true, log := m.log + [Header]);
    FlushAllGoesOn(c, h, 0);
    hide FlushFrom;
  }
}
