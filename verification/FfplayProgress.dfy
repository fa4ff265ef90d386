/** What FfplayPipeline always can still do: after a seek its threads reach a picture of the new
    packets, and after an abort the video thread stops, from wherever they are. */
module FfplayProgress {
  import opened FfplayPacketQueue
  import opened FfplayPipeline
  import opened FfplayPackets

  function RunFrom(s: State, steps: seq<Step>): State
    decreases |steps|
  {
    if steps == [] then s else RunFrom(Next(s, steps[0]), steps[1..])
  }

  lemma {:induction false} Continues(steps: seq<Step>, more: seq<Step>)
    ensures RunFrom(Run(steps), more) == Run(steps + more)
    decreases |more|
  {
    if more == [] {
      assert steps + more == steps;
    } else {
      var next := steps + [more[0]];
      assert next[..|steps|] == steps && next + more[1..] == steps + more;
      hide Next;
      Continues(next, more[1..]);
    }
  }

  lemma OneStep(s: State, a: Step, rest: seq<Step>)
    ensures RunFrom(s, [a] + rest) == RunFrom(Next(s, a), rest)
  {
    hide Next;
  }

  lemma NoStep(s: State)
    ensures RunFrom(s, []) == s
  {}

  lemma {:induction false} StepByStep(s: State, a: seq<Step>, b: seq<Step>)
    ensures RunFrom(s, a + b) == RunFrom(RunFrom(s, a), b)
    decreases |a|
  {
    if a == [] {
      assert a + b == b;
    } else {
      assert (a + b)[1..] == a[1..] + b;
      hide Next;
      StepByStep(Next(s, a[0]), a[1..], b);
    }
  }

  // ------------------------------------------------------------------ after a seek

  // The queue was just flushed and holds one new packet; whatever the threads still have is older.
  ghost predicate OnlyNew(s: State, p: Packet) {
    && s.q == Queue([Entry(p, s.q.serial)], false, s.q.serial) && !s.pc.Stopped? && OneInHand(s)
    && s.pktSerial != s.q.serial && s.graphSerial != s.q.serial
    && forall i | 0 <= i < |s.pictures| :: s.pictures[i].serial != s.q.serial
  }

  // What the video thread does next, given a codec that takes every packet and has no frame.
  function Onward(s: State): Step {
    match s.pc
    case Top => SerialTest
    case Receive => CodecNeedsPacket
    case Fetch => TakePacket
    case FlushCodec => FlushBuffers
    case CheckSerial => SerialRetest
    case Send => SendPacket(true)
    case Filter => DropEarly
    case Sink => SinkIsEmpty
    case Enqueue => QueuePicture
    case Stopped => SerialTest
  }

  // How far it is from taking the next packet out of the queue.
  function StepsToFetch(s: State): nat {
    match s.pc
    case Fetch => if s.pending then 3 else 0
    case CheckSerial => 1
    case FlushCodec => 2
    case Top => 4
    case Receive => 4
    case Send => 5
    case Filter => 5
    case Sink => 5
    case Enqueue => 5
    case Stopped => 6
  }

  lemma OnwardGetsCloser(s: State, p: Packet)
    requires OnlyNew(s, p) && StepsToFetch(s) > 0
    ensures var t := Next(s, Onward(s));
            && OnlyNew(t, p) && StepsToFetch(t) < StepsToFetch(s)
            && t.shown == s.shown && t.mark == s.mark && t.q == s.q
  {}

  lemma {:induction false} OldIsLeft(s: State, p: Packet) returns (steps: seq<Step>)
    requires OnlyNew(s, p)
    ensures var t := RunFrom(s, steps);
            && OnlyNew(t, p) && t.pc.Fetch? && !t.pending && t.shown == s.shown && t.mark == s.mark && t.q == s.q
    decreases StepsToFetch(s)
  {
    if StepsToFetch(s) == 0 {
      steps := [];
    } else {
      OnwardGetsCloser(s, p);
      hide Next, OnlyNew, RunFrom;
      var rest := OldIsLeft(Next(s, Onward(s)), p);
      steps := [Onward(s)] + rest;
      OneStep(s, Onward(s), rest);
    }
  }

  // The packet goes to a flushed codec.
  lemma PacketIsSent(s: State, p: Packet)
    requires OnlyNew(s, p) && s.pc.Fetch? && !s.pending
    ensures var t := Next(Next(Next(Next(s, TakePacket), FlushBuffers), SerialRetest), SendPacket(true));
            t == s.(q := Queue([], false, s.q.serial), pkt := p, pktSerial := s.q.serial, codec := {p.num}, pc := Top)
  {
    assert {} + {p.num} == {p.num};
  }

  // The codec's frame passes the filter graph, which is set up anew, and is queued.
  lemma FrameIsQueued(s: State, n: nat)
    requires s.pc.Top? && s.pktSerial == s.q.serial && !s.q.aborted && s.codec == {n} && s.graphSerial != s.q.serial
    ensures var t := Next(Next(Next(s, SerialTest), CodecGivesFrame({n})), FilterFrame(false));
            var u := Next(Next(t, SinkGivesFrame({n})), QueuePicture);
            && u.pictures == s.pictures + [Picture({n}, s.q.serial)]
            && u.shown == s.shown && u.mark == s.mark && u.q == s.q
  {}

  function Refreshes(k: nat): seq<Step> { if k == 0 then [] else [Refresh] + Refreshes(k - 1) }

  // The display passes over the old pictures and shows the new one.
  lemma {:induction false} NewIsShown(s: State, v: Picture, k: nat)
    requires |s.pictures| == k + 1 && s.pictures[k] == v && v.serial == s.q.serial
    requires forall i | 0 <= i < k :: s.pictures[i].serial != s.q.serial
    ensures RunFrom(s, Refreshes(k + 1)).shown == s.shown + [(v, s.mark)]
    decreases k
  {
    var t := Next(s, Refresh);
    OneStep(s, Refresh, Refreshes(k));
    if k > 0 {
      assert t.shown == s.shown && t.pictures == s.pictures[1..];
      hide Next, RunFrom;
      NewIsShown(t, v, k - 1);
    } else {
      NoStep(t);
    }
  }

  lemma FiveSteps(s: State, a: Step, b: Step, c: Step, d: Step, e: Step, rest: seq<Step>)
    ensures RunFrom(s, [a, b, c, d, e] + rest) == RunFrom(Next(Next(Next(Next(Next(s, a), b), c), d), e), rest)
  {
    hide Next;
    var last := [a, b, c, d, e] + rest;
    assert last == [a] + ([b] + ([c] + ([d] + ([e] + rest))));
    OneStep(s, a, [b] + ([c] + ([d] + ([e] + rest))));
    OneStep(Next(s, a), b, [c] + ([d] + ([e] + rest)));
    OneStep(Next(Next(s, a), b), c, [d] + ([e] + rest));
    OneStep(Next(Next(Next(s, a), b), c), d, [e] + rest);
    OneStep(Next(Next(Next(Next(s, a), b), c), d), e, rest);
  }

  // From taking the new packet to its picture on the display.
  lemma NewPacketIsShown(s: State, p: Packet) returns (steps: seq<Step>)
    requires OnlyNew(s, p) && s.pc.Fetch? && !s.pending
    ensures RunFrom(s, steps).shown == s.shown + [(Picture({p.num}, s.q.serial), s.mark)]
  {
    var f, v := {p.num}, Picture({p.num}, s.q.serial);
    var sent := Next(Next(Next(Next(s, TakePacket), FlushBuffers), SerialRetest), SendPacket(true));
    PacketIsSent(s, p);
    FrameIsQueued(sent, p.num);
    var queued := Next(Next(Next(Next(Next(sent, SerialTest), CodecGivesFrame(f)), FilterFrame(false)),
                            SinkGivesFrame(f)), QueuePicture);
    assert forall i | 0 <= i < |s.pictures| :: queued.pictures[i] == s.pictures[i];
    var look := Refreshes(|s.pictures| + 1);
    var decode := [CodecGivesFrame(f), FilterFrame(false), SinkGivesFrame(f), QueuePicture];
    hide Next, Refreshes;
    NewIsShown(queued, v, |s.pictures|);
    FiveSteps(sent, SerialTest, CodecGivesFrame(f), FilterFrame(false), SinkGivesFrame(f), QueuePicture, look);
    var rest := [SerialTest, CodecGivesFrame(f), FilterFrame(false), SinkGivesFrame(f), QueuePicture] + look;
    FourSteps(s, TakePacket, FlushBuffers, SerialRetest, SendPacket(true), rest);
    steps := [TakePacket, FlushBuffers, SerialRetest, SendPacket(true)] + rest;
  }

  lemma FourSteps(s: State, a: Step, b: Step, c: Step, d: Step, rest: seq<Step>)
    ensures RunFrom(s, [a, b, c, d] + rest) == RunFrom(Next(Next(Next(Next(s, a), b), c), d), rest)
  {
    hide Next;
    assert [a, b, c, d] + rest == [a] + ([b] + ([c] + ([d] + rest)));
    OneStep(s, a, [b] + ([c] + ([d] + rest)));
    OneStep(Next(s, a), b, [c] + ([d] + rest));
    OneStep(Next(Next(s, a), b), c, [d] + rest);
    OneStep(Next(Next(Next(s, a), b), c), d, rest);
  }

  lemma SeekLeavesOnlyNew(steps: seq<Step>, size: nat, duration: nat)
    requires !Run(steps).q.aborted && !Run(steps).pc.Stopped?
    ensures var s, t := Run(steps), Next(Next(Run(steps), ReaderFlush), ReaderPut(size, duration));
            OnlyNew(t, Packet(s.puts, size, duration)) && t.shown == s.shown && t.mark == s.puts
  {
    RunKeepsInv(steps);
    AlwaysOneInHand(steps);
    var s := Run(steps);
    forall i | 0 <= i < |s.pictures| ensures s.pictures[i].serial <= s.q.serial {
      assert Tagged(s, s.pictures[i].sources, s.pictures[i].serial);
    }
  }

  // From every reachable state that is not stopped, a flush and one new packet can be followed by
  // steps that show a picture of this packet alone, and nothing else before it.
  lemma SeekCanBeShown(steps: seq<Step>, size: nat, duration: nat) returns (more: seq<Step>)
    requires !Run(steps).q.aborted && !Run(steps).pc.Stopped?
    ensures var s, t := Run(steps), Run(steps + [ReaderFlush, ReaderPut(size, duration)] + more);
            exists serial :: t.shown == s.shown + [(Picture({s.puts}, serial), s.puts)]
  {
    var s, seek := Run(steps), [ReaderFlush, ReaderPut(size, duration)];
    var p := Packet(s.puts, size, duration);
    var t := Next(Next(s, ReaderFlush), ReaderPut(size, duration));
    SeekLeavesOnlyNew(steps, size, duration);
    hide *;
    OneStep(s, ReaderFlush, [ReaderPut(size, duration)] + []);
    OneStep(Next(s, ReaderFlush), ReaderPut(size, duration), []);
    NoStep(t);
    assert [ReaderFlush] + ([ReaderPut(size, duration)] + []) == seek;
    Continues(steps, seek);
    var wait := OldIsLeft(t, p);
    var show := NewPacketIsShown(RunFrom(t, wait), p);
    more := wait + show;
    StepByStep(t, wait, show);
    Continues(steps + seek, more);
    assert Run(steps + seek + more).shown == s.shown + [(Picture({s.puts}, t.q.serial), s.puts)];
  }

  // ------------------------------------------------------------------ while playing

  // Between two pictures of one serial: the next packet is queued, nothing else is on its way.
  predicate Playing(s: State, p: Packet) {
    && s.q == Queue([Entry(p, s.q.serial)], false, s.q.serial) && s.pc.Sink? && !s.pending
    && s.pktSerial == s.q.serial == s.graphSerial && s.pictures == []
  }

  lemma NextIsSent(s: State, p: Packet)
    requires Playing(s, p)
    ensures var t := Next(Next(Next(s, SinkIsEmpty), SerialTest), CodecNeedsPacket);
            var u := Next(Next(Next(t, TakePacket), SerialRetest), SendPacket(true));
            u == s.(q := Queue([], false, s.q.serial), pkt := p, codec := s.codec + {p.num}, pc := Top)
  {}

  lemma NextIsFiltered(s: State, n: nat)
    requires s.pc.Top? && s.pktSerial == s.q.serial == s.graphSerial && !s.q.aborted && n in s.codec && s.pictures == []
    ensures var t := Next(Next(Next(s, SerialTest), CodecGivesFrame({n})), FilterFrame(false));
            var u := Next(Next(Next(t, SinkGivesFrame({n})), QueuePicture), Refresh);
            && u.shown == s.shown + [(Picture({n}, s.q.serial), s.mark)]
            && u.pc.Sink? && u.graph == s.graph + {n} && u.codec == s.codec && u.pictures == []
  {
    assert [Picture({n}, s.q.serial)][1..] == [];
  }

  // As long as the serial stays, the codec and the filter graph go on without being flushed or set
  // up anew, and the next packet can be followed by its picture.
  lemma PlayingGoesOn(s: State, p: Packet)
    requires Playing(s, p)
    ensures var t := RunFrom(s, SendSteps() + ShowSteps({p.num}));
            && t.shown == s.shown + [(Picture({p.num}, s.q.serial), s.mark)]
            && t.codec == s.codec + {p.num} && t.graph == s.graph + {p.num} && t.pc.Sink? && t.pictures == []
  {
    NextIsSent(s, p);
    var t := Next(Next(Next(s, SinkIsEmpty), SerialTest), CodecNeedsPacket);
    var u, f := Next(Next(Next(t, TakePacket), SerialRetest), SendPacket(true)), {p.num};
    NextIsFiltered(u, p.num);
    hide Next;
    SixSteps(s, SinkIsEmpty, SerialTest, CodecNeedsPacket, TakePacket, SerialRetest, SendPacket(true), ShowSteps(f));
    SixSteps(u, SerialTest, CodecGivesFrame(f), FilterFrame(false), SinkGivesFrame(f), QueuePicture, Refresh, []);
    assert ShowSteps(f) + [] == ShowSteps(f);
  }

  function SendSteps(): seq<Step> {
    [SinkIsEmpty, SerialTest, CodecNeedsPacket, TakePacket, SerialRetest, SendPacket(true)]
  }

  function ShowSteps(f: set<nat>): seq<Step> {
    [SerialTest, CodecGivesFrame(f), FilterFrame(false), SinkGivesFrame(f), QueuePicture, Refresh]
  }

  lemma SixSteps(s: State, a: Step, b: Step, c: Step, d: Step, e: Step, f: Step, rest: seq<Step>)
    ensures RunFrom(s, [a, b, c, d, e, f] + rest)
         == RunFrom(Next(Next(Next(Next(Next(Next(s, a), b), c), d), e), f), rest)
    ensures RunFrom(s, rest) == s || rest != []
  {
    hide Next;
    assert [a, b, c, d, e, f] + rest == [a, b, c, d, e] + ([f] + rest);
    FiveSteps(s, a, b, c, d, e, [f] + rest);
    OneStep(Next(Next(Next(Next(Next(s, a), b), c), d), e), f, rest);
  }

  // A stopped decoder that is opened again plays what is put after the next start.
  lemma ReopenedPlays(steps: seq<Step>, size: nat, duration: nat)
    requires Run(steps).pc.Stopped? && Run(steps).q.aborted
    ensures var s, t := Run(steps), Next(Next(Next(Run(steps), Reopen), ReaderStart), ReaderPut(size, duration));
            OnlyNew(t, Packet(s.puts, size, duration)) && t.shown == s.shown && t.mark == s.puts
  {
    RunKeepsInv(steps);
    var s := Run(steps);
    forall i | 0 <= i < |s.pictures| ensures s.pictures[i].serial <= s.q.serial {
      assert Tagged(s, s.pictures[i].sources, s.pictures[i].serial);
    }
  }

  // ------------------------------------------------------------------ after an abort

  // The steps the video thread can take where it stands, whatever codec and filters answer.
  predicate Moves(s: State, a: Step) {
    match s.pc
    case Top => a.SerialTest?
    case Receive => a.CodecNeedsPacket? || a.CodecIsDrained? || (a.CodecGivesFrame? && a.sources <= s.codec)
    case Fetch => a.TakePacket?
    case FlushCodec => a.FlushBuffers?
    case CheckSerial => a.SerialRetest?
    case Send => a.SendPacket?
    case Filter => a.DropEarly? || a.FilterFrame?
    case Sink => a.SinkIsEmpty? || (a.SinkGivesFrame? && a.sources <= s.graph)
    case Enqueue => a.QueuePicture?
    case Stopped => false
  }

  // A codec that has given its last frame is emptied, and no other frame is asked for before the
  // serial was tested again.
  lemma DrainedTestsAgain(s: State)
    requires s.pc.Receive? && !s.q.aborted
    ensures var t := Next(s, CodecIsDrained); t.codec == {} && forall a :: Moves(t, a) <==> a.SerialTest?
  {}

  // How many moves the video thread may still make once the queue is aborted.
  function MovesLeft(s: State): nat {
    var current := s.q.serial == s.pktSerial;
    match s.pc
    case Stopped => 0
    case Receive => 1
    case Enqueue => 1
    case Top => if current || !s.pending then 2 else 4
    case Fetch => if !s.pending then 1 else if current then 7 else 3
    case CheckSerial => if current then 6 else 2
    case FlushCodec => 7
    case Send => 5
    case Sink => 5
    case Filter => 6
  }

  lemma AbortedMoveIsCloser(s: State, a: Step)
    requires s.q.aborted && OneInHand(s) && Moves(s, a)
    ensures var t := Next(s, a); t.q.aborted && OneInHand(t) && MovesLeft(t) < MovesLeft(s)
  {}

  predicate AllMove(s: State, steps: seq<Step>)
    decreases |steps|
  {
    steps == [] || (Moves(s, steps[0]) && AllMove(Next(s, steps[0]), steps[1..]))
  }

  // Aborting the queue stops the video thread: wherever it stands and whatever codec and filters
  // answer, it makes at most seven more moves, and it can move until it has stopped.
  lemma {:induction false} AbortedThreadStops(s: State, steps: seq<Step>)
    requires s.q.aborted && OneInHand(s) && AllMove(s, steps)
    ensures |steps| <= MovesLeft(s) <= 7
    ensures RunFrom(s, steps).pc.Stopped? || exists a :: Moves(RunFrom(s, steps), a)
    decreases |steps|
  {
    if steps == [] {
      if !s.pc.Stopped? { assert Moves(s, Onward(s)); }
    } else {
      AbortedMoveIsCloser(s, steps[0]);
      hide Next, Moves, MovesLeft;
      AbortedThreadStops(Next(s, steps[0]), steps[1..]);
    }
  }

  lemma AbortStopsTheThread(front: seq<Step>, steps: seq<Step>)
    requires AllMove(Next(Run(front), AnyoneAborts), steps)
    ensures |steps| <= 7
    ensures var t := RunFrom(Next(Run(front), AnyoneAborts), steps); t.pc.Stopped? || exists a :: Moves(t, a)
  {
    AlwaysOneInHand(front);
    AbortedThreadStops(Next(Run(front), AnyoneAborts), steps);
  }
}
