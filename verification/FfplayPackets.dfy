/** Where the packets of FfplayPipeline go: every accepted packet is sent to the codec or thrown
    away, in order, unless a flush or the end of the decoder takes it. */
module FfplayPackets {
  import opened FfplayPacketQueue
  import opened FfplayPipeline

  // What became of a packet; mark counts the packets accepted before the latest flush or start.
  datatype Handled = Sent(num: nat) | Thrown(num: nat, mark: nat)

  // What a step does with the packet in hand: the codec takes it, or it fails the serial test.
  function HandledBy(s: State, a: Step): seq<Handled> {
    if a.SendPacket? && a.accepted && s.pc.Send? then [Sent(s.pkt.num)]
    else if a.SerialRetest? && s.pc.CheckSerial? && !Next(s, a).pc.Send? then [Thrown(s.pkt.num, s.mark)]
    else []
  }

  // The packet in hand, or refused by the codec and pending.
  function InHand(s: State): seq<nat> {
    if s.pc.FlushCodec? || s.pc.CheckSerial? || s.pc.Send? || s.pending then [s.pkt.num] else []
  }

  function Queued(list: seq<Entry>): seq<nat> { seq(|list|, i requires 0 <= i < |list| => list[i].pkt.num) }

  function Nums(hs: seq<Handled>): seq<nat> { seq(|hs|, i requires 0 <= i < |hs| => hs[i].num) }

  // The decoder is closed, and opened again on a new stream.
  predicate Closes(s: State, a: Step) { a.Reopen? && s.pc.Stopped? && s.q.aborted }

  // The packets a step removes without anybody having handled them.
  function LostBy(s: State, a: Step): seq<nat> {
    if a.ReaderFlush? then Queued(s.q.list)
    else if Closes(s, a) then InHand(s) + Queued(s.q.list)
    else []
  }

  function HandledIn(steps: seq<Step>): seq<Handled>
    decreases |steps|
  {
    if steps == [] then []
    else
      var front := steps[..|steps| - 1];
      HandledIn(front) + HandledBy(Run(front), steps[|steps| - 1])
  }

  function LostIn(steps: seq<Step>): seq<nat>
    decreases |steps|
  {
    if steps == [] then []
    else
      var front := steps[..|steps| - 1];
      LostIn(front) + LostBy(Run(front), steps[|steps| - 1])
  }

  // All packets that were not lost: handled, in hand, queued.
  function Kept(s: State, hs: seq<Handled>): seq<nat> { Nums(hs) + InHand(s) + Queued(s.q.list) }

  ghost predicate Increasing(ns: seq<nat>) { forall i, k | 0 <= i < k < |ns| :: ns[i] < ns[k] }

  // Every packet accepted so far is in exactly one of two lists, and the first is in order.
  ghost predicate Account(puts: nat, kept: seq<nat>, lost: seq<nat>) {
    && Increasing(kept)
    && (forall n | n in kept || n in lost :: n < puts)
    && (forall n | n in kept :: n !in lost)
    && (forall n: nat | n < puts :: n in kept || n in lost)
  }

  lemma QueuedAppend(list: seq<Entry>, e: Entry)
    ensures Queued(list + [e]) == Queued(list) + [e.pkt.num]
  {}

  lemma NumsAppend(hs: seq<Handled>, h: Handled)
    ensures Nums(hs + [h]) == Nums(hs) + [h.num] && Nums(hs + []) == Nums(hs)
  {}

  lemma AccountPut(puts: nat, kept: seq<nat>, lost: seq<nat>)
    requires Account(puts, kept, lost)
    ensures Account(puts + 1, kept + [puts], lost)
  {
    forall i | 0 <= i < |kept| ensures kept[i] < puts { assert kept[i] in kept; }
    forall n | n in kept + [puts] ensures n < puts + 1 && n !in lost {
      assert n in kept || n == puts;
    }
    forall n: nat | n < puts + 1 ensures n in kept + [puts] || n in lost {
      assert n == puts ==> (kept + [puts])[|kept|] == n;
      assert n < puts ==> n in kept || n in lost;
    }
  }

  lemma AccountLose(puts: nat, kept: seq<nat>, gone: seq<nat>, lost: seq<nat>)
    requires Account(puts, kept + gone, lost)
    ensures Account(puts, kept, lost + gone)
  {
    var all := kept + gone;
    forall i, k | 0 <= i < k < |kept| ensures kept[i] < kept[k] { assert all[i] < all[k]; }
    forall n | n in kept ensures n !in gone && n in all {
      var i :| 0 <= i < |kept| && kept[i] == n;
      assert all[i] == n;
      forall k | 0 <= k < |gone| ensures gone[k] != n { assert all[i] < all[|kept| + k]; }
    }
    forall n | n in gone ensures n in all {
      var k :| 0 <= k < |gone| && gone[k] == n;
      assert all[|kept| + k] == n;
    }
  }

  // A packet that the codec refused is not in hand at the same time.
  predicate OneInHand(s: State) { s.pc.FlushCodec? || s.pc.CheckSerial? || s.pc.Send? ==> !s.pending }

  lemma {:induction false} AlwaysOneInHand(steps: seq<Step>)
    ensures OneInHand(Run(steps))
    decreases |steps|
  {
    if steps != [] { AlwaysOneInHand(steps[..|steps| - 1]); }
  }

  // A step moves packets along, and only a flush or the end of the decoder loses any.
  lemma StepKeepsAccount(s: State, a: Step, hs: seq<Handled>, lost: seq<nat>)
    requires Account(s.puts, Kept(s, hs), lost) && OneInHand(s)
    ensures var t := Next(s, a); Account(t.puts, Kept(t, hs + HandledBy(s, a)), lost + LostBy(s, a))
  {
    assert hs + [] == hs && lost + [] == lost;
    hide Account;
    if a.ReaderPut? {
      PutMoves(s, a, hs, lost);
    } else if a.ReaderFlush? || Closes(s, a) {
      LossMoves(s, a, hs, lost);
    } else {
      ThreadMoves(s, a, hs);
    }
  }

  lemma PutMoves(s: State, a: Step, hs: seq<Handled>, lost: seq<nat>)
    requires Account(s.puts, Kept(s, hs), lost) && a.ReaderPut?
    ensures Account(Next(s, a).puts, Kept(Next(s, a), hs), lost)
  {
    if !s.q.aborted {
      AccountPut(s.puts, Kept(s, hs), lost);
      QueuedAppend(s.q.list, Entry(Packet(s.puts, a.size, a.duration), s.q.serial));
      hide Account, Queued;
      assert Kept(Next(s, a), hs) == Kept(s, hs) + [s.puts];
    }
  }

  lemma LossMoves(s: State, a: Step, hs: seq<Handled>, lost: seq<nat>)
    requires Account(s.puts, Kept(s, hs), lost) && (a.ReaderFlush? || Closes(s, a))
    ensures Account(Next(s, a).puts, Kept(Next(s, a), hs), lost + LostBy(s, a))
  {
    var t := Next(s, a);
    assert Queued(t.q.list) == [];
    hide Account, Queued, Nums;
    if a.ReaderFlush? {
      AccountLose(s.puts, Nums(hs) + InHand(s), Queued(s.q.list), lost);
      assert Kept(t, hs) == Nums(hs) + InHand(s);
    } else {
      assert Kept(s, hs) == Nums(hs) + (InHand(s) + Queued(s.q.list));
      AccountLose(s.puts, Nums(hs), InHand(s) + Queued(s.q.list), lost);
      assert Kept(t, hs) == Nums(hs);
    }
  }

  lemma ThreadMoves(s: State, a: Step, hs: seq<Handled>)
    requires !a.ReaderPut? && !a.ReaderFlush? && !Closes(s, a) && OneInHand(s)
    ensures Next(s, a).puts == s.puts && Kept(Next(s, a), hs + HandledBy(s, a)) == Kept(s, hs)
  {
    if a.TakePacket? {
      TakeMoves(s, hs);
    } else {
      HandMoves(s, a);
      var t := Next(s, a);
      hide Next, Queued, InHand;
      if HandledBy(s, a) == [] {
        assert hs + [] == hs;
      } else {
        NumsAppend(hs, HandledBy(s, a)[0]);
        hide Nums;
        assert Nums(hs) + [s.pkt.num] + [] == Nums(hs) + [s.pkt.num];
      }
    }
  }

  lemma TakeMoves(s: State, hs: seq<Handled>)
    requires OneInHand(s)
    ensures Next(s, TakePacket).puts == s.puts
    ensures Kept(Next(s, TakePacket), hs + HandledBy(s, TakePacket)) == Kept(s, hs)
  {
    assert hs + [] == hs;
    if s.pc.Fetch? && !s.pending && !s.q.aborted && s.q.list != [] {
      var n, rest := s.q.list[0].pkt.num, s.q.list[1..];
      assert Queued(s.q.list) == [n] + Queued(rest);
      hide Queued, Nums;
      assert Nums(hs) + [] + ([n] + Queued(rest)) == Nums(hs) + [n] + Queued(rest);
    } else {
      hide Queued, Nums;
    }
  }

  // What the packet in hand becomes: it stays in hand, or it is handled.
  lemma HandMoves(s: State, a: Step)
    requires !a.ReaderPut? && !a.ReaderFlush? && !a.TakePacket? && !Closes(s, a) && OneInHand(s)
    ensures var t := Next(s, a);
            && t.puts == s.puts && t.q.list == s.q.list
            && if HandledBy(s, a) == [] then InHand(t) == InHand(s)
               else |HandledBy(s, a)| == 1 && HandledBy(s, a)[0].num == s.pkt.num
                    && InHand(s) == [s.pkt.num] && InHand(t) == []
  {}

  // In every run the accepted packets, in order, are those sent or thrown away, then the one in
  // hand or pending, then those queued; apart from them only flushes and ends of the decoder took any.
  lemma {:induction false} PacketsAreConserved(steps: seq<Step>)
    ensures Account(Run(steps).puts, Kept(Run(steps), HandledIn(steps)), LostIn(steps))
    decreases |steps|
  {
    if steps != [] {
      var front := steps[..|steps| - 1];
      PacketsAreConserved(front);
      AlwaysOneInHand(front);
      StepKeepsAccount(Run(front), steps[|steps| - 1], HandledIn(front), LostIn(front));
      hide Account, Next, Kept, HandledBy, LostBy;
    }
  }

  // A packet is thrown away only if it was queued before the flush or start that was the latest then.
  lemma {:induction false} ThrownIsStale(steps: seq<Step>, k: nat)
    requires k < |HandledIn(steps)| && HandledIn(steps)[k].Thrown?
    ensures HandledIn(steps)[k].num < HandledIn(steps)[k].mark <= Run(steps).mark
    decreases |steps|
  {
    var front, a := steps[..|steps| - 1], steps[|steps| - 1];
    MarkGrows(front, a);
    if k < |HandledIn(front)| {
      ThrownIsStale(front, k);
    } else {
      DroppedPacketsAreStale(front);
    }
  }

  lemma MarkGrows(steps: seq<Step>, a: Step)
    ensures Next(Run(steps), a).mark >= Run(steps).mark
  {
    RunKeepsInv(steps);
  }

  // ------------------------------------------------------------------ what the codec holds

  // The packets sent since the codec was last flushed or drained.
  function SentSinceFlush(steps: seq<Step>): set<nat>
    decreases |steps|
  {
    if steps == [] then {}
    else
      var front, a := steps[..|steps| - 1], steps[|steps| - 1];
      var s := Run(front);
      if a.SendPacket? && a.accepted && s.pc.Send? then SentSinceFlush(front) + {s.pkt.num}
      else if (a.FlushBuffers? && s.pc.FlushCodec?) || (a.CodecIsDrained? && s.pc.Receive? && !s.q.aborted)
              || Closes(s, a) then {}
      else SentSinceFlush(front)
  }

  lemma {:induction false} CodecHoldsSent(steps: seq<Step>)
    ensures Run(steps).codec == SentSinceFlush(steps)
    decreases |steps|
  {
    if steps != [] {
      var front, a := steps[..|steps| - 1], steps[|steps| - 1];
      CodecHoldsSent(front);
      StepChangesCodec(Run(front), a);
      hide Next;
    }
  }

  lemma StepChangesCodec(s: State, a: Step)
    ensures Next(s, a).codec ==
            if a.SendPacket? && a.accepted && s.pc.Send? then s.codec + {s.pkt.num}
            else if (a.FlushBuffers? && s.pc.FlushCodec?) || (a.CodecIsDrained? && s.pc.Receive? && !s.q.aborted)
                    || Closes(s, a) then {}
            else s.codec
  {}

  // ------------------------------------------------------------------ frames and pictures

  // The sources of the frame that the codec gave last,
  function GivenByCodec(steps: seq<Step>): set<nat>
    decreases |steps|
  {
    if steps == [] then {}
    else
      var front, a := steps[..|steps| - 1], steps[|steps| - 1];
      var s := Run(front);
      if a.CodecGivesFrame? && s.pc.Receive? && !s.q.aborted && a.sources <= s.codec then a.sources
      else GivenByCodec(front)
  }

  // ... and of the one that the filter graph gave last.
  function GivenBySink(steps: seq<Step>): set<nat>
    decreases |steps|
  {
    if steps == [] then {}
    else
      var front, a := steps[..|steps| - 1], steps[|steps| - 1];
      var s := Run(front);
      if a.SinkGivesFrame? && s.pc.Sink? && a.sources <= s.graph then a.sources else GivenBySink(front)
  }

  // The sources of the frames fed to the filter graph since it was set up.
  function FedSinceBuild(steps: seq<Step>): set<nat>
    decreases |steps|
  {
    if steps == [] then {}
    else
      var front, a := steps[..|steps| - 1], steps[|steps| - 1];
      var s := Run(front);
      if Closes(s, a) then {}
      else if !(a.FilterFrame? && s.pc.Filter?) then FedSinceBuild(front)
      else if a.rebuild || s.graphSerial != s.pktSerial then GivenByCodec(front)
      else FedSinceBuild(front) + GivenByCodec(front)
  }

  // The pictures handed to the display, each with what the filter graph gave for it.
  function Enqueued(steps: seq<Step>): seq<Picture>
    decreases |steps|
  {
    if steps == [] then []
    else
      var front, a := steps[..|steps| - 1], steps[|steps| - 1];
      var s := Run(front);
      Enqueued(front)
      + if a.QueuePicture? && s.pc.Enqueue? && !s.q.aborted then [Picture(GivenBySink(front), s.pktSerial)] else []
  }

  // The pictures the display has taken, shown or not.
  function TakenToDisplay(steps: seq<Step>): seq<Picture>
    decreases |steps|
  {
    if steps == [] then []
    else
      var front, a := steps[..|steps| - 1], steps[|steps| - 1];
      TakenToDisplay(front) + if a.Refresh? && Run(front).pictures != [] then [Run(front).pictures[0]] else []
  }

  // What a step does to frames, filter graph and pictures.
  lemma StepMovesFrames(s: State, a: Step)
    ensures var t := Next(s, a);
            && (t.pc.Filter? ==> t.frame == if a.CodecGivesFrame? && s.pc.Receive? then a.sources else s.frame)
            && (t.pc.Filter? ==>
                  s.pc.Filter? || (a.CodecGivesFrame? && s.pc.Receive? && !s.q.aborted && a.sources <= s.codec))
            && (t.pc.Enqueue? ==> t.frame == if a.SinkGivesFrame? && s.pc.Sink? then a.sources else s.frame)
            && (t.pc.Enqueue? ==> s.pc.Enqueue? || (a.SinkGivesFrame? && s.pc.Sink? && a.sources <= s.graph))
            && t.graph == (if Closes(s, a) then {}
                           else if !(a.FilterFrame? && s.pc.Filter?) then s.graph
                           else if a.rebuild || s.graphSerial != s.pktSerial then s.frame
                           else s.graph + s.frame)
  {}

  // The filter graph holds exactly what it was fed since it was set up, and frames on their way are
  // those given last.
  lemma {:induction false} GraphHoldsFed(steps: seq<Step>)
    ensures Run(steps).graph == FedSinceBuild(steps)
    ensures Run(steps).pc.Filter? ==> Run(steps).frame == GivenByCodec(steps)
    ensures Run(steps).pc.Enqueue? ==> Run(steps).frame == GivenBySink(steps)
    decreases |steps|
  {
    if steps != [] {
      var front := steps[..|steps| - 1];
      GraphHoldsFed(front);
      StepMovesFrames(Run(front), steps[|steps| - 1]);
      hide Next;
    }
  }

  lemma StepMovesPictures(s: State, a: Step)
    ensures var t := Next(s, a);
            if a.Refresh? then
              && (s.pictures == [] ==> t.pictures == [] && |t.shown| + |t.skipped| == |s.shown| + |s.skipped|)
              && (s.pictures != [] ==> t.pictures == s.pictures[1..]
                                       && |t.shown| + |t.skipped| == |s.shown| + |s.skipped| + 1)
            else
              && t.shown == s.shown && t.skipped == s.skipped
              && t.pictures == s.pictures + if a.QueuePicture? && s.pc.Enqueue? && !s.q.aborted
                                            then [Picture(s.frame, s.pktSerial)] else []
  {
    assert s.pictures + [] == s.pictures;
  }

  // Every picture handed over is taken by the display, in order, and either shown or skipped.
  lemma {:induction false} PicturesAreConserved(steps: seq<Step>)
    ensures Enqueued(steps) == TakenToDisplay(steps) + Run(steps).pictures
    ensures |TakenToDisplay(steps)| == |Run(steps).shown| + |Run(steps).skipped|
    decreases |steps|
  {
    if steps == [] {
      assert TakenToDisplay(steps) + Run(steps).pictures == [];
    } else {
      var front, a := steps[..|steps| - 1], steps[|steps| - 1];
      PicturesAreConserved(front);
      GraphHoldsFed(front);
      StepMovesPictures(Run(front), a);
      hide Next;
      var s, taken := Run(front), TakenToDisplay(front);
      if a.Refresh? && s.pictures != [] {
        assert taken + s.pictures == taken + [s.pictures[0]] + s.pictures[1..];
      } else {
        assert taken + [] == taken && Enqueued(front) + [] == Enqueued(front);
      }
    }
  }

  // Nothing is accepted before the queue was started.
  lemma {:induction false} NothingBeforeStart(steps: seq<Step>)
    requires forall i | 0 <= i < |steps| :: !steps[i].ReaderStart?
    ensures Run(steps).q.aborted && Run(steps).puts == 0
    decreases |steps|
  {
    if steps != [] { NothingBeforeStart(steps[..|steps| - 1]); }
  }
}
