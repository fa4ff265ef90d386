/** Seeking in ffplay: the reader, decoder and display threads of FFmpeg/fftools/ffplay.c as
    interleaved steps. Codec and filter graph are buffers of which only the packets they were fed
    with are known; a decoded picture may depend on any of these packets. */
module FfplayPipeline {
  import opened FfplayPacketQueue

  // Where the video thread stands: in decoder_decode_frame, or between it and queue_picture.
  datatype Pc = Top | Receive | Fetch | FlushCodec | CheckSerial | Send | Filter | Sink | Enqueue | Stopped

  // A picture with the packets it was decoded from and the serial it inherited.
  datatype Picture = Picture(sources: set<nat>, serial: int)

  datatype State = State(
    q: Queue,
    puts: nat,              // packets accepted so far
    mark: nat,              // packets accepted before the latest flush or start
    pc: Pc,
    pktSerial: int,         // d->pkt_serial
    pkt: Packet,            // d->pkt
    pending: bool,          // d->packet_pending
    codec: set<nat>,        // packets sent to the codec since it was last flushed
    frame: set<nat>,        // sources of the frame in hand
    graph: set<nat>,        // sources of the frames fed to the filter graph
    graphSerial: int,       // last_serial
    pictures: seq<Picture>, // pictq
    shown: seq<(Picture, nat)>,   // pictures that passed the display check, with the mark then
    skipped: seq<(Picture, nat)>) // pictures that failed it

  // One atomic step of some thread. The parameters resolve what the model leaves open.
  datatype Step =
    | ReaderPut(size: nat, duration: nat)
    | ReaderFlush
    | ReaderStart
    | AnyoneAborts
    | SerialTest                        // Top: does the queue still have the packet's serial?
    | CodecGivesFrame(sources: set<nat>)
    | CodecNeedsPacket
    | CodecIsDrained
    | TakePacket
    | FlushBuffers
    | SerialRetest
    | SendPacket(accepted: bool)
    | DropEarly
    | FilterFrame(rebuild: bool)
    | SinkGivesFrame(sources: set<nat>)
    | SinkIsEmpty
    | QueuePicture
    | Refresh
    | Reopen

  function Init(): State {
    State(Queue([], true, 0), 0, 0, Top, -1, Packet(0, 0, 0), false, {}, {}, {}, -1, [], [], [])
  }

  function Next(s: State, a: Step): State {
    match a
    case ReaderPut(size, duration) =>
      if s.q.aborted then s else s.(q := Put(s.q, Packet(s.puts, size, duration)), puts := s.puts + 1)
    case ReaderFlush => s.(q := Flush(s.q), mark := s.puts)
    case ReaderStart => s.(q := Start(s.q), mark := s.puts)
    case AnyoneAborts => s.(q := Abort(s.q))
    case SerialTest =>
      if s.pc.Top? then s.(pc := if s.q.serial == s.pktSerial then Receive else Fetch) else s
    case CodecGivesFrame(sources) =>
      if s.pc.Receive? && s.q.aborted then s.(pc := Stopped)
      else if s.pc.Receive? && sources <= s.codec then s.(pc := Filter, frame := sources)
      else s
    case CodecNeedsPacket =>
      if s.pc.Receive? && s.q.aborted then s.(pc := Stopped)
      else if s.pc.Receive? then s.(pc := Fetch) else s
    case CodecIsDrained =>
      if s.pc.Receive? && s.q.aborted then s.(pc := Stopped)
      else if s.pc.Receive? then s.(pc := Top, codec := {}) else s
    case TakePacket =>
      if !s.pc.Fetch? then s
      else if s.pending then s.(pending := false, pc := CheckSerial)
      else
        (match TryGet(s.q)
         case (Aborted, _) => s.(pc := Stopped)
         case (Empty, _) => s
         case (Got(e), q) =>
           s.(q := q, pkt := e.pkt, pktSerial := e.serial,
              pc := if e.serial != s.pktSerial then FlushCodec else CheckSerial))
    case FlushBuffers => if s.pc.FlushCodec? then s.(codec := {}, pc := CheckSerial) else s
    case SerialRetest =>
      if s.pc.CheckSerial? then s.(pc := if s.q.serial == s.pktSerial then Send else Fetch) else s
    case SendPacket(accepted) =>
      if !s.pc.Send? then s
      else if accepted then s.(codec := s.codec + {s.pkt.num}, pc := Top)
      else s.(pending := true, pc := Top)
    case DropEarly => if s.pc.Filter? then s.(pc := Top) else s
    case FilterFrame(rebuild) =>
      if !s.pc.Filter? then s
      else if rebuild || s.graphSerial != s.pktSerial then
        s.(graph := s.frame, graphSerial := s.pktSerial, pc := Sink)
      else s.(graph := s.graph + s.frame, pc := Sink)
    case SinkGivesFrame(sources) =>
      if s.pc.Sink? && sources <= s.graph then s.(frame := sources, pc := Enqueue) else s
    case SinkIsEmpty => if s.pc.Sink? then s.(pc := Top) else s
    case QueuePicture =>
      if !s.pc.Enqueue? then s
      else if s.q.aborted then s.(pc := Stopped)
      else
        s.(pictures := s.pictures + [Picture(s.frame, s.pktSerial)],
           pc := if s.q.serial != s.pktSerial then Top else Sink)
    case Refresh =>
      if s.pictures == [] then s
      else
        var vp := s.pictures[0];
        if vp.serial != s.q.serial then s.(pictures := s.pictures[1..], skipped := s.skipped + [(vp, s.mark)])
        else s.(pictures := s.pictures[1..], shown := s.shown + [(vp, s.mark)])
    case Reopen =>
      if s.pc.Stopped? && s.q.aborted then
        s.(q := Flush(s.q), mark := s.puts, pc := Top, pktSerial := -1, pending := false,
           codec := {}, frame := {}, graph := {}, graphSerial := -1)
      else s
  }

  function Run(steps: seq<Step>): State
    decreases |steps|
  {
    if steps == [] then Init() else Next(Run(steps[..|steps| - 1]), steps[|steps| - 1])
  }

  // ------------------------------------------------------------------ the invariant

  // What a serial says about packets: the current serial stands for those queued since the latest
  // flush or start, an older one for packets queued before it.
  ghost predicate Tagged(s: State, nums: set<nat>, serial: int) {
    serial <= s.q.serial
    && if serial == s.q.serial then forall n | n in nums :: s.mark <= n < s.puts
       else forall n | n in nums :: n < s.mark
  }

  // What waits in the packet queue and in the picture queue.
  ghost predicate QueuesTagged(s: State) {
    && s.mark <= s.puts && 0 <= s.q.serial
    && (forall i | 0 <= i < |s.q.list| :: Tagged(s, {s.q.list[i].pkt.num}, s.q.list[i].serial))
    && (forall i | 0 <= i < |s.pictures| :: Tagged(s, s.pictures[i].sources, s.pictures[i].serial))
  }

  // What the video thread, its codec and its filter graph hold.
  ghost predicate ThreadTagged(s: State) {
    && Tagged(s, {}, s.pktSerial)
    && (s.pc.FlushCodec? || s.pc.CheckSerial? || s.pc.Send? || s.pending ==> Tagged(s, {s.pkt.num}, s.pktSerial))
    && (!s.pc.FlushCodec? ==> Tagged(s, s.codec, s.pktSerial))
    && (s.pc.Filter? || s.pc.Sink? || s.pc.Enqueue? ==> Tagged(s, s.frame, s.pktSerial))
    && Tagged(s, s.graph, s.graphSerial)
    && (s.pc.Sink? || s.pc.Enqueue? ==> s.graphSerial == s.pktSerial)
  }

  // Everything in flight carries the serial of the packets it comes from.
  ghost predicate Inv(s: State) { QueuesTagged(s) && ThreadTagged(s) }

  lemma PutKeepsInv(s: State, a: Step)
    requires Inv(s) && a.ReaderPut?
    ensures Inv(Next(s, a))
  {
    var t := Next(s, a);
    forall nums, serial | Tagged(s, nums, serial) ensures Tagged(t, nums, serial) {}
  }

  // A flush or start makes every packet queued so far old, whatever its serial was.
  lemma NewSerialKeepsInv(s: State, a: Step)
    requires Inv(s) && (a.ReaderFlush? || a.ReaderStart? || a.Reopen? || a.AnyoneAborts?)
    ensures Inv(Next(s, a))
  {
    var t := Next(s, a);
    if !a.AnyoneAborts? && t.q.serial == s.q.serial + 1 {
      forall nums, serial | Tagged(s, nums, serial) ensures Tagged(t, nums, serial) {}
    }
  }

  lemma FetchKeepsInv(s: State, a: Step)
    requires Inv(s) && a.TakePacket?
    ensures Inv(Next(s, a))
  {}

  predicate CodecStep(a: Step) {
    a.SerialTest? || a.CodecGivesFrame? || a.CodecNeedsPacket? || a.CodecIsDrained?
  }

  predicate SendStep(a: Step) { a.FlushBuffers? || a.SerialRetest? || a.SendPacket? }

  // The video thread does not touch the queues before it delivers a picture.
  lemma QueuesAreKept(s: State, t: State)
    requires QueuesTagged(s) && t.q == s.q && t.mark == s.mark && t.puts == s.puts && t.pictures == s.pictures
    ensures QueuesTagged(t)
  {
    forall i | 0 <= i < |s.q.list| ensures Tagged(t, {s.q.list[i].pkt.num}, s.q.list[i].serial) {
      assert Tagged(s, {s.q.list[i].pkt.num}, s.q.list[i].serial);
    }
    forall i | 0 <= i < |s.pictures| ensures Tagged(t, s.pictures[i].sources, s.pictures[i].serial) {
      assert Tagged(s, s.pictures[i].sources, s.pictures[i].serial);
    }
  }

  lemma CodecKeepsInv(s: State, a: Step)
    requires Inv(s) && CodecStep(a)
    ensures Inv(Next(s, a))
  {
    QueuesAreKept(s, Next(s, a));
    hide QueuesTagged;
  }

  lemma SendKeepsInv(s: State, a: Step)
    requires Inv(s) && SendStep(a)
    ensures Inv(Next(s, a))
  {
    QueuesAreKept(s, Next(s, a));
    hide QueuesTagged;
  }

  predicate FilterStep(a: Step) { a.DropEarly? || a.FilterFrame? || a.SinkGivesFrame? || a.SinkIsEmpty? }

  lemma FilterKeepsInv(s: State, a: Step)
    requires Inv(s) && FilterStep(a)
    ensures Inv(Next(s, a))
  {
    QueuesAreKept(s, Next(s, a));
    hide QueuesTagged;
  }

  lemma PictureKeepsInv(s: State, a: Step)
    requires Inv(s) && (a.QueuePicture? || a.Refresh?)
    ensures Inv(Next(s, a))
  {}

  // Every step of every thread keeps the invariant.
  lemma StepKeepsInv(s: State, a: Step)
    requires Inv(s)
    ensures Inv(Next(s, a))
  {
    hide Inv, Next;
    if a.ReaderPut? { PutKeepsInv(s, a); }
    else if a.TakePacket? { FetchKeepsInv(s, a); }
    else if CodecStep(a) { CodecKeepsInv(s, a); }
    else if SendStep(a) { SendKeepsInv(s, a); }
    else if a.ReaderFlush? || a.ReaderStart? || a.Reopen? || a.AnyoneAborts? { NewSerialKeepsInv(s, a); }
    else if FilterStep(a) { FilterKeepsInv(s, a); }
    else { PictureKeepsInv(s, a); }
  }

  lemma {:induction false} RunKeepsInv(steps: seq<Step>)
    ensures Inv(Run(steps))
    decreases |steps|
  {
    if steps != [] {
      RunKeepsInv(steps[..|steps| - 1]);
      StepKeepsInv(Run(steps[..|steps| - 1]), steps[|steps| - 1]);
    }
  }

  // ------------------------------------------------------------------ what the display shows

  ghost predicate Fresh(p: (Picture, nat)) { forall n | n in p.0.sources :: p.1 <= n }
  ghost predicate Stale(p: (Picture, nat)) { forall n | n in p.0.sources :: n < p.1 }

  lemma OnlyRefreshShows(s: State, a: Step)
    ensures !a.Refresh? ==> Next(s, a).shown == s.shown && Next(s, a).skipped == s.skipped
  {}

  // In every interleaving a picture that passes the display check was decoded only from packets
  // queued since the latest flush or start, and a picture that fails it only from older packets.
  lemma {:induction false} DisplayIsSeekSafe(steps: seq<Step>)
    ensures forall i | 0 <= i < |Run(steps).shown| :: Fresh(Run(steps).shown[i])
    ensures forall i | 0 <= i < |Run(steps).skipped| :: Stale(Run(steps).skipped[i])
    decreases |steps|
  {
    if steps != [] {
      var front := steps[..|steps| - 1];
      DisplayIsSeekSafe(front);
      RunKeepsInv(front);
      var s, a := Run(front), steps[|steps| - 1];
      hide Next, QueuesTagged, ThreadTagged, Fresh, Stale;
      if !a.Refresh? { OnlyRefreshShows(s, a); }
    }
  }

  // The decoder goes on to send a packet exactly if it was queued since the latest flush or start,
  // and throws it away otherwise.
  lemma DroppedPacketsAreStale(steps: seq<Step>)
    requires Run(steps).pc.CheckSerial?
    ensures var s := Run(steps);
            Next(s, SerialRetest).pc == if s.mark <= s.pkt.num then Send else Fetch
  {
    RunKeepsInv(steps);
    assert Tagged(Run(steps), {Run(steps).pkt.num}, Run(steps).pktSerial);
  }
}
