/** The muxing side of FFmpeg/fftools/ffmpeg_mux.c: of_write_packet and of_check_init, with the
    initialisation order of FFmpeg/fftools/ffmpeg.c. Packets wait in per-stream queues until the
    header is written, then leave with repaired timestamps. */
module FfmpegMux {

  // AV_NOPTS_VALUE, the smallest 64-bit integer, marks a missing timestamp.
  const NOPTS: int := -0x8000_0000_0000_0000
  type Ts = x: int | x >= NOPTS witness 0
  type TimeBase = nat

  datatype Media = Video | Audio | Subtitle | Other
  datatype Packet = Packet(id: nat, pts: Ts, dts: Ts, size: nat)

  // What is fixed per stream: encoded or copied, frame limit, queue limits, container time base.
  datatype StreamConfig = StreamConfig(
    media: Media, encoded: bool, vsyncDrop: bool, maxFrames: int, stTb: TimeBase, threshold: nat, maxQueue: nat)

  // Flags of the format and the program; rescale stands for av_rescale_q on present timestamps.
  datatype FileConfig = FileConfig(
    noTimestamps: bool, nonStrict: bool, asyncNegative: bool, exitOnError: bool,
    rescale: (Ts, TimeBase, TimeBase) -> Ts)

  // accepted lists the packets taken so far; the counters are the source's own.
  datatype OStream = OStream(
    c: StreamConfig, initialized: bool, frameNumber: int, queue: seq<Packet>, capacity: nat, queueBytes: int,
    muxTb: TimeBase, lastDts: Ts, written: nat, accepted: seq<Packet>)

  datatype Event = Header | Muxed(stream: nat, pkt: Packet)
  datatype File = File(streams: seq<OStream>, headerWritten: bool, log: seq<Event>, exited: bool)

  // ------------------------------------------------------------------ timestamp repair

  function Min(a: int, b: int): int { if a < b then a else b }
  function Max(a: int, b: int): int { if a > b then a else b }

  // The replacement for a packet whose dts lies behind its pts.
  function Guess(pts: Ts, dts: Ts, last: Ts): (g: Ts) {
    GuessIsMedian(pts, dts, last);
    pts + dts + last + 1 - Min(pts, Min(dts, last + 1)) - Max(pts, Max(dts, last + 1))
  }

  predicate IsMedian(m: int, a: int, b: int, c: int) {
    (m == a && (b <= a <= c || c <= a <= b)) || (m == b && (a <= b <= c || c <= b <= a))
    || (m == c && (a <= c <= b || b <= c <= a))
  }

  lemma GuessIsMedian(pts: Ts, dts: Ts, last: Ts)
    ensures var g := pts + dts + last + 1 - Min(pts, Min(dts, last + 1)) - Max(pts, Max(dts, last + 1));
            IsMedian(g, pts, dts, last + 1) && g >= NOPTS
  {}

  function Monotone(m: Media): bool { !m.Other? }

  // Timestamps on the container's time base, or none for streams that drop them.
  function Rescaled(c: FileConfig, s: OStream, p: Packet): Packet {
    if (s.c.media.Video? && s.c.vsyncDrop) || (s.c.media.Audio? && c.asyncNegative) then p.(pts := NOPTS, dts := NOPTS)
    else p.(pts := if p.pts == NOPTS then NOPTS else c.rescale(p.pts, s.muxTb, s.c.stTb),
            dts := if p.dts == NOPTS then NOPTS else c.rescale(p.dts, s.muxTb, s.c.stTb))
  }

  function Ordered(p: Packet, last: Ts): Packet {
    if p.dts != NOPTS && p.pts != NOPTS && p.dts > p.pts then
      p.(pts := Guess(p.pts, p.dts, last), dts := Guess(p.pts, p.dts, last))
    else p
  }

  function Earliest(c: FileConfig, last: Ts): Ts { if c.nonStrict then last else last + 1 }

  predicate TooEarly(c: FileConfig, s: OStream, p: Packet) {
    Monotone(s.c.media) && p.dts != NOPTS && s.lastDts != NOPTS && p.dts < Earliest(c, s.lastDts)
  }

  function Delayed(p: Packet, earliest: Ts): Packet {
    p.(pts := if p.pts >= p.dts then Max(p.pts, earliest) else p.pts, dts := earliest)
  }

  function Repaired(c: FileConfig, s: OStream, p: Packet): Packet {
    var q := Rescaled(c, s, p);
    if c.noTimestamps then q
    else
      var r := Ordered(q, s.lastDts);
      if TooEarly(c, s, r) then Delayed(r, Earliest(c, s.lastDts)) else r
  }

  // The container keeps no timestamps of this stream.
  predicate Stampless(c: FileConfig, s: OStream) {
    (s.c.media == Video && s.c.vsyncDrop) || (s.c.media == Audio && c.asyncNegative)
  }

  // A packet whose stamps are in order leaves with each of them taken from the stream's time base
  // to the container's, or missing as before.
  lemma GoodPacketsPass(c: FileConfig, s: OStream, p: Packet, pts: Ts, dts: Ts)
    requires !Stampless(c, s)
    requires pts == if p.pts == NOPTS then NOPTS else c.rescale(p.pts, s.muxTb, s.c.stTb)
    requires dts == if p.dts == NOPTS then NOPTS else c.rescale(p.dts, s.muxTb, s.c.stTb)
    requires dts == NOPTS || pts == NOPTS || dts <= pts
    requires dts == NOPTS || s.lastDts == NOPTS || s.lastDts + (if c.nonStrict then 0 else 1) <= dts
    ensures Repaired(c, s, p) == Packet(p.id, pts, dts, p.size)
  {}

  // A packet of a stream without timestamps leaves without any.
  lemma StampsAreDropped(c: FileConfig, s: OStream, p: Packet)
    requires Stampless(c, s)
    ensures Repaired(c, s, p) == Packet(p.id, NOPTS, NOPTS, p.size)
  {}

  // What leaves for a format with timestamps: pts never before dts, dts behind the previous one.
  lemma RepairedIsLegal(c: FileConfig, s: OStream, p: Packet)
    requires !c.noTimestamps
    ensures var r := Repaired(c, s, p);
            && (r.dts != NOPTS && r.pts != NOPTS ==> r.dts <= r.pts)
            && (Monotone(s.c.media) && r.dts != NOPTS && s.lastDts != NOPTS ==> Earliest(c, s.lastDts) <= r.dts)
            && r.id == p.id && r.size == p.size
  {
    var q := Rescaled(c, s, p);
    GuessIsMedian(q.pts, q.dts, s.lastDts);
  }

  // ------------------------------------------------------------------ one call

  predicate Counted(s: OStream) { !(s.c.media.Video? && s.c.encoded) }

  function Exit(f: File): File { f.(exited := true) }

  function With(f: File, i: nat, s: OStream): File
    requires i < |f.streams|
  {
    f.(streams := f.streams[i := s])
  }

  // The capacity a full queue grows to; no growth means the program gives up.
  function Grown(s: OStream, p: Packet): int {
    var size := |s.queue|;
    if s.queueBytes + p.size > s.c.threshold then Min(2 * size, s.c.maxQueue) else 2 * size
  }

  predicate IsStuck(s: OStream, p: Packet) { |s.queue| == s.capacity && Grown(s, p) <= |s.queue| }

  function Queued(s: OStream, p: Packet): OStream
    requires !IsStuck(s, p)
  {
    s.(capacity := if |s.queue| == s.capacity then Grown(s, p) else s.capacity,
       queue := s.queue + [p], queueBytes := s.queueBytes + p.size)
  }

  function Enqueue(f: File, i: nat, p: Packet): File
    requires i < |f.streams|
  {
    var s := f.streams[i];
    if IsStuck(s, p) then Exit(f) else With(f, i, Queued(s, p))
  }

  // The program ends here if it was told to stop at the first error.
  predicate Aborts(c: FileConfig, s: OStream, p: Packet) {
    c.exitOnError && !c.noTimestamps && TooEarly(c, s, Ordered(Rescaled(c, s, p), s.lastDts))
  }

  function MuxPacket(c: FileConfig, f: File, i: nat, p: Packet): File
    requires i < |f.streams|
  {
    var s := f.streams[i];
    var r := Repaired(c, s, p);
    if Aborts(c, s, p) then Exit(f)
    else With(f, i, s.(lastDts := r.dts, written := s.written + 1)).(log := f.log + [Muxed(i, r)])
  }

  // The stream with one more packet taken in.
  function CountIn(s: OStream, p: Packet): OStream {
    s.(frameNumber := s.frameNumber + if Counted(s) then 1 else 0, accepted := s.accepted + [p])
  }

  // Counting happens when a packet first arrives, not when it leaves the queue.
  function Submit(c: FileConfig, f: File, i: nat, p: Packet): File
    requires i < |f.streams|
  {
    var s := f.streams[i];
    if Counted(s) && s.frameNumber >= s.c.maxFrames then f
    else
      var f' := With(f, i, CountIn(s, p));
      if f.headerWritten then MuxPacket(c, f', i, p) else Enqueue(f', i, p)
  }

  // The file with the first packet taken out of a queue.
  function Pop(f: File, i: nat): File
    requires i < |f.streams| && f.streams[i].queue != []
  {
    With(f, i, f.streams[i].(queue := f.streams[i].queue[1..],
                             queueBytes := f.streams[i].queueBytes - f.streams[i].queue[0].size))
  }

  function FlushStream(c: FileConfig, f: File, i: nat): (g: File)
    requires i < |f.streams|
    ensures |g.streams| == |f.streams|
    decreases |f.streams[i].queue|
  {
    var s := f.streams[i];
    if f.exited || s.queue == [] then f
    else
      FlushStream(c, MuxPacket(c, Pop(f, i), i, s.queue[0]), i)
  }

  // A stream without waiting packets takes over the time base of the container.
  function WithTimeBase(f: File, i: nat): (g: File)
    requires i < |f.streams|
    ensures |g.streams| == |f.streams|
  {
    var s := f.streams[i];
    if s.queue == [] then With(f, i, s.(muxTb := s.c.stTb)) else f
  }

  function FlushFrom(c: FileConfig, f: File, i: nat): (g: File)
    requires i <= |f.streams|
    ensures |g.streams| == |f.streams|
    decreases |f.streams| - i
  {
    if f.exited || i == |f.streams| then f
    else
      FlushFrom(c, FlushStream(c, WithTimeBase(f, i), i), i + 1)
  }

  predicate AllInitialized(f: File) { forall i | 0 <= i < |f.streams| :: f.streams[i].initialized }

  // of_check_init: whether it succeeded, and the file behind it. The header or the SDP may fail.
  function Opened(c: FileConfig, f: File, headerOk: bool, sdpOk: bool): (r: (bool, File))
    ensures |r.1.streams| == |f.streams|
  {
    if !AllInitialized(f) then (true, f)
    else if !headerOk then (false, f)
    else
      var g := f.(headerWritten := true, log := f.log + [Header]);
      if !sdpOk then (false, g) else (true, FlushFrom(c, g, 0))
  }

  // A stream becomes ready; every caller ends the program if the file cannot be opened.
  function Initialized(c: FileConfig, f: File, i: nat, headerOk: bool, sdpOk: bool): (g: File)
    requires i < |f.streams|
    ensures |g.streams| == |f.streams|
  {
    if f.streams[i].initialized then f
    else
      var (ok, g) := Opened(c, With(f, i, f.streams[i].(initialized := true)), headerOk, sdpOk);
      if ok then g else Exit(g)
  }

  // ------------------------------------------------------------------ runs

  datatype Step = Deliver(i: nat, p: Packet) | Initialize(i: nat, headerOk: bool, sdpOk: bool)

  function Next(c: FileConfig, f: File, a: Step): (g: File)
    ensures |g.streams| == |f.streams|
  {
    if f.exited then f
    else
      match a
      case Deliver(i, p) => if i < |f.streams| then Submit(c, f, i, p) else f
      case Initialize(i, ok, sdp) => if i < |f.streams| then Initialized(c, f, i, ok, sdp) else f
  }

  function Start(cs: seq<StreamConfig>, tbs: seq<TimeBase>): File
    requires |cs| == |tbs|
  {
    File(seq(|cs|, i requires 0 <= i < |cs| => OStream(cs[i], false, 0, [], 8, 0, tbs[i], NOPTS, 0, [])),
         false, [], false)
  }

  function Run(c: FileConfig, cs: seq<StreamConfig>, tbs: seq<TimeBase>, steps: seq<Step>): (f: File)
    requires |cs| == |tbs|
    ensures |f.streams| == |cs|
    decreases |steps|
  {
    if steps == [] then Start(cs, tbs) else Next(c, Run(c, cs, tbs, steps[..|steps| - 1]), steps[|steps| - 1])
  }

  // The packets of one stream that reached the muxer, in order.
  function MuxedOf(log: seq<Event>, i: nat): seq<Packet>
    decreases |log|
  {
    if log == [] then []
    else
      var front, e := MuxedOf(log[..|log| - 1], i), log[|log| - 1];
      if e.Muxed? && e.stream == i then front + [e.pkt] else front
  }

  function LastDts(ps: seq<Packet>): Ts { if ps == [] then NOPTS else ps[|ps| - 1].dts }

  function Fresh(sc: StreamConfig, tb: TimeBase, last: Ts): OStream {
    OStream(sc, false, 0, [], 0, 0, tb, last, 0, [])
  }

  // The packets a stream takes, each with the stamps it leaves with behind the one before.
  function Stamped(c: FileConfig, sc: StreamConfig, tb: TimeBase, taken: seq<Packet>): (ps: seq<Packet>)
    ensures |ps| == |taken|
    decreases |taken|
  {
    if taken == [] then []
    else
      var front := Stamped(c, sc, tb, taken[..|taken| - 1]);
      front + [Repaired(c, Fresh(sc, tb, LastDts(front)), taken[|taken| - 1])]
  }

  lemma StampedAppend(c: FileConfig, s: OStream, taken: seq<Packet>, p: Packet)
    requires s.lastDts == LastDts(Stamped(c, s.c, s.muxTb, taken))
    ensures Stamped(c, s.c, s.muxTb, taken + [p]) == Stamped(c, s.c, s.muxTb, taken) + [Repaired(c, s, p)]
  {
    assert (taken + [p])[..|taken|] == taken;
    assert Repaired(c, s, p) == Repaired(c, Fresh(s.c, s.muxTb, s.lastDts), p);
    hide Repaired;
  }

  function Bytes(ps: seq<Packet>): nat { if ps == [] then 0 else ps[0].size + Bytes(ps[1..]) }

  ghost predicate InOrder(c: FileConfig, media: Media, ps: seq<Packet>) {
    !c.noTimestamps ==>
      && (forall k | 0 <= k < |ps| && ps[k].dts != NOPTS && ps[k].pts != NOPTS :: ps[k].dts <= ps[k].pts)
      && (Monotone(media) ==>
            forall k | 0 < k < |ps| && ps[k - 1].dts != NOPTS && ps[k].dts != NOPTS ::
              Earliest(c, ps[k - 1].dts) <= ps[k].dts)
  }

  // The first accepted packets are muxed with their stamps repaired, the others wait.
  ghost predicate Books(c: FileConfig, s: OStream, ps: seq<Packet>) {
    && |ps| <= |s.accepted| && s.queue == s.accepted[|ps|..]
    && ps == Stamped(c, s.c, s.muxTb, s.accepted[..|ps|])
  }

  // What holds of one stream and the packets it has had muxed, at every moment.
  ghost predicate StreamInv(c: FileConfig, s: OStream, ps: seq<Packet>) {
    && Books(c, s, ps)
    && s.queueBytes == Bytes(s.queue)
    && s.written == |ps|
    && (Counted(s) ==> s.frameNumber == |s.accepted|)
    && (Counted(s) && 0 <= s.c.maxFrames ==> s.frameNumber <= s.c.maxFrames)
    && s.lastDts == LastDts(ps)
    && InOrder(c, s.c.media, ps)
  }

  ghost predicate StreamsInv(c: FileConfig, f: File) {
    forall i: nat | i < |f.streams| :: StreamInv(c, f.streams[i], MuxedOf(f.log, i))
  }

  // The header opens the log and appears in it once, after every stream is initialised.
  ghost predicate HeaderInv(f: File) {
    && (f.headerWritten <==> f.log != []) && (f.headerWritten ==> f.log[0].Header? && AllInitialized(f))
    && forall k | 0 < k < |f.log| :: f.log[k].Muxed?
  }

  // Nothing waits in a queue once the header is written.
  ghost predicate Drained(f: File, n: nat) {
    n <= |f.streams| && forall i | 0 <= i < n :: f.streams[i].queue == []
  }

  // Between calls, as long as the program has not given up.
  ghost predicate Inv(c: FileConfig, f: File) {
    f.exited || (StreamsInv(c, f) && HeaderInv(f) && (f.headerWritten ==> Drained(f, |f.streams|)))
  }

  // Taking p as waiting at the front of the queue, muxing it keeps the stream's books.
  lemma MuxKeepsStream(c: FileConfig, s: OStream, ps: seq<Packet>, p: Packet)
    requires StreamInv(c, s.(queue := [p] + s.queue, queueBytes := s.queueBytes + p.size), ps)
    ensures var r := Repaired(c, s, p);
            StreamInv(c, s.(lastDts := r.dts, written := s.written + 1), ps + [r])
  {
    var r := Repaired(c, s, p);
    BooksMove(c, s, ps, p);
    if !c.noTimestamps { RepairedIsLegal(c, s, p); }
    assert ([p] + s.queue)[1..] == s.queue;
    hide Repaired, Books;
  }

  lemma BooksMove(c: FileConfig, s: OStream, ps: seq<Packet>, p: Packet)
    requires Books(c, s.(queue := [p] + s.queue, queueBytes := s.queueBytes + p.size), ps) && s.lastDts == LastDts(ps)
    ensures var r := Repaired(c, s, p);
            Books(c, s.(lastDts := r.dts, written := s.written + 1), ps + [r])
  {
    var n := |ps|;
    assert s.accepted[n..] == [p] + s.queue;
    assert s.accepted[n] == p && s.accepted[n + 1..] == s.queue;
    assert s.accepted[..n + 1] == s.accepted[..n] + [p];
    StampedAppend(c, s, s.accepted[..n], p);
    hide Repaired, Stamped;
  }

  lemma MuxKeepsAll(c: FileConfig, f: File, i: nat, p: Packet)
    requires i < |f.streams| && !MuxPacket(c, f, i, p).exited
    requires forall k: nat | k < |f.streams| && k != i :: StreamInv(c, f.streams[k], MuxedOf(f.log, k))
    requires StreamInv(c, f.streams[i].(queue := [p] + f.streams[i].queue,
                                        queueBytes := f.streams[i].queueBytes + p.size),
                       MuxedOf(f.log, i))
    ensures StreamsInv(c, MuxPacket(c, f, i, p))
  {
    var s, g := f.streams[i], MuxPacket(c, f, i, p);
    MuxKeepsStream(c, s, MuxedOf(f.log, i), p);
    hide StreamInv;
    forall k: nat | k < |f.streams| ensures StreamInv(c, g.streams[k], MuxedOf(g.log, k)) {
    }
  }

  lemma EnqueueKeepsStream(s: OStream, c: FileConfig, ps: seq<Packet>, p: Packet, capacity: nat)
    requires StreamInv(c, s, ps) && (Counted(s) ==> s.frameNumber < s.c.maxFrames)
    ensures StreamInv(c, s.(frameNumber := s.frameNumber + (if Counted(s) then 1 else 0),
                            accepted := s.accepted + [p],
                            capacity := capacity, queue := s.queue + [p], queueBytes := s.queueBytes + p.size), ps)
  {
    assert (s.accepted + [p])[|ps|..] == s.queue + [p] && (s.accepted + [p])[..|ps|] == s.accepted[..|ps|];
    BytesAppend(s.queue, p);
    hide Stamped;
  }

  lemma {:induction false} BytesAppend(ps: seq<Packet>, p: Packet)
    ensures Bytes(ps + [p]) == Bytes(ps) + p.size
  {
    if ps == [] {
      assert ps + [p] == [p];
    } else {
      assert (ps + [p])[1..] == ps[1..] + [p];
      BytesAppend(ps[1..], p);
    }
  }

  lemma SendKeepsQueue(c: FileConfig, f: File, i: nat, p: Packet)
    requires i < |f.streams|
    ensures MuxPacket(c, f, i, p).streams[i].queue == f.streams[i].queue
  {}

  lemma MuxKeepsHeader(c: FileConfig, f: File, i: nat, p: Packet)
    requires HeaderInv(f) && f.headerWritten && i < |f.streams| && !MuxPacket(c, f, i, p).exited
    ensures HeaderInv(MuxPacket(c, f, i, p)) && MuxPacket(c, f, i, p).headerWritten
  {}

  lemma MuxKeepsQueues(c: FileConfig, f: File, i: nat, p: Packet, n: nat)
    requires i < |f.streams| && !MuxPacket(c, f, i, p).exited && Drained(f, n)
    ensures Drained(MuxPacket(c, f, i, p), n) && MuxPacket(c, f, i, p).streams[i].queue == f.streams[i].queue
  {}

  lemma SubmitKeepsInv(c: FileConfig, f: File, i: nat, p: Packet)
    requires Inv(c, f) && !f.exited && i < |f.streams|
    ensures Inv(c, Submit(c, f, i, p))
  {
    var s := f.streams[i];
    if !(Counted(s) && s.frameNumber >= s.c.maxFrames) && !Submit(c, f, i, p).exited {
      if f.headerWritten { SubmitMuxes(c, f, i, p); } else { SubmitQueues(c, f, i, p); }
    }
  }

  // A packet counted but not yet muxed counts as waiting in front of its empty queue.
  lemma CountedPacketWaits(c: FileConfig, f: File, i: nat, p: Packet)
    requires StreamsInv(c, f) && i < |f.streams| && f.streams[i].queue == []
    requires !(Counted(f.streams[i]) && f.streams[i].frameNumber >= f.streams[i].c.maxFrames)
    ensures var s := CountIn(f.streams[i], p);
            StreamInv(c, s.(queue := [p] + s.queue, queueBytes := s.queueBytes + p.size), MuxedOf(f.log, i))
  {
    var s := f.streams[i];
    assert StreamInv(c, f.streams[i], MuxedOf(f.log, i));
    FirstWaits(c, f.streams[i], MuxedOf(f.log, i), p);
    assert [p] + [] == [p];
    hide Books, MuxedOf;
  }

  lemma FirstWaits(c: FileConfig, s: OStream, ps: seq<Packet>, p: Packet)
    requires Books(c, s, ps) && s.queue == []
    ensures Books(c, CountIn(s, p).(queue := [p], queueBytes := s.queueBytes + p.size), ps)
  {
    assert |ps| == |s.accepted|;
    assert (s.accepted + [p])[..|ps|] == s.accepted[..|ps|] && (s.accepted + [p])[|ps|..] == [p];
    hide Stamped;
  }

  lemma SubmitMuxes(c: FileConfig, f: File, i: nat, p: Packet)
    requires StreamsInv(c, f) && HeaderInv(f) && f.headerWritten && Drained(f, |f.streams|) && i < |f.streams|
    requires !(Counted(f.streams[i]) && f.streams[i].frameNumber >= f.streams[i].c.maxFrames)
    requires !Submit(c, f, i, p).exited
    ensures Inv(c, Submit(c, f, i, p))
  {
    var f' := With(f, i, CountIn(f.streams[i], p));
    CountedPacketWaits(c, f, i, p);
    hide StreamInv, MuxedOf;
    forall k: nat | k < |f'.streams| && k != i ensures StreamInv(c, f'.streams[k], MuxedOf(f'.log, k)) {
      assert StreamInv(c, f.streams[k], MuxedOf(f.log, k));
    }
    assert HeaderInv(f');
    hide MuxPacket, HeaderInv;
    MuxKeepsAll(c, f', i, p);
    MuxKeepsHeader(c, f', i, p);
    MuxKeepsQueues(c, f', i, p, |f.streams|);
  }

  lemma SubmitQueues(c: FileConfig, f: File, i: nat, p: Packet)
    requires StreamsInv(c, f) && HeaderInv(f) && !f.headerWritten && i < |f.streams|
    requires !(Counted(f.streams[i]) && f.streams[i].frameNumber >= f.streams[i].c.maxFrames)
    requires !Submit(c, f, i, p).exited
    ensures Inv(c, Submit(c, f, i, p))
  {
    var s, g := f.streams[i], Submit(c, f, i, p);
    assert StreamInv(c, s, MuxedOf(f.log, i));
    EnqueueKeepsStream(s, c, MuxedOf(f.log, i), p, g.streams[i].capacity);
    hide StreamInv, MuxedOf;
    forall k: nat | k < |g.streams| ensures StreamInv(c, g.streams[k], MuxedOf(g.log, k)) {
      if k != i { assert StreamInv(c, f.streams[k], MuxedOf(f.log, k)); }
    }
  }

  lemma PoppedPacketIsMuxed(c: FileConfig, f: File, i: nat)
    requires i < |f.streams| && f.streams[i].queue != [] && StreamsInv(c, f)
    requires !MuxPacket(c, Pop(f, i), i, f.streams[i].queue[0]).exited
    ensures StreamsInv(c, MuxPacket(c, Pop(f, i), i, f.streams[i].queue[0]))
  {
    hide StreamInv, MuxedOf;
    PopIsUndone(f.streams[i]);
    assert StreamInv(c, f.streams[i], MuxedOf(f.log, i));
    forall k: nat | k < |f.streams| && k != i ensures StreamInv(c, Pop(f, i).streams[k], MuxedOf(f.log, k)) {
      assert StreamInv(c, f.streams[k], MuxedOf(f.log, k));
    }
    MuxKeepsAll(c, Pop(f, i), i, f.streams[i].queue[0]);
  }

  // Emptying one stream's queue into the muxer.
  lemma {:induction false} FlushStreamKeeps(c: FileConfig, f: File, i: nat)
    requires i < |f.streams| && !FlushStream(c, f, i).exited
    requires StreamsInv(c, f) && HeaderInv(f) && f.headerWritten && Drained(f, i)
    ensures var g := FlushStream(c, f, i); StreamsInv(c, g) && HeaderInv(g) && g.headerWritten && Drained(g, i + 1)
    decreases |f.streams[i].queue|
  {
    if f.exited { FlushStaysExited(c, f, i); }
    if f.streams[i].queue != [] {
      var p := f.streams[i].queue[0];
      var g := MuxPacket(c, Pop(f, i), i, p);
      assert HeaderInv(Pop(f, i)) && Drained(Pop(f, i), i);
      hide StreamsInv, HeaderInv, MuxPacket;
      if g.exited { FlushStaysExited(c, g, i); }
      PoppedPacketIsMuxed(c, f, i);
      MuxKeepsHeader(c, Pop(f, i), i, p);
      MuxKeepsQueues(c, Pop(f, i), i, p, i);
      FlushStreamKeeps(c, g, i);
    }
  }

  lemma PopIsUndone(s: OStream)
    requires s.queue != []
    ensures s.(queue := [s.queue[0]] + s.queue[1..],
               queueBytes := (s.queueBytes - s.queue[0].size) + s.queue[0].size) == s
  {
    assert [s.queue[0]] + s.queue[1..] == s.queue;
  }

  lemma FlushStaysExited(c: FileConfig, f: File, i: nat)
    requires i < |f.streams| && f.exited
    ensures FlushStream(c, f, i).exited
  {}

  lemma {:induction false} FlushFromKeeps(c: FileConfig, f: File, i: nat)
    requires i <= |f.streams| && !f.exited && !FlushFrom(c, f, i).exited && Unmuxed(f, i)
    requires StreamsInv(c, f) && HeaderInv(f) && f.headerWritten && Drained(f, i)
    ensures Inv(c, FlushFrom(c, f, i))
    decreases |f.streams| - i
  {
    if i < |f.streams| {
      var f' := WithTimeBase(f, i);
      TimeBaseKeeps(c, f, i);
      hide StreamsInv, HeaderInv;
      var g := FlushStream(c, f', i);
      assert !g.exited;
      FlushStreamKeeps(c, f', i);
      forall k: nat | i + 1 <= k < |g.streams| ensures MuxedOf(g.log, k) == [] { FlushLeavesOthers(c, f', i, k); }
      FlushFromKeeps(c, g, i + 1);
    }
  }

  // A better time base for a stream that has had no packet yet is none of the books' business.
  lemma TimeBaseKeeps(c: FileConfig, f: File, i: nat)
    requires i < |f.streams| && StreamsInv(c, f) && HeaderInv(f) && Drained(f, i) && MuxedOf(f.log, i) == []
    ensures var g := WithTimeBase(f, i);
            StreamsInv(c, g) && HeaderInv(g) && Drained(g, i) && g.exited == f.exited
                && g.headerWritten == f.headerWritten
  {
    var g := WithTimeBase(f, i);
    hide MuxedOf;
    forall k: nat | k < |g.streams| ensures StreamInv(c, g.streams[k], MuxedOf(g.log, k)) {
      assert StreamInv(c, f.streams[k], MuxedOf(f.log, k));
    }
  }

  // No packet of the streams from i on has reached the muxer yet.
  ghost predicate Unmuxed(f: File, i: nat) { forall k: nat | i <= k < |f.streams| :: MuxedOf(f.log, k) == [] }

  lemma {:induction false} FlushLeavesOthers(c: FileConfig, f: File, i: nat, k: nat)
    requires i < |f.streams| && k != i
    ensures MuxedOf(FlushStream(c, f, i).log, k) == MuxedOf(f.log, k)
    decreases |f.streams[i].queue|
  {
    if !f.exited && f.streams[i].queue != [] {
      var p := f.streams[i].queue[0];
      var g := MuxPacket(c, Pop(f, i), i, p);
      SendKeepsQueue(c, Pop(f, i), i, p);
      MuxLeavesOthers(c, Pop(f, i), i, p, k);
      hide MuxPacket, MuxedOf;
      FlushLeavesOthers(c, g, i, k);
    }
  }

  lemma MuxLeavesOthers(c: FileConfig, f: File, i: nat, p: Packet, k: nat)
    requires i < |f.streams| && k != i
    ensures MuxedOf(MuxPacket(c, f, i, p).log, k) == MuxedOf(f.log, k)
  {
    hide Repaired, Aborts;
    var e := Muxed(i, Repaired(c, f.streams[i], p));
    assert (f.log + [e])[..|f.log|] == f.log;
  }

  lemma MarkKeepsStreams(c: FileConfig, f: File, i: nat)
    requires StreamsInv(c, f) && i < |f.streams|
    ensures StreamsInv(c, With(f, i, f.streams[i].(initialized := true)))
  {
    var g := With(f, i, f.streams[i].(initialized := true));
    forall k: nat | k < |g.streams| ensures StreamInv(c, g.streams[k], MuxedOf(g.log, k)) {
      assert StreamInv(c, f.streams[k], MuxedOf(f.log, k));
    }
  }

  lemma InitKeepsInv(c: FileConfig, f: File, i: nat, headerOk: bool, sdpOk: bool)
    requires Inv(c, f) && !f.exited && i < |f.streams|
    ensures Inv(c, Initialized(c, f, i, headerOk, sdpOk))
  {
    if !f.streams[i].initialized {
      var f1 := With(f, i, f.streams[i].(initialized := true));
      assert !f.headerWritten;
      MarkKeepsStreams(c, f, i);
      assert HeaderInv(f1);
      if AllInitialized(f1) && headerOk && sdpOk { CheckKeepsInv(c, f1); }
    }
  }

  lemma CheckKeepsInv(c: FileConfig, f: File)
    requires StreamsInv(c, f) && HeaderInv(f) && !f.headerWritten && AllInitialized(f) && !f.exited
    ensures Inv(c, Opened(c, f, true, true).1)
  {
    var g := f.(headerWritten := true, log := f.log + [Header]);
    HeaderKeepsStreams(c, f);
    assert HeaderInv(g);
    assert g.log[..0] == [] && g.log == [Header];
    assert Unmuxed(g, 0);
    hide StreamsInv, HeaderInv;
    if !FlushFrom(c, g, 0).exited { FlushFromKeeps(c, g, 0); }
  }

  lemma HeaderKeepsStreams(c: FileConfig, f: File)
    requires StreamsInv(c, f)
    ensures StreamsInv(c, f.(headerWritten := true, log := f.log + [Header]))
  {
    hide StreamInv;
    forall k: nat | k < |f.streams| ensures StreamInv(c, f.streams[k], MuxedOf(f.log + [Header], k)) {
    }
  }

  // Every call keeps the books, whatever the order of deliveries and initialisations.
  lemma {:induction false} RunKeepsInv(c: FileConfig, cs: seq<StreamConfig>, tbs: seq<TimeBase>, steps: seq<Step>)
    requires |cs| == |tbs|
    ensures Inv(c, Run(c, cs, tbs, steps))
    decreases |steps|
  {
    if steps == [] {
      var f := Start(cs, tbs);
      forall i: nat | i < |f.streams| ensures StreamInv(c, f.streams[i], MuxedOf(f.log, i)) {
        assert f.streams[i].accepted[0..] == [];
      }
    } else {
      var f, a := Run(c, cs, tbs, steps[..|steps| - 1]), steps[|steps| - 1];
      RunKeepsInv(c, cs, tbs, steps[..|steps| - 1]);
      hide Inv;
      if !f.exited && a.i < |f.streams| {
        match a
        case Deliver(i, p) => SubmitKeepsInv(c, f, i, p);
        case Initialize(i, ok, sdp) => InitKeepsInv(c, f, i, ok, sdp);
      }
    }
  }

  // ------------------------------------------------------------------ what the muxer sees

  // The header is written once, before every packet and after all streams are initialised.
  lemma HeaderComesFirst(c: FileConfig, cs: seq<StreamConfig>, tbs: seq<TimeBase>, steps: seq<Step>, k: nat)
    requires |cs| == |tbs| && !Run(c, cs, tbs, steps).exited && k < |Run(c, cs, tbs, steps).log|
    ensures var f := Run(c, cs, tbs, steps); AllInitialized(f) && (f.log[k].Header? <==> k == 0)
  {
    RunKeepsInv(c, cs, tbs, steps);
  }

  // No accepted packet is lost, duplicated, reordered or changed but in its stamps, which are those
  // repaired behind the packet before; the counters agree with the queues.
  lemma NothingIsLost(c: FileConfig, cs: seq<StreamConfig>, tbs: seq<TimeBase>, steps: seq<Step>, i: nat)
    requires |cs| == |tbs| && !Run(c, cs, tbs, steps).exited && i < |cs|
    ensures var f := Run(c, cs, tbs, steps); var s, ps := f.streams[i], MuxedOf(f.log, i);
            && |ps| <= |s.accepted| && ps == Stamped(c, s.c, s.muxTb, s.accepted[..|ps|])
            && s.queue == s.accepted[|ps|..] && (f.headerWritten ==> s.queue == [])
            && s.queueBytes == Bytes(s.queue)
            && s.written == |ps|
            && (Counted(s) ==> s.written + |s.queue| == s.frameNumber)
            && (Counted(s) && 0 <= s.c.maxFrames ==> s.frameNumber <= s.c.maxFrames)
  {
    RunKeepsInv(c, cs, tbs, steps);
    var f := Run(c, cs, tbs, steps);
    assert StreamInv(c, f.streams[i], MuxedOf(f.log, i));
    hide Run, MuxedOf, Stamped;
  }

  // Timestamps of a stream leave in order: pts not before dts, and neighbouring dts increasing
  // (or at least not decreasing, if the format allows equal ones).
  lemma TimestampsAreOrdered(c: FileConfig, cs: seq<StreamConfig>, tbs: seq<TimeBase>, steps: seq<Step>, i: nat)
    requires |cs| == |tbs| && !Run(c, cs, tbs, steps).exited && i < |cs|
    ensures var f := Run(c, cs, tbs, steps); InOrder(c, f.streams[i].c.media, MuxedOf(f.log, i))
  {
    RunKeepsInv(c, cs, tbs, steps);
    var f := Run(c, cs, tbs, steps);
    assert StreamInv(c, f.streams[i], MuxedOf(f.log, i));
  }

  // ------------------------------------------------------------------ the program

  class MuxStream {
    const c: StreamConfig
    var initialized: bool
    var frameNumber: int
    var queue: seq<Packet>
    var capacity: nat
    var queueBytes: int
    var muxTb: TimeBase
    var lastDts: Ts
    var written: nat
    ghost var accepted: seq<Packet>

    ghost function Value(): OStream
      reads this
    {
      OStream(c, initialized, frameNumber, queue, capacity, queueBytes, muxTb, lastDts, written, accepted)
    }

    constructor (c: StreamConfig, tb: TimeBase)
      ensures Value() == OStream(c, false, 0, [], 8, 0, tb, NOPTS, 0, [])
    {
      this.c, initialized, frameNumber, queue, capacity := c, false, 0, [], 8;
      queueBytes, muxTb, lastDts, written, accepted := 0, tb, NOPTS, 0, [];
    }

    // Buffers a packet until the header is written, or reports that the queue may not grow.
    method Buffer(pkt: Packet) returns (ok: bool)
      modifies this
      ensures ok == !IsStuck(old(Value()), pkt)
      ensures Value() == if ok then Queued(old(Value()), pkt) else old(Value())
    {
      if |queue| == capacity {
        var size := |queue|;
        var newSize := 2 * size;
        if queueBytes + pkt.size > c.threshold { newSize := Min(newSize, c.maxQueue); }
        if newSize <= size { return false; }
        capacity := newSize;
      }
      queueBytes := queueBytes + pkt.size;
      queue := queue + [pkt];
      return true;
    }

    // The stamps on the container's time base.
    method Rescale(f: FileConfig, pkt: Packet) returns (q: Packet)
      ensures q == Rescaled(f, Value(), pkt)
    {
      q := pkt;
      if (c.media.Video? && c.vsyncDrop) || (c.media.Audio? && f.asyncNegative) {
        q := q.(pts := NOPTS, dts := NOPTS);
      }
      if q.pts != NOPTS { q := q.(pts := f.rescale(q.pts, muxTb, c.stTb)); }
      if q.dts != NOPTS { q := q.(dts := f.rescale(q.dts, muxTb, c.stTb)); }
    }

    // Brings the stamps of a packet into the order the container wants.
    method Repair(f: FileConfig, pkt: Packet) returns (ok: bool, q: Packet)
      ensures ok == !Aborts(f, Value(), pkt)
      ensures ok ==> q == Repaired(f, Value(), pkt)
    {
      q := Rescale(f, pkt);
      hide Rescaled;
      if !f.noTimestamps {
        if q.dts != NOPTS && q.pts != NOPTS && q.dts > q.pts {
          var guess := Guess(q.pts, q.dts, lastDts);
          q := q.(pts := guess, dts := guess);
        }
        if Monotone(c.media) && q.dts != NOPTS && lastDts != NOPTS {
          var max: Ts := lastDts + if f.nonStrict then 0 else 1;
          if q.dts < max {
            if f.exitOnError { return false, q; }
            if q.pts >= q.dts { q := q.(pts := Max(q.pts, max)); }
            q := q.(dts := max);
          }
        }
      }
      return true, q;
    }
  }

  class OutputFile {
    const c: FileConfig
    const streams: seq<MuxStream>
    var headerWritten: bool
    var log: seq<Event>
    var exited: bool

    ghost predicate Valid() {
      forall i, k | 0 <= i < k < |streams| :: streams[i] != streams[k]
    }

    ghost function Model(): File
      reads this, streams
    {
      File(Values(streams), headerWritten, log, exited)
    }

    constructor (c: FileConfig, cs: seq<StreamConfig>, tbs: seq<TimeBase>)
      requires |cs| == |tbs|
      ensures Valid() && fresh(streams) && this.c == c && Model() == Start(cs, tbs)
    {
      var made: seq<MuxStream> := [];
      while |made| < |cs|
        invariant |made| <= |cs| && fresh(made)
        invariant forall i, k | 0 <= i < k < |made| :: made[i] != made[k]
        invariant forall i | 0 <= i < |made| ::
            made[i].Value() == OStream(cs[i], false, 0, [], 8, 0, tbs[i], NOPTS, 0, [])
      {
        var s := new MuxStream(cs[|made|], tbs[|made|]);
        made := made + [s];
      }
      this.c, streams, headerWritten, log, exited := c, made, false, [], false;
    }

    // A packet from an encoder or a copied input (unqueue false), or one that waited in its queue.
    method WritePacket(i: nat, pkt: Packet, unqueue: bool)
      requires Valid() && i < |streams| && !exited && (unqueue ==> headerWritten)
      modifies this, streams[i]
      ensures headerWritten == old(headerWritten)
      ensures Model() == if unqueue then MuxPacket(c, old(Model()), i, pkt) else Submit(c, old(Model()), i, pkt)
    {
      hide MuxPacket, Enqueue;
      var taken := true;
      if !unqueue { taken := Take(i, pkt); }
      if taken {
        if !headerWritten { Hold(i, pkt); } else { Send(i, pkt); }
      }
    }

    // Counts a new packet, unless the stream has had all it may have.
    method Take(i: nat, pkt: Packet) returns (ok: bool)
      requires Valid() && i < |streams|
      modifies streams[i]
      ensures ok == !(Counted(old(streams[i].Value())) && old(streams[i].frameNumber) >= streams[i].c.maxFrames)
      ensures Model() == if ok then With(old(Model()), i, CountIn(old(streams[i].Value()), pkt)) else old(Model())
    {
      var s := streams[i];
      if !(s.c.media.Video? && s.c.encoded) {
        if s.frameNumber >= s.c.maxFrames { return false; }
        s.frameNumber := s.frameNumber + 1;
      }
      s.accepted := s.accepted + [pkt];
      assert Model().streams == old(Model()).streams[i := s.Value()];
      return true;
    }

    // The header is not written yet: the packet waits.
    method Hold(i: nat, pkt: Packet)
      requires Valid() && i < |streams|
      modifies this, streams[i]
      ensures headerWritten == old(headerWritten) && Model() == Enqueue(old(Model()), i, pkt)
    {
      var ok := streams[i].Buffer(pkt);
      if !ok { exited := true; }
      assert Model().streams == old(Model()).streams[i := streams[i].Value()];
    }

    method Send(i: nat, pkt: Packet)
      requires Valid() && i < |streams|
      modifies this, streams[i]
      ensures headerWritten == old(headerWritten) && Model() == MuxPacket(c, old(Model()), i, pkt)
    {
      hide Repaired, Aborts;
      var s := streams[i];
      var ok, q := s.Repair(c, pkt);
      if !ok {
        exited := true;
      } else {
        s.lastDts := q.dts;
        s.written := s.written + 1;
        log := log + [Muxed(i, q)];
        assert Model().streams == old(Model()).streams[i := s.Value()];
      }
    }

    // Opens the muxer once all streams are initialised, and empties the queues into it.
    method CheckInit(headerOk: bool, sdpOk: bool) returns (ok: bool)
      requires Valid() && !exited
      modifies this, streams
      ensures (ok, Model()) == Opened(c, old(Model()), headerOk, sdpOk)
    {
      var i := 0;
      while i < |streams|
        invariant i <= |streams| && forall k | 0 <= k < i :: Model().streams[k].initialized
      {
        if !streams[i].initialized {
          assert !Model().streams[i].initialized;
          return true;
        }
        i := i + 1;
      }
      if !headerOk { return false; }
      headerWritten := true;
      log := log + [Header];
      if !sdpOk { return false; }
      FlushAll();
      return true;
    }

    method FlushAll()
      requires Valid() && !exited && headerWritten
      modifies this, streams
      ensures Model() == FlushFrom(c, old(Model()), 0)
    {
      hide FlushStream, WithTimeBase;
      var i := 0;
      while i < |streams| && !exited
        invariant i <= |streams| && headerWritten
        invariant FlushFrom(c, Model(), i) == FlushFrom(c, old(Model()), 0)
      {
        ImproveTimeBase(i);
        Flush(i);
        i := i + 1;
      }
    }

    method ImproveTimeBase(i: nat)
      requires Valid() && i < |streams|
      modifies streams[i]
      ensures Model() == WithTimeBase(old(Model()), i)
    {
      if |streams[i].queue| == 0 { streams[i].muxTb := streams[i].c.stTb; }
      assert Model().streams == old(Model()).streams[i := streams[i].Value()];
    }

    method Flush(i: nat)
      requires Valid() && !exited && headerWritten && i < |streams|
      modifies this, streams[i]
      ensures headerWritten && Model() == FlushStream(c, old(Model()), i)
    {
      hide MuxPacket, Pop;
      while |streams[i].queue| > 0 && !exited
        invariant headerWritten && FlushStream(c, Model(), i) == FlushStream(c, old(Model()), i)
        decreases |streams[i].queue|
      {
        ghost var before := Model();
        var pkt := PopFirst(i);
        ghost var popped := Model();
        WritePacket(i, pkt, true);
        SendKeepsQueue(c, popped, i, pkt);
      }
    }

    method PopFirst(i: nat) returns (pkt: Packet)
      requires Valid() && i < |streams| && streams[i].queue != []
      modifies streams[i]
      ensures Model() == Pop(old(Model()), i) && pkt == old(streams[i].queue)[0]
      ensures streams[i].queue == old(streams[i].queue)[1..]
    {
      pkt := streams[i].queue[0];
      streams[i].queue := streams[i].queue[1..];
      streams[i].queueBytes := streams[i].queueBytes - pkt.size;
      assert Model().streams == old(Model()).streams[i := streams[i].Value()];
    }

    // A stream becomes ready; the callers give up if the file cannot be opened.
    method InitStream(i: nat, headerOk: bool, sdpOk: bool)
      requires Valid() && !exited && i < |streams|
      modifies this, streams
      ensures Model() == Initialized(c, old(Model()), i, headerOk, sdpOk)
    {
      hide Opened;
      if !streams[i].initialized {
        streams[i].initialized := true;
        assert Model().streams == old(Model()).streams[i := streams[i].Value()];
        var ok := CheckInit(headerOk, sdpOk);
        if !ok { exited := true; }
      }
    }
  }

  ghost function Values(ss: seq<MuxStream>): (vs: seq<OStream>)
    reads ss
    ensures |vs| == |ss| && forall i | 0 <= i < |ss| :: vs[i] == ss[i].Value()
  {
    seq(|ss|, i requires 0 <= i < |ss| reads ss => ss[i].Value())
  }
}
