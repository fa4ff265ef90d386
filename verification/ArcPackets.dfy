/** The packet lists of jni/VideoDecoder.cpp: a video and an audio thread search packets of their
    own stream in two lists that are fed from one demuxer. One pass of a search loop, between
    locking and unlocking packetMutex, is one step. */
module ArcPackets {
  import opened Wrappers

  datatype Stream = Video | Audio | Neither
  datatype Packet = Packet(stream: Stream, id: nat)

  // A list that grows at the front and is emptied from the back.
  type PacketList = seq<Packet>

  datatype Search = Resting | Searching | Found(p: Packet) | NothingLeft

  // One thread: its list, the packets it took from there, and what its codec was sent (None: drain).
  datatype Side = Side(list: PacketList, popped: seq<Packet>, search: Search, sent: seq<Option<Packet>>)

  datatype State = State(rest: seq<Packet>, video: Side, audio: Side)

  datatype Step = Begin(audio: bool) | Try(audio: bool) | Send(audio: bool)

  function StreamOf(audio: bool): Stream { if audio then Audio else Video }

  function Get(s: State, audio: bool): Side { if audio then s.audio else s.video }

  function Put(s: State, audio: bool, side: Side): State {
    if audio then s.(audio := side) else s.(video := side)
  }

  // readPacket(): the next demuxed packet goes to the list of its stream, or is thrown away.
  function AfterRead(s: State): State
    requires s.rest != []
  {
    var p := s.rest[0];
    var t := s.(rest := s.rest[1..]);
    match p.stream
    case Video => t.(video := t.video.(list := [p] + t.video.list))
    case Audio => t.(audio := t.audio.(list := [p] + t.audio.list))
    case Neither => t
  }

  function TryOnce(s: State, audio: bool): State {
    var d := Get(s, audio);
    var n := |d.list|;
    if n > 0 then
      Put(s, audio, d.(list := d.list[..n - 1], popped := d.popped + [d.list[n - 1]], search := Found(d.list[n - 1])))
    else if s.rest != [] then AfterRead(s)
    else Put(s, audio, d.(search := NothingLeft))
  }

  function Next(s: State, a: Step): State {
    var d := Get(s, a.audio);
    match a
    case Begin(audio) => if d.search.Resting? then Put(s, audio, d.(search := Searching)) else s
    case Try(audio) => if d.search.Searching? then TryOnce(s, audio) else s
    case Send(audio) => (
      match d.search
      case Found(p) => Put(s, audio, d.(search := Resting, sent := d.sent + [Some(p)]))
      case NothingLeft => Put(s, audio, d.(search := Resting, sent := d.sent + [None]))
      case _ => s)
  }

  function Init(input: seq<Packet>): State {
    State(input, Side([], [], Resting, []), Side([], [], Resting, []))
  }

  function Run(input: seq<Packet>, steps: seq<Step>): State
    decreases |steps|
  {
    if steps == [] then Init(input) else Next(Run(input, steps[..|steps| - 1]), steps[|steps| - 1])
  }

  // ------------------------------------------------------------------ conservation

  // The packets of one stream, in order.
  function Of(ps: seq<Packet>, t: Stream): seq<Packet> {
    if ps == [] then [] else (if ps[0].stream == t then [ps[0]] else []) + Of(ps[1..], t)
  }

  function Reversed(ps: PacketList): (r: seq<Packet>)
    ensures |r| == |ps|
  {
    if ps == [] then [] else Reversed(ps[1..]) + [ps[0]]
  }

  lemma {:induction false} BackIsFirst(ps: PacketList)
    requires ps != []
    ensures Reversed(ps) == [ps[|ps| - 1]] + Reversed(ps[..|ps| - 1])
  {
    if |ps| > 1 {
      BackIsFirst(ps[1..]);
      assert ps[1..][..|ps| - 2] == ps[..|ps| - 1][1..];
    }
  }

  // What a thread can still get: its list, oldest first, and its part of what is not demuxed yet.
  function Pending(s: State, audio: bool): seq<Packet> {
    Reversed(Get(s, audio).list) + Of(s.rest, StreamOf(audio))
  }

  function Sent(sent: seq<Option<Packet>>): seq<Packet>
    decreases |sent|
  {
    if sent == [] then []
    else
      var front, last := Sent(sent[..|sent| - 1]), sent[|sent| - 1];
      if last.Some? then front + [last.value] else front
  }

  lemma SentAppend(sent: seq<Option<Packet>>, o: Option<Packet>)
    ensures Sent(sent + [o]) == if o.Some? then Sent(sent) + [o.value] else Sent(sent)
  {
    assert (sent + [o])[..|sent|] == sent;
  }

  lemma ReadKeepsPending(s: State, audio: bool)
    requires s.rest != []
    ensures Pending(AfterRead(s), audio) == Pending(s, audio)
  {
    var p, list := s.rest[0], Get(s, audio).list;
    var tail := Of(s.rest[1..], StreamOf(audio));
    assert Of(s.rest, StreamOf(audio)) == (if p.stream == StreamOf(audio) then [p] else []) + tail;
    hide Reversed, Of;
    var t := AfterRead(s);
    if p.stream == StreamOf(audio) {
      assert Get(t, audio).list == [p] + list;
      assert Reversed(list) + [p] + tail == Reversed(list) + ([p] + tail);
    } else {
      assert Get(t, audio).list == list && [] + tail == tail;
    }
  }

  // A try takes the first pending packet of its thread, or takes nothing and ends only if there is none.
  lemma TryTakesFirst(s: State, audio: bool)
    requires Get(s, audio).search.Searching?
    ensures var t := TryOnce(s, audio); var d := Get(t, audio);
            match d.search
            case Found(p) => Pending(s, audio) == [p] + Pending(t, audio) && d.popped == Get(s, audio).popped + [p]
            case NothingLeft =>
              Pending(s, audio) == Pending(t, audio) == [] && t.rest == [] && d.popped == Get(s, audio).popped
            case _ => Pending(s, audio) == Pending(t, audio) && |t.rest| < |s.rest| && d.popped == Get(s, audio).popped
    ensures Pending(TryOnce(s, audio), !audio) == Pending(s, !audio)
  {
    if Get(s, audio).list != [] {
      BackIsFirst(Get(s, audio).list);
    } else if s.rest != [] {
      ReadKeepsPending(s, audio);
      ReadKeepsPending(s, !audio);
    }
  }

  // The drain packets among the sent ones stand behind all packets of the stream.
  ghost predicate DrainsLast(sent: seq<Option<Packet>>, all: seq<Packet>) {
    forall k: nat | k < |sent| && sent[k].None? :: Sent(sent[..k]) == all
  }

  // Packets of a thread's stream are popped, in order, or pending; a drain follows all of them.
  ghost predicate SideInv(input: seq<Packet>, s: State, audio: bool) {
    var d := Get(s, audio);
    var all := Of(input, StreamOf(audio));
    && all == d.popped + Pending(s, audio)
    && d.popped == Sent(d.sent) + (if d.search.Found? then [d.search.p] else [])
    && (d.search.NothingLeft? ==> Pending(s, audio) == [] && s.rest == [] && d.list == [])
    && DrainsLast(d.sent, all)
  }

  ghost predicate Inv(input: seq<Packet>, s: State) { SideInv(input, s, false) && SideInv(input, s, true) }

  // A thread's step keeps the books of its own stream.
  lemma OwnStep(input: seq<Packet>, s: State, a: Step)
    requires SideInv(input, s, a.audio)
    ensures SideInv(input, Next(s, a), a.audio)
  {
    var d := Get(s, a.audio);
    if a.Try? && d.search.Searching? {
      OwnTry(input, s, a.audio);
    } else if a.Send? && (d.search.Found? || d.search.NothingLeft?) {
      SendKeeps(input, s, a.audio);
    } else {
      assert Pending(Next(s, a), a.audio) == Pending(s, a.audio);
      hide Pending, Of, Sent, DrainsLast;
    }
  }

  lemma OwnTry(input: seq<Packet>, s: State, audio: bool)
    requires SideInv(input, s, audio) && Get(s, audio).search.Searching?
    ensures SideInv(input, TryOnce(s, audio), audio)
  {
    var d, e := Get(s, audio), Get(TryOnce(s, audio), audio);
    TryTakesFirst(s, audio);
    TryKeepsSent(s, audio);
    hide Pending, Of, Sent, DrainsLast, TryOnce;
    if e.search.Found? {
      assert d.popped + ([e.search.p] + Pending(TryOnce(s, audio), audio))
          == e.popped + Pending(TryOnce(s, audio), audio);
      assert Sent(d.sent) + [] == Sent(d.sent);
    }
  }

  lemma TryKeepsSent(s: State, audio: bool)
    ensures Get(TryOnce(s, audio), audio).sent == Get(s, audio).sent
    ensures Get(s, audio).search.Searching? && Get(TryOnce(s, audio), audio).search.NothingLeft? ==>
              Get(s, audio).list == [] && Get(TryOnce(s, audio), audio).list == []
    ensures Get(TryOnce(s, audio), !audio).(list := []) == Get(s, !audio).(list := [])
  {}

  // Sending the packet in hand, or the drain packet when nothing is left.
  lemma SentKeeps(sent: seq<Option<Packet>>, o: Option<Packet>, all: seq<Packet>)
    requires DrainsLast(sent, all) && (o.None? ==> Sent(sent) == all)
    ensures DrainsLast(sent + [o], all)
    ensures Sent(sent + [o]) == Sent(sent) + if o.Some? then [o.value] else []
  {
    SentAppend(sent, o);
    var e := sent + [o];
    hide Sent;
    forall k: nat | k < |e| && e[k].None? ensures Sent(e[..k]) == all {
      if k < |sent| { assert e[..k] == sent[..k]; } else { assert e[..k] == sent; }
    }
  }

  lemma SendKeeps(input: seq<Packet>, s: State, audio: bool)
    requires SideInv(input, s, audio) && (Get(s, audio).search.Found? || Get(s, audio).search.NothingLeft?)
    ensures SideInv(input, Next(s, Send(audio)), audio)
  {
    var d := Get(s, audio);
    var o := if d.search.Found? then Some(d.search.p) else None;
    var t := Next(s, Send(audio));
    assert Pending(t, audio) == Pending(s, audio);
    hide Pending, Reversed, Of, Sent, DrainsLast;
    assert d.popped + [] == d.popped && Sent(d.sent) + [] == Sent(d.sent);
    SentKeeps(d.sent, o, Of(input, StreamOf(audio)));
  }

  lemma OtherStep(input: seq<Packet>, s: State, a: Step)
    requires SideInv(input, s, !a.audio)
    ensures SideInv(input, Next(s, a), !a.audio)
  {
    if a.Try? && Get(s, a.audio).search.Searching? {
      OtherTry(input, s, !a.audio);
    } else {
      assert Get(Next(s, a), !a.audio) == Get(s, !a.audio) && Next(s, a).rest == s.rest;
      hide Next, Of, Sent, DrainsLast, Reversed;
    }
  }

  lemma OtherTry(input: seq<Packet>, s: State, audio: bool)
    requires SideInv(input, s, audio) && Get(s, !audio).search.Searching?
    ensures SideInv(input, TryOnce(s, !audio), audio)
  {
    TryTakesFirst(s, !audio);
    TryKeepsSent(s, !audio);
    hide TryOnce, Pending, Of, Sent, DrainsLast;
  }

  lemma {:induction false} RunKeepsInv(input: seq<Packet>, steps: seq<Step>)
    ensures Inv(input, Run(input, steps))
    decreases |steps|
  {
    if steps != [] {
      var s, a := Run(input, steps[..|steps| - 1]), steps[|steps| - 1];
      RunKeepsInv(input, steps[..|steps| - 1]);
      hide SideInv, Next;
      OwnStep(input, s, a);
      OtherStep(input, s, a);
    }
  }

  // No packet is lost, reordered or given to the wrong codec, however the two threads interleave.
  lemma PacketsAreConserved(input: seq<Packet>, steps: seq<Step>, audio: bool)
    ensures var s := Run(input, steps); var d := Get(s, audio);
            && Of(input, StreamOf(audio)) == d.popped + Reversed(d.list) + Of(s.rest, StreamOf(audio))
            && d.popped == Sent(d.sent) + if d.search.Found? then [d.search.p] else []
  {
    RunKeepsInv(input, steps);
    var d := Get(Run(input, steps), audio);
    hide Run, Sent, DrainsLast;
    assert d.popped + Pending(Run(input, steps), audio)
        == d.popped + Reversed(d.list) + Of(Run(input, steps).rest, StreamOf(audio));
  }

  // A codec is drained only after it was sent every packet of its stream.
  lemma DrainComesLast(input: seq<Packet>, steps: seq<Step>, audio: bool, k: nat)
    ensures var s := Run(input, steps); var d := Get(s, audio);
            && (d.search.NothingLeft? ==> s.rest == [] && d.list == [] && Sent(d.sent) == Of(input, StreamOf(audio)))
            && (k < |d.sent| && d.sent[k].None? ==> Sent(d.sent[..k]) == Of(input, StreamOf(audio)))
  {
    RunKeepsInv(input, steps);
    assert SideInv(input, Run(input, steps), audio);
    hide Run, Sent, Of;
    var d := Get(Run(input, steps), audio);
    assert d.popped + [] == d.popped && Sent(d.sent) + [] == Sent(d.sent);
  }

  // ------------------------------------------------------------------ termination

  function RunFrom(s: State, steps: seq<Step>): State
    decreases |steps|
  {
    if steps == [] then s else RunFrom(Next(s, steps[0]), steps[1..])
  }

  function Tries(steps: seq<Step>, audio: bool): nat {
    if steps == [] then 0 else (if steps[0] == Try(audio) then 1 else 0) + Tries(steps[1..], audio)
  }

  // A search that tries more often than there are packets to demux has ended: some beginning of
  // the schedule leaves the thread with a packet or with the news that there is none.
  lemma {:induction false} SearchEnds(s: State, steps: seq<Step>, audio: bool) returns (n: nat)
    requires Get(s, audio).search.Searching? && Tries(steps, audio) > |s.rest|
    ensures n <= |steps|
    ensures var d := Get(RunFrom(s, steps[..n]), audio); d.search.Found? || d.search.NothingLeft?
    decreases |steps|
  {
    var t := Next(s, steps[0]);
    if Get(t, audio).search.Searching? {
      var k := SearchEnds(t, steps[1..], audio);
      n := k + 1;
      assert steps[..n][1..] == steps[1..][..k];
    } else {
      n := 1;
      assert steps[..1] == [steps[0]];
      assert RunFrom(s, [steps[0]]) == RunFrom(t, []);
    }
  }

  // ------------------------------------------------------------------ progress

  lemma RunOn(s: State, a: Step, rest: seq<Step>)
    ensures RunFrom(s, [a] + rest) == RunFrom(Next(s, a), rest)
  {}

  lemma {:induction false} RunOnBehind(s: State, front: seq<Step>, a: Step)
    ensures RunFrom(s, front + [a]) == Next(RunFrom(s, front), a)
    decreases |front|
  {
    if front == [] {
      assert front + [a] == [a];
      assert RunFrom(s, [a]) == RunFrom(Next(s, a), []);
    } else {
      assert (front + [a])[1..] == front[1..] + [a];
      hide Next;
      RunOnBehind(Next(s, front[0]), front[1..], a);
    }
  }

  // A searching thread left alone finds the first packet its stream still has, or learns that there
  // is none.
  lemma {:induction false} LoneSearchEnds(s: State, audio: bool) returns (steps: seq<Step>)
    requires Get(s, audio).search.Searching?
    ensures var d, e := Get(s, audio), Get(RunFrom(s, steps), audio);
            && e.sent == d.sent
            && (if Pending(s, audio) == [] then e.search.NothingLeft? else e.search == Found(Pending(s, audio)[0]))
    decreases |s.rest|
  {
    var t := Next(s, Try(audio));
    TryTakesFirst(s, audio);
    TryKeepsSent(s, audio);
    if Get(t, audio).search.Searching? {
      SearchGoesOn(s, audio);
      hide Pending, Next, TryOnce, RunFrom;
      var rest := LoneSearchEnds(t, audio);
      steps := [Try(audio)] + rest;
      RunOn(s, Try(audio), rest);
    } else {
      SearchIsOver(s, audio);
      steps := [Try(audio)];
      assert [Try(audio)] + [] == steps;
      RunOn(s, Try(audio), []);
      hide Pending, TryOnce;
    }
  }

  lemma SearchGoesOn(s: State, audio: bool)
    requires Get(s, audio).search.Searching? && Get(Next(s, Try(audio)), audio).search.Searching?
    ensures var t := Next(s, Try(audio));
            |t.rest| < |s.rest| && Pending(t, audio) == Pending(s, audio) && Get(t, audio).sent == Get(s, audio).sent
  {
    TryTakesFirst(s, audio);
    TryKeepsSent(s, audio);
    hide Pending, TryOnce;
  }

  lemma SearchIsOver(s: State, audio: bool)
    requires Get(s, audio).search.Searching? && !Get(Next(s, Try(audio)), audio).search.Searching?
    ensures var e := Get(Next(s, Try(audio)), audio);
            && e.sent == Get(s, audio).sent
            && (if Pending(s, audio) == [] then e.search.NothingLeft? else e.search == Found(Pending(s, audio)[0]))
  {
    TryTakesFirst(s, audio);
    TryKeepsSent(s, audio);
    var p := Get(Next(s, Try(audio)), audio).search;
    assert p.Found? || p.NothingLeft?;
    hide Pending, TryOnce;
  }

  // A resting thread left alone sends its codec the first packet that its stream still has, or the
  // drain packet if there is none, and rests again.
  lemma SendsTheNext(s: State, audio: bool) returns (steps: seq<Step>)
    requires Get(s, audio).search.Resting?
    ensures var d, e := Get(s, audio), Get(RunFrom(s, steps), audio);
            && e.search.Resting?
            && e.sent == d.sent + [if Pending(s, audio) == [] then None else Some(Pending(s, audio)[0])]
  {
    var t := Next(s, Begin(audio));
    assert Pending(t, audio) == Pending(s, audio);
    assert Get(t, audio).search.Searching? && Get(t, audio).sent == Get(s, audio).sent;
    var search := LoneSearchEnds(t, audio);
    var u := RunFrom(t, search);
    RunOnBehind(t, search, Send(audio));
    RunOn(s, Begin(audio), search + [Send(audio)]);
    steps := [Begin(audio)] + (search + [Send(audio)]);
    FoundIsSent(u, audio);
    hide RunFrom, Pending, Next;
  }

  lemma FoundIsSent(s: State, audio: bool)
    requires Get(s, audio).search.Found? || Get(s, audio).search.NothingLeft?
    ensures var d, e := Get(s, audio), Get(Next(s, Send(audio)), audio);
            && e.search.Resting?
            && e.sent == d.sent + [if d.search.Found? then Some(d.search.p) else None]
  {}

  // ------------------------------------------------------------------ the lists in place

  class PacketSource {
    var rest: seq<Packet>
    var videoPackets: PacketList
    var audioPackets: PacketList

    // The source with nothing recorded of the threads but that the given one is searching.
    ghost function Model(audio: bool): State
      reads this
    {
      Put(State(rest, Side(videoPackets, [], Resting, []), Side(audioPackets, [], Resting, [])), audio,
          Side(if audio then audioPackets else videoPackets, [], Searching, []))
    }

    // Keeps what every thread can still get, and reports whether the demuxer had a packet.
    method ReadPacket() returns (more: bool)
      modifies this
      ensures more == (old(rest) != [])
      ensures forall audio :: Model(audio) == if more then AfterRead(old(Model(audio))) else old(Model(audio))
    {
      if rest == [] { return false; }
      var p := rest[0];
      rest := rest[1..];
      match p.stream {
        case Video => videoPackets := [p] + videoPackets;
        case Audio => audioPackets := [p] + audioPackets;
        case Neither =>
      }
      return true;
    }

    // The search loop of a decoding thread, left alone by the other: it finds the first packet
    // that its stream still has, or none if there is none, and takes nothing from the other stream.
    method FindPacket(audio: bool) returns (p: Option<Packet>)
      modifies this
      ensures p.None? <==> Pending(old(Model(audio)), audio) == []
      ensures p.Some? ==> Pending(old(Model(audio)), audio) == [p.value] + Pending(Model(audio), audio)
      ensures p.None? ==> rest == [] && Pending(Model(audio), audio) == []
      ensures Pending(Model(audio), !audio) == Pending(old(Model(audio)), !audio)
    {
      p := None;
      var check := true;
      while p.None? && check
        invariant p.None? ==> Pending(Model(audio), audio) == Pending(old(Model(audio)), audio)
        invariant p.Some? ==> Pending(old(Model(audio)), audio) == [p.value] + Pending(Model(audio), audio)
        invariant Pending(Model(audio), !audio) == Pending(old(Model(audio)), !audio)
        invariant !check ==> rest == [] && Pending(Model(audio), audio) == []
        decreases p.None? && check, |rest|
      {
        TryTakesFirst(Model(audio), audio);
        var list := if audio then audioPackets else videoPackets;
        if list == [] {
          check := ReadPacket();
        } else {
          p := Some(list[|list| - 1]);
          list := list[..|list| - 1];
          if audio { audioPackets := list; } else { videoPackets := list; }
        }
      }
    }
  }
}
