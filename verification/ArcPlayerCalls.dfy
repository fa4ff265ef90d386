/** The player of ArcPlayer while only one of its threads moves: a frame request from its start to
    its return, the loop that fills the ring, and both in place. */
module ArcPlayerCalls {
  import opened Wrappers
  import opened Modulo
  import opened ArcPlayer

  // ------------------------------------------------------------------ calls that nobody interrupts

  // The calling thread alone, from the start of nextVideoFrame() to its return.
  function CallLength(s: State): nat {
    if Buffered(s) >= 1 then 6 else if s.ended then 2 else if s.total == 0 then 3 else 4
  }

  function Alone(s: State, k: nat): (t: State)
    ensures |t.slots| == |s.slots|
    decreases k
  {
    if k == 0 then s else Alone(Caller(s, false), k - 1)
  }

  // What a call leaves behind: nothing, the frame before once more, or the next frame.
  function Answered(s: State): State
  {
    if s.cur < s.total then
      s.(cur := s.cur + 1, dec := if s.dec.Asleep? then Asleep(true) else s.dec,
         log := s.log + [Shown(s.cur + 1, s.slots[Slot(s.cur + 1, s)])])
    else if s.ended || s.total == 0 then s
    else s.(log := s.log + [Shown(s.cur, s.slots[Slot(s.cur, s)])])
  }

  lemma LoneCall(s: State)
    requires s.caller.Idle? && s.owner.None?
    ensures Alone(s, CallLength(s)) == Answered(s)
  {
    if s.cur < s.total {
      RequestLocks(s);
      RequestReturns(s.(owner := Some(Calling), caller := Changing(false)));
    } else {
      OneMove(s, CallLength(s) - 1);
      OneMove(s.(caller := Empty), CallLength(s) - 2);
    }
  }

  lemma OneMove(s: State, k: nat)
    ensures Alone(s, k + 1) == Alone(Caller(s, false), k) && Alone(s, 0) == s
  {}

  lemma RequestLocks(s: State)
    requires s.caller.Idle? && s.owner.None? && s.cur < s.total
    ensures Alone(s, 6) == Alone(s.(owner := Some(Calling), caller := Changing(false)), 4)
  {
    hide Alone;
    OneMove(s, 5);
    OneMove(s.(caller := Locking(false)), 4);
  }

  lemma RequestReturns(s: State)
    requires s.caller == Changing(false) && s.owner == Some(Calling) && s.cur < s.total
    ensures Alone(s, 4) == Answered(s.(owner := None, caller := Idle))
  {
    hide Alone;
    var s1 := s.(cur := s.cur + 1, caller := Signalling(false));
    var s2 := s1.(dec := if s.dec.Asleep? then Asleep(true) else s.dec, caller := Releasing(false));
    assert Caller(s, false) == s1 && Caller(s1, false) == s2;
    hide Caller;
    OneMove(s, 3);
    OneMove(s1, 2);
    RequestHandsOut(s2);
  }

  lemma RequestHandsOut(s: State)
    requires s.caller == Releasing(false) && s.owner == Some(Calling)
    ensures Alone(s, 2) == s.(owner := None, log := s.log + [Shown(s.cur, s.slots[Slot(s.cur, s)])], caller := Idle)
  {
    hide Alone;
    var t := s.(owner := None, caller := Returning);
    OneMove(s, 1);
    OneMove(t, 0);
    OneMove(Caller(t, false), 0);
  }

  // An uninterrupted call hands out decoded frames only: the next one, or the last one again.
  lemma LoneCallShowsDecoded(s: State)
    requires Inv(s) && s.caller.Idle?
    ensures var t := Answered(s);
            && t.cur == s.cur + (if s.cur < s.total then 1 else 0)
            && t.log == if s.cur == s.total && (s.ended || s.total == 0) then s.log
                        else s.log + [Shown(t.cur, Some(s.decoded[t.cur - 1]))]
  {
    var n := if s.cur < s.total then s.cur + 1 else s.cur;
    assert s.slots[Slot(n, s)] == FrameNo(s.decoded, n);
    hide Orderly, Mutex, Slot;
  }

  predicate IsBuffered(s: State)
  {
    Buffered(s) == |s.slots| - 1 || (s.ended && Buffered(s) >= 1)
  }

  // The ring counts as buffered if it is full; once output has ended, exactly if the next
  // uninterrupted request still shows a new frame.
  lemma BufferedMeansNext(s: State)
    requires Counts(s)
    ensures s.ended ==> (IsBuffered(s) <==> Answered(s).cur == s.cur + 1)
    ensures !s.ended ==> (IsBuffered(s) <==> Full(s))
  {}

  // One round of the decoding loop; the mutex is left open unless a frame was stored.
  function Round(s: State, o: Outcome): (t: State)
    ensures |t.slots| == |s.slots|
  {
    match o
    case Again => s.(owner := None)
    case End => s.(owner := None, ended := true, dec := Leaving)
    case Got(f) =>
      s.(owner := Some(Decoding), slots := s.slots[Slot(s.total + 1, s) := Some(f)],
         total := s.total + 1, decoded := s.decoded + [f])
  }

  function Same(o: Outcome, k: nat): (steps: seq<Step>)
    ensures |steps| == k
  {
    seq(k, i => Decode(o))
  }

  function RoundLength(o: Outcome): nat { if o.Got? then 8 else 5 }

  // A round is the run of steps of the decoding thread that no other thread interrupts.
  lemma LoneRound(s: State, o: Outcome)
    requires s.dec.Checking? && s.owner != Some(Calling) && !IsBuffered(s) && !s.ended
    ensures RunFrom(s, Same(o, RoundLength(o))) == Round(s, o)
  {
    var s1, s2, s3 := s.(dec := SawRoom), s.(dec := AskEnded), s.(dec := Unlocking);
    var s4 := s.(owner := None, dec := Receiving);
    var k: nat := if o.Got? then 4 else 1;
    RoundStarts(s, o);
    hide *;
    RoundEnds(s4, o, k);
    Repeated(s, o, k + 3);
    Repeated(s1, o, k + 2);
    Repeated(s2, o, k + 1);
    Repeated(s3, o, k);
  }

  lemma RoundStarts(s: State, o: Outcome)
    requires s.dec.Checking? && s.owner != Some(Calling) && !IsBuffered(s) && !s.ended
    ensures Decoder(s, o) == s.(dec := SawRoom) && Decoder(s.(dec := SawRoom), o) == s.(dec := AskEnded)
    ensures Decoder(s.(dec := AskEnded), o) == s.(dec := Unlocking)
    ensures Decoder(s.(dec := Unlocking), o) == s.(owner := None, dec := Receiving)
    ensures Round(s.(owner := None, dec := Receiving).(dec := Checking), o) == Round(s, o)
    ensures RoundLength(o) == 4 + if o.Got? then 4 else 1
  {
    OwnerIs(s.owner);
  }

  lemma Repeated(s: State, o: Outcome, k: nat)
    ensures RunFrom(s, Same(o, k + 1)) == RunFrom(Decoder(s, o), Same(o, k))
    ensures RunFrom(s, Same(o, 0)) == s
  {
    hide Decoder;
    assert Same(o, k + 1)[1..] == Same(o, k);
  }

  lemma RoundEnds(s: State, o: Outcome, k: nat)
    requires s.dec.Receiving? && s.owner.None? && k == if o.Got? then 4 else 1
    ensures RunFrom(s, Same(o, k)) == Round(s.(dec := Checking), o)
  {
    hide RunFrom, Same;
    if o.Got? {
      FrameIsStored(s, o);
    } else {
      Repeated(s, o, 0);
      Repeated(Decoder(s, o), o, 0);
    }
  }

  lemma FrameIsStored(s: State, o: Outcome)
    requires s.dec.Receiving? && s.owner.None? && o.Got?
    ensures RunFrom(s, Same(o, 4)) == Round(s.(dec := Checking), o)
  {
    hide RunFrom, Same;
    var i := Slot(s.total + 1, s);
    var s1 := s.(slots := s.slots[i := None], dec := Scaling(o.f));
    var s2 := s.(slots := s.slots[i := Some(o.f)], dec := Scaled(o.f));
    assert s1.slots[i := Some(o.f)] == s2.slots;
    Repeated(s, o, 3);
    Repeated(s1, o, 2);
    FrameIsCounted(s2, o);
  }

  lemma FrameIsCounted(s: State, o: Outcome)
    requires s.dec.Scaled? && s.owner.None?
    ensures RunFrom(s, Same(o, 2))
         == s.(total := s.total + 1, decoded := s.decoded + [s.dec.f], owner := Some(Decoding), dec := Checking)
  {
    hide RunFrom, Same;
    var t := s.(total := s.total + 1, decoded := s.decoded + [s.dec.f], dec := Relocking);
    Repeated(s, o, 1);
    Repeated(t, o, 0);
    Repeated(t.(owner := Some(Decoding), dec := Checking), o, 0);
  }

  // The loop that fills the ring from a codec's answers, until it stops or more answers are needed.
  predicate Stops(s: State)
  {
    IsBuffered(s) || s.ended
  }

  function Fill(s: State, codec: seq<Outcome>): (t: State)
    ensures |t.slots| == |s.slots|
    decreases |codec|
  {
    if Stops(s) || codec == [] then s else Fill(Round(s, codec[0]), codec[1..])
  }

  function FillSteps(s: State, codec: seq<Outcome>): seq<Step>
    decreases |codec|
  {
    if Stops(s) || codec == [] then []
    else Same(codec[0], RoundLength(codec[0])) + FillSteps(Round(s, codec[0]), codec[1..])
  }

  lemma {:induction false} FillIsARun(s: State, codec: seq<Outcome>)
    requires s.owner != Some(Calling) && (s.dec.Checking? || s.ended)
    ensures RunFrom(s, FillSteps(s, codec)) == Fill(s, codec)
    decreases |codec|
  {
    if !Stops(s) && codec != [] {
      LoneRound(s, codec[0]);
      StepByStep(s, Same(codec[0], RoundLength(codec[0])), FillSteps(Round(s, codec[0]), codec[1..]));
      FillIsARun(Round(s, codec[0]), codec[1..]);
    }
  }

  // ------------------------------------------------------------------ what the loop makes of the codec's answers

  // The frames among some answers, in order.
  function FramesOf(codec: seq<Outcome>): seq<Frame>
    decreases |codec|
  {
    if codec == [] then []
    else FramesOf(codec[..|codec| - 1]) + if codec[|codec| - 1].Got? then [codec[|codec| - 1].f] else []
  }

  lemma FramesAppend(codec: seq<Outcome>, o: Outcome)
    ensures FramesOf(codec + [o]) == FramesOf(codec) + if o.Got? then [o.f] else []
  {
    assert (codec + [o])[..|codec|] == codec;
  }

  // The slot of the j-th frame to be stored.
  function NewSlot(s: State, j: nat): nat { Slot(s.total + 1 + j, s) }

  ghost predicate Untouched(s: State, m: nat, i: nat) { forall j: nat | j < m :: i != NewSlot(s, j) }

  // Frames stored from number total + 1 on, each in the slot of its number, and nothing else.
  ghost predicate Stored(s: State, t: State, got: seq<Frame>)
    requires |t.slots| == |s.slots|
  {
    && |got| < |s.slots|
    && (forall j: nat | j < |got| :: NewSlot(s, j) < |s.slots| && t.slots[NewSlot(s, j)] == Some(got[j]))
    && (forall i: nat | i < |s.slots| && Untouched(s, |got|, i) :: t.slots[i] == s.slots[i])
  }

  lemma OneMoreStored(s: State, t: State, u: State, got: seq<Frame>, f: Frame)
    requires |s.slots| == |t.slots| == |u.slots| && Stored(s, t, got) && |got| + 1 < |s.slots|
    requires NewSlot(s, |got|) < |s.slots| && u.slots == t.slots[NewSlot(s, |got|) := Some(f)]
    ensures Stored(s, u, got + [f])
  {
    var w := NewSlot(s, |got|);
    forall j: nat | j < |got| ensures NewSlot(s, j) != w && NewSlot(s, j) < |s.slots| {
      NearbySlotsDiffer(s.total + 1 + j, s.total + 1 + |got|, |s.slots|);
    }
    hide NewSlot;
    forall i: nat | i < |s.slots| && Untouched(s, |got| + 1, i) ensures u.slots[i] == s.slots[i] {
      assert i != NewSlot(s, |got|);
      assert Untouched(s, |got|, i);
    }
  }

  // The loop has used the first k answers: there was room and no end before each of them.
  ghost predicate HasUsed(s: State, codec: seq<Outcome>, k: nat) {
    && k <= |codec|
    && forall i: nat | i < k :: Buffered(s) + |FramesOf(codec[..i])| < |s.slots| - 1 && (i + 1 < k ==> !codec[i].End?)
  }

  // ... and goes on to the next one unless the ring is full or the output has ended.
  ghost predicate IsDone(s: State, codec: seq<Outcome>, k: nat)
    requires k <= |codec|
  {
    k == |codec| || Buffered(s) + |FramesOf(codec[..k])| == |s.slots| - 1 || (k > 0 && codec[k - 1].End?)
  }

  // What the loop has made of the first k answers.
  ghost predicate Consumed(s: State, t: State, codec: seq<Outcome>, k: nat)
    requires k <= |codec|
  {
    var got := FramesOf(codec[..k]);
    && |t.slots| == |s.slots| && Stored(s, t, got)
    && t.total == s.total + |got| && t.cur == s.cur && t.log == s.log
    && (t.ended <==> k > 0 && codec[k - 1].End?)
  }

  lemma NothingConsumed(s: State, codec: seq<Outcome>)
    requires !s.ended
    ensures Consumed(s, s, codec, 0) && HasUsed(s, codec, 0)
  {}

  lemma OneMoreConsumed(s: State, t: State, codec: seq<Outcome>, k: nat)
    requires k < |codec| && Consumed(s, t, codec, k) && HasUsed(s, codec, k) && !t.ended && 0 <= Buffered(s)
    requires Buffered(t) < |s.slots| - 1
    ensures Consumed(s, Round(t, codec[k]), codec, k + 1) && HasUsed(s, codec, k + 1)
  {
    var got, o := FramesOf(codec[..k]), codec[k];
    assert codec[..k + 1] == codec[..k] + [o];
    FramesAppend(codec[..k], o);
    assert got + [] == got;
    hide FramesOf;
    if o.Got? {
      assert NewSlot(s, |got|) == Slot(t.total + 1, t);
      hide NewSlot, Slot;
      OneMoreStored(s, t, Round(t, o), got, o.f);
      hide Stored;
    } else {
      hide Stored, Slot;
      SameStored(s, t, Round(t, o), got);
    }
  }

  lemma SameStored(s: State, t: State, u: State, got: seq<Frame>)
    requires |t.slots| == |s.slots| && u.slots == t.slots && Stored(s, t, got)
    ensures Stored(s, u, got)
  {}

  // From a ring that is not over-full, the loop stores the frames the codec gives, one after the
  // other, until the ring is full, the output ends or the answers are used up.
  lemma {:induction false} FillConsumes(s: State, t: State, codec: seq<Outcome>, k: nat) returns (n: nat)
    requires k <= |codec| && Consumed(s, t, codec, k) && HasUsed(s, codec, k)
    requires 0 <= Buffered(s) && Buffered(t) <= |s.slots| - 1
    ensures n <= |codec| && HasUsed(s, codec, n) && IsDone(s, codec, n) && Consumed(s, Fill(t, codec[k..]), codec, n)
    decreases |codec| - k
  {
    hide Stored, FramesOf;
    if Stops(t) || k == |codec| {
      n := k;
    } else {
      OneMoreConsumed(s, t, codec, k);
      assert Buffered(Round(t, codec[k])) <= Buffered(t) + 1;
      assert codec[k..][1..] == codec[k + 1..];
      hide HasUsed, Consumed, Round;
      n := FillConsumes(s, Round(t, codec[k]), codec, k + 1);
    }
  }

  // What FillRing leaves behind, in terms of the codec's answers.
  ghost predicate FillsRing(s: State, t: State, codec: seq<Outcome>) {
    exists n: nat :: n <= |codec| && HasUsed(s, codec, n) && IsDone(s, codec, n) && Consumed(s, t, codec, n)
  }

  lemma FillStoresFrames(s: State, codec: seq<Outcome>)
    requires !s.ended && 0 <= Buffered(s) <= |s.slots| - 1
    ensures FillsRing(s, Fill(s, codec), codec)
  {
    NothingConsumed(s, codec);
    assert codec[0..] == codec;
    var n := FillConsumes(s, s, codec, 0);
  }

  class VideoRing {
    const rgbFrames: array<Option<Frame>>
    var currentFrameDisplayed: nat
    var totalFramesBuffered: nat
    var videoOutputEnded: bool
    ghost var owner: Option<Thread>
    ghost var dec: DecoderAt
    ghost var decoded: seq<Frame>
    ghost var log: seq<Shown>

    ghost predicate Valid()
      reads this
    {
      rgbFrames.Length >= 2
    }

    // The player while the calling thread is outside its calls.
    ghost function Model(): State
      requires Valid()
      reads this, rgbFrames
    {
      Player(rgbFrames[..], currentFrameDisplayed, totalFramesBuffered, videoOutputEnded, owner, dec, Idle, decoded,
             log)
    }

    method GetReadIndex() returns (i: nat)
      requires Valid()
      ensures i == Slot(currentFrameDisplayed, Model())
    {
      i := currentFrameDisplayed % rgbFrames.Length;
    }

    method GetWriteIndex() returns (i: nat)
      requires Valid()
      ensures i == Slot(totalFramesBuffered + 1, Model())
    {
      i := (totalFramesBuffered + 1) % rgbFrames.Length;
    }

    method TestIsBuffered() returns (b: bool)
      requires Valid()
      ensures b == IsBuffered(Model())
    {
      var buffered := totalFramesBuffered - currentFrameDisplayed;
      b := buffered == rgbFrames.Length - 1 || (videoOutputEnded && buffered >= 1);
    }

    method NextVideoFrame() returns (f: Option<Shown>)
      requires Valid()
      modifies this
      ensures Model() == Answered(old(Model()))
      ensures log == old(log) + if f.Some? then [f.value] else []
    {
      if totalFramesBuffered - currentFrameDisplayed < 1 {
        if videoOutputEnded || totalFramesBuffered == 0 { return None; }
      } else {
        currentFrameDisplayed := currentFrameDisplayed + 1;
        if dec.Asleep? { dec := Asleep(true); }
      }
      var i := GetReadIndex();
      f := Some(Shown(currentFrameDisplayed, rgbFrames[i]));
      log := log + [f.value];
    }

    // What the loop does with one answer of the codec.
    method TakeAnswer(o: Outcome)
      requires Valid()
      modifies this, rgbFrames
      ensures Model() == Round(old(Model()), o)
    {
      match o {
        case Again => owner := None;
        case End =>
          owner := None;
          videoOutputEnded := true;
          dec := Leaving;
        case Got(f) =>
          var i := GetWriteIndex();
          rgbFrames[i] := Some(f);
          totalFramesBuffered := totalFramesBuffered + 1;
          owner := Some(Decoding);
          decoded := decoded + [f];
      }
    }

    // run(): decodes into the free slots until the ring is full or the output ends.
    method FillRing(codec: seq<Outcome>)
      requires Valid() && dec.Checking? && owner != Some(Calling)
      modifies this, rgbFrames
      ensures Model() == Fill(old(Model()), codec)
      ensures !old(videoOutputEnded) && 0 <= Buffered(old(Model())) < rgbFrames.Length ==>
                FillsRing(old(Model()), Model(), codec)
    {
      if !videoOutputEnded && 0 <= Buffered(Model()) < rgbFrames.Length { FillStoresFrames(Model(), codec); }
      hide FillsRing, Round;
      var k := 0;
      var stop := TestIsBuffered();
      while !stop && !videoOutputEnded && k < |codec|
        invariant k <= |codec| && Valid()
        invariant stop == IsBuffered(Model())
        invariant Fill(Model(), codec[k..]) == Fill(old(Model()), codec)
        decreases |codec| - k
      {
        assert codec[k..][1..] == codec[k + 1..];
        TakeAnswer(codec[k]);
        k := k + 1;
        stop := TestIsBuffered();
      }
    }
  }
}
