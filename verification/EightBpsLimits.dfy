/** Which bytes of a pixel the planes of EightBps stand for, and what becomes of lines whose runs do
    not agree with their length or do not fit the row. */
module EightBpsLimits {
  import opened Sequences
  import opened Wrappers
  import opened EightBps

  // ------------------------------------------------------------------ pixel formats

  datatype Channel = Index | Red | Green | Blue | Alpha | Unused

  // The channels in the order in which the file transmits their planes.
  function Planes(depth: int): seq<Channel> {
    if depth == 8 then [Index] else if depth == 24 then [Red, Green, Blue] else [Red, Green, Blue, Alpha]
  }

  // The channels of a pixel in memory: BGR24 or BGR0, and for RGB32 the bytes of the word ARGB in
  // the order of the machine.
  function PixelFormat(depth: int, fourBytes: bool, bigEndian: bool): seq<Channel> {
    if depth == 8 then [Index]
    else if depth == 24 then [Blue, Green, Red] + (if fourBytes then [Unused] else [])
    else if bigEndian then [Alpha, Red, Green, Blue]
    else [Blue, Green, Red, Alpha]
  }

  // Every plane is written to the byte of its own channel.
  lemma PlanesMeetTheFormat(depth: int, fourBytes: bool, bigEndian: bool, height: nat, linesize: nat, p: nat)
    requires depth == 8 || depth == 24 || depth == 32
    ensures var o := DecodeInit(depth, fourBytes, bigEndian, height, linesize);
            var format := PixelFormat(depth, fourBytes, bigEndian);
            && o.Some? && o.value.px == |format| && |o.value.planemap| == |Planes(depth)|
            && o.value.height == height && o.value.linesize == linesize
            && (p < |Planes(depth)| ==>
                  o.value.planemap[p] < |format| && format[o.value.planemap[p]] == Planes(depth)[p])
  {}

  // ------------------------------------------------------------------ lengths that do not fit

  // No run of the line ends where its length entry says.
  predicate NoRunEnds(runs: Runs, length: int) {
    forall k | 0 <= k <= |runs| :: length != |EncodeLine(runs[..k])|
  }

  // The length is 32 bits wide: a run longer than what is left of it makes it wrap around.
  function Wrapped(length: int): int { if length < 0 then length + 0x1_0000_0000 else length }

  lemma RunIsReadWhole(buf: seq<Byte>, dp: nat, r: Run, dlen: U32, out: seq<Byte>, l: Layout)
    requires ValidRun(r) && HasAt(buf, dp, EncodeRun(r)) && 0 < dlen && Fits(l, |out| + |ExpandRun(r)|)
    ensures 0 <= Wrapped(dlen - |EncodeRun(r)|) < 0x1_0000_0000 && dp + |EncodeRun(r)| <= |buf|
    ensures DecodeLine(buf, dp, dlen, out, l)
         == DecodeLine(buf, dp + |EncodeRun(r)|, Wrapped(dlen - |EncodeRun(r)|), out + ExpandRun(r), l)
  {
    hide Fits;
    var part := buf[dp..dp + |EncodeRun(r)|];
    assert buf[dp] == part[0];
    if r.Literal? {
      assert buf[dp + 1..dp + 1 + |r.bytes|] == part[1..];
    } else {
      assert buf[dp + 1] == part[1];
    }
  }

  lemma FirstBoundary(runs: Runs, length: int)
    requires runs != [] && NoRunEnds(runs, length) && 0 < length
    requires |EncodeLine(runs)| < 0x1_0000_0000 - 129
    ensures NoRunEnds(runs[1..], Wrapped(length - |EncodeRun(runs[0])|))
    ensures |EncodeLine(runs[1..])| <= |EncodeLine(runs)| && |EncodeRun(runs[0])| <= 129
    ensures Wrapped(length - |EncodeRun(runs[0])|) != 0
  {
    var rest := runs[1..];
    FirstRun(runs);
    RunIsShort(runs[0]);
    hide EncodeLine, EncodeRun, Wrapped;
    forall k | 0 <= k <= |rest| ensures Wrapped(length - |EncodeRun(runs[0])|) != |EncodeLine(rest[..k])| {
      BoundaryMoves(runs, k, length);
    }
    assert rest[..0] == [];
    NoBytes();
  }

  lemma RunIsShort(r: Run)
    requires ValidRun(r)
    ensures 0 < |EncodeRun(r)| <= 129
  {}

  lemma BoundaryMoves(runs: Runs, k: nat, length: int)
    requires runs != [] && k <= |runs| - 1 && length != |EncodeLine(runs[..k + 1])| && 0 < length
    requires |EncodeLine(runs)| < 0x1_0000_0000 - 129
    ensures Wrapped(length - |EncodeRun(runs[0])|) != |EncodeLine(runs[1..][..k])|
  {
    RunIsShort(runs[0]);
    FirstRun(runs);
    FirstRun(runs[..k + 1]);
    assert runs[..k + 1][1..] == runs[1..][..k];
    PrefixIsShorter(runs[1..], k);
    hide EncodeLine, EncodeRun;
  }

  lemma {:induction false} PrefixIsShorter(runs: Runs, k: nat)
    requires k <= |runs|
    ensures |EncodeLine(runs[..k])| <= |EncodeLine(runs)|
    decreases k
  {
    if k > 0 {
      FirstRun(runs);
      FirstRun(runs[..k]);
      assert runs[..k][1..] == runs[1..][..k - 1];
      PrefixIsShorter(runs[1..], k - 1);
    } else {
      assert runs[..0] == [];
    }
  }

  // A line whose length ends inside a run, or behind all of them, is read on until a run does not
  // fit the row any more; of this run only the first byte is used, and nothing is written.
  lemma {:induction false} ReadsUntilTheRowIsFull(buf: seq<Byte>, dp: nat, dlen: U32, runs: Runs, r: Run,
                                                  out: seq<Byte>, l: Layout)
    requires ValidRun(r) && HasAt(buf, dp, EncodeLine(runs) + EncodeRun(r)) && 0 < dlen
    requires NoRunEnds(runs, dlen) && |EncodeLine(runs)| < 0x1_0000_0000 - 129
    requires Fits(l, |out| + |ExpandLine(runs)|) && !Fits(l, |out| + |ExpandLine(runs)| + |ExpandRun(r)|)
    ensures DecodeLine(buf, dp, dlen, out, l) == Line(out + ExpandLine(runs), dp + |EncodeLine(runs)| + 1)
    decreases |runs|
  {
    hide *;
    if runs == [] {
      RunDoesNotFit(buf, dp, dlen, r, out, l);
    } else {
      var e, x := EncodeRun(runs[0]), ExpandRun(runs[0]);
      var es, xs := EncodeLine(runs[1..]), ExpandLine(runs[1..]);
      FirstRun(runs);
      assert e + es + EncodeRun(r) == e + (es + EncodeRun(r));
      HasParts(buf, dp, e, es + EncodeRun(r));
      FewerFit(l, |out| + |x + xs|, |out| + |x|);
      assert out + x + xs == out + (x + xs);
      FirstBoundary(runs, dlen);
      RunIsReadWhole(buf, dp, runs[0], dlen, out, l);
      ReadsUntilTheRowIsFull(buf, dp + |e|, Wrapped(dlen - |e|), runs[1..], r, out + x, l);
    }
  }

  lemma RunDoesNotFit(buf: seq<Byte>, dp: nat, dlen: U32, r: Run, out: seq<Byte>, l: Layout)
    requires ValidRun(r) && HasAt(buf, dp, EncodeLine([]) + EncodeRun(r)) && 0 < dlen
    requires !Fits(l, |out| + |ExpandLine([])| + |ExpandRun(r)|)
    ensures DecodeLine(buf, dp, dlen, out, l) == Line(out + ExpandLine([]), dp + |EncodeLine([])| + 1)
  {
    hide Fits;
    assert [] + EncodeRun(r) == EncodeRun(r) && out + [] == out;
    assert buf[dp] == buf[dp..dp + |EncodeRun(r)|][0];
  }
}
