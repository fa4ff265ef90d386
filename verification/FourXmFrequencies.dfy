/** The frequency table at the front of a 4XM packet, written and read back: where it ends, and
    that it is refused wherever the packet is cut. */
module FourXmFrequencies {
  import opened Sequences
  import opened Wrappers
  import opened FourXmHuffman

  // Padding behind the ranges, up to the next multiple of four bytes.
  predicate Pads(n: nat, pad: seq<int>) { |pad| < 4 && (n + |pad|) % 4 == 0 }

  // The table as the packet holds it.
  function EncodeTable(rs: seq<Range>, pad: seq<int>): seq<int> { EncodeRanges(rs) + pad }

  lemma {:induction false} TabulateLength(freq: seq<int>, rs: seq<Range>)
    requires |freq| == NODES && ValidRanges(rs)
    ensures |Tabulate(freq, rs)| == NODES
    decreases |rs|
  {
    if rs != [] { TabulateLength(Overlay(freq, rs[0].start, rs[0].values), rs[1..]); }
  }

  lemma TransmittableIsValid(rs: seq<Range>)
    requires Transmittable(rs)
    ensures rs != [] && ValidRanges(rs) && ValidRange(rs[0]) && 0 <= Last(rs[0]) < 256 && rs[0].start < 256
    ensures forall i | 1 <= i < |rs| :: rs[i].start != 0
    ensures |EncodeRanges(rs)| >= 2 && EncodeRanges(rs)[0] == rs[0].start && EncodeRanges(rs)[1] == Last(rs[0])
  {}

  lemma ZerosLength()
    ensures |Zeros()| == NODES
  {}

  lemma AlignedEnd(n: nat, pad: seq<int>)
    requires Pads(n, pad)
    ensures (n + 3) / 4 * 4 == n + |pad|
  {}

  // What the table reader makes of the ranges it parsed.
  lemma TableFromRanges(buf: seq<int>, freq: seq<int>, p: nat)
    requires Bytes(buf) && |freq| == NODES
    requires var r := ParseRanges(buf, 2, ByteAt(buf, 0), ByteAt(buf, 1), Zeros());
             r.Some? && r.value.0 == freq && r.value.1 == p
    ensures var r := ParseTable(buf);
            if (p + 3) / 4 * 4 > |buf| then r.None?
            else r.Some? && r.value.0 == freq[256 := 1] && r.value.1 == (p + 3) / 4 * 4
  {
    hide ParseRanges;
  }

  lemma RangesInFront(rs: seq<Range>, tail: seq<int>)
    requires Transmittable(rs) && Bytes(EncodeRanges(rs) + tail)
    ensures |Tabulate(Zeros(), rs)| == NODES
    ensures var buf := EncodeRanges(rs) + tail;
            var r := ParseRanges(buf, 2, ByteAt(buf, 0), ByteAt(buf, 1), Zeros());
            r.Some? && r.value.0 == Tabulate(Zeros(), rs) && r.value.1 == |EncodeRanges(rs)|
  {
    ZerosLength();
    TransmittableIsValid(rs);
    TabulateLength(Zeros(), rs);
    hide EncodeRanges, ParseRanges, Tabulate, Transmittable, ValidRanges, Zeros, Bytes;
    var buf := EncodeRanges(rs) + tail;
    assert [] + EncodeRanges(rs) + tail == buf;
    RangesRoundTrip([], rs, tail, Zeros());
    assert buf[0] == rs[0].start && buf[1] == Last(rs[0]);
  }

  // The whole table: its frequencies, and the first position behind it that is a multiple of four,
  // whatever the padding bytes are and whatever follows.
  lemma TableRoundTrip(rs: seq<Range>, pad: seq<int>, post: seq<int>)
    requires Transmittable(rs) && Pads(|EncodeRanges(rs)|, pad) && Bytes(EncodeTable(rs, pad) + post)
    ensures ValidRanges(rs) && |Tabulate(Zeros(), rs)| == NODES
    ensures var r := ParseTable(EncodeTable(rs, pad) + post);
            r.Some? && r.value.0 == Tabulate(Zeros(), rs)[256 := 1] && r.value.1 == |EncodeTable(rs, pad)|
  {
    TransmittableIsValid(rs);
    ZerosLength();
    TabulateLength(Zeros(), rs);
    AlignedEnd(|EncodeRanges(rs)|, pad);
    hide EncodeRanges, ParseRanges, ParseTable, Tabulate, Transmittable, ValidRanges, Zeros, Bytes;
    assert EncodeTable(rs, pad) + post == EncodeRanges(rs) + (pad + post);
    RangesInFront(rs, pad + post);
    TableFromRanges(EncodeTable(rs, pad) + post, Tabulate(Zeros(), rs), |EncodeRanges(rs)|);
  }

  ghost predicate Prefix(buf: seq<int>, full: seq<int>) { |buf| <= |full| && buf == full[..|buf|] }

  // The parser's view of an encoding that is cut: it fails in the range that is cut.
  lemma {:induction false} CutRangesFail(full: seq<int>, buf: seq<int>, p: nat, rs: seq<Range>, freq: seq<int>)
    requires Transmittable(rs) && Bytes(full) && HasAt(full, p, EncodeRanges(rs)) && |freq| == NODES
    requires Prefix(buf, full) && |buf| < p + |EncodeRanges(rs)|
    ensures Bytes(buf) && 0 <= ByteAt(buf, p) < 256 && 0 <= ByteAt(buf, p + 1) < 256
    ensures ParseRanges(buf, p + 2, ByteAt(buf, p), ByteAt(buf, p + 1), freq).None?
    decreases |rs|
  {
    hide *;
    CutBytes(full, buf, p, rs);
    var r, rest := rs[0], rs[1..];
    var q := p + 2 + |r.values|;
    if |buf| <= q {
      CutInRange(buf, p, r, freq);
    } else {
      RestFollows(full, buf, p, rs);
      var freq' := WholeRange(buf, p, r, freq);
      CutRangesFail(full, buf, q, rest, freq');
    }
  }

  lemma RestFollows(full: seq<int>, buf: seq<int>, p: nat, rs: seq<Range>)
    requires Transmittable(rs) && Bytes(full) && HasAt(full, p, EncodeRanges(rs))
    requires Prefix(buf, full) && p + 2 + |rs[0].values| < |buf| < p + |EncodeRanges(rs)|
    ensures var q := p + 2 + |rs[0].values|;
            && |rs| > 1 && buf[q] != 0 && Transmittable(rs[1..]) && HasAt(full, q, EncodeRanges(rs[1..]))
            && |EncodeRanges(rs)| == 2 + |rs[0].values| + |EncodeRanges(rs[1..])|
  {
    RestIsTransmittable(rs);
    FirstRange(full, p, rs);
    hide EncodeRanges, HasAt, Transmittable, Bytes;
  }

  lemma SizeOfRange(r: Range)
    requires ValidRange(r)
    ensures RangeSize(r.start, Last(r)) == |r.values| && 0 <= Last(r) < 256 && r.start + |r.values| <= 256
  {}

  // What the parser sees of a range in front of the cut.
  lemma CutBytes(full: seq<int>, buf: seq<int>, p: nat, rs: seq<Range>)
    requires Transmittable(rs) && Bytes(full) && HasAt(full, p, EncodeRanges(rs)) && Prefix(buf, full)
    ensures Bytes(buf) && 0 <= ByteAt(buf, p) < 256 && 0 <= ByteAt(buf, p + 1) < 256
    ensures |buf| >= p + 2 ==> ByteAt(buf, p) == rs[0].start && ByteAt(buf, p + 1) == Last(rs[0])
    ensures rs != [] && ValidRange(rs[0])
  {
    FirstBounds(full, p, rs);
    RestIsTransmittable(rs);
    hide EncodeRanges, HasAt, Transmittable;
  }

  lemma CutInRange(buf: seq<int>, p: nat, r: Range, freq: seq<int>)
    requires Bytes(buf) && ValidRange(r) && |freq| == NODES && |buf| <= p + 2 + |r.values|
    requires 0 <= ByteAt(buf, p) < 256 && 0 <= ByteAt(buf, p + 1) < 256
    requires |buf| >= p + 2 ==> ByteAt(buf, p) == r.start && ByteAt(buf, p + 1) == Last(r)
    ensures ParseRanges(buf, p + 2, ByteAt(buf, p), ByteAt(buf, p + 1), freq).None?
  {
    SizeOfRange(r);
  }

  // A whole range in front of the cut is read, and the next one begins behind it.
  lemma WholeRange(buf: seq<int>, p: nat, r: Range, freq: seq<int>) returns (freq': seq<int>)
    requires Bytes(buf) && ValidRange(r) && |freq| == NODES && p + 2 + |r.values| < |buf|
    requires ByteAt(buf, p) == r.start && ByteAt(buf, p + 1) == Last(r) && buf[p + 2 + |r.values|] != 0
    ensures |freq'| == NODES && 0 <= Last(r) < 256 && r.start < 256
    ensures var q := p + 2 + |r.values|;
            && 0 <= ByteAt(buf, q) < 256 && 0 <= ByteAt(buf, q + 1) < 256
            && ParseRanges(buf, p + 2, r.start, Last(r), freq)
               == ParseRanges(buf, q + 2, ByteAt(buf, q), ByteAt(buf, q + 1), freq')
  {
    var q := p + 2 + |r.values|;
    SizeOfRange(r);
    ParseTurn(buf, p + 2, r.start, Last(r), freq);
    hide ParseRanges;
    freq' := Overlay(freq, r.start, buf[p + 2..q]);
  }

  lemma FirstBounds(full: seq<int>, p: nat, rs: seq<Range>)
    requires Transmittable(rs) && HasAt(full, p, EncodeRanges(rs))
    ensures p + 1 < |full| && full[p] == rs[0].start && full[p + 1] == Last(rs[0])
  {
    TransmittableIsValid(rs);
    hide EncodeRanges;
    assert full[p] == full[p..p + |EncodeRanges(rs)|][0] && full[p + 1] == full[p..p + |EncodeRanges(rs)|][1];
  }

  // A packet that ends before the end of its table, anywhere, padding included, is refused.
  lemma CutTableIsRefused(rs: seq<Range>, pad: seq<int>, n: nat)
    requires Transmittable(rs) && Pads(|EncodeRanges(rs)|, pad) && Bytes(EncodeTable(rs, pad))
    requires n < |EncodeTable(rs, pad)|
    ensures Bytes(EncodeTable(rs, pad)[..n]) && ParseTable(EncodeTable(rs, pad)[..n]).None?
  {
    var full, e := EncodeTable(rs, pad), EncodeRanges(rs);
    var buf := full[..n];
    ZerosLength();
    assert Bytes(buf);
    hide EncodeRanges, ParseRanges, Transmittable, Zeros, Bytes;
    if n < |e| {
      assert full[0..0 + |e|] == e;
      CutRangesFail(full, buf, 0, rs, Zeros());
    } else {
      AlignedEnd(|e|, pad);
      assert buf == e + pad[..n - |e|];
      RangesInFront(rs, pad[..n - |e|]);
      TableFromRanges(buf, Tabulate(Zeros(), rs), |e|);
    }
  }
}
