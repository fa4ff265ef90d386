/** The run-length decoder of FFmpeg/libavcodec/8bps.c: a table of line lengths, plane by plane,
    then the lines as runs of single bytes or of one repeated byte, written with a pixel stride
    into interleaved rows. */
module EightBps {
  import opened Sequences
  import opened Wrappers
  import opened Modulo

  type Byte = x: int | 0 <= x < 256
  type U32 = x: int | 0 <= x < 0x1_0000_0000

  function Sub32(a: U32, b: U32): U32 { if a >= b then a - b else a - b + 0x1_0000_0000 }

  // Place of each plane in a pixel, bytes per pixel, rows, bytes per row of the frame.
  datatype Layout = Layout(planemap: seq<nat>, px: nat, height: nat, linesize: nat)

  predicate Legal(l: Layout) {
    && (forall p | 0 <= p < |l.planemap| :: l.planemap[p] < l.px)
    && (forall p, q | 0 <= p < q < |l.planemap| :: l.planemap[p] != l.planemap[q])
  }

  // The layouts decode_init chooses: palette, RGB in three or four bytes, and RGB with alpha.
  function DecodeInit(depth: int, fourBytes: bool, bigEndian: bool, height: nat, linesize: nat): Option<Layout> {
    if depth == 8 then Some(Layout([0], 1, height, linesize))
    else if depth == 24 then Some(Layout([2, 1, 0], if fourBytes then 4 else 3, height, linesize))
    else if depth == 32 then Some(Layout(if bigEndian then [1, 2, 3, 0] else [2, 1, 0, 3], 4, height, linesize))
    else None
  }

  // Every layout gives each plane its own byte within the pixel.
  lemma LayoutsAreLegal(depth: int, fourBytes: bool, bigEndian: bool, height: nat, linesize: nat)
    ensures var o := DecodeInit(depth, fourBytes, bigEndian, height, linesize);
            (o.Some? <==> depth in {8, 24, 32}) && (o.Some? ==> Legal(o.value) && |o.value.planemap| == depth / 8)
  {}

  // ------------------------------------------------------------------ one line

  // The bytes of a line and where it ended. A run that does not fit ends the line early.
  datatype LineResult = Line(out: seq<Byte>, dp: nat) | BadLine

  function Copies(b: Byte, n: nat): (r: seq<Byte>)
    ensures |r| == n
  {
    seq(n, i => b)
  }

  predicate Fits(l: Layout, n: nat) { n * l.px <= l.linesize }

  function DecodeLine(buf: seq<Byte>, dp: nat, dlen: U32, out: seq<Byte>, l: Layout): (r: LineResult)
    requires dp <= |buf|
    ensures r.Line? ==> dp <= r.dp <= |buf|
    decreases |buf| - dp
  {
    if dlen == 0 then Line(out, dp)
    else if |buf| - dp <= 1 then BadLine
    else if buf[dp] <= 127 then
      var n := buf[dp] + 1;
      if !Fits(l, |out| + n) then Line(out, dp + 1)
      else if |buf| - (dp + 1) < n then BadLine
      else DecodeLine(buf, dp + 1 + n, Sub32(dlen, n + 1), out + buf[dp + 1..dp + 1 + n], l)
    else
      var n := 257 - buf[dp];
      if !Fits(l, |out| + n) then Line(out, dp + 1)
      else DecodeLine(buf, dp + 2, Sub32(dlen, 2), out + Copies(buf[dp + 1], n), l)
  }

  // A line never grows beyond the frame's row, whatever the bytes are.
  lemma {:induction false} LineStaysInRow(buf: seq<Byte>, dp: nat, dlen: U32, out: seq<Byte>, l: Layout)
    requires dp <= |buf| && Fits(l, |out|)
    ensures var r := DecodeLine(buf, dp, dlen, out, l); r.Line? ==> Fits(l, |r.out|)
    decreases |buf| - dp
  {
    hide Fits;
    if dlen != 0 && |buf| - dp > 1 {
      if buf[dp] <= 127 {
        var n := buf[dp] + 1;
        if Fits(l, |out| + n) && |buf| - (dp + 1) >= n {
          LineStaysInRow(buf, dp + 1 + n, Sub32(dlen, n + 1), out + buf[dp + 1..dp + 1 + n], l);
        }
      } else {
        var n := 257 - buf[dp];
        if Fits(l, |out| + n) { LineStaysInRow(buf, dp + 2, Sub32(dlen, 2), out + Copies(buf[dp + 1], n), l); }
      }
    }
  }

  // ------------------------------------------------------------------ the frame

  // Bytes written one after the other with stride px, the first one at place at.
  function Place(frame: seq<Byte>, at: nat, px: nat, out: seq<Byte>): (f: seq<Byte>)
    ensures |f| == |frame|
    decreases |out|
  {
    if out == [] then frame
    else
      var n := |out| - 1;
      var f := Place(frame, at, px, out[..n]);
      if at + n * px < |f| then f[at + n * px := out[n]] else f
  }

  datatype Result = Frame(pixels: seq<Byte>, dp: nat) | Invalid

  function TableSize(l: Layout): nat { |l.planemap| * (l.height * 2) }

  function BigEndian(high: int, low: int): (n: U32)
    requires 0 <= high < 256 && 0 <= low < 256
    ensures n < 0x1_0000
  {
    high * 256 + low
  }

  // Where the length of a line stands in the table.
  function Entry(l: Layout, p: nat, row: nat): nat { EntryAt(p, l.height, row) }
  function EntryAt(p: nat, height: nat, row: nat): nat { p * (height * 2) + row * 2 }

  lemma EntryIsInTable(l: Layout, p: nat, row: nat)
    requires p < |l.planemap| && row < l.height
    ensures Entry(l, p, row) + 2 <= TableSize(l)
  {
    OneTurnLess(p, |l.planemap|, l.height * 2);
  }

  lemma OneTurnLess(a: nat, b: nat, c: nat)
    requires a < b
    ensures a * c + c <= b * c
  {
    assert (b - a - 1) * c >= 0;
  }

  function LineLength(buf: seq<Byte>, l: Layout, p: nat, row: nat): U32
    requires p < |l.planemap| && row < l.height && TableSize(l) <= |buf|
  {
    EntryIsInTable(l, p, row);
    BigEndian(buf[Entry(l, p, row)], buf[Entry(l, p, row) + 1])
  }

  // The first byte of a plane in a row.
  function Start(l: Layout, p: nat, row: nat): nat
    requires p < |l.planemap|
  {
    row * l.linesize + l.planemap[p]
  }

  function DecodePlane(buf: seq<Byte>, dp: nat, frame: seq<Byte>, l: Layout, p: nat, row: nat): (r: Result)
    requires p < |l.planemap| && row <= l.height && TableSize(l) <= |buf| && dp <= |buf|
    ensures r.Frame? ==> dp <= r.dp <= |buf| && |r.pixels| == |frame|
    decreases l.height - row
  {
    if row == l.height then Frame(frame, dp)
    else
      var line := DecodeLine(buf, dp, LineLength(buf, l, p, row), [], l);
      if line.BadLine? then Invalid
      else DecodePlane(buf, line.dp, Place(frame, Start(l, p, row), l.px, line.out), l, p, row + 1)
  }

  function DecodePlanes(buf: seq<Byte>, dp: nat, frame: seq<Byte>, l: Layout, p: nat): (r: Result)
    requires p <= |l.planemap| && TableSize(l) <= |buf| && dp <= |buf|
    ensures r.Frame? ==> dp <= r.dp <= |buf| && |r.pixels| == |frame|
    decreases |l.planemap| - p
  {
    if p == |l.planemap| then Frame(frame, dp)
    else
      var r := DecodePlane(buf, dp, frame, l, p, 0);
      if r.Invalid? then Invalid else DecodePlanes(buf, r.dp, r.pixels, l, p + 1)
  }

  function Decode(buf: seq<Byte>, frame: seq<Byte>, l: Layout): Result {
    if |buf| < TableSize(l) then Invalid else DecodePlanes(buf, TableSize(l), frame, l, 0)
  }

  // ------------------------------------------------------------------ the decoder in place

  predicate Roomy(l: Layout, frame: array<Byte>) {
    Legal(l) && l.height * l.linesize <= frame.Length
  }

  // The last byte of n pixels that fit the row lies in the row, and so in the frame.
  lemma PixelIsInRow(l: Layout, p: nat, row: nat, n: nat)
    requires Legal(l) && p < |l.planemap| && row < l.height && n > 0 && Fits(l, n)
    ensures row * l.linesize <= Start(l, p, row) + (n - 1) * l.px < (row + 1) * l.linesize <= l.height * l.linesize
  {
    assert l.planemap[p] < l.px;
    hide Legal;
    Distribute(n - 1, 1, l.px);
    Distribute(row, 1, l.linesize);
    assert (n - 1) * l.px >= 0;
    OneTurnLess(row, l.height, l.linesize);
  }

  lemma Distribute(a: nat, b: nat, px: nat)
    ensures (a + b) * px == a * px + b * px
  {}

  lemma FewerFit(l: Layout, a: nat, b: nat)
    requires Fits(l, a) && b <= a
    ensures Fits(l, b)
  {
    Distribute(b, a - b, l.px);
    assert (a - b) * l.px >= 0;
  }

  // Writes one more byte of a line.
  method PutByte(frame: array<Byte>, l: Layout, p: nat, row: nat, pix: nat, b: Byte, ghost was: seq<Byte>,
                 ghost out: seq<Byte>)
    requires Roomy(l, frame) && p < |l.planemap| && row < l.height && Fits(l, |out| + 1) && |was| == frame.Length
    requires pix == Start(l, p, row) + |out| * l.px && frame[..] == Place(was, Start(l, p, row), l.px, out)
    modifies frame
    ensures frame[..] == Place(was, Start(l, p, row), l.px, out + [b])
  {
    PixelIsInRow(l, p, row, |out| + 1);
    frame[pix] := b;
  }

  // A run: n bytes of buf from src on, or n times the byte at src.
  method PutRun(buf: seq<Byte>, frame: array<Byte>, l: Layout, p: nat, row: nat, pix0: nat, src: nat, n: nat,
                literal: bool, ghost was: seq<Byte>, ghost out: seq<Byte>) returns (pix: nat)
    requires Roomy(l, frame) && p < |l.planemap| && row < l.height && Fits(l, |out| + n) && |was| == frame.Length
    requires if literal then src + n <= |buf| else src < |buf|
    requires pix0 == Start(l, p, row) + |out| * l.px && frame[..] == Place(was, Start(l, p, row), l.px, out)
    modifies frame
    ensures var run := if literal then buf[src..src + n] else Copies(buf[src], n);
            && pix == Start(l, p, row) + (|out| + n) * l.px
            && frame[..] == Place(was, Start(l, p, row), l.px, out + run)
  {
    hide Place, Start, Roomy;
    pix := pix0;
    ghost var run := if literal then buf[src..src + n] else Copies(buf[src], n);
    assert out + run[..0] == out;
    for i := 0 to n
      invariant pix == Start(l, p, row) + (|out| + i) * l.px
      invariant frame[..] == Place(was, Start(l, p, row), l.px, out + run[..i])
    {
      FewerFit(l, |out| + n, |out| + i + 1);
      PutByte(frame, l, p, row, pix, if literal then buf[src + i] else buf[src], was, out + run[..i]);
      assert out + run[..i] + [run[i]] == out + run[..i + 1];
      Distribute(|out| + i, 1, l.px);
      pix := pix + l.px;
    }
    assert run[..n] == run;
  }

  lemma StartIs(l: Layout, p: nat, row: nat)
    requires p < |l.planemap|
    ensures Start(l, p, row) == row * l.linesize + l.planemap[p] && Fits(l, 0)
  {}

  lemma RoomLeft(l: Layout, a: nat, n: nat)
    ensures l.linesize - a * l.px < n * l.px <==> !Fits(l, a + n)
  {
    Distribute(a, n, l.px);
  }

  method DecodeRow(buf: seq<Byte>, frame: array<Byte>, l: Layout, p: nat, row: nat, dp0: nat, length: U32)
      returns (ok: bool, dp: nat)
    requires Roomy(l, frame) && p < |l.planemap| && row < l.height && dp0 <= |buf|
    modifies frame
    ensures var r := DecodeLine(buf, dp0, length, [], l);
            && ok == r.Line?
            && (ok ==> dp == r.dp && frame[..] == Place(old(frame[..]), Start(l, p, row), l.px, r.out))
  {
    hide Place, Roomy, Start, Fits, DecodeLine, Copies;
    var dlen: U32 := length;
    dp := dp0;
    var pix := row * l.linesize + l.planemap[p];
    StartIs(l, p, row);
    var end := pix + l.linesize;
    ghost var out: seq<Byte> := [];
    NothingPlaced(frame[..], Start(l, p, row), l.px);
    while dlen > 0
      invariant dp <= |buf| && Fits(l, |out|)
      invariant pix == Start(l, p, row) + |out| * l.px && end == Start(l, p, row) + l.linesize
      invariant frame[..] == Place(old(frame[..]), Start(l, p, row), l.px, out)
      invariant DecodeLine(buf, dp, dlen, out, l) == DecodeLine(buf, dp0, length, [], l)
      decreases |buf| - dp
    {
      NextRun(buf, dp, dlen, out, l);
      if |buf| - dp <= 1 { return false, dp; }
      var literal := buf[dp] <= 127;
      var count: nat := if literal then buf[dp] + 1 else 257 - buf[dp];
      dp := dp + 1;
      RoomLeft(l, |out|, count);
      if end - pix < count * l.px { return true, dp; }
      if literal && |buf| - dp < count { return false, dp; }
      pix := PutRun(buf, frame, l, p, row, pix, dp, count, literal, old(frame[..]), out);
      out := out + if literal then buf[dp..dp + count] else Copies(buf[dp], count);
      dlen := if literal then Sub32(dlen, count + 1) else Sub32(dlen, 2);
      dp := if literal then dp + count else dp + 1;
    }
    LineEnds(buf, dp, out, l);
    return true, dp;
  }

  // One run of a line: refused, not fitting, or read.
  lemma NextRun(buf: seq<Byte>, dp: nat, dlen: U32, out: seq<Byte>, l: Layout)
    requires dp <= |buf| && dlen > 0
    ensures |buf| - dp <= 1 ==> DecodeLine(buf, dp, dlen, out, l).BadLine?
    ensures |buf| - dp > 1 ==>
              var r, literal := DecodeLine(buf, dp, dlen, out, l), buf[dp] <= 127;
              var count: nat := if literal then buf[dp] + 1 else 257 - buf[dp];
              if !Fits(l, |out| + count) then r.Line? && r.out == out && r.dp == dp + 1
              else if literal then
                if |buf| - (dp + 1) < count then r.BadLine?
                else r == DecodeLine(buf, dp + 1 + count, Sub32(dlen, count + 1), out + buf[dp + 1..dp + 1 + count], l)
              else r == DecodeLine(buf, dp + 2, Sub32(dlen, 2), out + Copies(buf[dp + 1], count), l)
  {
    hide Fits, Copies;
  }

  lemma LineEnds(buf: seq<Byte>, dp: nat, out: seq<Byte>, l: Layout)
    requires dp <= |buf|
    ensures var r := DecodeLine(buf, dp, 0, out, l); r.Line? && r.out == out && r.dp == dp
  {}

  lemma NothingPlaced(frame: seq<Byte>, at: nat, px: nat)
    ensures Place(frame, at, px, []) == frame
  {}

  // Decodes all planes. The second test of the table, made again before every line, never fails.
  method DecodeFrame(buf: seq<Byte>, frame: array<Byte>, l: Layout) returns (ok: bool, dp: nat)
    requires Roomy(l, frame)
    modifies frame
    ensures var r := Decode(buf, old(frame[..]), l);
            ok == r.Frame? && (ok ==> dp == r.dp && frame[..] == r.pixels)
  {
    hide Place, Roomy, DecodeLine, TableSize, Entry;
    dp := 0;
    if |buf| < TableSize(l) { return false, dp; }
    dp := TableSize(l);
    for p := 0 to |l.planemap|
      invariant dp <= |buf|
      invariant DecodePlanes(buf, dp, frame[..], l, p) == Decode(buf, old(frame[..]), l)
    {
      ghost var plane := DecodePlane(buf, dp, frame[..], l, p, 0);
      for row := 0 to l.height
        invariant dp <= |buf|
        invariant DecodePlane(buf, dp, frame[..], l, p, row) == plane
      {
        EntryIsInTable(l, p, row);
        var lp := Entry(l, p, row);
        if |buf| < lp + 2 { return false, dp; }
        ok, dp := DecodeRow(buf, frame, l, p, row, dp, BigEndian(buf[lp], buf[lp + 1]));
        if !ok { return false, dp; }
      }
    }
    return true, dp;
  }

  // ------------------------------------------------------------------ encoded images

  datatype Run = Literal(bytes: seq<Byte>) | Repeat(n: nat, b: Byte)

  predicate ValidRun(r: Run) { if r.Literal? then 1 <= |r.bytes| <= 128 else 2 <= r.n <= 129 }

  function EncodeRun(r: Run): (e: seq<Byte>)
    requires ValidRun(r)
    ensures |e| == if r.Literal? then |r.bytes| + 1 else 2
  {
    if r.Literal? then [|r.bytes| - 1] + r.bytes else [257 - r.n, r.b]
  }

  function ExpandRun(r: Run): seq<Byte> { if r.Literal? then r.bytes else Copies(r.b, r.n) }

  type Runs = runs: seq<Run> | forall i | 0 <= i < |runs| :: ValidRun(runs[i])

  function EncodeLine(runs: Runs): seq<Byte> {
    if runs == [] then [] else EncodeRun(runs[0]) + EncodeLine(runs[1..])
  }

  function ExpandLine(runs: Runs): seq<Byte> {
    if runs == [] then [] else ExpandRun(runs[0]) + ExpandLine(runs[1..])
  }

  // A line decodes to what it stands for, and ends where its bytes end.
  lemma {:induction false} LineRoundTrip(buf: seq<Byte>, dp: nat, runs: Runs, out: seq<Byte>, l: Layout)
    requires HasAt(buf, dp, EncodeLine(runs)) && |EncodeLine(runs)| < 0x1_0000_0000
    requires Fits(l, |out| + |ExpandLine(runs)|)
    ensures DecodeLine(buf, dp, |EncodeLine(runs)|, out, l) == Line(out + ExpandLine(runs), dp + |EncodeLine(runs)|)
    decreases |runs|
  {
    hide *;
    if runs == [] {
      EmptyLine(buf, dp, out, l);
    } else {
      var r, rest := runs[0], runs[1..];
      var e, x := EncodeRun(r), ExpandRun(r);
      var es, xs := EncodeLine(rest), ExpandLine(rest);
      FirstRun(runs);
      HasParts(buf, dp, e, es);
      FewerFit(l, |out| + |x + xs|, |out| + |x|);
      assert out + x + xs == out + (x + xs);
      RunIsRead(buf, dp, r, |e + es|, out, l);
      LineRoundTrip(buf, dp + |e|, rest, out + x, l);
    }
  }

  lemma EmptyLine(buf: seq<Byte>, dp: nat, out: seq<Byte>, l: Layout)
    requires HasAt(buf, dp, EncodeLine([]))
    ensures dp <= |buf| && DecodeLine(buf, dp, |EncodeLine([])|, out, l)
        == Line(out + ExpandLine([]), dp + |EncodeLine([])|)
  {
    assert out + [] == out;
  }

  lemma FirstRun(runs: Runs)
    requires runs != []
    ensures EncodeLine(runs) == EncodeRun(runs[0]) + EncodeLine(runs[1..])
    ensures ExpandLine(runs) == ExpandRun(runs[0]) + ExpandLine(runs[1..])
  {}

  lemma RunIsRead(buf: seq<Byte>, dp: nat, r: Run, dlen: U32, out: seq<Byte>, l: Layout)
    requires ValidRun(r) && HasAt(buf, dp, EncodeRun(r)) && |EncodeRun(r)| <= dlen && Fits(l, |out| + |ExpandRun(r)|)
    ensures DecodeLine(buf, dp, dlen, out, l)
         == DecodeLine(buf, dp + |EncodeRun(r)|, dlen - |EncodeRun(r)|, out + ExpandRun(r), l)
  {
    hide Fits;
    var part := buf[dp..dp + |EncodeRun(r)|];
    assert buf[dp] == part[0];
    if r.Literal? {
      assert buf[dp + 1..dp + 1 + |r.bytes|] == part[1..];
    } else {
      assert buf[dp + 1] == part[1];
    }
  }

  // A line whose bytes end too early is refused, wherever they end.
  lemma {:induction false} TruncatedLineIsRefused(buf: seq<Byte>, dp: nat, runs: Runs, out: seq<Byte>, l: Layout)
    requires dp <= |buf| < dp + |EncodeLine(runs)| && |EncodeLine(runs)| < 0x1_0000_0000
    requires buf[dp..] == EncodeLine(runs)[..|buf| - dp]
    requires Fits(l, |out| + |ExpandLine(runs)|)
    ensures DecodeLine(buf, dp, |EncodeLine(runs)|, out, l).BadLine?
    decreases |runs|
  {
    hide *;
    if runs == [] {
      NoBytes();
    } else {
      var r, rest := runs[0], runs[1..];
      var e, x := EncodeRun(r), ExpandRun(r);
      var es, xs := EncodeLine(rest), ExpandLine(rest);
      FirstRun(runs);
      FewerFit(l, |out| + |x + xs|, |out| + |x|);
      assert out + x + xs == out + (x + xs);
      if |buf| - dp < |e| {
        PartialRun(buf, dp, r, |e + es|, out, l);
      } else {
        WholeRunThenRest(buf, dp, e, es);
        RunIsRead(buf, dp, r, |e + es|, out, l);
        TruncatedLineIsRefused(buf, dp + |e|, rest, out + x, l);
      }
    }
  }

  lemma NoBytes()
    ensures EncodeLine([]) == []
  {}

  lemma WholeRunThenRest(buf: seq<Byte>, dp: nat, e: seq<Byte>, es: seq<Byte>)
    requires dp + |e| <= |buf| < dp + |e + es| && buf[dp..] == (e + es)[..|buf| - dp]
    ensures HasAt(buf, dp, e) && buf[dp + |e|..] == es[..|buf| - dp - |e|]
  {
    assert buf[dp..dp + |e|] == buf[dp..][..|e|] == e;
    assert buf[dp + |e|..] == buf[dp..][|e|..];
  }

  lemma PartialRun(buf: seq<Byte>, dp: nat, r: Run, dlen: U32, out: seq<Byte>, l: Layout)
    requires ValidRun(r) && dp <= |buf| < dp + |EncodeRun(r)| && 0 < dlen
    requires buf[dp..] == EncodeRun(r)[..|buf| - dp] && Fits(l, |out| + |ExpandRun(r)|)
    ensures DecodeLine(buf, dp, dlen, out, l).BadLine?
  {
    hide Fits;
    assert |buf| > dp ==> buf[dp] == buf[dp..][0] == EncodeRun(r)[0];
  }

  // An image is a list of planes, each a list of lines.
  type Image = seq<seq<Runs>>

  predicate ValidLine(runs: Runs, width: nat) { |ExpandLine(runs)| == width && |EncodeLine(runs)| < 0x1_0000 }

  ghost predicate ValidPlane(rows: seq<Runs>, width: nat) {
    forall k | 0 <= k < |rows| :: ValidLine(rows[k], width)
  }

  ghost predicate ValidImage(image: Image, l: Layout, width: nat) {
    Fits(l, width) && |image| == |l.planemap|
    && forall p | 0 <= p < |image| :: |image[p]| == l.height && ValidPlane(image[p], width)
  }

  function Lengths(rows: seq<Runs>): (t: seq<Byte>)
    requires forall k | 0 <= k < |rows| :: |EncodeLine(rows[k])| < 0x1_0000
    ensures |t| == 2 * |rows|
  {
    if rows == [] then []
    else
      var n := |EncodeLine(rows[0])|;
      [n / 256, n % 256] + Lengths(rows[1..])
  }

  function Body(rows: seq<Runs>): seq<Byte> {
    if rows == [] then [] else EncodeLine(rows[0]) + Body(rows[1..])
  }

  predicate ShortLines(image: Image) {
    forall p, k | 0 <= p < |image| && 0 <= k < |image[p]| :: |EncodeLine(image[p][k])| < 0x1_0000
  }

  function Table(image: Image): seq<Byte>
    requires ShortLines(image)
  {
    if image == [] then [] else Lengths(image[0]) + Table(image[1..])
  }

  function Bodies(image: Image): seq<Byte> {
    if image == [] then [] else Body(image[0]) + Bodies(image[1..])
  }

  function Encode(image: Image): seq<Byte>
    requires ShortLines(image)
  {
    Table(image) + Bodies(image)
  }

  // ------------------------------------------------------------------ the table is read back

  lemma {:induction false} LengthsEntry(rows: seq<Runs>, k: nat)
    requires (forall j | 0 <= j < |rows| :: |EncodeLine(rows[j])| < 0x1_0000) && k < |rows|
    ensures BigEndian(Lengths(rows)[2 * k], Lengths(rows)[2 * k + 1]) == |EncodeLine(rows[k])|
  {
    if k > 0 { LengthsEntry(rows[1..], k - 1); }
  }

  lemma {:induction false} TableIsRegular(image: Image, height: nat)
    requires ShortLines(image) && forall p | 0 <= p < |image| :: |image[p]| == height
    ensures |Table(image)| == |image| * (height * 2)
  {
    if image != [] {
      TableIsRegular(image[1..], height);
      Distribute(|image| - 1, 1, height * 2);
    }
  }

  lemma {:induction false} TableEntry(image: Image, height: nat, p: nat, row: nat)
    requires ShortLines(image) && (forall p | 0 <= p < |image| :: |image[p]| == height) && p < |image| && row < height
    ensures var e := EntryAt(p, height, row);
            e + 1 < |Table(image)| && BigEndian(Table(image)[e], Table(image)[e + 1]) == |EncodeLine(image[p][row])|
  {
    hide *;
    EntryShift(p, height, row);
    TableSplits(image);
    if p == 0 {
      LengthsEntry(image[0], row);
    } else {
      var rest := image[1..];
      TableEntry(rest, height, p - 1, row);
      var e := EntryAt(p - 1, height, row);
      assert Table(image)[2 * height + e] == Table(rest)[e] && Table(image)[2 * height + e + 1] == Table(rest)[e + 1];
    }
  }

  lemma TableSplits(image: Image)
    requires ShortLines(image) && image != []
    ensures ShortLines(image[1..]) && forall k | 0 <= k < |image[0]| :: |EncodeLine(image[0][k])| < 0x1_0000
    ensures Table(image) == Lengths(image[0]) + Table(image[1..])
  {}

  lemma EntryShift(p: nat, height: nat, row: nat)
    ensures EntryAt(0, height, row) == 2 * row
    ensures p > 0 ==> EntryAt(p, height, row) == EntryAt(p - 1, height, row) + 2 * height
  {
    if p > 0 { Distribute(p - 1, 1, height * 2); }
  }

  // ------------------------------------------------------------------ the frame is rebuilt

  function PlacePlane(frame: seq<Byte>, l: Layout, p: nat, row: nat, rows: seq<Runs>): (f: seq<Byte>)
    requires p < |l.planemap|
    ensures |f| == |frame|
    decreases |rows|
  {
    if rows == [] then frame
    else PlacePlane(Place(frame, Start(l, p, row), l.px, ExpandLine(rows[0])), l, p, row + 1, rows[1..])
  }

  function PlacePlanes(frame: seq<Byte>, l: Layout, p: nat, image: Image): (f: seq<Byte>)
    requires p + |image| <= |l.planemap|
    ensures |f| == |frame|
    decreases |image|
  {
    if image == [] then frame else PlacePlanes(PlacePlane(frame, l, p, 0, image[0]), l, p + 1, image[1..])
  }

  // The lengths of a plane's lines from row on stand in the table.
  ghost predicate LinesMatch(buf: seq<Byte>, l: Layout, p: nat, row: nat, rows: seq<Runs>, width: nat)
    requires p < |l.planemap| && TableSize(l) <= |buf|
    decreases |rows|
  {
    if row >= l.height then row == l.height && rows == []
    else
      && rows != [] && ValidLine(rows[0], width) && LineLength(buf, l, p, row) == |EncodeLine(rows[0])|
      && LinesMatch(buf, l, p, row + 1, rows[1..], width)
  }

  ghost predicate PlanesMatch(buf: seq<Byte>, l: Layout, p: nat, image: Image, width: nat)
    requires TableSize(l) <= |buf|
    decreases |image|
  {
    if p >= |l.planemap| then p == |l.planemap| && image == []
    else image != [] && LinesMatch(buf, l, p, 0, image[0], width) && PlanesMatch(buf, l, p + 1, image[1..], width)
  }

  lemma {:induction false} PlaneRoundTrip(buf: seq<Byte>, dp: nat, frame: seq<Byte>, l: Layout, p: nat, row: nat,
                                          rows: seq<Runs>, width: nat)
    requires p < |l.planemap| && row <= l.height && TableSize(l) <= |buf| && Fits(l, width)
    requires HasAt(buf, dp, Body(rows)) && LinesMatch(buf, l, p, row, rows, width)
    ensures DecodePlane(buf, dp, frame, l, p, row) == Frame(PlacePlane(frame, l, p, row, rows), dp + |Body(rows)|)
    decreases |rows|
  {
    hide TableSize, LineLength, Place, Start, Fits, DecodeLine, EncodeLine, ExpandLine;
    if rows != [] {
      var line, rest := rows[0], rows[1..];
      HasParts(buf, dp, EncodeLine(line), Body(rest));
      assert ValidLine(line, width);
      LineRoundTrip(buf, dp, line, [], l);
      assert [] + ExpandLine(line) == ExpandLine(line);
      PlaneRoundTrip(buf, dp + |EncodeLine(line)|, Place(frame, Start(l, p, row), l.px, ExpandLine(line)), l, p,
                     row + 1, rest, width);
    }
  }

  lemma {:induction false} PlanesRoundTrip(buf: seq<Byte>, dp: nat, frame: seq<Byte>, l: Layout, p: nat, image: Image,
                                           width: nat)
    requires p <= |l.planemap| && TableSize(l) <= |buf| && Fits(l, width)
    requires HasAt(buf, dp, Bodies(image)) && PlanesMatch(buf, l, p, image, width)
    ensures p + |image| == |l.planemap|
    ensures DecodePlanes(buf, dp, frame, l, p) == Frame(PlacePlanes(frame, l, p, image), dp + |Bodies(image)|)
    decreases |image|
  {
    hide TableSize, LinesMatch, Fits, DecodePlane, PlacePlane, Body;
    if image != [] {
      var plane, rest := image[0], image[1..];
      HasParts(buf, dp, Body(plane), Bodies(rest));
      PlaneRoundTrip(buf, dp, frame, l, p, 0, plane, width);
      PlanesRoundTrip(buf, dp + |Body(plane)|, PlacePlane(frame, l, p, 0, plane), l, p + 1, rest, width);
    }
  }

  // An encoded image carries its own line lengths in the table.
  lemma {:induction false} LinesDoMatch(buf: seq<Byte>, l: Layout, image: Image, p: nat, row: nat, width: nat)
    requires ValidImage(image, l, width) && ShortLines(image) && TableSize(l) <= |buf| && HasAt(buf, 0, Table(image))
    requires p < |l.planemap| && row <= l.height
    ensures LinesMatch(buf, l, p, row, image[p][row..], width)
    decreases l.height - row
  {
    if row < l.height {
      TableEntry(image, l.height, p, row);
      var e := Entry(l, p, row);
      assert buf[e] == Table(image)[e] && buf[e + 1] == Table(image)[e + 1];
      assert image[p][row..][1..] == image[p][row + 1..];
      LinesDoMatch(buf, l, image, p, row + 1, width);
    }
  }

  lemma {:induction false} PlanesDoMatch(buf: seq<Byte>, l: Layout, image: Image, p: nat, width: nat)
    requires ValidImage(image, l, width) && ShortLines(image) && TableSize(l) <= |buf| && HasAt(buf, 0, Table(image))
    requires p <= |l.planemap|
    ensures PlanesMatch(buf, l, p, image[p..], width)
    decreases |l.planemap| - p
  {
    if p < |l.planemap| {
      LinesDoMatch(buf, l, image, p, 0, width);
      assert image[p][0..] == image[p];
      assert image[p..][1..] == image[p + 1..];
      hide LinesMatch, HasAt, Table, TableSize, ShortLines;
      PlanesDoMatch(buf, l, image, p + 1, width);
    }
  }

  // ------------------------------------------------------------------ every pixel has its own byte

  function Pixel(l: Layout, p: nat, row: nat, i: nat): nat
    requires p < |l.planemap|
  {
    Start(l, p, row) + i * l.px
  }

  lemma PixelsAreApart(l: Layout, width: nat, p: nat, row: nat, i: nat, p2: nat, row2: nat, i2: nat)
    requires Legal(l) && Fits(l, width) && p < |l.planemap| && p2 < |l.planemap| && row < l.height && row2 < l.height
    requires i < width && i2 < width && Pixel(l, p, row, i) == Pixel(l, p2, row2, i2)
    ensures p == p2 && row == row2 && i == i2
  {
    FewerFit(l, width, i + 1);
    FewerFit(l, width, i2 + 1);
    PixelIsInRow(l, p, row, i + 1);
    PixelIsInRow(l, p2, row2, i2 + 1);
    hide Fits, Start;
    SameRow(Pixel(l, p, row, i), row, row2, l.linesize);
    SameOffset(l, p, row, i, p2, i2);
  }

  lemma SameRow(x: nat, row: nat, row2: nat, linesize: nat)
    requires row * linesize <= x < (row + 1) * linesize && row2 * linesize <= x < (row2 + 1) * linesize
    ensures row == row2
  {
    if row < row2 { OneTurnLess(row, row2, linesize); } else if row2 < row { OneTurnLess(row2, row, linesize); }
  }

  lemma SameOffset(l: Layout, p: nat, row: nat, i: nat, p2: nat, i2: nat)
    requires Legal(l) && p < |l.planemap| && p2 < |l.planemap| && Pixel(l, p, row, i) == Pixel(l, p2, row, i2)
    ensures p == p2 && i == i2
  {
    SamePlace(l.planemap[p], i, l.planemap[p2], i2, l.px);
  }

  lemma SamePlace(a: nat, i: nat, b: nat, k: nat, px: nat)
    requires a < px && b < px && a + i * px == b + k * px
    ensures a == b && i == k
  {
    RemainderOf(a + i * px, px, i, a);
    RemainderOf(b + k * px, px, k, b);
    if i < k { OneTurnLess(i, k, px); } else if k < i { OneTurnLess(k, i, px); }
  }

  // Bytes that no pixel of the line falls on stay; the pixels get the line's bytes.
  lemma {:induction false} PlaceMisses(frame: seq<Byte>, at: nat, px: nat, out: seq<Byte>, x: nat)
    requires x < |frame| && forall i: nat | i < |out| :: x != at + i * px
    ensures Place(frame, at, px, out)[x] == frame[x]
    decreases |out|
  {
    if out != [] { PlaceMisses(frame, at, px, out[..|out| - 1], x); }
  }

  lemma {:induction false} PlaceHits(frame: seq<Byte>, at: nat, px: nat, out: seq<Byte>, i: nat)
    requires px > 0 && i < |out| && at + i * px < |frame|
    ensures Place(frame, at, px, out)[at + i * px] == out[i]
    decreases |out|
  {
    if i < |out| - 1 {
      OneTurnLess(i, |out| - 1, px);
      PlaceHits(frame, at, px, out[..|out| - 1], i);
    }
  }

  // The byte x belongs to no pixel of the given line.
  ghost predicate Misses(l: Layout, width: nat, p: nat, row: nat, x: nat)
    requires p < |l.planemap|
  {
    forall i: nat | i < width :: x != Pixel(l, p, row, i)
  }

  lemma {:induction false} PlaneMisses(frame: seq<Byte>, l: Layout, p: nat, row: nat, rows: seq<Runs>, width: nat,
                                       x: nat)
    requires p < |l.planemap| && ValidPlane(rows, width) && x < |frame|
    requires forall k: nat | row <= k < row + |rows| :: Misses(l, width, p, k, x)
    ensures PlacePlane(frame, l, p, row, rows)[x] == frame[x]
    decreases |rows|
  {
    if rows != [] {
      assert Misses(l, width, p, row, x) && ValidLine(rows[0], width);
      assert forall i: nat | i < width :: x != Start(l, p, row) + i * l.px by {
        forall i: nat | i < width ensures x != Start(l, p, row) + i * l.px { assert x != Pixel(l, p, row, i); }
      }
      PlaceMisses(frame, Start(l, p, row), l.px, ExpandLine(rows[0]), x);
      hide Misses, Place, ExpandLine, EncodeLine;
      PlaneMisses(Place(frame, Start(l, p, row), l.px, ExpandLine(rows[0])), l, p, row + 1, rows[1..], width, x);
    }
  }

  lemma {:induction false} PlanesMiss(frame: seq<Byte>, l: Layout, p: nat, image: Image, width: nat, x: nat)
    requires p + |image| <= |l.planemap| && x < |frame|
    requires forall q | 0 <= q < |image| :: |image[q]| == l.height && ValidPlane(image[q], width)
    requires forall q: nat, k: nat | p <= q < |l.planemap| && k < l.height :: Misses(l, width, q, k, x)
    ensures PlacePlanes(frame, l, p, image)[x] == frame[x]
    decreases |image|
  {
    if image != [] {
      hide Misses, PlacePlane, ValidPlane;
      PlaneMisses(frame, l, p, 0, image[0], width, x);
      PlanesMiss(PlacePlane(frame, l, p, 0, image[0]), l, p + 1, image[1..], width, x);
    }
  }

  lemma MissesOthers(l: Layout, width: nat, p: nat, row: nat, i: nat, q: nat, k: nat)
    requires Legal(l) && Fits(l, width) && p < |l.planemap| && q < |l.planemap| && row < l.height && k < l.height
        && i < width
    requires p != q || row != k
    ensures Misses(l, width, q, k, Pixel(l, p, row, i))
  {
    hide Pixel, Legal, Fits;
    forall j: nat | j < width ensures Pixel(l, p, row, i) != Pixel(l, q, k, j) {
      if Pixel(l, p, row, i) == Pixel(l, q, k, j) { PixelsAreApart(l, width, p, row, i, q, k, j); }
    }
  }

  lemma PixelIsInFrame(l: Layout, width: nat, p: nat, row: nat, i: nat)
    requires Legal(l) && Fits(l, width) && p < |l.planemap| && row < l.height && i < width
    ensures Pixel(l, p, row, i) < l.height * l.linesize
  {
    FewerFit(l, width, i + 1);
    PixelIsInRow(l, p, row, i + 1);
  }

  lemma LineHits(frame: seq<Byte>, l: Layout, p: nat, row: nat, rows: seq<Runs>, width: nat, i: nat)
    requires Legal(l) && Fits(l, width) && p < |l.planemap| && rows != [] && ValidPlane(rows, width)
    requires row + |rows| <= l.height && l.height * l.linesize <= |frame| && i < width
    ensures Pixel(l, p, row, i) < |frame|
            && PlacePlane(frame, l, p, row, rows)[Pixel(l, p, row, i)] == ExpandLine(rows[0])[i]
  {
    LinesAreValid(rows, width, 0);
    PixelIsInFrame(l, width, p, row, i);
    assert l.planemap[p] < l.px;
    hide *;
    var x := Pixel(l, p, row, i);
    var next := Place(frame, Start(l, p, row), l.px, ExpandLine(rows[0]));
    FirstLine(frame, l, p, row, rows);
    FirstHit(frame, l, p, row, ExpandLine(rows[0]), i);
    forall k: nat | row + 1 <= k < row + 1 + |rows[1..]| ensures Misses(l, width, p, k, x) {
      MissesOthers(l, width, p, row, i, p, k);
    }
    PlaneMisses(next, l, p, row + 1, rows[1..], width, x);
  }

  lemma FirstHit(frame: seq<Byte>, l: Layout, p: nat, row: nat, out: seq<Byte>, i: nat)
    requires p < |l.planemap| && l.px > 0 && i < |out| && Pixel(l, p, row, i) < |frame|
    ensures Place(frame, Start(l, p, row), l.px, out)[Pixel(l, p, row, i)] == out[i]
  {
    PlaceHits(frame, Start(l, p, row), l.px, out, i);
  }

  lemma {:induction false} PlaneHits(frame: seq<Byte>, l: Layout, p: nat, row: nat, rows: seq<Runs>, width: nat,
                                     k: nat, i: nat)
    requires Legal(l) && Fits(l, width) && p < |l.planemap| && ValidPlane(rows, width)
    requires row + |rows| <= l.height && l.height * l.linesize <= |frame| && k < |rows| && i < width
    ensures var x := Pixel(l, p, row + k, i);
            x < |frame| && |ExpandLine(rows[k])| == width
                && PlacePlane(frame, l, p, row, rows)[x] == ExpandLine(rows[k])[i]
    decreases k
  {
    hide *;
    LinesAreValid(rows, width, k);
    if k == 0 {
      LineHits(frame, l, p, row, rows, width, i);
    } else {
      var next := Place(frame, Start(l, p, row), l.px, ExpandLine(rows[0]));
      FirstLine(frame, l, p, row, rows);
      PlaneHits(next, l, p, row + 1, rows[1..], width, k - 1, i);
    }
  }

  lemma LinesAreValid(rows: seq<Runs>, width: nat, k: nat)
    requires ValidPlane(rows, width) && k < |rows|
    ensures |ExpandLine(rows[k])| == width && ValidPlane(rows[1..], width)
  {
    assert ValidLine(rows[k], width);
    hide ExpandLine, EncodeLine;
  }

  lemma FirstLine(frame: seq<Byte>, l: Layout, p: nat, row: nat, rows: seq<Runs>)
    requires p < |l.planemap| && rows != []
    ensures PlacePlane(frame, l, p, row, rows)
         == PlacePlane(Place(frame, Start(l, p, row), l.px, ExpandLine(rows[0])), l, p, row + 1, rows[1..])
  {}

  lemma {:induction false} PlanesHit(frame: seq<Byte>, l: Layout, p: nat, image: Image, width: nat, q: nat, row: nat,
                                     i: nat)
    requires Legal(l) && Fits(l, width) && p + |image| <= |l.planemap| && l.height * l.linesize <= |frame|
    requires forall q | 0 <= q < |image| :: |image[q]| == l.height && ValidPlane(image[q], width)
    requires q < |image| && row < l.height && i < width
    ensures var x := Pixel(l, p + q, row, i);
            x < |frame| && |ExpandLine(image[q][row])| == width
                && PlacePlanes(frame, l, p, image)[x] == ExpandLine(image[q][row])[i]
    decreases q
  {
    hide Legal, Fits, PlacePlane, Pixel, ExpandLine, ValidPlane, Misses;
    if q == 0 {
      PlaneHits(frame, l, p, 0, image[0], width, row, i);
      var x := Pixel(l, p, row, i);
      forall q2: nat, k: nat | p + 1 <= q2 < |l.planemap| && k < l.height ensures Misses(l, width, q2, k, x) {
        MissesOthers(l, width, p, row, i, q2, k);
      }
      PlanesMiss(PlacePlane(frame, l, p, 0, image[0]), l, p + 1, image[1..], width, x);
    } else {
      PlanesHit(PlacePlane(frame, l, p, 0, image[0]), l, p + 1, image[1..], width, q - 1, row, i);
    }
  }

  lemma LinesAreShort(image: Image, l: Layout, width: nat)
    requires ValidImage(image, l, width)
    ensures ShortLines(image) && |Table(image)| == TableSize(l)
  {
    forall p, k | 0 <= p < |image| && 0 <= k < |image[p]| ensures |EncodeLine(image[p][k])| < 0x1_0000 {
      assert ValidPlane(image[p], width) && ValidLine(image[p][k], width);
    }
    TableIsRegular(image, l.height);
  }

  // Decoding an encoded image, whatever follows it, uses up exactly its bytes ...
  lemma DecodingConsumes(image: Image, l: Layout, width: nat, rest: seq<Byte>, frame: seq<Byte>)
    requires ValidImage(image, l, width)
    ensures ShortLines(image)
    ensures Decode(Encode(image) + rest, frame, l) == Frame(PlacePlanes(frame, l, 0, image), |Encode(image)|)
  {
    LinesAreShort(image, l, width);
    var buf := Encode(image) + rest;
    var table, bodies := Table(image), Bodies(image);
    assert buf[..|table|] == table && buf[|table|..|table| + |bodies|] == bodies;
    assert HasAt(buf, 0, table) && HasAt(buf, |table|, bodies);
    hide HasAt, TableSize, PlanesMatch, Fits, Table, Bodies;
    PlanesDoMatch(buf, l, image, 0, width);
    assert image[0..] == image;
    PlanesRoundTrip(buf, |table|, frame, l, 0, image, width);
  }

  lemma ValidImageMeans(image: Image, l: Layout, width: nat)
    requires ValidImage(image, l, width)
    ensures Fits(l, width) && |image| == |l.planemap|
    ensures forall q | 0 <= q < |image| :: |image[q]| == l.height && ValidPlane(image[q], width)
  {}

  // ... puts every pixel of every plane into its place ...
  lemma DecodingRebuilds(image: Image, l: Layout, width: nat, rest: seq<Byte>, frame: seq<Byte>, p: nat, row: nat,
                         i: nat)
    requires Legal(l) && ValidImage(image, l, width) && l.height * l.linesize <= |frame|
    requires p < |image| && row < l.height && i < width
    ensures ShortLines(image)
    ensures var r, x := Decode(Encode(image) + rest, frame, l), Pixel(l, p, row, i);
            && r.Frame? && x < |r.pixels| && |ExpandLine(image[p][row])| == width
            && r.pixels[x] == ExpandLine(image[p][row])[i]
  {
    ValidImageMeans(image, l, width);
    hide *;
    DecodingConsumes(image, l, width, rest, frame);
    PlanesHit(frame, l, 0, image, width, p, row, i);
  }

  // ... and leaves the padding bytes of the frame alone.
  lemma DecodingKeepsPadding(image: Image, l: Layout, width: nat, rest: seq<Byte>, frame: seq<Byte>, x: nat)
    requires ValidImage(image, l, width) && x < |frame|
    requires forall p: nat, row: nat | p < |l.planemap| && row < l.height :: Misses(l, width, p, row, x)
    ensures ShortLines(image)
    ensures var r := Decode(Encode(image) + rest, frame, l); r.Frame? && r.pixels[x] == frame[x]
  {
    DecodingConsumes(image, l, width, rest, frame);
    PlanesMiss(frame, l, 0, image, width, x);
  }

  // Every line of pixels has an encoding, if only one of literal runs.
  function AsLiterals(pixels: seq<Byte>): (runs: Runs)
    ensures ExpandLine(runs) == pixels
    decreases |pixels|
  {
    if pixels == [] then []
    else
      var n := if |pixels| < 128 then |pixels| else 128;
      [Literal(pixels[..n])] + AsLiterals(pixels[n..])
  }

  // ... which takes one byte more for each 128 pixels,
  lemma {:induction false} LiteralsLength(pixels: seq<Byte>)
    ensures |EncodeLine(AsLiterals(pixels))| == |pixels| + (|pixels| + 127) / 128
    decreases |pixels|
  {
    if pixels != [] {
      var n := if |pixels| < 128 then |pixels| else 128;
      var runs, rest := AsLiterals(pixels), AsLiterals(pixels[n..]);
      assert runs[0] == Literal(pixels[..n]) && runs[1..] == rest;
      LiteralsLength(pixels[n..]);
    }
  }

  // ... so that every line of up to 65026 pixels has one whose length fits its table entry and which
  // decodes to these pixels.
  lemma EveryLineHasAnEncoding(pixels: seq<Byte>, out: seq<Byte>, l: Layout)
    requires |pixels| <= 65026 && Fits(l, |out| + |pixels|)
    ensures var line := EncodeLine(AsLiterals(pixels));
            |line| < 0x1_0000 && DecodeLine(line, 0, |line|, out, l) == Line(out + pixels, |line|)
  {
    var runs := AsLiterals(pixels);
    var line := EncodeLine(runs);
    LiteralsLength(pixels);
    hide EncodeLine, ExpandLine, AsLiterals, DecodeLine, Fits;
    assert |line| < 0x1_0000;
    assert HasAt(line, 0, line);
    LineRoundTrip(line, 0, runs, out, l);
  }
}
