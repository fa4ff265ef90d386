/** Predicted frames of the 4XM codec: decode_p_block, mcdc and the block loop of decode_p_frame
    in FFmpeg/libavcodec/4xm.c. What a bitstream says is described as a list of placed leaves;
    the class below decodes it in place. */
module FourXmPBlock {

  // ------------------------------------------------------------------ block type codes

  // Code value and length of the seven block types, per shape class; length 0 means unused.
  type Row = r: seq<(nat, nat)> | |r| == 7 witness seq(7, _ => (0, 0))

  // block_type_tab: the first four rows serve versions above 1, the last four the others.
  function TypeRow(modern: bool, shape: nat): Row
    requires shape < 4
  {
    if modern then
      if shape == 0 then [(0, 1), (2, 2), (6, 3), (14, 4), (30, 5), (31, 5), (0, 0)]
      else if shape == 1 then [(0, 1), (0, 0), (2, 2), (6, 3), (14, 4), (15, 4), (0, 0)]
      else if shape == 2 then [(0, 1), (2, 2), (0, 0), (6, 3), (14, 4), (15, 4), (0, 0)]
      else [(0, 1), (0, 0), (0, 0), (2, 2), (6, 3), (14, 4), (15, 4)]
    else
      if shape == 0 then [(1, 2), (4, 3), (5, 3), (0, 2), (6, 3), (7, 3), (0, 0)]
      else if shape == 1 then [(1, 2), (0, 0), (2, 2), (0, 2), (6, 3), (7, 3), (0, 0)]
      else if shape == 2 then [(1, 2), (2, 2), (0, 0), (0, 2), (6, 3), (7, 3), (0, 0)]
      else [(1, 2), (0, 0), (0, 0), (0, 2), (2, 2), (6, 3), (7, 3)]
  }

  // size2index, indexed by the logarithms of height and width; 255 is its -1 stored in a byte.
  function ShapeClass(lw: nat, lh: nat): nat
    requires lw < 4 && lh < 4
  {
    if lh == 0 then [255, 3, 1, 1][lw] else if lh == 1 then [3, 0, 0, 0][lw] else [2, 0, 0, 0][lw]
  }

  // How many five-bit windows share their first `len` bits.
  function Cell(len: nat): nat {
    if len == 1 then 16 else if len == 2 then 8 else if len == 3 then 4 else if len == 4 then 2 else 1
  }

  // The window begins with the entry's code.
  predicate Matches(entry: (nat, nat), window: nat) {
    entry.1 > 0 && entry.0 * Cell(entry.1) <= window < (entry.0 + 1) * Cell(entry.1)
  }

  function FindType(row: Row, window: nat, k: nat): (code: nat)
    requires k <= 7
    ensures k <= code <= 7 && (code < 7 ==> Matches(row[code], window))
    ensures forall i | k <= i < code :: !Matches(row[i], window)
    decreases 7 - k
  {
    if k == 7 || Matches(row[k], window) then k else FindType(row, window, k + 1)
  }

  // The entry matching a window, if the row is searched from the first entry on.
  function Lookup(row: Row, window: nat): nat { FindType(row, window, 0) }

  predicate OnlyMatch(row: Row, window: nat, c: nat) {
    c < 7 && Matches(row[c], window)
    && (c == 0 || !Matches(row[0], window)) && (c == 1 || !Matches(row[1], window))
    && (c == 2 || !Matches(row[2], window)) && (c == 3 || !Matches(row[3], window))
    && (c == 4 || !Matches(row[4], window)) && (c == 5 || !Matches(row[5], window))
    && (c == 6 || !Matches(row[6], window))
  }

  lemma ModernRowIsComplete(shape: nat, window: nat) returns (c: nat)
    requires shape < 4 && window < 32
    ensures OnlyMatch(TypeRow(true, shape), window, c)
  {
    if shape == 0 {
      c := if window < 16 then 0 else if window < 24 then 1 else if window < 28 then 2
           else if window < 30 then 3 else if window < 31 then 4 else 5;
    } else if shape == 1 {
      c := if window < 16 then 0 else if window < 24 then 2 else if window < 28 then 3
           else if window < 30 then 4 else 5;
    } else if shape == 2 {
      c := if window < 16 then 0 else if window < 24 then 1 else if window < 28 then 3
           else if window < 30 then 4 else 5;
    } else {
      c := if window < 16 then 0 else if window < 24 then 3 else if window < 28 then 4
           else if window < 30 then 5 else 6;
    }
  }

  lemma OldRowIsComplete(shape: nat, window: nat) returns (c: nat)
    requires shape < 4 && window < 32
    ensures OnlyMatch(TypeRow(false, shape), window, c)
  {
    if shape == 0 {
      c := if window < 8 then 3 else if window < 16 then 0 else if window < 20 then 1
           else if window < 24 then 2 else if window < 28 then 4 else 5;
    } else if shape == 1 {
      c := if window < 8 then 3 else if window < 16 then 0 else if window < 24 then 2
           else if window < 28 then 4 else 5;
    } else if shape == 2 {
      c := if window < 8 then 3 else if window < 16 then 0 else if window < 24 then 1
           else if window < 28 then 4 else 5;
    } else {
      c := if window < 8 then 3 else if window < 16 then 0 else if window < 24 then 4
           else if window < 28 then 5 else 6;
    }
  }

  // Every row is a complete prefix code: each window begins with exactly one block type's code.
  lemma RowIsComplete(modern: bool, shape: nat, window: nat)
    requires shape < 4 && window < 32
    ensures Lookup(TypeRow(modern, shape), window) < 7
    ensures OnlyMatch(TypeRow(modern, shape), window, Lookup(TypeRow(modern, shape), window))
  {
    var row := TypeRow(modern, shape);
    var c;
    if modern { c := ModernRowIsComplete(shape, window); } else { c := OldRowIsComplete(shape, window); }
  }

  // Block sizes the tables cover: 8, 4, 2 or 1 on each side, but never a single pixel.
  predicate LegalShape(lw: nat, lh: nat) { lw < 4 && lh < 4 && lw + lh >= 1 }

  // A block is only halved along a side longer than one pixel, and only into legal shapes;
  // raw pixel pairs come in blocks of two pixels.
  lemma SplitsStayLegal(modern: bool, lw: nat, lh: nat, code: nat)
    requires LegalShape(lw, lh) && code < 7
    ensures ShapeClass(lw, lh) < 4
    ensures TypeRow(modern, ShapeClass(lw, lh))[code].1 > 0 ==>
              && (code == 1 ==> lh >= 1 && LegalShape(lw, lh - 1))
              && (code == 2 ==> lw >= 1 && LegalShape(lw - 1, lh))
              && (code == 6 ==> lw + lh == 1)
  {}

  // ------------------------------------------------------------------ the three streams of a frame

  // mv holds the displacement of each motion byte; any table of 256 entries will do.
  datatype Config = Config(width: nat, height: nat, version: nat, mv: seq<(int, int)>) {
    predicate Valid() { |mv| == 256 && width % 8 == 0 && height % 8 == 0 }
    // Motion of one byte as an offset in the linear frame buffer.
    function Motion(b: int): int
      requires Valid() && 0 <= b < 256
    {
      if version > 1 then mv[b].0 + mv[b].1 * width else b % 16 - 8 + (b / 16 - 8) * width
    }
  }

  // Bit positions may run past the end of the bits, into zero padding; bytes and words may not.
  datatype Streams = Streams(bits: seq<bool>, bitPos: nat, bytes: seq<int>, bytePos: nat, words: seq<int>,
                             wordPos: nat) {
    predicate Valid() {
      && bytePos <= |bytes| && wordPos <= |words|
      && (forall i | 0 <= i < |bytes| :: 0 <= bytes[i] < 256)
      && (forall i | 0 <= i < |words| :: 0 <= words[i] < 256)
    }
    function Bit(i: nat): nat { if i < |bits| && bits[i] then 1 else 0 }
    function Window(): (w: nat)
      ensures w < 32
    {
      16 * Bit(bitPos) + 8 * Bit(bitPos + 1) + 4 * Bit(bitPos + 2) + 2 * Bit(bitPos + 3) + Bit(bitPos + 4)
    }
    // The little-endian word n words ahead.
    function Word(n: nat): (w: int)
      requires Valid() && wordPos + 2 * n + 2 <= |words|
      ensures 0 <= w < 65536
    {
      words[wordPos + 2 * n] + 256 * words[wordPos + 2 * n + 1]
    }
  }

  function BlockType(modern: bool, lw: nat, lh: nat, window: nat): (t: (nat, nat))
    requires LegalShape(lw, lh) && window < 32
    ensures t.0 < 7 && TypeRow(modern, ShapeClass(lw, lh))[t.0].1 == t.1 > 0
  {
    SplitsStayLegal(modern, lw, lh, 0);
    RowIsComplete(modern, ShapeClass(lw, lh), window);
    var row := TypeRow(modern, ShapeClass(lw, lh));
    (Lookup(row, window), row[Lookup(row, window)].1)
  }

  // ------------------------------------------------------------------ leaves and what they paint

  function Size(l: nat): nat { if l == 0 then 1 else if l == 1 then 2 else if l == 2 then 4 else 8 }

  // Copy reads a block of the previous frame from a linear offset, times scale (0 or 1) plus dc.
  datatype Paint = Skip | Copy(src: int, scale: int, dc: int) | Raw(first: int, second: int)
  datatype Leaf = Leaf(x: nat, y: nat, lw: nat, lh: nat, paint: Paint) {
    predicate Covers(px: int, py: int) {
      x <= px < x + Size(lw) && y <= py < y + Size(lh)
    }
  }

  // The last offset from which a block of this size can be copied.
  function Limit(c: Config, lw: nat, lh: nat): int { c.width * (c.height - Size(lh) + 1) - Size(lw) }

  function Offset(c: Config, x: nat, y: nat): int { y * c.width + x }

  predicate ValidLeaf(c: Config, l: Leaf) {
    && LegalShape(l.lw, l.lh) && l.x + Size(l.lw) <= c.width && l.y + Size(l.lh) <= c.height
    && (l.paint.Copy? ==>
        && 0 <= l.paint.src <= Limit(c, l.lw, l.lh)
        && (l.paint.scale == 0 || l.paint.scale == 1) && 0 <= l.paint.dc < 65536)
    && (l.paint.Raw? ==> l.lw + l.lh == 1 && 0 <= l.paint.first < 65536 && 0 <= l.paint.second < 65536)
  }

  // Where a copy reads for the pixel dx, dy of its block; a zero scale stays on the first row.
  function ReadAt(c: Config, l: Leaf, dx: nat, dy: nat): int
    requires l.paint.Copy?
  {
    l.paint.src + dx + if l.paint.scale == 0 then 0 else dy * c.width
  }

  // Every read of a copy lies inside the previous frame.
  lemma CopiesReadInside(c: Config, l: Leaf, dx: nat, dy: nat)
    requires ValidLeaf(c, l) && l.paint.Copy? && dx < Size(l.lw) && dy < Size(l.lh)
    ensures 0 <= ReadAt(c, l, dx, dy) < c.width * c.height
  {
    RowsBelow(c.width, c.height, Size(l.lh), dy);
  }

  lemma RowsBelow(w: nat, height: int, h: nat, dy: nat)
    requires dy < h
    ensures 0 <= dy * w && w * (height - h + 1) + dy * w <= w * height
  {
    assert (h - 1 - dy) * w >= 0;
    assert w * (height - h + 1) + (h - 1) * w == w * height;
  }

  lemma RowReadsInside(c: Config, l: Leaf, dy: nat)
    requires ValidLeaf(c, l) && l.paint.Copy? && dy < Size(l.lh)
    ensures 0 <= ReadAt(c, l, 0, dy) && ReadAt(c, l, 0, dy) + Size(l.lw) <= c.width * c.height
  {
    CopiesReadInside(c, l, 0, dy);
    CopiesReadInside(c, l, Size(l.lw) - 1, dy);
  }

  ghost predicate ValidFrame(c: Config, frame: seq<int>) {
    |frame| == c.width * c.height && forall i | 0 <= i < |frame| :: 0 <= frame[i] < 65536
  }

  function SingleWord(v: int, scale: int, dc: int): (r: int)
    ensures 0 <= r < 65536
  {
    (scale * v + dc) % 65536
  }

  // Two pixels are computed in one 32-bit multiplication, the left one in the low half.
  function PairWord(lo: int, hi: int, scale: int, dc: int): int {
    ((lo + 65536 * hi) * scale + dc * 65537) % 0x1_0000_0000
  }

  function LeafPixel(c: Config, last: seq<int>, l: Leaf, px: nat, py: nat): int
    requires ValidFrame(c, last) && ValidLeaf(c, l) && l.Covers(px, py) && !l.paint.Skip?
  {
    var dx, dy := px - l.x, py - l.y;
    match l.paint
    case Raw(a, b) => if dx == 0 && dy == 0 then a else b
    case Copy(_, scale, dc) =>
      CopiesReadInside(c, l, dx, dy);
      if l.lw == 0 then SingleWord(last[ReadAt(c, l, dx, dy)], scale, dc)
      else
        var even := dx / 2 * 2;
        CopiesReadInside(c, l, even, dy);
        CopiesReadInside(c, l, even + 1, dy);
        var word := PairWord(last[ReadAt(c, l, even, dy)], last[ReadAt(c, l, even + 1, dy)], scale, dc);
        if dx % 2 == 0 then word % 65536 else word / 65536
  }

  ghost predicate ValidLeaves(c: Config, ls: seq<Leaf>) { forall i | 0 <= i < |ls| :: ValidLeaf(c, ls[i]) }

  // A pixel after painting the leaves in order.
  ghost function Painted(c: Config, last: seq<int>, ls: seq<Leaf>, px: nat, py: nat, old_: int): int
    requires ValidFrame(c, last) && ValidLeaves(c, ls)
    decreases |ls|
  {
    if ls == [] then old_
    else
      var l, before := ls[|ls| - 1], Painted(c, last, ls[..|ls| - 1], px, py, old_);
      if l.Covers(px, py) && !l.paint.Skip? then LeafPixel(c, last, l, px, py) else before
  }

  // How many of the leaves cover a pixel.
  function Coverage(ls: seq<Leaf>, px: int, py: int): nat
    decreases |ls|
  {
    if ls == [] then 0
    else Coverage(ls[..|ls| - 1], px, py) + if ls[|ls| - 1].Covers(px, py) then 1 else 0
  }

  lemma {:induction false} CoverageAdds(a: seq<Leaf>, b: seq<Leaf>, px: int, py: int)
    ensures Coverage(a + b, px, py) == Coverage(a, px, py) + Coverage(b, px, py)
    decreases |b|
  {
    if b == [] {
      assert a + b == a;
    } else {
      assert (a + b)[..|a + b| - 1] == a + b[..|b| - 1];
      CoverageAdds(a, b[..|b| - 1], px, py);
    }
  }

  lemma {:induction false} PaintedAdds(c: Config, last: seq<int>, a: seq<Leaf>, b: seq<Leaf>, px: nat, py: nat,
                                       old_: int)
    requires ValidFrame(c, last) && ValidLeaves(c, a) && ValidLeaves(c, b)
    ensures Painted(c, last, a + b, px, py, old_) == Painted(c, last, b, px, py, Painted(c, last, a, px, py, old_))
    decreases |b|
  {
    if b == [] {
      assert a + b == a;
    } else {
      assert (a + b)[..|a + b| - 1] == a + b[..|b| - 1];
      PaintedAdds(c, last, a, b[..|b| - 1], px, py, old_);
    }
  }

  // ------------------------------------------------------------------ what a bitstream says

  // The leaves decoded up to the end or the first error, and the streams afterwards.
  datatype Parsed = Parsed(ok: bool, leaves: seq<Leaf>, s: Streams)

  function Fail(s: Streams): Parsed { Parsed(false, [], s) }

  function ParseBlock(c: Config, s: Streams, x: nat, y: nat, lw: nat, lh: nat): (r: Parsed)
    requires c.Valid() && s.Valid() && LegalShape(lw, lh)
    requires x + Size(lw) <= c.width && y + Size(lh) <= c.height
    ensures r.s.Valid()
    decreases lw + lh
  {
    if |s.bits| <= s.bitPos then Fail(s)
    else
      var (code, len) := BlockType(c.version > 1, lw, lh, s.Window());
      SplitsStayLegal(c.version > 1, lw, lh, code);
      var s1 := s.(bitPos := s.bitPos + len);
      if code == 1 || code == 2 then
        var (lw', lh') := Halved(code, lw, lh);
        var (x', y') := SecondHalf(code, x, y, lw', lh');
        var a := ParseBlock(c, s1, x, y, lw', lh');
        if !a.ok then a else Append(a.leaves, ParseBlock(c, a.s, x', y', lw', lh'))
      else ParseLeaf(c, s1, x, y, lw, lh, code)
  }

  // Code 1 halves the height of a block, code 2 its width.
  function Halved(code: nat, lw: nat, lh: nat): (nat, nat)
    requires code == 1 || code == 2
    requires if code == 1 then lh >= 1 else lw >= 1
  {
    if code == 1 then (lw, lh - 1) else (lw - 1, lh)
  }

  function SecondHalf(code: nat, x: nat, y: nat, lw: nat, lh: nat): (nat, nat) {
    if code == 1 then (x, y + Size(lh)) else (x + Size(lw), y)
  }

  function Append(front: seq<Leaf>, r: Parsed): Parsed { r.(leaves := front + r.leaves) }

  function ParseLeaf(c: Config, s: Streams, x: nat, y: nat, lw: nat, lh: nat, code: nat): (r: Parsed)
    requires c.Valid() && s.Valid() && (code == 0 || 3 <= code <= 6)
    ensures r.s.Valid()
  {
    if code == 6 then
      if |s.words| - s.wordPos < 4 then Fail(s)
      else Parsed(true, [Leaf(x, y, lw, lh, Raw(s.Word(0), s.Word(1)))], s.(wordPos := s.wordPos + 4))
    else if code == 3 && c.version >= 2 then Parsed(true, [Leaf(x, y, lw, lh, Skip)], s)
    else
      var own := Offset(c, x, y);
      if code % 4 == 0 && |s.bytes| <= s.bytePos then Fail(s)
      else
        var s1, src := if code % 4 == 0 then s.(bytePos := s.bytePos + 1) else s,
                       if code % 4 == 0 then own + c.Motion(s.bytes[s.bytePos]) else own;
        if code >= 4 && |s1.words| - s1.wordPos < 2 then Fail(s1)
        else
          var s2, dc := if code >= 4 then s1.(wordPos := s1.wordPos + 2) else s1, if code >= 4 then s1.Word(0) else 0;
          if src < 0 || src > Limit(c, lw, lh) then Fail(s2)
          else Parsed(true, [Leaf(x, y, lw, lh, Copy(src, if code == 5 then 0 else 1, dc))], s2)
  }

  lemma LeafIsValid(c: Config, s: Streams, x: nat, y: nat, lw: nat, lh: nat, code: nat)
    requires c.Valid() && s.Valid() && LegalShape(lw, lh) && (code == 0 || 3 <= code <= 6)
    requires x + Size(lw) <= c.width && y + Size(lh) <= c.height && (code == 6 ==> lw + lh == 1)
    ensures ValidLeaves(c, ParseLeaf(c, s, x, y, lw, lh, code).leaves)
  {}

  lemma {:induction false} LeavesAreValid(c: Config, s: Streams, x: nat, y: nat, lw: nat, lh: nat)
    requires c.Valid() && s.Valid() && LegalShape(lw, lh)
    requires x + Size(lw) <= c.width && y + Size(lh) <= c.height
    ensures ValidLeaves(c, ParseBlock(c, s, x, y, lw, lh).leaves)
    decreases lw + lh
  {
    hide BlockType, TypeRow, ShapeClass, ParseLeaf, ValidLeaf, Config.Valid, Streams.Valid, Streams.Window;
    if s.bitPos < |s.bits| {
      var (code, len) := BlockType(c.version > 1, lw, lh, s.Window());
      SplitsStayLegal(c.version > 1, lw, lh, code);
      var s1 := s.(bitPos := s.bitPos + len);
      MoveKeepsValid(s, len);
      if code == 1 || code == 2 {
        var (lw', lh') := Halved(code, lw, lh);
        var (x', y') := SecondHalf(code, x, y, lw', lh');
        LeavesAreValid(c, s1, x, y, lw', lh');
        var a := ParseBlock(c, s1, x, y, lw', lh');
        if a.ok { LeavesAreValid(c, a.s, x', y', lw', lh'); }
      } else {
        LeafIsValid(c, s1, x, y, lw, lh, code);
      }
    }
  }

  lemma MoveKeepsValid(s: Streams, len: nat)
    requires s.Valid()
    ensures s.(bitPos := s.bitPos + len).Valid()
  {}

  predicate Inside(px: int, py: int, x: nat, y: nat, lw: nat, lh: nat) {
    x <= px < x + Size(lw) && y <= py < y + Size(lh)
  }

  // The leaves of a block tile it: each of its pixels is covered exactly once if decoding
  // succeeds, at most once if it stops early, and no other pixel is ever covered.
  lemma {:induction false} LeavesTile(c: Config, s: Streams, x: nat, y: nat, lw: nat, lh: nat, px: int, py: int)
    requires c.Valid() && s.Valid() && LegalShape(lw, lh)
    requires x + Size(lw) <= c.width && y + Size(lh) <= c.height
    ensures var r, n := ParseBlock(c, s, x, y, lw, lh), Coverage(ParseBlock(c, s, x, y, lw, lh).leaves, px, py);
            if Inside(px, py, x, y, lw, lh) then n <= 1 && (r.ok ==> n == 1) else n == 0
    decreases lw + lh
  {
    hide BlockType, TypeRow, ShapeClass, ParseLeaf, Config.Valid, Streams.Valid, Streams.Window, Coverage;
    EmptyCoverage(px, py);
    if s.bitPos < |s.bits| {
      var (code, len) := BlockType(c.version > 1, lw, lh, s.Window());
      SplitsStayLegal(c.version > 1, lw, lh, code);
      var s1 := s.(bitPos := s.bitPos + len);
      MoveKeepsValid(s, len);
      if code == 1 || code == 2 {
        var (lw', lh') := Halved(code, lw, lh);
        var (x', y') := SecondHalf(code, x, y, lw', lh');
        LeavesTile(c, s1, x, y, lw', lh', px, py);
        var a := ParseBlock(c, s1, x, y, lw', lh');
        if a.ok {
          LeavesTile(c, a.s, x', y', lw', lh', px, py);
          CoverageAdds(a.leaves, ParseBlock(c, a.s, x', y', lw', lh').leaves, px, py);
        }
      } else {
        LeafTiles(c, s1, x, y, lw, lh, code, px, py);
      }
    }
  }

  lemma EmptyCoverage(px: int, py: int)
    ensures Coverage([], px, py) == 0
  {}

  lemma LeafTiles(c: Config, s: Streams, x: nat, y: nat, lw: nat, lh: nat, code: nat, px: int, py: int)
    requires c.Valid() && s.Valid() && (code == 0 || 3 <= code <= 6)
    ensures var r := ParseLeaf(c, s, x, y, lw, lh, code);
            Coverage(r.leaves, px, py) == if r.ok && Inside(px, py, x, y, lw, lh) then 1 else 0
  {
    var r := ParseLeaf(c, s, x, y, lw, lh, code);
    if r.ok {
      assert |r.leaves| == 1 && r.leaves[..0] == [];
      assert r.leaves[0].Covers(px, py) <==> x <= px < x + Size(lw) && y <= py < y + Size(lh);
    }
  }

  // ------------------------------------------------------------------ whole frames

  lemma RoomForBlock(c: Config, x: nat, y: nat)
    requires c.Valid() && x % 8 == 0 && y % 8 == 0 && x < c.width && y < c.height
    ensures x + Size(3) <= c.width && y + Size(3) <= c.height && (x + 8) % 8 == 0
  {}

  // The blocks of 8 by 8 pixels from x, y on, row by row, behind the leaves already decoded.
  function ParseFrom(c: Config, s: Streams, x: nat, y: nat, done: seq<Leaf>): (r: Parsed)
    requires c.Valid() && s.Valid() && x % 8 == 0 && y % 8 == 0
    ensures r.s.Valid()
    decreases c.height + 8 - y, c.width + 8 - x
  {
    if y >= c.height then Parsed(true, done, s)
    else if x >= c.width then ParseFrom(c, s, 0, y + 8, done)
    else
      RoomForBlock(c, x, y);
      var b := ParseBlock(c, s, x, y, 3, 3);
      if b.ok then ParseFrom(c, b.s, x + 8, y, done + b.leaves) else Parsed(false, done + b.leaves, b.s)
  }

  function ParseFrame(c: Config, s: Streams): (r: Parsed)
    requires c.Valid() && s.Valid()
  {
    ParseFrom(c, s, 0, 0, [])
  }

  lemma {:induction false} FrameLeavesAreValid(c: Config, s: Streams, x: nat, y: nat, done: seq<Leaf>)
    requires c.Valid() && s.Valid() && x % 8 == 0 && y % 8 == 0 && ValidLeaves(c, done)
    ensures ValidLeaves(c, ParseFrom(c, s, x, y, done).leaves)
    decreases c.height + 8 - y, c.width + 8 - x
  {
    hide ParseBlock, ValidLeaf, Streams.Valid;
    if y >= c.height {
    } else if x >= c.width {
      FrameLeavesAreValid(c, s, 0, y + 8, done);
    } else {
      RoomForBlock(c, x, y);
      var b := ParseBlock(c, s, x, y, 3, 3);
      LeavesAreValid(c, s, x, y, 3, 3);
      if b.ok { FrameLeavesAreValid(c, b.s, x + 8, y, done + b.leaves); }
    }
  }

  predicate Ahead(px: int, py: int, x: int, y: int) { py >= y + 8 || (py >= y && px >= x) }

  lemma {:induction false} FrameTiles(c: Config, s: Streams, x: nat, y: nat, done: seq<Leaf>, px: nat, py: nat)
    requires c.Valid() && s.Valid() && x % 8 == 0 && y % 8 == 0 && px < c.width && py < c.height
    ensures var r, n := ParseFrom(c, s, x, y, done), Coverage(done, px, py);
            var m := Coverage(r.leaves, px, py);
            n <= m <= n + (if Ahead(px, py, x, y) then 1 else 0)
            && (r.ok ==> m == n + if Ahead(px, py, x, y) then 1 else 0)
    decreases c.height + 8 - y, c.width + 8 - x
  {
    hide ParseBlock, Coverage, Streams.Valid;
    if y >= c.height {
    } else if x >= c.width {
      FrameTiles(c, s, 0, y + 8, done, px, py);
    } else {
      RoomForBlock(c, x, y);
      var b := ParseBlock(c, s, x, y, 3, 3);
      LeavesTile(c, s, x, y, 3, 3, px, py);
      CoverageAdds(done, b.leaves, px, py);
      if b.ok { FrameTiles(c, b.s, x + 8, y, done + b.leaves, px, py); }
    }
  }

  // A successful predicted frame covers every pixel exactly once, a failed one at most once.
  lemma FrameIsTiled(c: Config, s: Streams, px: nat, py: nat)
    requires c.Valid() && s.Valid() && px < c.width && py < c.height
    ensures ValidLeaves(c, ParseFrame(c, s).leaves)
    ensures Coverage(ParseFrame(c, s).leaves, px, py) <= 1
    ensures ParseFrame(c, s).ok ==> Coverage(ParseFrame(c, s).leaves, px, py) == 1
  {
    FrameLeavesAreValid(c, s, 0, 0, []);
    FrameTiles(c, s, 0, 0, [], px, py);
  }

  // A pixel covered once shows its leaf, wherever that leaf stands in the decoding order.
  lemma {:induction false} PixelShowsItsLeaf(c: Config, last: seq<int>, ls: seq<Leaf>, i: nat, px: nat, py: nat,
                                             old_: int)
    requires ValidFrame(c, last) && ValidLeaves(c, ls) && i < |ls| && ls[i].Covers(px, py)
    requires Coverage(ls, px, py) == 1
    ensures Painted(c, last, ls, px, py, old_) == if ls[i].paint.Skip? then old_ else LeafPixel(c, last, ls[i], px, py)
    decreases |ls|
  {
    hide LeafPixel;
    var front := ls[..|ls| - 1];
    if i < |ls| - 1 {
      CoveredCounts(front, i, px, py);
      PixelShowsItsLeaf(c, last, front, i, px, py, old_);
    } else {
      UncoveredStays(c, last, front, px, py, old_);
    }
  }

  lemma {:induction false} CoveredCounts(ls: seq<Leaf>, i: nat, px: int, py: int)
    requires i < |ls| && ls[i].Covers(px, py)
    ensures Coverage(ls, px, py) >= 1
    decreases |ls|
  {
    if i < |ls| - 1 { CoveredCounts(ls[..|ls| - 1], i, px, py); }
  }

  lemma {:induction false} UncoveredStays(c: Config, last: seq<int>, ls: seq<Leaf>, px: nat, py: nat, old_: int)
    requires ValidFrame(c, last) && ValidLeaves(c, ls) && Coverage(ls, px, py) == 0
    ensures Painted(c, last, ls, px, py, old_) == old_
    decreases |ls|
  {
    if ls != [] { UncoveredStays(c, last, ls[..|ls| - 1], px, py, old_); }
  }

  predicate NoSkip(ls: seq<Leaf>) { forall i | 0 <= i < |ls| :: !ls[i].paint.Skip? }

  lemma LeafIsNoSkip(c: Config, s: Streams, x: nat, y: nat, lw: nat, lh: nat, code: nat)
    requires c.Valid() && s.Valid() && (code == 0 || 3 <= code <= 6) && c.version < 2
    ensures NoSkip(ParseLeaf(c, s, x, y, lw, lh, code).leaves)
  {}

  // Only versions from 2 on know blocks that leave their pixels alone.
  lemma {:induction false} OldVersionsNeverSkip(c: Config, s: Streams, x: nat, y: nat, lw: nat, lh: nat)
    requires c.Valid() && s.Valid() && LegalShape(lw, lh) && c.version < 2
    requires x + Size(lw) <= c.width && y + Size(lh) <= c.height
    ensures NoSkip(ParseBlock(c, s, x, y, lw, lh).leaves)
    decreases lw + lh
  {
    hide BlockType, TypeRow, ShapeClass, ParseLeaf, Config.Valid, Streams.Valid, Streams.Window;
    if s.bitPos < |s.bits| {
      var (code, len) := BlockType(c.version > 1, lw, lh, s.Window());
      SplitsStayLegal(c.version > 1, lw, lh, code);
      var s1 := s.(bitPos := s.bitPos + len);
      MoveKeepsValid(s, len);
      if code == 1 || code == 2 {
        var (lw', lh') := Halved(code, lw, lh);
        var (x', y') := SecondHalf(code, x, y, lw', lh');
        OldVersionsNeverSkip(c, s1, x, y, lw', lh');
        var a := ParseBlock(c, s1, x, y, lw', lh');
        if a.ok { OldVersionsNeverSkip(c, a.s, x', y', lw', lh'); }
      } else {
        LeafIsNoSkip(c, s1, x, y, lw, lh, code);
      }
    }
  }

  lemma {:induction false} OldFramesNeverSkip(c: Config, s: Streams, x: nat, y: nat, done: seq<Leaf>)
    requires c.Valid() && s.Valid() && x % 8 == 0 && y % 8 == 0 && c.version < 2 && NoSkip(done)
    ensures NoSkip(ParseFrom(c, s, x, y, done).leaves)
    decreases c.height + 8 - y, c.width + 8 - x
  {
    hide ParseBlock, Streams.Valid;
    if y >= c.height {
    } else if x >= c.width {
      OldFramesNeverSkip(c, s, 0, y + 8, done);
    } else {
      RoomForBlock(c, x, y);
      var b := ParseBlock(c, s, x, y, 3, 3);
      OldVersionsNeverSkip(c, s, x, y, 3, 3);
      if b.ok { OldFramesNeverSkip(c, b.s, x + 8, y, done + b.leaves); }
    }
  }

  // How many of the leaves write a pixel; skip leaves cover their pixels without writing them.
  function Writes(ls: seq<Leaf>, px: int, py: int): nat
    decreases |ls|
  {
    if ls == [] then 0
    else
      var l := ls[|ls| - 1];
      Writes(ls[..|ls| - 1], px, py) + if l.Covers(px, py) && !l.paint.Skip? then 1 else 0
  }

  lemma {:induction false} WritesAreCovers(ls: seq<Leaf>, px: int, py: int)
    ensures Writes(ls, px, py) <= Coverage(ls, px, py)
    ensures NoSkip(ls) ==> Writes(ls, px, py) == Coverage(ls, px, py)
    decreases |ls|
  {
    if ls != [] { WritesAreCovers(ls[..|ls| - 1], px, py); }
  }

  // For every bitstream a P-frame writes each pixel at most once; before version 2 a successful
  // one writes each pixel exactly once.
  lemma FrameIsWritten(c: Config, s: Streams, px: nat, py: nat)
    requires c.Valid() && s.Valid() && px < c.width && py < c.height
    ensures var r := ParseFrame(c, s);
            Writes(r.leaves, px, py) <= 1 && (r.ok && c.version < 2 ==> Writes(r.leaves, px, py) == 1)
  {
    FrameIsTiled(c, s, px, py);
    WritesAreCovers(ParseFrame(c, s).leaves, px, py);
    if c.version < 2 { OldFramesNeverSkip(c, s, 0, 0, []); }
  }

  // A pixel that is written shows nothing of what it was before.
  lemma {:induction false} WrittenIsNew(c: Config, last: seq<int>, ls: seq<Leaf>, px: nat, py: nat, a: int, b: int)
    requires ValidFrame(c, last) && ValidLeaves(c, ls) && Writes(ls, px, py) > 0
    ensures Painted(c, last, ls, px, py, a) == Painted(c, last, ls, px, py, b)
    decreases |ls|
  {
    hide LeafPixel;
    var l := ls[|ls| - 1];
    if !(l.Covers(px, py) && !l.paint.Skip?) { WrittenIsNew(c, last, ls[..|ls| - 1], px, py, a, b); }
  }

  // Before version 2 a successful P-frame is a function of the previous frame and the bitstream.
  lemma OldFramesAreNew(c: Config, s: Streams, last: seq<int>, px: nat, py: nat, a: int, b: int)
    requires c.Valid() && s.Valid() && px < c.width && py < c.height && ValidFrame(c, last)
    requires c.version < 2 && ParseFrame(c, s).ok
    ensures ValidLeaves(c, ParseFrame(c, s).leaves)
    ensures Painted(c, last, ParseFrame(c, s).leaves, px, py, a) == Painted(c, last, ParseFrame(c, s).leaves, px, py, b)
  {
    FrameIsTiled(c, s, px, py);
    FrameIsWritten(c, s, px, py);
    WrittenIsNew(c, last, ParseFrame(c, s).leaves, px, py, a, b);
  }

  // ------------------------------------------------------------------ decoding in place

  lemma IndexInside(c: Config, px: nat, py: nat)
    requires px < c.width && py < c.height
    ensures 0 <= py * c.width + px < c.width * c.height
  {
    assert py * c.width <= (c.height - 1) * c.width by { assert (c.height - 1 - py) * c.width >= 0; }
  }

  lemma IndexIsUnique(w: nat, px: nat, py: nat, qx: nat, qy: nat)
    requires px < w && qx < w && py * w + px == qy * w + qx
    ensures px == qx && py == qy
  {
    if py < qy { RowsApart(w, py, qy); } else if qy < py { RowsApart(w, qy, py); }
  }

  lemma RowsApart(w: nat, y: nat, y': nat)
    requires y < y'
    ensures y * w + w <= y' * w
  {
    assert (y' - y - 1) * w >= 0;
  }

  function Pixel(c: Config, frame: seq<int>, px: nat, py: nat): int
    requires |frame| == c.width * c.height && px < c.width && py < c.height
  {
    IndexInside(c, px, py);
    frame[py * c.width + px]
  }

  ghost predicate Repainted(c: Config, last: seq<int>, ls: seq<Leaf>, before: seq<int>, after: seq<int>)
    requires ValidFrame(c, last) && ValidFrame(c, before) && ValidFrame(c, after) && ValidLeaves(c, ls)
  {
    forall px: nat, py: nat | px < c.width && py < c.height ::
      Pixel(c, after, px, py) == Painted(c, last, ls, px, py, Pixel(c, before, px, py))
  }

  lemma RepaintedAdds(c: Config, last: seq<int>, a: seq<Leaf>, b: seq<Leaf>, f0: seq<int>, f1: seq<int>, f2: seq<int>)
    requires ValidFrame(c, last) && ValidFrame(c, f0) && ValidFrame(c, f1) && ValidFrame(c, f2)
    requires ValidLeaves(c, a) && ValidLeaves(c, b)
    requires Repainted(c, last, a, f0, f1) && Repainted(c, last, b, f1, f2)
    ensures Repainted(c, last, a + b, f0, f2)
  {
    hide Pixel, ValidLeaf;
    forall px: nat, py: nat | px < c.width && py < c.height
      ensures Pixel(c, f2, px, py) == Painted(c, last, a + b, px, py, Pixel(c, f0, px, py))
    {
      PaintedAdds(c, last, a, b, px, py, Pixel(c, f0, px, py));
    }
  }

  // The first n pixels of row dy of a copied block are painted, nothing else has changed.
  ghost predicate RowCopied(c: Config, last: seq<int>, l: Leaf, dy: nat, n: nat, before: seq<int>, after: seq<int>)
    requires ValidFrame(c, last) && ValidFrame(c, before) && ValidFrame(c, after) && ValidLeaf(c, l) && l.paint.Copy?
  {
    forall px: nat, py: nat | px < c.width && py < c.height ::
      Pixel(c, after, px, py) == if l.Covers(px, py) && py == l.y + dy && px < l.x + n
                                 then LeafPixel(c, last, l, px, py)
                                 else Pixel(c, before, px, py)
  }

  lemma NoPixels(c: Config, last: seq<int>, l: Leaf, dy: nat, f: seq<int>)
    requires ValidFrame(c, last) && ValidFrame(c, f) && ValidLeaf(c, l) && l.paint.Copy?
    ensures RowCopied(c, last, l, dy, 0, f, f)
  {}

  lemma NextPair(c: Config, last: seq<int>, l: Leaf, dx: nat, dy: nat, f0: seq<int>, f1: seq<int>, f2: seq<int>)
    requires ValidFrame(c, last) && ValidFrame(c, f0) && ValidFrame(c, f1) && ValidFrame(c, f2)
    requires ValidLeaf(c, l) && l.paint.Copy? && dy < Size(l.lh) && dx + 1 < Size(l.lw)
    requires RowCopied(c, last, l, dy, dx, f0, f1)
    requires forall qx: nat, qy: nat | qx < c.width && qy < c.height ::
               Pixel(c, f2, qx, qy) == if qy == l.y + dy && qx == l.x + dx then LeafPixel(c, last, l, qx, qy)
                                       else if qy == l.y + dy && qx == l.x + dx + 1 then LeafPixel(c, last, l, qx, qy)
                                       else Pixel(c, f1, qx, qy)
    ensures RowCopied(c, last, l, dy, dx + 2, f0, f2)
  {
    hide Pixel, LeafPixel, ValidLeaf;
  }

  lemma OnePixel(c: Config, last: seq<int>, l: Leaf, dy: nat, f0: seq<int>, f1: seq<int>)
    requires ValidFrame(c, last) && ValidFrame(c, f0) && ValidFrame(c, f1)
    requires ValidLeaf(c, l) && l.paint.Copy? && dy < Size(l.lh) && l.lw == 0
    requires forall qx: nat, qy: nat | qx < c.width && qy < c.height ::
               Pixel(c, f1, qx, qy) == if qy == l.y + dy && qx == l.x then LeafPixel(c, last, l, qx, qy)
                   else Pixel(c, f0, qx, qy)
    ensures RowCopied(c, last, l, dy, 1, f0, f1)
  {
    hide Pixel, LeafPixel, ValidLeaf;
  }

  ghost predicate RowsCopied(c: Config, last: seq<int>, l: Leaf, n: nat, before: seq<int>, after: seq<int>)
    requires ValidFrame(c, last) && ValidFrame(c, before) && ValidFrame(c, after) && ValidLeaf(c, l) && l.paint.Copy?
  {
    forall px: nat, py: nat | px < c.width && py < c.height ::
      Pixel(c, after, px, py) == if l.Covers(px, py) && py < l.y + n then LeafPixel(c, last, l, px, py)
                                 else Pixel(c, before, px, py)
  }

  lemma SinglePixel(c: Config, last: seq<int>, l: Leaf, dy: nat)
    requires ValidFrame(c, last) && ValidLeaf(c, l) && l.paint.Copy? && l.lw == 0 && dy < Size(l.lh)
    requires 0 <= ReadAt(c, l, 0, dy) < |last|
    ensures LeafPixel(c, last, l, l.x, l.y + dy) == SingleWord(last[ReadAt(c, l, 0, dy)], l.paint.scale, l.paint.dc)
  {}

  lemma PairPixels(c: Config, last: seq<int>, l: Leaf, dx: nat, dy: nat)
    requires ValidFrame(c, last) && ValidLeaf(c, l) && l.paint.Copy? && l.lw > 0 && dy < Size(l.lh)
    requires dx + 1 < Size(l.lw) && dx % 2 == 0
    requires 0 <= ReadAt(c, l, 0, dy) && ReadAt(c, l, 0, dy) + dx + 1 < |last|
    ensures var src := ReadAt(c, l, 0, dy);
            var word := PairWord(last[src + dx], last[src + dx + 1], l.paint.scale, l.paint.dc);
            && LeafPixel(c, last, l, l.x + dx, l.y + dy) == word % 65536
            && LeafPixel(c, last, l, l.x + dx + 1, l.y + dy) == word / 65536
            && 0 <= word / 65536 < 65536
  {
    assert (dx + 1) / 2 * 2 == dx && dx / 2 * 2 == dx;
  }

  lemma NothingRepainted(c: Config, last: seq<int>, frame: seq<int>)
    requires ValidFrame(c, last) && ValidFrame(c, frame)
    ensures Repainted(c, last, [], frame, frame)
  {
    hide Pixel;
  }

  lemma OneLeaf(c: Config, last: seq<int>, l: Leaf, before: seq<int>, after: seq<int>)
    requires ValidFrame(c, last) && ValidFrame(c, before) && ValidFrame(c, after) && ValidLeaf(c, l)
    requires forall px: nat, py: nat | px < c.width && py < c.height ::
               Pixel(c, after, px, py) == if l.Covers(px, py) && !l.paint.Skip? then LeafPixel(c, last, l, px, py)
                                          else Pixel(c, before, px, py)
    ensures Repainted(c, last, [l], before, after)
  {
    hide Pixel, LeafPixel, ValidLeaf;
    assert [l][..0] == [];
    forall px: nat, py: nat | px < c.width && py < c.height
      ensures Pixel(c, after, px, py) == Painted(c, last, [l], px, py, Pixel(c, before, px, py))
    {
      assert Painted(c, last, [], px, py, Pixel(c, before, px, py)) == Pixel(c, before, px, py);
    }
  }

  // The decoder's two frame buffers and its position in the three streams.
  class FourXContext {
    const c: Config
    const frame: array<int>
    const last: array<int>
    var s: Streams

    ghost predicate Valid()
      reads this, frame, last
    {
      c.Valid() && s.Valid() && frame != last && ValidFrame(c, frame[..]) && ValidFrame(c, last[..])
    }

    constructor (c: Config, frame: array<int>, last: array<int>, s: Streams)
      requires c.Valid() && s.Valid() && frame != last && ValidFrame(c, frame[..]) && ValidFrame(c, last[..])
      ensures Valid() && this.c == c && this.frame == frame && this.last == last && this.s == s
    {
      this.c, this.frame, this.last, this.s := c, frame, last, s;
    }

    method Put(px: nat, py: nat, v: int)
      requires Valid() && px < c.width && py < c.height && 0 <= v < 65536
      modifies frame
      ensures Valid()
      ensures forall qx: nat, qy: nat | qx < c.width && qy < c.height ::
                Pixel(c, frame[..], qx, qy) == if qx == px && qy == py then v else old(Pixel(c, frame[..], qx, qy))
    {
      IndexInside(c, px, py);
      ghost var before := frame[..];
      frame[py * c.width + px] := v;
      forall qx: nat, qy: nat | qx < c.width && qy < c.height
        ensures Pixel(c, frame[..], qx, qy) == if qx == px && qy == py then v else Pixel(c, before, qx, qy)
      {
        IndexInside(c, qx, qy);
        if qy * c.width + qx == py * c.width + px { IndexIsUnique(c.width, px, py, qx, qy); }
      }
    }

    // A 32-bit store: the low half goes to the left pixel.
    method PutPair(px: nat, py: nat, word: int)
      requires Valid() && px + 1 < c.width && py < c.height && 0 <= word < 0x1_0000_0000
      modifies frame
      ensures Valid()
      ensures forall qx: nat, qy: nat | qx < c.width && qy < c.height ::
                Pixel(c, frame[..], qx, qy) == if qy == py && qx == px then word % 65536
                                               else if qy == py && qx == px + 1 then word / 65536
                                               else old(Pixel(c, frame[..], qx, qy))
    {
      hide Pixel;
      Put(px, py, word % 65536);
      Put(px + 1, py, word / 65536);
    }

    method CopyPair(l: Leaf, dx: nat, dy: nat, src: nat)
      requires Valid() && ValidLeaf(c, l) && l.paint.Copy? && l.lw > 0 && dy < Size(l.lh) && src == ReadAt(c, l, 0, dy)
      requires dx + 1 < Size(l.lw) && dx % 2 == 0
      modifies frame
      ensures Valid()
      ensures forall qx: nat, qy: nat | qx < c.width && qy < c.height ::
                Pixel(c, frame[..], qx, qy)
                == if qy == l.y + dy && qx == l.x + dx then LeafPixel(c, last[..], l, qx, qy)
                   else if qy == l.y + dy && qx == l.x + dx + 1 then LeafPixel(c, last[..], l, qx, qy)
                                               else old(Pixel(c, frame[..], qx, qy))
    {
      hide LeafPixel, Pixel, ReadAt;
      RowReadsInside(c, l, dy);
      PairPixels(c, last[..], l, dx, dy);
      PutPair(l.x + dx, l.y + dy, PairWord(last[src + dx], last[src + dx + 1], l.paint.scale, l.paint.dc));
    }

    // One row of a copied block; src points at the row's first source pixel.
    method CopyRow(l: Leaf, dy: nat, src: nat)
      requires Valid() && ValidLeaf(c, l) && l.paint.Copy? && dy < Size(l.lh) && src == ReadAt(c, l, 0, dy)
      modifies frame
      ensures Valid() && RowCopied(c, last[..], l, dy, Size(l.lw), old(frame[..]), frame[..])
    {
      hide LeafPixel, Pixel, RowCopied, SingleWord, ReadAt;
      RowReadsInside(c, l, dy);
      NoPixels(c, last[..], l, dy, frame[..]);
      if l.lw == 0 {
        SinglePixel(c, last[..], l, dy);
        Put(l.x, l.y + dy, SingleWord(last[src], l.paint.scale, l.paint.dc));
        OnePixel(c, last[..], l, dy, old(frame[..]), frame[..]);
      } else {
        var dx := 0;
        while dx < Size(l.lw)
          invariant 0 <= dx <= Size(l.lw) && dx % 2 == 0
          invariant Valid() && RowCopied(c, last[..], l, dy, dx, old(frame[..]), frame[..])
        {
          ghost var before := frame[..];
          CopyPair(l, dx, dy, src);
          NextPair(c, last[..], l, dx, dy, old(frame[..]), before, frame[..]);
          dx := dx + 2;
        }
      }
    }

    // Motion compensation, mcdc.
    method Mcdc(l: Leaf)
      requires Valid() && ValidLeaf(c, l) && l.paint.Copy?
      modifies frame
      ensures Valid() && Repainted(c, last[..], [l], old(frame[..]), frame[..])
    {
      hide LeafPixel, Pixel;
      var i, src := 0, l.paint.src;
      while i < Size(l.lh)
        invariant 0 <= i <= Size(l.lh) && Valid()
        invariant src == ReadAt(c, l, 0, i)
        invariant RowsCopied(c, last[..], l, i, old(frame[..]), frame[..])
      {
        ghost var before := frame[..];
        CopyRow(l, i, src);
        if l.paint.scale != 0 {
          assert (i + 1) * c.width == i * c.width + c.width;
          src := src + c.width;
        }
        i := i + 1;
      }
      OneLeaf(c, last[..], l, old(frame[..]), frame[..]);
    }

    // Two pixels taken from the word stream.
    method DecodeRaw(x: nat, y: nat, lw: nat, lh: nat) returns (ok: bool)
      requires Valid() && lw + lh == 1 && x + Size(lw) <= c.width && y + Size(lh) <= c.height
      modifies this`s, frame
      ensures Valid()
      ensures var r := ParseLeaf(c, old(s), x, y, lw, lh, 6);
              ok == r.ok && s == r.s && ValidLeaves(c, r.leaves)
              && Repainted(c, last[..], r.leaves, old(frame[..]), frame[..])
    {
      if |s.words| - s.wordPos < 4 {
        return false;
      }
      var first, second := s.Word(0), s.Word(1);
      Put(x, y, first);
      if lw != 0 { Put(x + 1, y, second); } else { Put(x, y + 1, second); }
      OneLeaf(c, last[..], Leaf(x, y, lw, lh, Raw(first, second)), old(frame[..]), frame[..]);
      s := s.(wordPos := s.wordPos + 4);
      return true;
    }

    // A block without further splits.
    method DecodeLeaf(x: nat, y: nat, lw: nat, lh: nat, code: nat) returns (ok: bool)
      requires Valid() && LegalShape(lw, lh) && (code == 0 || 3 <= code <= 6) && (code == 6 ==> lw + lh == 1)
      requires x + Size(lw) <= c.width && y + Size(lh) <= c.height
      modifies this`s, frame
      ensures Valid()
      ensures var r := ParseLeaf(c, old(s), x, y, lw, lh, code);
              ok == r.ok && s == r.s && ValidLeaves(c, r.leaves)
              && Repainted(c, last[..], r.leaves, old(frame[..]), frame[..])
    {
      LeafIsValid(c, s, x, y, lw, lh, code);
      if code == 6 {
        ok := DecodeRaw(x, y, lw, lh);
      } else if code == 3 && c.version >= 2 {
        hide Pixel, LeafPixel;
        OneLeaf(c, last[..], Leaf(x, y, lw, lh, Skip), old(frame[..]), frame[..]);
        ok := true;
      } else {
        ok := DecodeCopy(x, y, lw, lh, code);
      }
    }

    // The block types that copy from the previous frame: with a displacement, from the block's
    // own place, or neither and only a constant.
    method DecodeCopy(x: nat, y: nat, lw: nat, lh: nat, code: nat) returns (ok: bool)
      requires Valid() && LegalShape(lw, lh) && (code == 0 || 3 <= code <= 5) && !(code == 3 && c.version >= 2)
      requires x + Size(lw) <= c.width && y + Size(lh) <= c.height
      requires ValidLeaves(c, ParseLeaf(c, s, x, y, lw, lh, code).leaves)
      modifies this`s, frame
      ensures Valid()
      ensures var r := ParseLeaf(c, old(s), x, y, lw, lh, code);
              ok == r.ok && s == r.s && Repainted(c, last[..], r.leaves, old(frame[..]), frame[..])
    {
      NothingRepainted(c, last[..], frame[..]);
      hide Pixel, LeafPixel, Repainted, Painted, Offset, Limit, Config.Motion, Streams.Word;
      var src, scale, dc := Offset(c, x, y), 1, 0;
      if code % 4 == 0 && |s.bytes| <= s.bytePos {
        return false;
      }
      if code == 0 {
        src, s := src + c.Motion(s.bytes[s.bytePos]), s.(bytePos := s.bytePos + 1);
      } else if code == 4 {
        src, s := src + c.Motion(s.bytes[s.bytePos]), s.(bytePos := s.bytePos + 1);
        if |s.words| - s.wordPos < 2 {
          return false;
        }
        dc, s := s.Word(0), s.(wordPos := s.wordPos + 2);
      } else if code == 5 {
        if |s.words| - s.wordPos < 2 {
          return false;
        }
        OwnPlaceIsInside(c, x, y, lw, lh);
        assert 0 <= src <= Limit(c, lw, lh);
        scale, dc, s := 0, s.Word(0), s.(wordPos := s.wordPos + 2);
      }
      if src < 0 || src > Limit(c, lw, lh) {
        return false;
      }
      Mcdc(Leaf(x, y, lw, lh, Copy(src, scale, dc)));
      return true;
    }

    method DecodePBlock(x: nat, y: nat, lw: nat, lh: nat) returns (ok: bool)
      requires Valid() && LegalShape(lw, lh)
      requires x + Size(lw) <= c.width && y + Size(lh) <= c.height
      modifies this`s, frame
      ensures Valid()
      ensures var r := ParseBlock(c, old(s), x, y, lw, lh);
              ok == r.ok && s == r.s && ValidLeaves(c, r.leaves)
              && Repainted(c, last[..], r.leaves, old(frame[..]), frame[..])
      decreases lw + lh
    {
      hide Pixel, LeafPixel, ParseLeaf, BlockType, TypeRow, ShapeClass, ValidLeaf, ValidFrame, Streams.Window;
      LeavesAreValid(c, s, x, y, lw, lh);
      if |s.bits| <= s.bitPos {
        return false;
      }
      var (code, len) := BlockType(c.version > 1, lw, lh, s.Window());
      SplitsStayLegal(c.version > 1, lw, lh, code);
      s := s.(bitPos := s.bitPos + len);
      if code == 1 || code == 2 {
        var (lw', lh') := Halved(code, lw, lh);
        var (x', y') := SecondHalf(code, x, y, lw', lh');
        ghost var f0, s1 := frame[..], s;
        ok := DecodePBlock(x, y, lw', lh');
        if ok {
          ghost var f1, s2 := frame[..], s;
          ok := DecodePBlock(x', y', lw', lh');
          RepaintedAdds(c, last[..], ParseBlock(c, s1, x, y, lw', lh').leaves,
                        ParseBlock(c, s2, x', y', lw', lh').leaves,
                        f0, f1, frame[..]);
        }
      } else {
        ok := DecodeLeaf(x, y, lw, lh, code);
      }
    }

    // The block loop of decode_p_frame.
    method DecodePFrame() returns (ok: bool)
      requires Valid()
      modifies this`s, frame
      ensures Valid()
      ensures var r := ParseFrame(c, old(s));
              ok == r.ok && s == r.s && ValidLeaves(c, r.leaves)
              && Repainted(c, last[..], r.leaves, old(frame[..]), frame[..])
    {
      var y := 0;
      ghost var done: seq<Leaf>, f0, s0 := [], frame[..], s;
      while y < c.height
        invariant y % 8 == 0 && Valid() && ValidLeaves(c, done)
        invariant ParseFrom(c, s, 0, y, done) == ParseFrame(c, s0)
        invariant Repainted(c, last[..], done, f0, frame[..])
      {
        var x := 0;
        while x < c.width
          invariant x % 8 == 0 && Valid() && ValidLeaves(c, done)
          invariant ParseFrom(c, s, x, y, done) == ParseFrame(c, s0)
          invariant Repainted(c, last[..], done, f0, frame[..])
          decreases c.width + 8 - x
        {
          RoomForBlock(c, x, y);
          ghost var b, f1 := ParseBlock(c, s, x, y, 3, 3), frame[..];
          ok := DecodePBlock(x, y, 3, 3);
          RepaintedAdds(c, last[..], done, b.leaves, f0, f1, frame[..]);
          done := done + b.leaves;
          if !ok {
            return;
          }
          x := x + 8;
        }
        y := y + 8;
      }
      return true;
    }
  }

  // A block's own position always passes the bounds test of a copy.
  lemma OwnPlaceIsInside(c: Config, x: nat, y: nat, lw: nat, lh: nat)
    requires x + Size(lw) <= c.width && y + Size(lh) <= c.height
    ensures 0 <= Offset(c, x, y) <= Limit(c, lw, lh)
  {
    assert (c.height - Size(lh) - y) * c.width >= 0;
    assert c.width * (c.height - Size(lh) + 1) == (c.height - Size(lh) - y) * c.width + y * c.width + c.width;
  }
}
