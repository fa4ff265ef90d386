/** Whole P-frames written as blocks of 8 by 8 pixels, row by row, and read back by FourXmPBlock;
    and what makes the decoder refuse a block. */
module FourXmPFrames {
  import opened Sequences
  import opened Modulo
  import opened FourXmPBlock
  import opened FourXmPStream
  import opened FourXmPicture

  // A block of 8 by 8 pixels.
  type FullBlock = t: Block | Shaped(3, 3, t) witness Kept

  function Columns(c: Config): nat { c.width / 8 }

  function Blocks(c: Config): nat { c.height / 8 * Columns(c) }

  // The place of block number n.
  function BlockX(c: Config, n: nat): nat
    requires Columns(c) > 0
  {
    n % Columns(c) * 8
  }

  function BlockY(c: Config, n: nat): nat
    requires Columns(c) > 0
  {
    n / Columns(c) * 8
  }

  // The number of the block that holds a pixel.
  function BlockOf(c: Config, px: nat, py: nat): nat { py / 8 * Columns(c) + px / 8 }

  // One block for each place of the frame, displaced blocks inside the previous frame.
  ghost predicate FrameOf(c: Config, ts: seq<FullBlock>)
    requires c.Valid()
  {
    && Columns(c) > 0 && |ts| == Blocks(c)
    && forall n: nat | n < |ts| :: StaysInside(c, ts[n], BlockX(c, n), BlockY(c, n), 3, 3)
  }

  function AllBits(modern: bool, ts: seq<FullBlock>): seq<bool> {
    if ts == [] then [] else BitsOf(modern, 3, 3, ts[0]) + AllBits(modern, ts[1..])
  }

  function AllBytes(ts: seq<FullBlock>): seq<int> { if ts == [] then [] else BytesOf(ts[0]) + AllBytes(ts[1..]) }

  function AllWords(ts: seq<FullBlock>): seq<int> { if ts == [] then [] else WordsOf(ts[0]) + AllWords(ts[1..]) }

  // The streams hold these blocks where they stand.
  predicate HoldsAll(c: Config, s: Streams, ts: seq<FullBlock>) {
    HoldsParts(s, AllBits(c.version > 1, ts), AllBytes(ts), AllWords(ts))
  }

  function BehindAll(c: Config, s: Streams, ts: seq<FullBlock>): Streams {
    Advance(s, |AllBits(c.version > 1, ts)|, |AllBytes(ts)|, |AllWords(ts)|)
  }

  function LeavesFrom(c: Config, ts: seq<FullBlock>, n: nat): seq<Leaf>
    requires c.Valid() && Columns(c) > 0
    decreases |ts| - n
  {
    if n >= |ts| then [] else LeavesOf(c, ts[n], BlockX(c, n), BlockY(c, n), 3, 3) + LeavesFrom(c, ts, n + 1)
  }

  // Where the numbered blocks stand.
  lemma BlockStands(c: Config, x: nat, y: nat)
    requires c.Valid() && x % 8 == 0 && y % 8 == 0 && x < c.width && y < c.height
    ensures Columns(c) > 0 && BlockOf(c, x, y) < Blocks(c)
    ensures BlockX(c, BlockOf(c, x, y)) == x && BlockY(c, BlockOf(c, x, y)) == y
    ensures BlockOf(c, x + 8, y) == BlockOf(c, x, y) + 1
  {
    var w, q, r, h := Columns(c), y / 8, x / 8, c.height / 8;
    assert r < w && q < h && (x + 8) / 8 == r + 1 && r * 8 == x && q * 8 == y;
    BlockNumber(w, q * w + r, q, r);
    FitsBelow(q, h, w, r);
  }

  lemma FitsBelow(q: nat, h: nat, w: nat, r: nat)
    requires q < h && r < w
    ensures q * w + r < h * w
  {
    var d := h - q - 1;
    assert h * w == d * w + q * w + w;
    assert d * w >= 0;
  }

  lemma QuotientOf(w: nat, q: nat, r: nat)
    requires r < w
    ensures (q * w + r) / w == q
  {
    RemainderOf(q * w + r, w, q, r);
    var d := (q * w + r) / w;
    assert d * w + r == q * w + r;
    assert (d - q) * w == 0;
  }

  lemma RowEnds(c: Config, y: nat)
    requires c.Valid() && y % 8 == 0
    ensures BlockOf(c, c.width, y) == BlockOf(c, 0, y + 8)
  {
    assert (y + 8) / 8 == y / 8 + 1;
  }

  lemma LastRowEnds(c: Config, x: nat)
    ensures BlockOf(c, x, c.height) >= Blocks(c)
  {}

  lemma NextBlock(c: Config, s: Streams, ts: seq<FullBlock>, n: nat)
    requires s.Valid() && n < |ts| && HoldsAll(c, s, ts[n..])
    ensures Holds(c, s, ts[n], 3, 3)
    ensures var t := Behind(c, s, ts[n], 3, 3);
            t.Valid() && HoldsAll(c, t, ts[n + 1..]) && BehindAll(c, t, ts[n + 1..]) == BehindAll(c, s, ts[n..])
  {
    var modern, rest := c.version > 1, ts[n + 1..];
    var bits, bytes, words := BitsOf(modern, 3, 3, ts[n]), BytesOf(ts[n]), WordsOf(ts[n]);
    assert ts[n..][0] == ts[n] && ts[n..][1..] == rest;
    assert AllBits(modern, ts[n..]) == bits + AllBits(modern, rest);
    assert AllBytes(ts[n..]) == bytes + AllBytes(rest) && AllWords(ts[n..]) == words + AllWords(rest);
    hide BitsOf, BytesOf, WordsOf, AllBits, AllBytes, AllWords, HoldsParts, Advance;
    PartsFollow(s, bits, AllBits(modern, rest), bytes, AllBytes(rest), words, AllWords(rest));
    PartsFit(s, bits, bytes, words);
    AdvancedTwice(s, |bits|, |bytes|, |words|, |AllBits(modern, rest)|, |AllBytes(rest)|, |AllWords(rest)|);
  }

  lemma NoMoreBlocks(c: Config, s: Streams)
    ensures BehindAll(c, s, []) == s
  {}

  lemma AtEnd(c: Config, s: Streams, x: nat, done: seq<Leaf>)
    requires c.Valid() && s.Valid() && x % 8 == 0
    ensures var r := ParseFrom(c, s, x, c.height, done); r.ok && r.leaves == done && r.s == s
  {}

  lemma AtRowEnd(c: Config, s: Streams, y: nat, done: seq<Leaf>)
    requires c.Valid() && s.Valid() && y % 8 == 0 && y < c.height
    ensures ParseFrom(c, s, c.width, y, done) == ParseFrom(c, s, 0, y + 8, done)
  {}

  lemma AtBlock(c: Config, s: Streams, x: nat, y: nat, done: seq<Leaf>, b: Parsed)
    requires c.Valid() && s.Valid() && x % 8 == 0 && y % 8 == 0 && x < c.width && y < c.height
    requires LegalShape(3, 3) && x + Size(3) <= c.width && y + Size(3) <= c.height && (x + 8) % 8 == 0
    requires b == ParseBlock(c, s, x, y, 3, 3) && b.ok && b.s.Valid()
    ensures ParseFrom(c, s, x, y, done) == ParseFrom(c, b.s, x + 8, y, done + b.leaves)
  {
    hide ParseBlock;
  }

  lemma BlockHasRoom(c: Config, x: nat, y: nat)
    requires c.Valid() && x % 8 == 0 && y % 8 == 0 && x < c.width && y < c.height
    ensures LegalShape(3, 3) && x + Size(3) <= c.width && y + Size(3) <= c.height && (x + 8) % 8 == 0
  {}

  lemma BlockAt(c: Config, ts: seq<FullBlock>, x: nat, y: nat)
    requires c.Valid() && FrameOf(c, ts) && x % 8 == 0 && y % 8 == 0 && x < c.width && y < c.height
    ensures var n := BlockOf(c, x, y);
            && n < |ts| && StaysInside(c, ts[n], x, y, 3, 3) && BlockOf(c, x + 8, y) == n + 1
            && Columns(c) > 0
            && LeavesFrom(c, ts, n) == LeavesOf(c, ts[n], x, y, 3, 3) + LeavesFrom(c, ts, n + 1)
  {
    BlockStands(c, x, y);
    hide LeavesOf, StaysInside, BlockX, BlockY, Columns;
  }

  lemma EndOfBlocks(c: Config, ts: seq<FullBlock>, x: nat)
    requires c.Valid() && FrameOf(c, ts) && BlockOf(c, x, c.height) <= |ts|
    ensures BlockOf(c, x, c.height) == |ts| && LeavesFrom(c, ts, |ts|) == []
  {
    LastRowEnds(c, x);
  }

  lemma {:induction false} FrameFrom(c: Config, s: Streams, x: nat, y: nat, done: seq<Leaf>, ts: seq<FullBlock>, n: nat)
    requires c.Valid() && s.Valid() && FrameOf(c, ts) && x % 8 == 0 && y % 8 == 0 && x <= c.width && y <= c.height
    requires n == BlockOf(c, x, y) <= |ts| && HoldsAll(c, s, ts[n..])
    requires c.width % 8 == 0 && c.height % 8 == 0
    ensures var r := ParseFrom(c, s, x, y, done);
            r.ok && r.leaves == done + LeavesFrom(c, ts, n) && r.s == BehindAll(c, s, ts[n..])
    decreases c.height + 8 - y, c.width + 8 - x
  {
    hide *;
    if y == c.height {
      EndOfBlocks(c, ts, x);
      AtEnd(c, s, x, done);
      assert ts[n..] == [] && done + [] == done;
      NoMoreBlocks(c, s);
    } else if x == c.width {
      RowEnds(c, y);
      AtRowEnd(c, s, y, done);
      FrameFrom(c, s, 0, y + 8, done, ts, n);
    } else {
      BlockAt(c, ts, x, y);
      var leaves, t := LeavesOf(c, ts[n], x, y, 3, 3), Behind(c, s, ts[n], 3, 3);
      NextBlock(c, s, ts, n);
      BlockHasRoom(c, x, y);
      BlockRoundTrip(c, s, ts[n], x, y, 3, 3);
      AtBlock(c, s, x, y, done, ParseBlock(c, s, x, y, 3, 3));
      FrameFrom(c, t, x + 8, y, done + leaves, ts, n + 1);
      assert done + leaves + LeavesFrom(c, ts, n + 1) == done + (leaves + LeavesFrom(c, ts, n + 1));
    }
  }

  // Decoding a whole frame undoes its encoding.
  lemma FrameRoundTrip(c: Config, s: Streams, ts: seq<FullBlock>)
    requires c.Valid() && s.Valid() && FrameOf(c, ts) && HoldsAll(c, s, ts)
    ensures var r := ParseFrame(c, s);
            r.ok && r.leaves == LeavesFrom(c, ts, 0) && r.s == BehindAll(c, s, ts)
  {
    assert ts[0..] == ts && [] + LeavesFrom(c, ts, 0) == LeavesFrom(c, ts, 0);
    FrameFrom(c, s, 0, 0, [], ts, 0);
  }

  // ------------------------------------------------------------------ the picture of a frame

  lemma PixelIsInItsBlock(c: Config, n: nat, px: nat, py: nat)
    requires c.Valid() && px < c.width && py < c.height && n < Blocks(c)
    ensures Columns(c) > 0 && BlockOf(c, px, py) < Blocks(c)
    ensures Inside(px, py, BlockX(c, n), BlockY(c, n), 3, 3) <==> n == BlockOf(c, px, py)
    ensures BlockX(c, n) + Size(3) <= c.width && BlockY(c, n) + Size(3) <= c.height
  {
    hide *;
    GridNumber(c, px, py, n);
    InGrid(c, n, px, py, n % Columns(c), n / Columns(c));
  }

  lemma GridNumber(c: Config, px: nat, py: nat, n: nat)
    requires c.Valid() && px < c.width && py < c.height && n < Blocks(c)
    ensures Columns(c) > 0 && BlockOf(c, px, py) < Blocks(c)
    ensures n % Columns(c) < Columns(c) && n / Columns(c) < c.height / 8
    ensures n == BlockOf(c, px, py) <==> n / Columns(c) == py / 8 && n % Columns(c) == px / 8
  {
    var w, h := Columns(c), c.height / 8;
    EightfoldIsBelow(px, c.width);
    EightfoldIsBelow(py, c.height);
    FitsBelow(py / 8, h, w, px / 8);
    RowBelow(n, w, h);
    BlockNumber(w, n, py / 8, px / 8);
  }

  lemma InGrid(c: Config, n: nat, px: nat, py: nat, column: nat, row: nat)
    requires c.Valid() && Columns(c) > 0 && column == n % Columns(c) && row == n / Columns(c)
    requires column < Columns(c) && row < c.height / 8
    ensures Inside(px, py, BlockX(c, n), BlockY(c, n), 3, 3) <==> px / 8 == column && py / 8 == row
    ensures BlockX(c, n) + Size(3) <= c.width && BlockY(c, n) + Size(3) <= c.height
  {
    InsideEight(px, column);
    InsideEight(py, row);
    assert BlockX(c, n) == column * 8 && BlockY(c, n) == row * 8;
    hide BlockX, BlockY;
  }

  lemma EightfoldIsBelow(p: nat, n: nat)
    requires p < n && n % 8 == 0
    ensures p / 8 < n / 8
  {}

  lemma BlockNumber(w: nat, n: nat, q: nat, r: nat)
    requires r < w
    ensures n == q * w + r <==> n / w == q && n % w == r
  {
    QuotientOf(w, q, r);
    RemainderOf(q * w + r, w, q, r);
    assert n == n / w * w + n % w;
  }

  lemma InsideEight(p: nat, q: nat)
    ensures q * 8 <= p < q * 8 + 8 <==> p / 8 == q
  {}

  lemma RowBelow(n: nat, w: nat, h: nat)
    requires w > 0 && n < h * w
    ensures n / w < h && n % w < w
  {
    var d := n / w - h;
    assert n == n / w * w + n % w && n / w * w == d * w + h * w;
    assert d >= 0 ==> d * w >= 0;
  }

  lemma BlockOfPixel(c: Config, ts: seq<FullBlock>, px: nat, py: nat)
    requires c.Valid() && FrameOf(c, ts) && px < c.width && py < c.height
    ensures var n := BlockOf(c, px, py);
            && Columns(c) > 0 && n < |ts| && Inside(px, py, BlockX(c, n), BlockY(c, n), 3, 3)
            && BlockX(c, n) + Size(3) <= c.width && BlockY(c, n) + Size(3) <= c.height
            && StaysInside(c, ts[n], BlockX(c, n), BlockY(c, n), 3, 3)
  {
    BlockStands(c, px / 8 * 8, py / 8 * 8);
    PixelIsInItsBlock(c, BlockOf(c, px, py), px, py);
    hide StaysInside, BlockX, BlockY, Columns;
  }

  // What a frame shows at a pixel: what the block there shows.
  ghost function FramePixel(c: Config, last: seq<int>, ts: seq<FullBlock>, px: nat, py: nat, old_: int): int
    requires c.Valid() && ValidFrame(c, last) && FrameOf(c, ts) && px < c.width && py < c.height
  {
    BlockOfPixel(c, ts, px, py);
    var n := BlockOf(c, px, py);
    Shown(c, last, ts[n], BlockX(c, n), BlockY(c, n), 3, 3, px, py, old_)
  }

  lemma PixelOfBlock(c: Config, last: seq<int>, ts: seq<FullBlock>, n: nat, px: nat, py: nat, old_: int)
    requires c.Valid() && ValidFrame(c, last) && FrameOf(c, ts) && px < c.width && py < c.height && n < |ts|
    ensures Columns(c) > 0
    ensures LeavesFrom(c, ts, n) == LeavesOf(c, ts[n], BlockX(c, n), BlockY(c, n), 3, 3) + LeavesFrom(c, ts, n + 1)
    ensures ValidLeaves(c, LeavesOf(c, ts[n], BlockX(c, n), BlockY(c, n), 3, 3))
    ensures Painted(c, last, LeavesOf(c, ts[n], BlockX(c, n), BlockY(c, n), 3, 3), px, py, old_)
         == if n == BlockOf(c, px, py) then FramePixel(c, last, ts, px, py, old_) else old_
  {
    PixelIsInItsBlock(c, n, px, py);
    assert StaysInside(c, ts[n], BlockX(c, n), BlockY(c, n), 3, 3);
    BlockShows(c, last, ts[n], BlockX(c, n), BlockY(c, n), 3, 3, px, py, old_);
    hide LeavesOf, StaysInside, BlockX, BlockY, Shown, Painted, ValidLeaves, ValidFrame, Columns;
  }

  lemma {:induction false} FrameShowsFrom(c: Config, last: seq<int>, ts: seq<FullBlock>, n: nat, px: nat, py: nat,
                                          old_: int)
    requires c.Valid() && ValidFrame(c, last) && FrameOf(c, ts) && px < c.width && py < c.height && n <= |ts|
    requires Columns(c) > 0
    ensures ValidLeaves(c, LeavesFrom(c, ts, n))
    ensures Painted(c, last, LeavesFrom(c, ts, n), px, py, old_)
         == if n <= BlockOf(c, px, py) then FramePixel(c, last, ts, px, py, old_) else old_
    decreases |ts| - n
  {
    hide *;
    if n == |ts| {
      BlockOfPixel(c, ts, px, py);
      NothingFrom(c, last, ts, px, py, old_);
    } else {
      var leaves := LeavesOf(c, ts[n], BlockX(c, n), BlockY(c, n), 3, 3);
      PixelOfBlock(c, last, ts, n, px, py, old_);
      FrameShowsFrom(c, last, ts, n + 1, px, py, Painted(c, last, leaves, px, py, old_));
      PaintedAdds(c, last, leaves, LeavesFrom(c, ts, n + 1), px, py, old_);
      BothAreValid(c, leaves, LeavesFrom(c, ts, n + 1));
    }
  }

  lemma NothingFrom(c: Config, last: seq<int>, ts: seq<FullBlock>, px: nat, py: nat, old_: int)
    requires c.Valid() && Columns(c) > 0 && ValidFrame(c, last)
    ensures ValidLeaves(c, LeavesFrom(c, ts, |ts|)) && Painted(c, last, LeavesFrom(c, ts, |ts|), px, py, old_) == old_
  {
    hide ValidFrame;
  }

  // Decoding an encoded frame in place shows, at every pixel, exactly what its block stands for.
  lemma FrameIsShown(c: Config, s: Streams, last: seq<int>, ts: seq<FullBlock>, before: seq<int>, after: seq<int>,
                     px: nat, py: nat)
    requires c.Valid() && s.Valid() && FrameOf(c, ts) && HoldsAll(c, s, ts) && px < c.width && py < c.height
    requires ValidFrame(c, last) && ValidFrame(c, before) && ValidFrame(c, after)
    requires ValidLeaves(c, ParseFrame(c, s).leaves) && Repainted(c, last, ParseFrame(c, s).leaves, before, after)
    ensures ParseFrame(c, s).ok && ParseFrame(c, s).s == BehindAll(c, s, ts)
    ensures Pixel(c, after, px, py) == FramePixel(c, last, ts, px, py, Pixel(c, before, px, py))
  {
    FrameRoundTrip(c, s, ts);
    FrameShowsFrom(c, last, ts, 0, px, py, Pixel(c, before, px, py));
    hide Pixel, Painted, FramePixel, ParseFrame, LeavesFrom, ValidLeaves;
  }

  // ------------------------------------------------------------------ what is refused

  // A copy is refused exactly if some pixel of it would be read outside the previous frame.
  lemma LimitIsExact(c: Config, l: Leaf)
    requires LegalShape(l.lw, l.lh) && l.paint.Copy? && l.paint.scale == 1 && Size(l.lh) <= c.height
    ensures 0 <= l.paint.src <= Limit(c, l.lw, l.lh) <==>
              forall dx: nat, dy: nat | dx < Size(l.lw) && dy < Size(l.lh) ::
                0 <= ReadAt(c, l, dx, dy) < c.width * c.height
  {
    if 0 <= l.paint.src <= Limit(c, l.lw, l.lh) {
      forall dx: nat, dy: nat | dx < Size(l.lw) && dy < Size(l.lh)
        ensures 0 <= ReadAt(c, l, dx, dy) < c.width * c.height
      {
        RowsBelow(c.width, c.height, Size(l.lh), dy);
      }
    } else {
      LastRead(c, l);
      assert ReadAt(c, l, 0, 0) == l.paint.src;
      var dx: nat, dy: nat := Size(l.lw) - 1, Size(l.lh) - 1;
      assert dx < Size(l.lw) && dy < Size(l.lh);
      assert !(0 <= ReadAt(c, l, 0, 0) < c.width * c.height && 0 <= ReadAt(c, l, dx, dy) < c.width * c.height);
    }
  }

  lemma LastRead(c: Config, l: Leaf)
    requires l.paint.Copy? && l.paint.scale == 1
    ensures ReadAt(c, l, Size(l.lw) - 1, Size(l.lh) - 1) - l.paint.src == c.width * c.height - 1 - Limit(c, l.lw, l.lh)
  {
    var h := Size(l.lh);
    assert c.width * (c.height - h + 1) + (h - 1) * c.width == c.width * c.height;
  }

  // How many bytes of the byte stream and of the word stream a leaf of each type takes.
  function BytesNeeded(code: nat): nat { if code == 0 || code == 4 then 1 else 0 }
  function WordsNeeded(code: nat): nat { if code == 6 then 4 else if code == 4 || code == 5 then 2 else 0 }

  // A leaf whose streams have run out is refused and paints nothing.
  lemma StarvedLeafIsRefused(c: Config, s: Streams, x: nat, y: nat, lw: nat, lh: nat, code: nat)
    requires c.Valid() && s.Valid() && (code == 0 || 3 <= code <= 6)
    requires |s.bytes| - s.bytePos < BytesNeeded(code) || |s.words| - s.wordPos < WordsNeeded(code)
    ensures var r := ParseLeaf(c, s, x, y, lw, lh, code); !r.ok && r.leaves == []
  {}

  // So is a block without a bit left.
  lemma NoBitsNoBlock(c: Config, s: Streams, x: nat, y: nat, lw: nat, lh: nat)
    requires c.Valid() && s.Valid() && LegalShape(lw, lh) && x + Size(lw) <= c.width && y + Size(lh) <= c.height
    requires s.bitPos >= |s.bits|
    ensures var r := ParseBlock(c, s, x, y, lw, lh); !r.ok && r.leaves == [] && r.s == s
  {}
}
