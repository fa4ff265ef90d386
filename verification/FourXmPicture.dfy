/** What encoded blocks of FourXmPStream show: pixel by pixel, and for whole frames. */
module FourXmPicture {
  import opened Sequences
  import opened FourXmPBlock
  import opened FourXmPStream

  // ------------------------------------------------------------------ the picture of a block

  // A pixel of the previous frame that a displaced block shows at px, py.
  function MovedPixel(c: Config, last: seq<int>, b: int, px: nat, py: nat): int
    requires c.Valid() && |last| == c.width * c.height && 0 <= b < 256
    requires 0 <= px + Displacement(c, b).0 < c.width && 0 <= py + Displacement(c, b).1 < c.height
  {
    Pixel(c, last, px + Displacement(c, b).0, py + Displacement(c, b).1)
  }

  // The sum of two 16-bit pairs: the left pixel may carry into the right one.
  function Sum(v: int, dc: int): int { (v + dc) % 65536 }
  function Carry(v: int, dc: int): int { (v + dc) / 65536 }

  // A pixel of a displaced block to which a constant is added, two pixels at a time.
  function AddedPixel(c: Config, last: seq<int>, b: int, dc: int, px: nat, py: nat, right: bool): int
    requires c.Valid() && ValidFrame(c, last) && 0 <= b < 256
    requires 0 <= px + Displacement(c, b).0 < c.width && 0 <= py + Displacement(c, b).1 < c.height
    requires right ==> px > 0 && px - 1 + Displacement(c, b).0 >= 0
  {
    Sum(MovedPixel(c, last, b, px, py), dc + if right then Carry(MovedPixel(c, last, b, px - 1, py), dc) else 0)
  }

  predicate IsRight(x: nat, lw: nat, px: nat) { lw > 0 && px >= x && (px - x) % 2 == 1 }

  // The pixel px, py of a block at x, y, if it showed old_ before.
  function Shown(c: Config, last: seq<int>, t: Block, x: nat, y: nat, lw: nat, lh: nat, px: nat, py: nat,
                 old_: int): int
    requires c.Valid() && ValidFrame(c, last) && Shaped(lw, lh, t) && StaysInside(c, t, x, y, lw, lh)
    requires x + Size(lw) <= c.width && y + Size(lh) <= c.height && Inside(px, py, x, y, lw, lh)
    decreases t
  {
    match t
    case Halves(a, b) =>
      if py < y + Size(lh - 1) then Shown(c, last, a, x, y, lw, lh - 1, px, py, old_)
      else Shown(c, last, b, x, y + Size(lh - 1), lw, lh - 1, px, py, old_)
    case Sides(a, b) =>
      if px < x + Size(lw - 1) then Shown(c, last, a, x, y, lw - 1, lh, px, py, old_)
      else Shown(c, last, b, x + Size(lw - 1), y, lw - 1, lh, px, py, old_)
    case Moved(b) => MovedPixel(c, last, b, px, py)
    case MovedAdd(b, dc) => AddedPixel(c, last, b, dc, px, py, IsRight(x, lw, px))
    case Kept => if c.version >= 2 then old_ else Pixel(c, last, px, py)
    case Flat(dc) => dc
    case Pair(u, v) => if px == x && py == y then u else v
  }

  // Two 16-bit sums in one 32-bit multiplication and addition.
  lemma PairSums(lo: int, hi: int, dc: int)
    requires 0 <= lo < 65536 && 0 <= hi < 65536 && 0 <= dc < 65536
    ensures var w := PairWord(lo, hi, 1, dc);
            w % 65536 == Sum(lo, dc) && w / 65536 == Sum(hi, dc + Carry(lo, dc))
    ensures PairWord(lo, hi, 0, dc) % 65536 == dc == PairWord(lo, hi, 0, dc) / 65536
  {
    var c, r := Carry(lo, dc), Sum(lo, dc);
    var t := hi + dc + c;
    TwoDigits(lo + dc);
    TwoDigits(t);
    hide Sum, Carry;
    assert (lo + 65536 * hi) + dc * 65537 == 65536 * t + r;
    Wrapped(t / 65536, t % 65536, r);
    Wrapped(0, dc, dc);
  }

  lemma TwoDigits(v: nat)
    ensures v == 65536 * (v / 65536) + v % 65536 && 0 <= v % 65536 < 65536
  {}

  lemma Wrapped(q: int, h: int, r: int)
    requires 0 <= h < 65536 && 0 <= r < 65536
    ensures var w := (65536 * (65536 * q + h) + r) % 0x1_0000_0000; w % 65536 == r && w / 65536 == h
  {
    var w := 65536 * h + r;
    assert 65536 * (65536 * q + h) + r == 0x1_0000_0000 * q + w;
    assert (0x1_0000_0000 * q + w) % 0x1_0000_0000 == w;
  }

  // A copied leaf reads, for a pixel of the block, the pixel at the same displacement.
  lemma ReadIsPixel(c: Config, last: seq<int>, l: Leaf, mx: int, my: int, px: nat, py: nat)
    requires |last| == c.width * c.height && l.paint.Copy? && l.paint.scale == 1
    requires l.paint.src == (l.y + my) * c.width + l.x + mx && l.x <= px && l.y <= py
    requires 0 <= px + mx < c.width && 0 <= py + my < c.height
    ensures 0 <= ReadAt(c, l, px - l.x, py - l.y) < |last|
    ensures last[ReadAt(c, l, px - l.x, py - l.y)] == Pixel(c, last, px + mx, py + my)
  {
    IndexInside(c, px + mx, py + my);
    assert (l.y + my) * c.width + (py - l.y) * c.width == (py + my) * c.width;
  }

  // A pixel of a copied leaf: on its own, or as one half of a pair.
  lemma SinglePart(c: Config, last: seq<int>, l: Leaf, px: nat, py: nat)
    requires ValidFrame(c, last) && ValidLeaf(c, l) && l.Covers(px, py) && l.paint.Copy? && l.lw == 0
    ensures var i := ReadAt(c, l, px - l.x, py - l.y);
            && 0 <= i < |last|
            && LeafPixel(c, last, l, px, py) == SingleWord(last[i], l.paint.scale, l.paint.dc)
  {
    CopiesReadInside(c, l, px - l.x, py - l.y);
    hide ReadAt;
  }

  lemma LeftPart(c: Config, last: seq<int>, l: Leaf, px: nat, py: nat)
    requires ValidFrame(c, last) && ValidLeaf(c, l) && l.Covers(px, py) && l.paint.Copy? && l.lw > 0
    requires (px - l.x) % 2 == 0
    ensures px + 1 < l.x + Size(l.lw)
    ensures var i, k := ReadAt(c, l, px - l.x, py - l.y), ReadAt(c, l, px + 1 - l.x, py - l.y);
            && 0 <= i < |last| && 0 <= k < |last|
            && LeafPixel(c, last, l, px, py) == PairWord(last[i], last[k], l.paint.scale, l.paint.dc) % 65536
  {
    var dx := px - l.x;
    assert dx / 2 * 2 == dx;
    CopiesReadInside(c, l, dx, py - l.y);
    CopiesReadInside(c, l, dx + 1, py - l.y);
    hide ReadAt, PairWord;
  }

  lemma RightPart(c: Config, last: seq<int>, l: Leaf, px: nat, py: nat)
    requires ValidFrame(c, last) && ValidLeaf(c, l) && l.Covers(px, py) && l.paint.Copy? && l.lw > 0
    requires (px - l.x) % 2 == 1
    ensures var i, k := ReadAt(c, l, px - 1 - l.x, py - l.y), ReadAt(c, l, px - l.x, py - l.y);
            && 0 <= i < |last| && 0 <= k < |last|
            && LeafPixel(c, last, l, px, py) == PairWord(last[i], last[k], l.paint.scale, l.paint.dc) / 65536
  {
    var dx := px - l.x;
    assert dx / 2 * 2 == dx - 1;
    CopiesReadInside(c, l, dx - 1, py - l.y);
    CopiesReadInside(c, l, dx, py - l.y);
    hide ReadAt, PairWord;
  }

  // A leaf copied from its own place moved by mx, my.
  lemma ShiftedLeafShows(c: Config, last: seq<int>, l: Leaf, mx: int, my: int, dc: int, px: nat, py: nat)
    requires ValidFrame(c, last) && ValidLeaf(c, l) && l.Covers(px, py) && BoxInside(c, l.x + mx, l.y + my, l.lw, l.lh)
    requires l.paint == Copy((l.y + my) * c.width + l.x + mx, 1, dc)
    ensures 0 <= px + mx < c.width && 0 <= py + my < c.height
    ensures IsRight(l.x, l.lw, px) ==> px > 0 && px - 1 + mx >= 0
    ensures LeafPixel(c, last, l, px, py)
         == Sum(Pixel(c, last, px + mx, py + my),
                dc + if IsRight(l.x, l.lw, px) then Carry(Pixel(c, last, px - 1 + mx, py + my), dc) else 0)
  {
    ReadIsPixel(c, last, l, mx, my, px, py);
    PixelIsWord(c, last, px + mx, py + my);
    if l.lw == 0 {
      SinglePart(c, last, l, px, py);
    } else if (px - l.x) % 2 == 0 {
      LeftPart(c, last, l, px, py);
      ReadIsPixel(c, last, l, mx, my, px + 1, py);
      PixelIsWord(c, last, px + 1 + mx, py + my);
      PairSums(Pixel(c, last, px + mx, py + my), Pixel(c, last, px + 1 + mx, py + my), dc);
    } else {
      RightPart(c, last, l, px, py);
      ReadIsPixel(c, last, l, mx, my, px - 1, py);
      PixelIsWord(c, last, px - 1 + mx, py + my);
      PairSums(Pixel(c, last, px - 1 + mx, py + my), Pixel(c, last, px + mx, py + my), dc);
    }
    hide Pixel, PairWord, ReadAt, LeafPixel, ValidFrame, Carry;
  }

  lemma MovedLeafShows(c: Config, last: seq<int>, l: Leaf, b: int, dc: int, px: nat, py: nat)
    requires c.Valid() && ValidFrame(c, last) && ValidLeaf(c, l) && l.Covers(px, py) && 0 <= b < 256
    requires BoxInside(c, l.x + Displacement(c, b).0, l.y + Displacement(c, b).1, l.lw, l.lh)
    requires l.paint == Copy(MovedPlace(c, b, l.x, l.y), 1, dc)
    ensures LeafPixel(c, last, l, px, py) == AddedPixel(c, last, b, dc, px, py, IsRight(l.x, l.lw, px))
  {
    ShiftedLeafShows(c, last, l, Displacement(c, b).0, Displacement(c, b).1, dc, px, py);
    hide Displacement, Pixel, LeafPixel, ValidFrame, ValidLeaf, Sum, Carry;
  }

  lemma SimpleLeafShows(c: Config, last: seq<int>, t: Block, x: nat, y: nat, lw: nat, lh: nat, px: nat, py: nat,
                        old_: int)
    requires c.Valid() && ValidFrame(c, last) && Shaped(lw, lh, t) && StaysInside(c, t, x, y, lw, lh)
    requires x + Size(lw) <= c.width && y + Size(lh) <= c.height && Inside(px, py, x, y, lw, lh)
    requires t.Kept? || t.Flat? || t.Pair?
    requires ValidLeaf(c, LeavesOf(c, t, x, y, lw, lh)[0])
    ensures var l := LeavesOf(c, t, x, y, lw, lh)[0];
            Shown(c, last, t, x, y, lw, lh, px, py, old_)
            == if l.paint.Skip? then old_ else LeafPixel(c, last, l, px, py)
  {
    var l := LeavesOf(c, t, x, y, lw, lh)[0];
    if t.Flat? {
      PairSums(0, 0, t.dc);
      FlatShows(c, last, l, t.dc, px, py);
    } else if t.Kept? && c.version < 2 {
      KeptShows(c, last, l, px, py);
    }
  }

  lemma FlatShows(c: Config, last: seq<int>, l: Leaf, dc: int, px: nat, py: nat)
    requires ValidFrame(c, last) && ValidLeaf(c, l) && l.Covers(px, py) && l.paint.Copy?
    requires l.paint.scale == 0 && l.paint.dc == dc
    ensures LeafPixel(c, last, l, px, py) == dc
  {
    PairSums(0, 0, dc);
    hide ReadAt;
  }

  // A block in its old place: the displacement is zero.
  lemma KeptShows(c: Config, last: seq<int>, l: Leaf, px: nat, py: nat)
    requires ValidFrame(c, last) && ValidLeaf(c, l) && l.Covers(px, py) && px < c.width && py < c.height
    requires l.paint == Copy(l.y * c.width + l.x, 1, 0)
    ensures LeafPixel(c, last, l, px, py) == Pixel(c, last, px, py)
  {
    ShiftedLeafShows(c, last, l, 0, 0, 0, px, py);
    PixelIsWord(c, last, px, py);
    if IsRight(l.x, l.lw, px) { PixelIsWord(c, last, px - 1, py); }
    hide Pixel, LeafPixel, ValidFrame, ValidLeaf;
    SumZero(Pixel(c, last, px, py));
    if IsRight(l.x, l.lw, px) { SumZero(Pixel(c, last, px - 1, py)); }
  }

  lemma PixelIsWord(c: Config, frame: seq<int>, px: nat, py: nat)
    requires ValidFrame(c, frame) && px < c.width && py < c.height
    ensures 0 <= Pixel(c, frame, px, py) < 65536
  {
    IndexInside(c, px, py);
  }

  lemma SumZero(v: int)
    requires 0 <= v < 65536
    ensures Sum(v, 0) == v && Carry(v, 0) == 0
  {}

  // Adding nothing carries nothing.
  lemma AddNothing(c: Config, last: seq<int>, b: int, px: nat, py: nat, right: bool)
    requires c.Valid() && ValidFrame(c, last) && 0 <= b < 256
    requires 0 <= px + Displacement(c, b).0 < c.width && 0 <= py + Displacement(c, b).1 < c.height
    requires right ==> px > 0 && px - 1 + Displacement(c, b).0 >= 0
    ensures AddedPixel(c, last, b, 0, px, py, right) == MovedPixel(c, last, b, px, py)
  {
    var (mx, my) := Displacement(c, b);
    hide Displacement;
    PixelIsWord(c, last, px + mx, py + my);
    if right { PixelIsWord(c, last, px - 1 + mx, py + my); }
    hide Pixel, ValidFrame, Sum, Carry;
    SumZero(MovedPixel(c, last, b, px, py));
    if right { SumZero(MovedPixel(c, last, b, px - 1, py)); }
  }

  // The leaf of an undivided block is valid, and shows the block.
  lemma LeafShows(c: Config, last: seq<int>, t: Block, x: nat, y: nat, lw: nat, lh: nat, px: nat, py: nat, old_: int)
    requires c.Valid() && ValidFrame(c, last) && Shaped(lw, lh, t) && StaysInside(c, t, x, y, lw, lh) && IsLeaf(t)
    requires x + Size(lw) <= c.width && y + Size(lh) <= c.height && Inside(px, py, x, y, lw, lh)
    ensures |LeavesOf(c, t, x, y, lw, lh)| == 1 && ValidLeaf(c, LeavesOf(c, t, x, y, lw, lh)[0])
    ensures var l := LeavesOf(c, t, x, y, lw, lh)[0];
            && l.Covers(px, py)
            && Shown(c, last, t, x, y, lw, lh, px, py, old_)
               == if l.paint.Skip? then old_ else LeafPixel(c, last, l, px, py)
  {
    var l := LeavesOf(c, t, x, y, lw, lh)[0];
    LeafIsLegal(c, t, x, y, lw, lh);
    if t.Moved? {
      MovedLeafShows(c, last, l, t.b, 0, px, py);
      AddNothing(c, last, t.b, px, py, IsRight(x, lw, px));
    } else if t.MovedAdd? {
      MovedLeafShows(c, last, l, t.b, t.dc, px, py);
    } else {
      SimpleLeafShows(c, last, t, x, y, lw, lh, px, py, old_);
    }
    hide LeafPixel, ValidLeaf, ValidFrame, AddedPixel, MovedPixel, Displacement, MovedPlace, Usable, Config.Valid;
  }

  lemma LeafIsLegal(c: Config, t: Block, x: nat, y: nat, lw: nat, lh: nat)
    requires c.Valid() && Shaped(lw, lh, t) && StaysInside(c, t, x, y, lw, lh) && IsLeaf(t)
    requires x + Size(lw) <= c.width && y + Size(lh) <= c.height
    ensures |LeavesOf(c, t, x, y, lw, lh)| == 1 && ValidLeaf(c, LeavesOf(c, t, x, y, lw, lh)[0])
  {
    InsidePasses(c, x, y, lw, lh);
    if t.Moved? || t.MovedAdd? {
      InsidePasses(c, x + Displacement(c, t.b).0, y + Displacement(c, t.b).1, lw, lh);
    }
    hide Displacement, Limit;
  }

  lemma {:induction false} LeavesAreLegal(c: Config, t: Block, x: nat, y: nat, lw: nat, lh: nat)
    requires c.Valid() && Shaped(lw, lh, t) && StaysInside(c, t, x, y, lw, lh)
    requires x + Size(lw) <= c.width && y + Size(lh) <= c.height
    ensures ValidLeaves(c, LeavesOf(c, t, x, y, lw, lh))
    decreases t
  {
    hide *;
    if IsLeaf(t) {
      LeafIsLegal(c, t, x, y, lw, lh);
      OneIsValid(c, LeavesOf(c, t, x, y, lw, lh));
    } else {
      PartsOfBlock(c, t, x, y, lw, lh);
      var (lw', lh') := Halved(TypeOf(t), lw, lh);
      var (x', y') := SecondHalf(TypeOf(t), x, y, lw', lh');
      LeavesAreLegal(c, First(t), x, y, lw', lh');
      LeavesAreLegal(c, Second(t), x', y', lw', lh');
      BothAreValid(c, LeavesOf(c, First(t), x, y, lw', lh'), LeavesOf(c, Second(t), x', y', lw', lh'));
    }
  }

  lemma OneIsValid(c: Config, ls: seq<Leaf>)
    requires |ls| == 1 && ValidLeaf(c, ls[0])
    ensures ValidLeaves(c, ls)
  {}

  lemma BothAreValid(c: Config, a: seq<Leaf>, b: seq<Leaf>)
    requires ValidLeaves(c, a) && ValidLeaves(c, b)
    ensures ValidLeaves(c, a + b)
  {
    hide ValidLeaf;
  }

  // Painting the leaves of a block shows the block inside it, and changes nothing outside it.
  lemma {:induction false} BlockShows(c: Config, last: seq<int>, t: Block, x: nat, y: nat, lw: nat, lh: nat,
                                      px: nat, py: nat, old_: int)
    requires c.Valid() && ValidFrame(c, last) && Shaped(lw, lh, t) && StaysInside(c, t, x, y, lw, lh)
    requires x + Size(lw) <= c.width && y + Size(lh) <= c.height
    ensures ValidLeaves(c, LeavesOf(c, t, x, y, lw, lh))
    ensures Painted(c, last, LeavesOf(c, t, x, y, lw, lh), px, py, old_)
         == if Inside(px, py, x, y, lw, lh) then Shown(c, last, t, x, y, lw, lh, px, py, old_) else old_
    decreases t
  {
    hide *;
    LeavesAreLegal(c, t, x, y, lw, lh);
    if IsLeaf(t) {
      OneLeafPaints(c, last, t, x, y, lw, lh, px, py, old_);
    } else {
      PartsOfBlock(c, t, x, y, lw, lh);
      var (lw', lh') := Halved(TypeOf(t), lw, lh);
      var (x', y') := SecondHalf(TypeOf(t), x, y, lw', lh');
      var a, b := LeavesOf(c, First(t), x, y, lw', lh'), LeavesOf(c, Second(t), x', y', lw', lh');
      LeavesAreLegal(c, First(t), x, y, lw', lh');
      LeavesAreLegal(c, Second(t), x', y', lw', lh');
      PaintedAdds(c, last, a, b, px, py, old_);
      BlockShows(c, last, First(t), x, y, lw', lh', px, py, old_);
      BlockShows(c, last, Second(t), x', y', lw', lh', px, py, Painted(c, last, a, px, py, old_));
      HalvesSplit(c, last, t, x, y, lw, lh, lw', lh', x', y', px, py, old_);
    }
  }

  lemma OneLeafPaints(c: Config, last: seq<int>, t: Block, x: nat, y: nat, lw: nat, lh: nat, px: nat, py: nat,
                      old_: int)
    requires c.Valid() && ValidFrame(c, last) && Shaped(lw, lh, t) && StaysInside(c, t, x, y, lw, lh) && IsLeaf(t)
    requires x + Size(lw) <= c.width && y + Size(lh) <= c.height && ValidLeaves(c, LeavesOf(c, t, x, y, lw, lh))
    ensures Painted(c, last, LeavesOf(c, t, x, y, lw, lh), px, py, old_)
         == if Inside(px, py, x, y, lw, lh) then Shown(c, last, t, x, y, lw, lh, px, py, old_) else old_
  {
    LeafIsLegal(c, t, x, y, lw, lh);
    LeafStands(c, t, x, y, lw, lh, px, py);
    var ls := LeavesOf(c, t, x, y, lw, lh);
    if Inside(px, py, x, y, lw, lh) { LeafShows(c, last, t, x, y, lw, lh, px, py, old_); }
    hide *;
    OnePaints(c, last, ls[0], px, py, old_);
    assert ls == [ls[0]];
  }

  lemma OnePaints(c: Config, last: seq<int>, l: Leaf, px: nat, py: nat, old_: int)
    requires ValidFrame(c, last) && ValidLeaf(c, l)
    ensures ValidLeaves(c, [l])
    ensures Painted(c, last, [l], px, py, old_)
         == if l.Covers(px, py) && !l.paint.Skip? then LeafPixel(c, last, l, px, py) else old_
  {
    hide LeafPixel, ValidLeaf;
    assert [l][..0] == [];
    assert Painted(c, last, [], px, py, old_) == old_;
  }

  lemma LeafStands(c: Config, t: Block, x: nat, y: nat, lw: nat, lh: nat, px: nat, py: nat)
    requires c.Valid() && Shaped(lw, lh, t) && IsLeaf(t)
    ensures |LeavesOf(c, t, x, y, lw, lh)| == 1
    ensures LeavesOf(c, t, x, y, lw, lh)[0].Covers(px, py) <==> Inside(px, py, x, y, lw, lh)
  {
    hide Displacement, MovedPlace, Usable;
  }

  lemma DoubleSize(l: nat)
    ensures l < 3 ==> Size(l + 1) == 2 * Size(l)
  {}

  // A pixel of a divided block lies in one of its parts, and shows that part.
  lemma HalvesSplit(c: Config, last: seq<int>, t: Block, x: nat, y: nat, lw: nat, lh: nat, lw': nat, lh': nat,
                    x': nat, y': nat, px: nat, py: nat, old_: int)
    requires c.Valid() && ValidFrame(c, last) && Shaped(lw, lh, t) && StaysInside(c, t, x, y, lw, lh) && !IsLeaf(t)
    requires x + Size(lw) <= c.width && y + Size(lh) <= c.height
    requires (TypeOf(t) == 1 && lh >= 1) || (TypeOf(t) == 2 && lw >= 1)
    requires Halved(TypeOf(t), lw, lh) == (lw', lh') && SecondHalf(TypeOf(t), x, y, lw', lh') == (x', y')
    requires Shaped(lw', lh', First(t)) && Shaped(lw', lh', Second(t))
    requires StaysInside(c, First(t), x, y, lw', lh') && StaysInside(c, Second(t), x', y', lw', lh')
    requires x + Size(lw') <= c.width && y + Size(lh') <= c.height
    requires x' + Size(lw') <= c.width && y' + Size(lh') <= c.height
    ensures Inside(px, py, x, y, lw, lh) <==> Inside(px, py, x, y, lw', lh') || Inside(px, py, x', y', lw', lh')
    ensures !(Inside(px, py, x, y, lw', lh') && Inside(px, py, x', y', lw', lh'))
    ensures Inside(px, py, x, y, lw', lh') ==>
              Shown(c, last, t, x, y, lw, lh, px, py, old_) == Shown(c, last, First(t), x, y, lw', lh', px, py, old_)
    ensures Inside(px, py, x', y', lw', lh') ==>
              Shown(c, last, t, x, y, lw, lh, px, py, old_) == Shown(c, last, Second(t), x', y', lw', lh', px, py, old_)
  {
    ShapedMeans(lw, lh, t);
    hide StaysInside, Shaped, ValidFrame, Config.Valid, Displacement, Pixel;
    DoubleSize(lw');
    DoubleSize(lh');
    hide Size;
  }
}
