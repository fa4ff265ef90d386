/** The inverse of the P-block decoder of FourXmPBlock: blocks as trees, the bits, bytes and words
    that stand for them, and the picture they show. */
module FourXmPStream {
  import opened Sequences
  import opened FourXmPBlock

  // ------------------------------------------------------------------ codes of the block types

  // Blocks are halved along sides longer than one pixel, as long as two pixels are left; only
  // blocks of two pixels may hold them raw.
  predicate Usable(lw: nat, lh: nat, code: nat) {
    if code == 1 then lh >= 1 && lw + lh >= 2
    else if code == 2 then lw >= 1 && lw + lh >= 2
    else if code == 6 then lw + lh == 1
    else code < 6
  }

  // How many usable types come before this one.
  function Rank(lw: nat, lh: nat, code: nat): nat {
    if code == 0 then 0 else Rank(lw, lh, code - 1) + if Usable(lw, lh, code - 1) then 1 else 0
  }

  // The unary code of number r among m: r ones, and a zero unless it is the last number.
  function Unary(r: nat, m: nat): seq<bool> { seq(r, i => true) + if r + 1 < m then [false] else [] }

  // From version 2 on the types are numbered in unary code. Before, a zero introduces types 3 and
  // 0, and a one the others: in two more bits if they are four, in unary code if they are three.
  function TypeBits(modern: bool, lw: nat, lh: nat, code: nat): seq<bool> {
    if modern then Unary(Rank(lw, lh, code), Rank(lw, lh, 7))
    else if code == 3 then [false, false]
    else if code == 0 then [false, true]
    else
      var r := Rank(lw, lh, code) - if code < 3 then 1 else 2;
      if Rank(lw, lh, 7) == 6 then [true, r / 2 == 1, r % 2 == 1]
      else if r < 0 then [] else [true] + Unary(r, 3)
  }

  // The highest bit first.
  function Value(bits: seq<bool>): nat {
    if bits == [] then 0 else 2 * Value(bits[..|bits| - 1]) + if bits[|bits| - 1] then 1 else 0
  }

  function Digit(b: bool): nat { if b then 1 else 0 }

  lemma ShortValues(b: seq<bool>)
    ensures |b| == 1 ==> Value(b) == Digit(b[0])
    ensures |b| == 2 ==> Value(b) == 2 * Digit(b[0]) + Digit(b[1])
    ensures |b| == 3 ==> Value(b) == 4 * Digit(b[0]) + 2 * Digit(b[1]) + Digit(b[2])
    ensures |b| == 4 ==> Value(b) == 8 * Digit(b[0]) + 4 * Digit(b[1]) + 2 * Digit(b[2]) + Digit(b[3])
    ensures |b| == 5 ==>
              Value(b) == 16 * Digit(b[0]) + 8 * Digit(b[1]) + 4 * Digit(b[2]) + 2 * Digit(b[3]) + Digit(b[4])
  {
    if 1 < |b| <= 5 {
      var front, digit := b[..|b| - 1], Digit(b[|b| - 1]);
      ShortValues(front);
      assert Value(b) == 2 * Value(front) + digit;
      hide Value, Digit;
    }
  }

  lemma Ranks(lw: nat, lh: nat)
    requires LegalShape(lw, lh)
    ensures Rank(lw, lh, 0) == 0 && Rank(lw, lh, 1) == 1
    ensures var a, b := Digit(Usable(lw, lh, 1)), Digit(Usable(lw, lh, 2));
            && Rank(lw, lh, 2) == 1 + a && Rank(lw, lh, 3) == 1 + a + b && Rank(lw, lh, 4) == 2 + a + b
            && Rank(lw, lh, 5) == 3 + a + b && Rank(lw, lh, 6) == 4 + a + b
            && Rank(lw, lh, 7) == 4 + a + b + Digit(lw + lh == 1)
  {}

  // The tables hold exactly these codes.
  lemma RowHoldsTypeBits(modern: bool, lw: nat, lh: nat, code: nat)
    requires LegalShape(lw, lh) && code < 7
    ensures ShapeClass(lw, lh) < 4
    ensures var entry := TypeRow(modern, ShapeClass(lw, lh))[code];
            && (entry.1 > 0 <==> Usable(lw, lh, code))
            && (entry.1 > 0 ==> entry.1 == |TypeBits(modern, lw, lh, code)| <= 5
                                && entry.0 == Value(TypeBits(modern, lw, lh, code)))
  {
    hide Rank, Value;
    if modern { ModernRow(lw, lh, code); } else { OldRow(lw, lh, code); }
  }

  lemma ModernRow(lw: nat, lh: nat, code: nat)
    requires LegalShape(lw, lh) && code < 7
    ensures ShapeClass(lw, lh) < 4
    ensures var entry, bits := TypeRow(true, ShapeClass(lw, lh))[code], TypeBits(true, lw, lh, code);
            (entry.1 > 0 <==> Usable(lw, lh, code)) && (entry.1 > 0 ==> entry == (Value(bits), |bits|) && |bits| <= 5)
  {
    Ranks(lw, lh);
    hide Rank, Value;
    ShortValues(TypeBits(true, lw, lh, code));
  }

  lemma OldRow(lw: nat, lh: nat, code: nat)
    requires LegalShape(lw, lh) && code < 7
    ensures ShapeClass(lw, lh) < 4
    ensures var entry, bits := TypeRow(false, ShapeClass(lw, lh))[code], TypeBits(false, lw, lh, code);
            (entry.1 > 0 <==> Usable(lw, lh, code)) && (entry.1 > 0 ==> entry == (Value(bits), |bits|) && |bits| <= 5)
  {
    Ranks(lw, lh);
    hide Rank, Value;
    ShortValues(TypeBits(false, lw, lh, code));
  }

  lemma WindowStarts(s: Streams, bits: seq<bool>)
    requires 1 <= |bits| <= 5 && HasAt(s.bits, s.bitPos, bits)
    ensures Matches((Value(bits), |bits|), s.Window())
  {
    ShortValues(bits);
    hide Value;
    forall i | 0 <= i < |bits| ensures s.Bit(s.bitPos + i) == Digit(bits[i]) {
      assert s.bits[s.bitPos..s.bitPos + |bits|][i] == bits[i];
    }
    assert s.Bit(s.bitPos + 0) == Digit(bits[0]);
  }

  // The decoder recognises the type it is given.
  lemma TypeIsRead(modern: bool, lw: nat, lh: nat, code: nat, s: Streams)
    requires LegalShape(lw, lh) && code < 7 && Usable(lw, lh, code)
    requires HasAt(s.bits, s.bitPos, TypeBits(modern, lw, lh, code))
    ensures BlockType(modern, lw, lh, s.Window()) == (code, |TypeBits(modern, lw, lh, code)|)
    ensures |TypeBits(modern, lw, lh, code)| > 0
  {
    var bits := TypeBits(modern, lw, lh, code);
    RowHoldsTypeBits(modern, lw, lh, code);
    hide *;
    WindowStarts(s, bits);
    OnlyTypeOf(modern, lw, lh, code, s.Window(), |bits|);
  }

  lemma OnlyTypeOf(modern: bool, lw: nat, lh: nat, code: nat, window: nat, len: nat)
    requires LegalShape(lw, lh) && code < 7 && window < 32 && ShapeClass(lw, lh) < 4
    requires TypeRow(modern, ShapeClass(lw, lh))[code].1 == len
    requires Matches(TypeRow(modern, ShapeClass(lw, lh))[code], window)
    ensures BlockType(modern, lw, lh, window) == (code, len)
  {
    RowIsComplete(modern, ShapeClass(lw, lh), window);
    hide TypeRow, ShapeClass, LegalShape, Matches;
  }

  // ------------------------------------------------------------------ blocks and their streams

  // What a block may be: two halves, one above or beside the other; a block of the previous frame
  // at a displacement, as it is or with a constant added; the block in its old place; one
  // constant; two pixels.
  datatype Block =
    | Halves(top: Block, bottom: Block) | Sides(left: Block, right: Block)
    | Moved(b: int) | MovedAdd(b: int, dc: int) | Kept | Flat(dc: int) | Pair(first: int, second: int)

  function TypeOf(t: Block): (code: nat)
    ensures code < 7
  {
    match t
    case Moved(_) => 0
    case Halves(_, _) => 1
    case Sides(_, _) => 2
    case Kept => 3
    case MovedAdd(_, _) => 4
    case Flat(_) => 5
    case Pair(_, _) => 6
  }

  // A block of this size can be written this way.
  predicate Shaped(lw: nat, lh: nat, t: Block)
    decreases t
  {
    && LegalShape(lw, lh) && Usable(lw, lh, TypeOf(t))
    && match t
       case Halves(a, b) => Shaped(lw, lh - 1, a) && Shaped(lw, lh - 1, b)
       case Sides(a, b) => Shaped(lw - 1, lh, a) && Shaped(lw - 1, lh, b)
       case Moved(b) => 0 <= b < 256
       case MovedAdd(b, dc) => 0 <= b < 256 && 0 <= dc < 65536
       case Kept => true
       case Flat(dc) => 0 <= dc < 65536
       case Pair(u, v) => 0 <= u < 65536 && 0 <= v < 65536
  }

  function BitsOf(modern: bool, lw: nat, lh: nat, t: Block): seq<bool>
    requires Shaped(lw, lh, t)
    decreases t
  {
    TypeBits(modern, lw, lh, TypeOf(t)) +
    match t
    case Halves(a, b) => BitsOf(modern, lw, lh - 1, a) + BitsOf(modern, lw, lh - 1, b)
    case Sides(a, b) => BitsOf(modern, lw - 1, lh, a) + BitsOf(modern, lw - 1, lh, b)
    case _ => []
  }

  function BytesOf(t: Block): seq<int> {
    match t
    case Halves(a, b) => BytesOf(a) + BytesOf(b)
    case Sides(a, b) => BytesOf(a) + BytesOf(b)
    case Moved(b) => [b]
    case MovedAdd(b, _) => [b]
    case _ => []
  }

  // A word, its low byte first.
  function WordBytes(w: int): seq<int> { [w % 256, w / 256] }

  function WordsOf(t: Block): seq<int> {
    match t
    case Halves(a, b) => WordsOf(a) + WordsOf(b)
    case Sides(a, b) => WordsOf(a) + WordsOf(b)
    case MovedAdd(_, dc) => WordBytes(dc)
    case Flat(dc) => WordBytes(dc)
    case Pair(u, v) => WordBytes(u) + WordBytes(v)
    case _ => []
  }

  // How far a motion byte moves a block: by the table from version 2 on, before by two nibbles.
  function Displacement(c: Config, b: int): (int, int)
    requires c.Valid() && 0 <= b < 256
  {
    if c.version >= 2 then c.mv[b] else (b % 16 - 8, b / 16 - 8)
  }

  // Every displaced block lies inside the previous frame.
  predicate StaysInside(c: Config, t: Block, x: nat, y: nat, lw: nat, lh: nat)
    requires c.Valid() && Shaped(lw, lh, t)
    decreases t
  {
    match t
    case Halves(a, b) => StaysInside(c, a, x, y, lw, lh - 1) && StaysInside(c, b, x, y + Size(lh - 1), lw, lh - 1)
    case Sides(a, b) => StaysInside(c, a, x, y, lw - 1, lh) && StaysInside(c, b, x + Size(lw - 1), y, lw - 1, lh)
    case Moved(b) => BoxInside(c, x + Displacement(c, b).0, y + Displacement(c, b).1, lw, lh)
    case MovedAdd(b, _) => BoxInside(c, x + Displacement(c, b).0, y + Displacement(c, b).1, lw, lh)
    case _ => true
  }

  predicate BoxInside(c: Config, x: int, y: int, lw: nat, lh: nat) {
    0 <= x && x + Size(lw) <= c.width && 0 <= y && y + Size(lh) <= c.height
  }

  // The leaves of a block.
  function LeavesOf(c: Config, t: Block, x: nat, y: nat, lw: nat, lh: nat): seq<Leaf>
    requires c.Valid() && Shaped(lw, lh, t)
    decreases t
  {
    match t
    case Halves(a, b) => LeavesOf(c, a, x, y, lw, lh - 1) + LeavesOf(c, b, x, y + Size(lh - 1), lw, lh - 1)
    case Sides(a, b) => LeavesOf(c, a, x, y, lw - 1, lh) + LeavesOf(c, b, x + Size(lw - 1), y, lw - 1, lh)
    case Moved(b) => [Leaf(x, y, lw, lh, Copy(MovedPlace(c, b, x, y), 1, 0))]
    case MovedAdd(b, dc) => [Leaf(x, y, lw, lh, Copy(MovedPlace(c, b, x, y), 1, dc))]
    case Kept => [Leaf(x, y, lw, lh, if c.version >= 2 then Skip else Copy(y * c.width + x, 1, 0))]
    case Flat(dc) => [Leaf(x, y, lw, lh, Copy(y * c.width + x, 0, dc))]
    case Pair(u, v) => [Leaf(x, y, lw, lh, Raw(u, v))]
  }

  function MovedPlace(c: Config, b: int, x: nat, y: nat): int
    requires c.Valid() && 0 <= b < 256
  {
    (y + Displacement(c, b).1) * c.width + x + Displacement(c, b).0
  }

  function Advance(s: Streams, bits: nat, bytes: nat, words: nat): Streams {
    Streams(s.bits, s.bitPos + bits, s.bytes, s.bytePos + bytes, s.words, s.wordPos + words)
  }

  lemma Advanced(s: Streams, bits: nat, bytes: nat, words: nat)
    ensures var t := Advance(s, bits, bytes, words);
            && t.bits == s.bits && t.bytes == s.bytes && t.words == s.words
            && t.bitPos == s.bitPos + bits && t.bytePos == s.bytePos + bytes && t.wordPos == s.wordPos + words
    ensures s.Valid() && s.bytePos + bytes <= |s.bytes| && s.wordPos + words <= |s.words| ==>
              Advance(s, bits, bytes, words).Valid()
  {}

  lemma AdvancedTwice(s: Streams, n: nat, b: nat, w: nat, n': nat, b': nat, w': nat)
    ensures Advance(Advance(s, n, b, w), n', b', w') == Advance(s, n + n', b + b', w + w')
  {}

  // The streams hold these bits, bytes and words where they stand.
  predicate HoldsParts(s: Streams, bits: seq<bool>, bytes: seq<int>, words: seq<int>) {
    HasAt(s.bits, s.bitPos, bits) && HasAt(s.bytes, s.bytePos, bytes) && HasAt(s.words, s.wordPos, words)
  }

  lemma PartsFit(s: Streams, bits: seq<bool>, bytes: seq<int>, words: seq<int>)
    requires HoldsParts(s, bits, bytes, words)
    ensures s.bitPos + |bits| <= |s.bits| && s.bytePos + |bytes| <= |s.bytes| && s.wordPos + |words| <= |s.words|
    ensures s.Valid() ==> Advance(s, |bits|, |bytes|, |words|).Valid()
  {}

  // Parts in front of others are held, and the others behind them.
  lemma PartsFollow(s: Streams, bits: seq<bool>, bits': seq<bool>, bytes: seq<int>, bytes': seq<int>, words: seq<int>,
                    words': seq<int>)
    requires HoldsParts(s, bits + bits', bytes + bytes', words + words')
    ensures HoldsParts(s, bits, bytes, words)
    ensures HoldsParts(Advance(s, |bits|, |bytes|, |words|), bits', bytes', words')
  {
    HasParts(s.bits, s.bitPos, bits, bits');
    HasParts(s.bytes, s.bytePos, bytes, bytes');
    HasParts(s.words, s.wordPos, words, words');
    Advanced(s, |bits|, |bytes|, |words|);
    hide HasAt, Advance;
  }

  // The streams hold this block where they stand.
  predicate Holds(c: Config, s: Streams, t: Block, lw: nat, lh: nat)
    requires Shaped(lw, lh, t)
  {
    HoldsParts(s, BitsOf(c.version > 1, lw, lh, t), BytesOf(t), WordsOf(t))
  }

  function Behind(c: Config, s: Streams, t: Block, lw: nat, lh: nat): Streams
    requires Shaped(lw, lh, t)
  {
    Advance(s, |BitsOf(c.version > 1, lw, lh, t)|, |BytesOf(t)|, |WordsOf(t)|)
  }

  lemma WordIsRead(s: Streams, n: nat, w: int)
    requires s.Valid() && 0 <= w < 65536 && HasAt(s.words, s.wordPos + 2 * n, WordBytes(w))
    ensures s.wordPos + 2 * n + 2 <= |s.words| && s.Word(n) == w
  {
    var p := s.wordPos + 2 * n;
    assert s.words[p] == s.words[p..p + 2][0] && s.words[p + 1] == s.words[p..p + 2][1];
  }

  lemma MotionIsDisplacement(c: Config, b: int, x: nat, y: nat)
    requires c.Valid() && 0 <= b < 256
    ensures Offset(c, x, y) + c.Motion(b) == MovedPlace(c, b, x, y)
  {
    var d := Displacement(c, b);
    assert (y + d.1) * c.width == y * c.width + d.1 * c.width;
  }

  // A displaced block that lies inside the frame passes the bounds test.
  lemma InsidePasses(c: Config, x: int, y: int, lw: nat, lh: nat)
    requires BoxInside(c, x, y, lw, lh)
    ensures 0 <= y * c.width + x <= Limit(c, lw, lh)
  {
    OwnPlaceIsInside(c, x, y, lw, lh);
  }

  predicate IsLeaf(t: Block) { !t.Halves? && !t.Sides? }

  // Behind its type, a leaf block is read as the one it was.
  lemma LeafRoundTrip(c: Config, s: Streams, t: Block, x: nat, y: nat, lw: nat, lh: nat)
    requires c.Valid() && s.Valid() && Shaped(lw, lh, t) && IsLeaf(t)
    requires x + Size(lw) <= c.width && y + Size(lh) <= c.height && StaysInside(c, t, x, y, lw, lh)
    requires HasAt(s.bytes, s.bytePos, BytesOf(t)) && HasAt(s.words, s.wordPos, WordsOf(t))
    ensures var r := ParseLeaf(c, s, x, y, lw, lh, TypeOf(t));
            && r.ok && r.leaves == LeavesOf(c, t, x, y, lw, lh)
            && r.s == Advance(s, 0, |BytesOf(t)|, |WordsOf(t)|)
  {
    OwnPlaceIsInside(c, x, y, lw, lh);
    match t
    case Moved(b) => MovedRoundTrip(c, s, t, x, y, lw, lh);
    case MovedAdd(b, dc) => MovedRoundTrip(c, s, t, x, y, lw, lh);
    case Flat(dc) =>
      WordIsRead(s, 0, dc);
      hide Streams.Word, Limit;
    case Pair(u, v) =>
      HasParts(s.words, s.wordPos, WordBytes(u), WordBytes(v));
      WordIsRead(s, 0, u);
      WordIsRead(s, 1, v);
      hide Streams.Word, Limit;
    case Kept =>
  }

  lemma MovedRoundTrip(c: Config, s: Streams, t: Block, x: nat, y: nat, lw: nat, lh: nat)
    requires c.Valid() && s.Valid() && Shaped(lw, lh, t) && (t.Moved? || t.MovedAdd?)
    requires x + Size(lw) <= c.width && y + Size(lh) <= c.height && StaysInside(c, t, x, y, lw, lh)
    requires HasAt(s.bytes, s.bytePos, BytesOf(t)) && HasAt(s.words, s.wordPos, WordsOf(t))
    ensures var r := ParseLeaf(c, s, x, y, lw, lh, TypeOf(t));
            && r.ok && r.leaves == LeavesOf(c, t, x, y, lw, lh)
            && r.s == Advance(s, 0, |BytesOf(t)|, |WordsOf(t)|)
  {
    assert s.bytes[s.bytePos] == s.bytes[s.bytePos..s.bytePos + 1][0] == t.b;
    MotionIsDisplacement(c, t.b, x, y);
    InsidePasses(c, x + Displacement(c, t.b).0, y + Displacement(c, t.b).1, lw, lh);
    if t.MovedAdd? { WordIsRead(s, 0, t.dc); }
    hide Config.Motion, Displacement, MovedPlace, Limit, Offset, Streams.Word, Usable;
  }

  // The two parts of a divided block, their size and the place of the second.
  function First(t: Block): (a: Block)
    requires !IsLeaf(t)
    ensures a < t
  {
    if t.Halves? then t.top else t.left
  }

  function Second(t: Block): (b: Block)
    requires !IsLeaf(t)
    ensures b < t
  {
    if t.Halves? then t.bottom else t.right
  }

  lemma PartsOfBlock(c: Config, t: Block, x: nat, y: nat, lw: nat, lh: nat)
    requires c.Valid() && Shaped(lw, lh, t) && !IsLeaf(t) && StaysInside(c, t, x, y, lw, lh)
    requires x + Size(lw) <= c.width && y + Size(lh) <= c.height
    ensures (TypeOf(t) == 1 && lh >= 1) || (TypeOf(t) == 2 && lw >= 1)
    ensures var (lw', lh') := Halved(TypeOf(t), lw, lh);
            var (x', y') := SecondHalf(TypeOf(t), x, y, lw', lh');
            && LegalShape(lw', lh') && Shaped(lw', lh', First(t)) && Shaped(lw', lh', Second(t))
            && StaysInside(c, First(t), x, y, lw', lh') && StaysInside(c, Second(t), x', y', lw', lh')
            && x + Size(lw') <= c.width && y + Size(lh') <= c.height
            && x' + Size(lw') <= c.width && y' + Size(lh') <= c.height
            && LeavesOf(c, t, x, y, lw, lh)
               == LeavesOf(c, First(t), x, y, lw', lh') + LeavesOf(c, Second(t), x', y', lw', lh')
            && (forall modern :: BitsOf(modern, lw, lh, t) == TypeBits(modern, lw, lh, TypeOf(t)) +
                  (BitsOf(modern, lw', lh', First(t)) + BitsOf(modern, lw', lh', Second(t))))
            && BytesOf(t) == BytesOf(First(t)) + BytesOf(Second(t))
            && WordsOf(t) == WordsOf(First(t)) + WordsOf(Second(t))
  {
    hide TypeBits, Displacement, BoxInside;
  }

  // How the decoder goes on behind the type of a leaf,
  lemma TypeOfLeaf(c: Config, s: Streams, x: nat, y: nat, lw: nat, lh: nat, code: nat, len: nat)
    requires c.Valid() && s.Valid() && LegalShape(lw, lh) && x + Size(lw) <= c.width && y + Size(lh) <= c.height
    requires s.bitPos < |s.bits| && BlockType(c.version > 1, lw, lh, s.Window()) == (code, len)
    requires code < 7 && code != 1 && code != 2
    ensures var s1 := Advance(s, len, 0, 0);
            s1.Valid() && ParseBlock(c, s, x, y, lw, lh) == ParseLeaf(c, s1, x, y, lw, lh, code)
  {
    hide BlockType, ParseLeaf, Streams.Window;
    AdvanceBits(s, len);
    MoveKeepsValid(s, len);
  }

  // ... and behind the type of a divided block.
  lemma TypeOfParts(c: Config, s: Streams, x: nat, y: nat, lw: nat, lh: nat, code: nat, len: nat, lw': nat, lh': nat,
                    x': nat, y': nat, a: Parsed)
    requires c.Valid() && s.Valid() && LegalShape(lw, lh) && x + Size(lw) <= c.width && y + Size(lh) <= c.height
    requires s.bitPos < |s.bits| && BlockType(c.version > 1, lw, lh, s.Window()) == (code, len)
    requires (code == 1 && lh >= 1) || (code == 2 && lw >= 1)
    requires Halved(code, lw, lh) == (lw', lh') && SecondHalf(code, x, y, lw', lh') == (x', y')
    requires LegalShape(lw', lh') && x + Size(lw') <= c.width && y + Size(lh') <= c.height
    requires x' + Size(lw') <= c.width && y' + Size(lh') <= c.height
    requires s.(bitPos := s.bitPos + len).Valid()
    requires a == ParseBlock(c, s.(bitPos := s.bitPos + len), x, y, lw', lh') && a.ok && a.s.Valid()
    ensures ParseBlock(c, s, x, y, lw, lh) == Append(a.leaves, ParseBlock(c, a.s, x', y', lw', lh'))
  {
    hide BlockType, ParseLeaf, Streams.Window, Size, Append, Halved, SecondHalf, LegalShape;
    hide Streams.Valid, Config.Valid;
  }

  lemma AdvanceBits(s: Streams, len: nat)
    ensures Advance(s, len, 0, 0) == s.(bitPos := s.bitPos + len)
  {}

  lemma Appended(front: seq<Leaf>, r: Parsed)
    ensures var q := Append(front, r); q.ok == r.ok && q.leaves == front + r.leaves && q.s == r.s
  {}

  lemma LeafBits(modern: bool, lw: nat, lh: nat, t: Block)
    requires Shaped(lw, lh, t) && IsLeaf(t)
    ensures BitsOf(modern, lw, lh, t) == TypeBits(modern, lw, lh, TypeOf(t))
    ensures LegalShape(lw, lh) && Usable(lw, lh, TypeOf(t)) && TypeOf(t) != 1 && TypeOf(t) != 2
  {
    hide TypeBits, Usable;
  }

  lemma LeafBlockRoundTrip(c: Config, s: Streams, t: Block, x: nat, y: nat, lw: nat, lh: nat)
    requires c.Valid() && s.Valid() && Shaped(lw, lh, t) && Holds(c, s, t, lw, lh) && IsLeaf(t)
    requires x + Size(lw) <= c.width && y + Size(lh) <= c.height && StaysInside(c, t, x, y, lw, lh)
    ensures var r := ParseBlock(c, s, x, y, lw, lh);
            r.ok && r.leaves == LeavesOf(c, t, x, y, lw, lh) && r.s == Behind(c, s, t, lw, lh)
  {
    var bits, bytes, words := TypeBits(c.version > 1, lw, lh, TypeOf(t)), BytesOf(t), WordsOf(t);
    var s1 := Advance(s, |bits|, 0, 0);
    hide *;
    LeafBits(c.version > 1, lw, lh, t);
    HeldMeans(c, s, t, lw, lh);
    AsFront(bits, bytes, words);
    PartsFollow(s, bits, [], [], bytes, [], words);
    PartsMean(s, bits, [], []);
    PartsMean(s1, [], bytes, words);
    TypeIsRead(c.version > 1, lw, lh, TypeOf(t), s);
    PartsFit(s, bits, [], []);
    LeafRoundTrip(c, s1, t, x, y, lw, lh);
    TypeOfLeaf(c, s, x, y, lw, lh, TypeOf(t), |bits|);
    AdvancedTwice(s, |bits|, 0, 0, 0, |bytes|, |words|);
  }

  lemma AsFront(bits: seq<bool>, bytes: seq<int>, words: seq<int>)
    ensures bits + [] == bits && [] + bytes == bytes && [] + words == words
  {}

  lemma PartsMean(s: Streams, bits: seq<bool>, bytes: seq<int>, words: seq<int>)
    requires HoldsParts(s, bits, bytes, words)
    ensures HasAt(s.bits, s.bitPos, bits) && HasAt(s.bytes, s.bytePos, bytes) && HasAt(s.words, s.wordPos, words)
  {}

  lemma HeldMeans(c: Config, s: Streams, t: Block, lw: nat, lh: nat)
    requires Shaped(lw, lh, t)
    ensures Holds(c, s, t, lw, lh) <==> HoldsParts(s, BitsOf(c.version > 1, lw, lh, t), BytesOf(t), WordsOf(t))
    ensures Behind(c, s, t, lw, lh)
         == Advance(s, |BitsOf(c.version > 1, lw, lh, t)|, |BytesOf(t)|, |WordsOf(t)|)
  {}

  // The type of a divided block, its first part and its second part, one behind the other.
  lemma ThreeParts(s: Streams, bits: seq<bool>, a: seq<bool>, b: seq<bool>, az: seq<int>, bz: seq<int>, aw: seq<int>,
                   bw: seq<int>)
    requires s.Valid() && HoldsParts(s, bits + (a + b), az + bz, aw + bw)
    ensures var s1 := Advance(s, |bits|, 0, 0);
            var s2 := Advance(s1, |a|, |az|, |aw|);
            && HasAt(s.bits, s.bitPos, bits) && s.bitPos + |bits| <= |s.bits|
            && HoldsParts(s1, a, az, aw) && s1.Valid() && HoldsParts(s2, b, bz, bw) && s2.Valid()
            && Advance(s2, |b|, |bz|, |bw|) == Advance(s, |bits + (a + b)|, |az + bz|, |aw + bw|)
  {
    var s1 := Advance(s, |bits|, 0, 0);
    hide *;
    AsFront(bits, az + bz, aw + bw);
    PartsFollow(s, bits, a + b, [], az + bz, [], aw + bw);
    PartsMean(s, bits, [], []);
    PartsFit(s, bits, [], []);
    PartsFollow(s1, a, b, az, bz, aw, bw);
    PartsFit(s1, a, az, aw);
    AdvancedTwice(s1, |a|, |az|, |aw|, |b|, |bz|, |bw|);
    AdvancedTwice(s, |bits|, 0, 0, |a| + |b|, |az| + |bz|, |aw| + |bw|);
  }

  // Decoding undoes encoding: the leaves of the block, and all streams right behind it.
  lemma {:induction false} BlockRoundTrip(c: Config, s: Streams, t: Block, x: nat, y: nat, lw: nat, lh: nat)
    requires c.Valid() && s.Valid() && Shaped(lw, lh, t) && Holds(c, s, t, lw, lh)
    requires x + Size(lw) <= c.width && y + Size(lh) <= c.height && StaysInside(c, t, x, y, lw, lh)
    ensures var r := ParseBlock(c, s, x, y, lw, lh);
            r.ok && r.leaves == LeavesOf(c, t, x, y, lw, lh) && r.s == Behind(c, s, t, lw, lh)
    decreases t
  {
    hide *;
    if IsLeaf(t) {
      LeafBlockRoundTrip(c, s, t, x, y, lw, lh);
    } else {
      var modern, a, b := c.version > 1, First(t), Second(t);
      var bits := TypeBits(modern, lw, lh, TypeOf(t));
      PartsOfBlock(c, t, x, y, lw, lh);
      var (lw', lh') := Halved(TypeOf(t), lw, lh);
      var (x', y') := SecondHalf(TypeOf(t), x, y, lw', lh');
      HeldMeans(c, s, t, lw, lh);
      ThreeParts(s, bits, BitsOf(modern, lw', lh', a), BitsOf(modern, lw', lh', b), BytesOf(a), BytesOf(b),
                 WordsOf(a), WordsOf(b));
      ShapedMeans(lw, lh, t);
      TypeIsRead(modern, lw, lh, TypeOf(t), s);
      AdvanceBits(s, |bits|);
      var s1 := Advance(s, |bits|, 0, 0);
      HeldMeans(c, s1, a, lw', lh');
      BlockRoundTrip(c, s1, a, x, y, lw', lh');
      TypeOfParts(c, s, x, y, lw, lh, TypeOf(t), |bits|, lw', lh', x', y', ParseBlock(c, s1, x, y, lw', lh'));
      var s2 := Behind(c, s1, a, lw', lh');
      HeldMeans(c, s2, b, lw', lh');
      BlockRoundTrip(c, s2, b, x', y', lw', lh');
      Appended(LeavesOf(c, a, x, y, lw', lh'), ParseBlock(c, s2, x', y', lw', lh'));
    }
  }

  lemma ShapedMeans(lw: nat, lh: nat, t: Block)
    requires Shaped(lw, lh, t)
    ensures LegalShape(lw, lh) && Usable(lw, lh, TypeOf(t))
  {}
}
