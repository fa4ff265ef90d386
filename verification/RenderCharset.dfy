/** The character renderer of FFmpeg/libavcodec/a64multienc.c. A character is 8 rows of 4 double
    pixels, rendered twice (for the two interlaced fields) as 2-bit codes for palette indices. With
    five colours two indices share a code and one bit per character must tell them apart, so a
    character that needs both is adjusted and rendered again. */
module RenderCharset {

  type Luma = x: int | 0 <= x < 256

  // FFmpeg/libavcodec/a64tables.h, interlaced_dither_patterns: a row for each line and field.
  const Patterns: seq<seq<string>> := [
    ["0000", "0000", "0000", "0000", "0000", "0000", "0000", "0000"],
    ["1010", "0000", "0000", "0000", "1010", "0000", "0000", "0000"],
    ["1010", "0000", "0000", "0101", "1010", "0000", "0000", "0101"],
    ["1010", "0101", "0101", "0000", "1010", "0101", "0101", "0000"],
    ["1010", "0101", "0101", "1010", "1010", "0101", "0101", "1010"],
    ["1010", "0101", "1111", "1010", "1010", "0101", "1111", "1010"],
    ["1010", "1111", "1111", "0101", "1010", "1111", "1111", "0101"],
    ["1111", "1111", "1111", "0101", "1111", "1111", "1111", "0101"],
    ["1111", "1111", "1111", "1111", "1111", "1111", "1111", "1111"]]

  // Luma values of the palette: from 0 upwards, four colours or five.
  type Palette = l: seq<Luma> |
    4 <= |l| <= 5 && l[0] == 0 && forall i, j | 0 <= i < j < |l| :: l[i] < l[j] witness [0, 1, 2, 3]

  // ------------------------------------------------------------------ look-up tables

  function Level(l: Palette, a: Luma, i: nat): (r: nat)
    requires i < |l|
    ensures r <= i && l[r] <= a && (r < i ==> a < l[r + 1])
  {
    if l[i] <= a then i else Level(l, a, i - 1)
  }

  // The brightest palette entry that is not brighter than a, and the next brighter one.
  function Index1(l: Palette, a: Luma): (r: nat)
    ensures r < |l| && l[r] <= a && (r < |l| - 1 ==> a < l[r + 1])
  {
    Level(l, a, |l| - 1)
  }

  function Index2(l: Palette, a: Luma): (r: nat)
    ensures r < |l|
  {
    if Index1(l, a) == |l| - 1 then |l| - 1 else Index1(l, a) + 1
  }

  // How far b of distance is on a scale of eight steps.
  function Portion(b: nat, distance: nat): (r: nat)
    requires 0 < distance && b <= distance
    ensures r <= 7 && (b == 0 ==> r == 0)
  {
    assert b * 7 <= distance * 7;
    b * 7 / distance
  }

  function Dither(l: Palette, a: Luma): (r: nat)
    ensures r < 8 && (a == l[Index1(l, a)] ==> r == 0)
  {
    var i := Index1(l, a);
    if i == |l| - 1 then 0 else Portion(a - l[i], l[i + 1] - l[i])
  }

  // ------------------------------------------------------------------ one character

  type Char = px: seq<Luma> | |px| == 32 witness seq(32, i => 0)

  predicate Lit(d: nat, line: nat, x: nat)
    requires d < 9 && line < 8 && x < 4
  {
    Patterns[d][line][x] == '1'
  }

  // The palette entry shown for a pixel in one of the two fields.
  function Shade(l: Palette, pix: Luma, y: nat, x: nat, field: nat): (r: nat)
    requires field < 2 && x < 4
    ensures r < |l|
  {
    if Lit(Dither(l, pix), y % 4 * 2 + field, x) then Index2(l, pix) else Index1(l, pix)
  }

  function Code(index: nat): (c: nat)
    ensures c < 4
  {
    3 - index % 4
  }

  function CodeAt(l: Palette, px: Char, y: nat, field: nat, x: nat): (c: nat)
    requires y < 8 && field < 2 && x < 4
    ensures c < 4
  {
    Code(Shade(l, px[y * 4 + x], y, x, field))
  }

  // The first x codes of a row, the first in the highest bits.
  function RowByte(l: Palette, px: Char, y: nat, field: nat, x: nat): (r: nat)
    requires y < 8 && field < 2 && x <= 4
    ensures x == 0 ==> r == 0
    ensures x == 1 ==> r < 4
    ensures x == 2 ==> r < 16
    ensures x == 3 ==> r < 64
    ensures r < 256
  {
    if x == 0 then 0 else RowByte(l, px, y, field, x - 1) * 4 + CodeAt(l, px, y, field, x - 1)
  }

  function HighPart(l: Palette, pix: Luma): int
  {
    if Index1(l, pix) >= 3 then pix - l[3] else 0
  }

  function LowPart(l: Palette, pix: Luma): int
  {
    if Index1(l, pix) < 1 then l[1] - pix else 0
  }

  // How far the first k pixels exceed the fourth colour, and fall short of the second.
  function High(l: Palette, px: Char, k: nat): int
    requires k <= 32
  {
    if k == 0 then 0 else High(l, px, k - 1) + HighPart(l, px[k - 1])
  }

  function Low(l: Palette, px: Char, k: nat): int
    requires k <= 32
  {
    if k == 0 then 0 else Low(l, px, k - 1) + LowPart(l, px[k - 1])
  }

  function Min(a: Luma, b: Luma): Luma { if a < b then a else b }
  function Max(a: Luma, b: Luma): Luma { if a > b then a else b }

  predicate NeedsAdjustment(l: Palette, px: Char)
  {
    |l| == 5 && High(l, px, 32) > 0 && Low(l, px, 32) > 0
  }

  // The character as it is finally rendered.
  function Adjusted(l: Palette, px: Char): Char
  {
    if !NeedsAdjustment(l, px) then px
    else if Low(l, px, 32) > High(l, px, 32) then seq(32, i requires 0 <= i < 32 => Min(l[3], px[i]))
    else seq(32, i requires 0 <= i < 32 => Max(l[1], px[i]))
  }

  lemma {:induction false} HighIsExact(l: Palette, px: Char, k: nat)
    requires k <= 32
    ensures High(l, px, k) >= 0
    ensures High(l, px, k) == 0 <==> forall j: nat | j < k :: px[j] <= l[3]
  {
    if k > 0 { HighIsExact(l, px, k - 1); }
  }

  lemma {:induction false} LowIsExact(l: Palette, px: Char, k: nat)
    requires k <= 32
    ensures Low(l, px, k) >= 0
    ensures Low(l, px, k) == 0 <==> forall j: nat | j < k :: l[1] <= px[j]
  {
    if k > 0 { LowIsExact(l, px, k - 1); }
  }

  // Clamping takes away all of one error, so a character is rendered at most twice.
  lemma AdjustedIsSettled(l: Palette, px: Char)
    ensures !NeedsAdjustment(l, Adjusted(l, px))
  {
    HighIsExact(l, Adjusted(l, px), 32);
    LowIsExact(l, Adjusted(l, px), 32);
  }

  // The code of one pixel in a row byte.
  function Bits(row: nat, x: nat): nat
    requires x < 4
  {
    if x == 0 then row / 64 % 4 else if x == 1 then row / 16 % 4 else if x == 2 then row / 4 % 4 else row % 4
  }

  // What the C64 shows for a code of a row byte, given the colour RAM bit of the character.
  function Displayed(five: bool, bit: bool, row: nat, x: nat): int
    requires x < 4
  {
    var code := Bits(row, x);
    if five && bit && code == 3 then 4 else 3 - code
  }

  // A pixel of a settled character keeps its palette entry through code and colour RAM bit.
  lemma Decodable(l: Palette, px: Char, y: nat, x: nat, field: nat)
    requires !NeedsAdjustment(l, px) && y < 8 && x < 4 && field < 2
    ensures Displayed(|l| == 5, High(l, px, 32) > 0, RowByte(l, px, y, field, 4), x)
         == Shade(l, px[y * 4 + x], y, x, field)
  {
    RowShowsCode(l, px, y, field, x);
    if |l| == 5 { FifthColourHasItsBit(l, px, y, x, field); }
    hide Shade, RowByte, High, Low, NeedsAdjustment, Displayed;
    BitTellsCodesApart(|l| == 5, High(l, px, 32) > 0, RowByte(l, px, y, field, 4), x,
                       Shade(l, px[y * 4 + x], y, x, field));
  }

  lemma BitTellsCodesApart(five: bool, bit: bool, row: nat, x: nat, s: nat)
    requires x < 4 && Bits(row, x) == Code(s) && s < (if five then 5 else 4)
    requires five ==> if bit then s != 0 else s != 4
    ensures Displayed(five, bit, row, x) == s
  {
    hide Bits;
  }

  lemma RowShowsCode(l: Palette, px: Char, y: nat, field: nat, x: nat)
    requires y < 8 && x < 4 && field < 2
    ensures Bits(RowByte(l, px, y, field, 4), x) == CodeAt(l, px, y, field, x)
  {
    hide CodeAt;
    var a, b := CodeAt(l, px, y, field, 0), CodeAt(l, px, y, field, 1);
    var c, d := CodeAt(l, px, y, field, 2), CodeAt(l, px, y, field, 3);
    assert RowByte(l, px, y, field, 1) == a;
    assert RowByte(l, px, y, field, 2) == a * 4 + b;
    assert RowByte(l, px, y, field, 3) == (a * 4 + b) * 4 + c;
    hide RowByte;
    FourDigits(a, b, c, d);
  }

  lemma FourDigits(a: nat, b: nat, c: nat, d: nat)
    requires a < 4 && b < 4 && c < 4 && d < 4
    ensures var r := ((a * 4 + b) * 4 + c) * 4 + d; r / 64 % 4 == a && r / 16 % 4 == b && r / 4 % 4 == c && r % 4 == d
  {
    var r := ((a * 4 + b) * 4 + c) * 4 + d;
    assert r / 4 == (a * 4 + b) * 4 + c && r / 16 == a * 4 + b && r / 64 == a;
  }

  // The fifth colour occurs only in characters whose bit is set, and the first in no such character.
  lemma FifthColourHasItsBit(l: Palette, px: Char, y: nat, x: nat, field: nat)
    requires |l| == 5 && !NeedsAdjustment(l, px) && y < 8 && x < 4 && field < 2
    ensures var s := Shade(l, px[y * 4 + x], y, x, field);
            if High(l, px, 32) > 0 then s != 0 else s != 4
  {
    HighIsExact(l, px, 32);
    LowIsExact(l, px, 32);
    var pix := px[y * 4 + x];
  }

  // Both fields show a colour next to the pixel's own luma, and that luma exactly if it is in the palette.
  lemma ShadeIsNear(l: Palette, pix: Luma, y: nat, x: nat, field: nat)
    requires x < 4 && field < 2
    ensures var s := Shade(l, pix, y, x, field);
            && (s > 0 ==> l[s - 1] <= pix) && (s < |l| - 1 ==> pix < l[s + 1])
            && (pix in l ==> l[s] == pix)
  {
    if pix in l {
      var i: nat :| i < |l| && l[i] == pix;
    }
  }

  // ------------------------------------------------------------------ the renderer

  ghost predicate IndexedUpTo(l: Palette, n: nat, index1: seq<nat>, index2: seq<nat>)
    requires n <= 256 && |index1| == |index2| == 256
  {
    forall a: Luma | a < n :: index1[a] == Index1(l, a) && index2[a] == Index2(l, a)
  }

  ghost predicate DitheredUpTo(l: Palette, n: nat, dither: seq<nat>)
    requires n <= 256 && |dither| == 256
  {
    forall a: Luma | a < n :: dither[a] == Dither(l, a)
  }

  lemma NothingIndexed(l: Palette)
    ensures forall index1, index2 | |index1| == |index2| == 256 :: IndexedUpTo(l, 0, index1, index2)
  {}

  lemma EntryAdded(l: Palette, a: Luma, index1: seq<nat>, index2: seq<nat>)
    requires |index1| == |index2| == 256 && IndexedUpTo(l, a, index1, index2)
    ensures IndexedUpTo(l, a + 1, index1[a := Index1(l, a)], index2[a := Index2(l, a)])
  {}

  class Tables {
    const dither: array<nat>
    const index1: array<nat>
    const index2: array<nat>

    ghost predicate Valid(l: Palette)
      reads dither, index1, index2
    {
      && dither.Length == index1.Length == index2.Length == 256
      && IndexedUpTo(l, 256, index1[..], index2[..]) && DitheredUpTo(l, 256, dither[..])
    }

    // The palette entries and the dither step of every luma value, by one walk over the values.
    constructor (l: Palette)
      ensures Valid(l) && fresh(dither) && fresh(index1) && fresh(index2)
    {
      hide Level, Index1, Index2, Dither, IndexedUpTo;
      NothingIndexed(l);
      var d, i1, i2 := new nat[256], new nat[256], new nat[256];
      var n := |l|;
      var i := 0;
      for a := 0 to 256
        invariant i < n && (if a == 0 then i == 0 else i == Index1(l, a - 1))
        invariant IndexedUpTo(l, a, i1[..], i2[..]) && DitheredUpTo(l, DitherEnd(l, a, i), d[..])
      {
        if i < n - 1 && a == l[i + 1] {
          FillDither(l, i, d);
          i := i + 1;
        }
        NextLevel(l, a, i);
        if i >= n - 1 { d[a] := 0; }
        EntryAdded(l, a, i1[..], i2[..]);
        i1[a] := i;
        i2[a] := if i + 1 < n - 1 then i + 1 else n - 1;
      }
      dither, index1, index2 := d, i1, i2;
    }
  }

  // The dither steps are known up to the last level passed, and everywhere behind the brightest.
  function DitherEnd(l: Palette, a: nat, i: nat): nat
    requires i < |l|
  {
    if i < |l| - 1 then l[i] else a
  }

  lemma NextLevel(l: Palette, a: Luma, i: nat)
    requires i < |l|
    requires if a == 0 then i == 0 else l[i] == a || (i == Index1(l, a - 1) && (i < |l| - 1 ==> a != l[i + 1]))
    ensures Index1(l, a) == i && Index2(l, a) == (if i + 1 < |l| - 1 then i + 1 else |l| - 1)
    ensures i == |l| - 1 ==> Dither(l, a) == 0
  {
  }

  // The steps between two neighbouring levels.
  method FillDither(l: Palette, i: nat, d: array<nat>)
    requires i < |l| - 1 && d.Length == 256 && DitheredUpTo(l, l[i], d[..])
    modifies d
    ensures DitheredUpTo(l, l[i + 1], d[..])
  {
    var distance: int := l[i + 1] - l[i];
    for b := 0 to distance + 1
      invariant forall a: Luma | a < l[i] + b && a < l[i + 1] :: d[a] == Dither(l, a)
    {
      d[l[i] + b] := Portion(b, distance);
    }
  }

  class A64Context {
    const lumaVals: Palette
    const use5col: bool
    const bestCb: array<Luma>

    ghost predicate Valid() {
      (use5col <==> |lumaVals| == 5) && bestCb.Length == 256 * 32
    }

    ghost function CharAt(cb: nat): Char
      requires cb + 32 <= bestCb.Length
      reads bestCb
    {
      bestCb[..][cb..cb + 32]
    }

    // The codes of one pixel in the two fields.
    method RenderPixel(t: Tables, pix: Luma, y: nat, x: nat) returns (c1: nat, c2: nat)
      requires Valid() && t.Valid(lumaVals) && y < 8 && x < 4
      ensures c1 == Code(Shade(lumaVals, pix, y, x, 0)) && c2 == Code(Shade(lumaVals, pix, y, x, 1))
    {
      hide Dither, Index1, Index2, Lit;
      var i1, i2, d := t.index1[pix], t.index2[pix], t.dither[pix];
      c1 := if Lit(d, y % 4 * 2, x) then 3 - i2 % 4 else 3 - i1 % 4;
      c2 := if Lit(d, y % 4 * 2 + 1, x) then 3 - i2 % 4 else 3 - i1 % 4;
    }

    // What one pixel adds to the error sums.
    method AddErrors(t: Tables, pix: Luma, low0: int, high0: int) returns (low: int, high: int)
      requires Valid() && t.Valid(lumaVals)
      ensures low == low0 + LowPart(lumaVals, pix) && high == high0 + HighPart(lumaVals, pix)
    {
      hide Dither, Index1, Index2;
      low, high := low0, high0;
      if t.index1[pix] >= 3 { high := high + (pix - lumaVals[3]); }
      if t.index1[pix] < 1 { low := low + (lumaVals[1] - pix); }
    }

    // One row of a character in both fields, adding to the error sums.
    method RenderRow(t: Tables, cb: nat, y: nat, low0: int, high0: int)
        returns (row1: nat, row2: nat, low: int, high: int)
      requires Valid() && t.Valid(lumaVals) && cb + 32 <= bestCb.Length && y < 8
      requires low0 == Low(lumaVals, CharAt(cb), y * 4) && high0 == High(lumaVals, CharAt(cb), y * 4)
      ensures row1 == RowByte(lumaVals, CharAt(cb), y, 0, 4) && row2 == RowByte(lumaVals, CharAt(cb), y, 1, 4)
      ensures low == Low(lumaVals, CharAt(cb), y * 4 + 4) && high == High(lumaVals, CharAt(cb), y * 4 + 4)
    {
      hide Shade, Code, LowPart, HighPart, IndexedUpTo, DitheredUpTo;
      row1, row2, low, high := 0, 0, low0, high0;
      ghost var px := CharAt(cb);
      for x := 0 to 4
        invariant row1 == RowByte(lumaVals, px, y, 0, x) && row2 == RowByte(lumaVals, px, y, 1, x)
        invariant low == Low(lumaVals, px, y * 4 + x) && high == High(lumaVals, px, y * 4 + x)
      {
        var pix := bestCb[cb + y * 4 + x];
        assert pix == px[y * 4 + x];
        low, high := AddErrors(t, pix, low, high);
        var c1, c2 := RenderPixel(t, pix, y, x);
        row1, row2 := row1 * 4 + c1, row2 * 4 + c2;
      }
    }

    // A whole character: rows of the first field at cs, of the second 0x800 further on.
    method RenderChar(t: Tables, cb: nat, charset: array<nat>, cs: nat) returns (low: int, high: int)
      requires Valid() && t.Valid(lumaVals) && cb + 32 <= bestCb.Length
      requires cs + 8 <= 0x800 && charset.Length == 0x1000 && charset != t.dither && charset != t.index1
          && charset != t.index2
      modifies charset
      ensures low == Low(lumaVals, CharAt(cb), 32) && high == High(lumaVals, CharAt(cb), 32)
      ensures Rows(lumaVals, CharAt(cb), charset[..], cs, 8) && OthersKept(old(charset[..]), charset[..], cs)
    {
      hide Rows, OthersKept, RowByte, Low, High, Index1, Index2, Dither, IndexedUpTo, DitheredUpTo;
      low, high := 0, 0;
      NoRows(lumaVals, CharAt(cb), charset[..], cs);
      for y := 0 to 8
        invariant low == Low(lumaVals, CharAt(cb), y * 4) && high == High(lumaVals, CharAt(cb), y * 4)
        invariant Rows(lumaVals, CharAt(cb), charset[..], cs, y) && OthersKept(old(charset[..]), charset[..], cs)
      {
        ghost var was := charset[..];
        var row1, row2;
        row1, row2, low, high := RenderRow(t, cb, y, low, high);
        charset[cs + y] := row1;
        charset[cs + y + 0x800] := row2;
        RowsGrow(lumaVals, CharAt(cb), old(charset[..]), was, cs, y);
        assert charset[..] == was[cs + y := row1][cs + y + 0x800 := row2];
      }
    }

    method Darken(cb: nat)
      requires Valid() && cb + 32 <= bestCb.Length
      modifies bestCb
      ensures forall k | 0 <= k < bestCb.Length ::
                bestCb[k] == if cb <= k < cb + 32 then Min(lumaVals[3], old(bestCb[k])) else old(bestCb[k])
    {
      for x := 0 to 32
        invariant forall k | 0 <= k < bestCb.Length ::
                    bestCb[k] == if cb <= k < cb + x then Min(lumaVals[3], old(bestCb[k])) else old(bestCb[k])
      {
        bestCb[cb + x] := Min(lumaVals[3], bestCb[cb + x]);
      }
    }

    method Brighten(cb: nat)
      requires Valid() && cb + 32 <= bestCb.Length
      modifies bestCb
      ensures forall k | 0 <= k < bestCb.Length ::
                bestCb[k] == if cb <= k < cb + 32 then Max(lumaVals[1], old(bestCb[k])) else old(bestCb[k])
    {
      for x := 0 to 32
        invariant forall k | 0 <= k < bestCb.Length ::
                    bestCb[k] == if cb <= k < cb + x then Max(lumaVals[1], old(bestCb[k])) else old(bestCb[k])
      {
        bestCb[cb + x] := Max(lumaVals[1], bestCb[cb + x]);
      }
    }

    // Clamps a character that uses both ends of the palette, at the end that weighs less.
    method Adjust(cb: nat, low: int, high: int)
      requires Valid() && cb + 32 <= bestCb.Length && NeedsAdjustment(lumaVals, CharAt(cb))
      requires low == Low(lumaVals, CharAt(cb), 32) && high == High(lumaVals, CharAt(cb), 32)
      modifies bestCb
      ensures CharAt(cb) == Adjusted(lumaVals, old(CharAt(cb)))
      ensures forall k | 0 <= k < bestCb.Length && !(cb <= k < cb + 32) :: bestCb[k] == old(bestCb[k])
    {
      if low > high { Darken(cb); } else { Brighten(cb); }
    }

    // Renders all 256 characters. The loop steps back to redo an adjusted character; it ends, since
    // an adjusted character needs no second adjustment.
    method RenderCharset(charset: array<nat>, colram: array<nat>)
      requires Valid() && charset.Length == 0x1000 && colram.Length == 256 && charset != colram
      modifies bestCb, charset, colram
      ensures AllRendered(lumaVals, old(bestCb[..]), bestCb[..], charset[..], colram[..], 256)
    {
      hide AllRendered, AllUntouched, Rendered, Rows, OthersKept, Adjusted, NeedsAdjustment, High, Low;
      hide IndexedUpTo, DitheredUpTo, RowByte;
      ghost var before := bestCb[..];
      var t := new Tables(lumaVals);
      var cb, cs, charpos := 0, 0, 0;
      ghost var redone := false;
      NoneRendered(lumaVals, before, charset[..], colram[..]);
      while charpos < 256
        invariant 0 <= charpos <= 256 && cb == charpos * 32 && cs == charpos * 8
        invariant t.Valid(lumaVals) && fresh(t.dither) && fresh(t.index1) && fresh(t.index2)
        invariant AllRendered(lumaVals, before, bestCb[..], charset[..], colram[..], charpos)
        invariant AllUntouched(before, bestCb[..], if redone then charpos + 1 else charpos)
        invariant redone ==> charpos < 256 && CharOf(bestCb[..], charpos) == Adjusted(lumaVals, CharOf(before, charpos))
        decreases 256 - charpos, if redone then 0 else 1
      {
        ghost var codes, colours, chars := charset[..], colram[..], bestCb[..];
        var low, high := RenderChar(t, cb, charset, cs);
        AdjustmentIsNeeded(lumaVals, before, chars, charpos, redone);
        CharsetGrows(lumaVals, before, chars, codes, charset[..], colram[..], charpos);
        if high > 0 && low > 0 && use5col {
          Adjust(cb, low, high);
          AdjustedStaysApart(lumaVals, before, chars, bestCb[..], charset[..], colram[..], charpos);
          charpos := charpos - 1;
          redone := true;
        } else {
          cb := cb + 32;
          cs := cs + 8;
          colram[charpos] := if high > 0 then 1 else 0;
          ColramGrows(lumaVals, before, chars, charset[..], colours, charpos);
          redone := false;
        }
        charpos := charpos + 1;
      }
    }
  }

  lemma NoRows(l: Palette, px: Char, charset: seq<nat>, cs: nat)
    requires cs + 8 <= 0x800 && |charset| == 0x1000
    ensures Rows(l, px, charset, cs, 0) && OthersKept(charset, charset, cs)
    ensures Low(l, px, 0) == High(l, px, 0) == 0
  {}

  lemma RowsGrow(l: Palette, px: Char, first: seq<nat>, was: seq<nat>, cs: nat, y: nat)
    requires y < 8 && cs + 8 <= 0x800 && |first| == |was| == 0x1000
    requires Rows(l, px, was, cs, y) && OthersKept(first, was, cs)
    ensures var now := was[cs + y := RowByte(l, px, y, 0, 4)][cs + y + 0x800 := RowByte(l, px, y, 1, 4)];
            Rows(l, px, now, cs, y + 1) && OthersKept(first, now, cs)
  {
    hide RowByte;
  }

  lemma NoneRendered(l: Palette, before: seq<Luma>, charset: seq<nat>, colram: seq<nat>)
    requires |before| == 256 * 32 && |charset| == 0x1000 && |colram| == 256
    ensures AllRendered(l, before, before, charset, colram, 0) && AllUntouched(before, before, 0)
  {}

  // A character already adjusted is settled; any other is still the one of the codebook.
  lemma AdjustmentIsNeeded(l: Palette, before: seq<Luma>, cb: seq<Luma>, c: nat, redone: bool)
    requires c < 256 && |before| == |cb| == 256 * 32
    requires AllUntouched(before, cb, if redone then c + 1 else c)
    requires redone ==> CharOf(cb, c) == Adjusted(l, CharOf(before, c))
    ensures redone ==> !NeedsAdjustment(l, CharOf(cb, c))
    ensures !redone ==> CharOf(cb, c) == CharOf(before, c)
    ensures !NeedsAdjustment(l, CharOf(cb, c)) ==> CharOf(cb, c) == Adjusted(l, CharOf(before, c))
    ensures NeedsAdjustment(l, CharOf(cb, c)) ==
            (High(l, CharOf(cb, c), 32) > 0 && Low(l, CharOf(cb, c), 32) > 0 && |l| == 5)
    ensures AllUntouched(before, cb, c + 1)
  {
    AdjustedIsSettled(l, CharOf(before, c));
    hide High, Low;
  }

  // Rendering the next character leaves those before it alone.
  lemma CharsetGrows(l: Palette, before: seq<Luma>, cb: seq<Luma>, was: seq<nat>, now: seq<nat>, colram: seq<nat>,
                     c: nat)
    requires c < 256 && |before| == |cb| == 256 * 32 && |was| == |now| == 0x1000 && |colram| == 256
    requires AllRendered(l, before, cb, was, colram, c) && OthersKept(was, now, c * 8)
    ensures AllRendered(l, before, cb, now, colram, c)
  {
    hide RowByte, NeedsAdjustment, CharOf, Adjusted, High;
    forall k: nat | k < c
      ensures CharOf(cb, k) == Adjusted(l, CharOf(before, k)) && Rendered(l, CharOf(cb, k), now, colram, k)
    {
      assert Rendered(l, CharOf(cb, k), was, colram, k);
    }
  }

  lemma ColramGrows(l: Palette, before: seq<Luma>, cb: seq<Luma>, charset: seq<nat>, colram: seq<nat>, c: nat)
    requires c < 256 && |before| == |cb| == 256 * 32 && |charset| == 0x1000 && |colram| == 256
    requires AllRendered(l, before, cb, charset, colram, c) && CharOf(cb, c) == Adjusted(l, CharOf(before, c))
    requires !NeedsAdjustment(l, CharOf(cb, c)) && Rows(l, CharOf(cb, c), charset, c * 8, 8)
    ensures AllRendered(l, before, cb, charset, colram[c := if High(l, CharOf(cb, c), 32) > 0 then 1 else 0], c + 1)
  {
    hide Rows, NeedsAdjustment, CharOf, Adjusted, High;
    var now := colram[c := if High(l, CharOf(cb, c), 32) > 0 then 1 else 0];
    forall k: nat | k < c + 1
      ensures CharOf(cb, k) == Adjusted(l, CharOf(before, k)) && Rendered(l, CharOf(cb, k), charset, now, k)
    {
      if k < c { assert Rendered(l, CharOf(cb, k), charset, colram, k); }
    }
  }

  lemma AdjustedStaysApart(l: Palette, before: seq<Luma>, was: seq<Luma>, now: seq<Luma>, charset: seq<nat>,
                           colram: seq<nat>, c: nat)
    requires c < 256 && |before| == |was| == |now| == 256 * 32 && |charset| == 0x1000 && |colram| == 256
    requires AllRendered(l, before, was, charset, colram, c) && AllUntouched(before, was, c + 1)
    requires forall k | 0 <= k < 256 * 32 && !(c * 32 <= k < c * 32 + 32) :: now[k] == was[k]
    ensures AllRendered(l, before, now, charset, colram, c) && AllUntouched(before, now, c + 1)
  {
    hide Rendered, Adjusted;
    forall k: nat | k < c
      ensures CharOf(now, k) == Adjusted(l, CharOf(before, k)) && Rendered(l, CharOf(now, k), charset, colram, k)
    {
      assert CharOf(now, k) == CharOf(was, k);
    }
  }

  function CharOf(cb: seq<Luma>, c: nat): Char
    requires c < 256 && |cb| == 256 * 32
  {
    cb[c * 32..c * 32 + 32]
  }

  // The first n rows of a character at place cs of the character set, in both fields.
  ghost predicate Rows(l: Palette, px: Char, charset: seq<nat>, cs: nat, n: nat)
    requires n <= 8 && cs + 8 <= 0x800 && |charset| == 0x1000
  {
    forall y: nat | y < n :: charset[cs + y] == RowByte(l, px, y, 0, 4)
        && charset[cs + y + 0x800] == RowByte(l, px, y, 1, 4)
  }

  ghost predicate OthersKept(a: seq<nat>, b: seq<nat>, cs: nat)
    requires |a| == |b| == 0x1000
  {
    forall k: nat | k < 0x1000 && !(cs <= k < cs + 8) && !(cs + 0x800 <= k < cs + 0x808) :: b[k] == a[k]
  }

  ghost predicate Rendered(l: Palette, px: Char, charset: seq<nat>, colram: seq<nat>, c: nat)
    requires c < 256 && |charset| == 0x1000 && |colram| == 256
  {
    && !NeedsAdjustment(l, px) && Rows(l, px, charset, c * 8, 8)
    && colram[c] == if High(l, px, 32) > 0 then 1 else 0
  }

  ghost predicate AllRendered(l: Palette, before: seq<Luma>, cb: seq<Luma>, charset: seq<nat>, colram: seq<nat>,
                              n: nat)
    requires n <= 256 && |before| == |cb| == 256 * 32 && |charset| == 0x1000 && |colram| == 256
  {
    forall c: nat | c < n ::
      CharOf(cb, c) == Adjusted(l, CharOf(before, c)) && Rendered(l, CharOf(cb, c), charset, colram, c)
  }

  ghost predicate AllUntouched(before: seq<Luma>, cb: seq<Luma>, n: nat)
    requires |before| == |cb| == 256 * 32
  {
    forall k | n * 32 <= k < 256 * 32 :: cb[k] == before[k]
  }

  // ------------------------------------------------------------------ the result

  // From the character set and the colour RAM the C64 shows, in either field, exactly the palette
  // entry chosen for each pixel of the final codebook.
  lemma CharsetIsDecodable(l: Palette, before: seq<Luma>, cb: seq<Luma>, charset: seq<nat>, colram: seq<nat>,
                           c: nat, y: nat, x: nat, field: nat)
    requires |before| == |cb| == 256 * 32 && |charset| == 0x1000 && |colram| == 256
    requires AllRendered(l, before, cb, charset, colram, 256)
    requires c < 256 && y < 8 && x < 4 && field < 2
    ensures Displayed(|l| == 5, colram[c] == 1, charset[c * 8 + y + 0x800 * field], x)
         == Shade(l, CharOf(cb, c)[y * 4 + x], y, x, field)
  {
    var px := CharOf(cb, c);
    hide NeedsAdjustment, RowByte, Shade, Displayed, High, CharOf, Adjusted, Rendered;
    RenderedMeans(l, px, charset, colram, c, y, field);
    Decodable(l, px, y, x, field);
  }

  lemma RenderedMeans(l: Palette, px: Char, charset: seq<nat>, colram: seq<nat>, c: nat, y: nat, field: nat)
    requires |charset| == 0x1000 && |colram| == 256 && c < 256 && y < 8 && field < 2
    requires Rendered(l, px, charset, colram, c)
    ensures charset[c * 8 + y + 0x800 * field] == RowByte(l, px, y, field, 4)
    ensures !NeedsAdjustment(l, px) && (colram[c] == 1 <==> High(l, px, 32) > 0)
  {
    hide NeedsAdjustment, RowByte, High;
    assert field == 0 || field == 1;
  }

  // The adjustment moves only pixels beyond the fourth colour or short of the second, and these
  // only to that colour.
  lemma OnlyExtremesMove(l: Palette, px: Char, i: nat)
    requires i < 32 && Adjusted(l, px)[i] != px[i]
    ensures NeedsAdjustment(l, px)
    ensures (px[i] > l[3] && Adjusted(l, px)[i] == l[3]) || (px[i] < l[1] && Adjusted(l, px)[i] == l[1])
  {
    hide High, Low;
  }
}
