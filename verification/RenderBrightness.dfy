/** How faithful the character renderer of RenderCharset is: which error its adjustment removes, and
    how bright an area of one luma value comes out. */
module RenderBrightness {
  import opened RenderCharset

  // ------------------------------------------------------------------ the adjustment

  lemma {:induction false} CappedErrors(l: Palette, px: Char, capped: Char, k: nat)
    requires k <= 32 && forall i | 0 <= i < 32 :: capped[i] == if px[i] > l[3] then l[3] else px[i]
    ensures High(l, capped, k) == 0 && Low(l, capped, k) == Low(l, px, k)
  {
    if k > 0 { CappedErrors(l, px, capped, k - 1); }
  }

  lemma {:induction false} RaisedErrors(l: Palette, px: Char, raised: Char, k: nat)
    requires k <= 32 && forall i | 0 <= i < 32 :: raised[i] == if px[i] < l[1] then l[1] else px[i]
    ensures Low(l, raised, k) == 0 && High(l, raised, k) == High(l, px, k)
  {
    if k > 0 { RaisedErrors(l, px, raised, k - 1); }
  }

  // The smaller of the two errors is removed altogether, the one towards the dark if they are
  // equal, and the greater one is left as it was.
  lemma SmallerErrorIsRemoved(l: Palette, px: Char)
    requires NeedsAdjustment(l, px)
    ensures var high, low, a := High(l, px, 32), Low(l, px, 32), Adjusted(l, px);
            && (high < low ==> High(l, a, 32) == 0 && Low(l, a, 32) == low)
            && (low <= high ==> Low(l, a, 32) == 0 && High(l, a, 32) == high)
  {
    hide High, Low;
    if High(l, px, 32) < Low(l, px, 32) {
      CappedErrors(l, px, Adjusted(l, px), 32);
    } else {
      RaisedErrors(l, px, Adjusted(l, px), 32);
    }
  }

  // The luma of the first k pixels, in all.
  function Sum(px: Char, k: nat): int
    requires k <= 32
  {
    if k == 0 then 0 else Sum(px, k - 1) + px[k - 1]
  }

  lemma {:induction false} CappingChanges(l: Palette, px: Char, capped: Char, k: nat)
    requires k <= 32 && forall i | 0 <= i < 32 :: capped[i] == if px[i] > l[3] then l[3] else px[i]
    ensures Sum(px, k) - Sum(capped, k) == High(l, px, k)
  {
    if k > 0 { CappingChanges(l, px, capped, k - 1); }
  }

  lemma {:induction false} RaisingChanges(l: Palette, px: Char, raised: Char, k: nat)
    requires k <= 32 && forall i | 0 <= i < 32 :: raised[i] == if px[i] < l[1] then l[1] else px[i]
    ensures Sum(raised, k) - Sum(px, k) == Low(l, px, k)
  {
    if k > 0 { RaisingChanges(l, px, raised, k - 1); }
  }

  // The errors are what the adjustment costs: of darkening the bright pixels and brightening the
  // dark ones it does what changes the luma of the character less.
  lemma AdjustmentCostsLess(l: Palette, px: Char, capped: Char, raised: Char)
    requires NeedsAdjustment(l, px)
    requires forall i | 0 <= i < 32 :: capped[i] == if px[i] > l[3] then l[3] else px[i]
    requires forall i | 0 <= i < 32 :: raised[i] == if px[i] < l[1] then l[1] else px[i]
    ensures var darker, brighter := Sum(px, 32) - Sum(capped, 32), Sum(raised, 32) - Sum(px, 32);
            Adjusted(l, px) == if darker < brighter then capped else raised
  {
    CappingChanges(l, px, capped, 32);
    RaisingChanges(l, px, raised, 32);
    hide Sum, High, Low;
  }

  // ------------------------------------------------------------------ the dither patterns

  function Count(b: bool): nat { if b then 1 else 0 }

  // How many pixels of the first n lines of a pattern are lit.
  function LitIn(d: nat, n: nat): nat
    requires d < 9 && n <= 8
  {
    if n == 0 then 0
    else
      LitIn(d, n - 1) + Count(Lit(d, n - 1, 0)) + Count(Lit(d, n - 1, 1)) + Count(Lit(d, n - 1, 2))
      + Count(Lit(d, n - 1, 3))
  }

  function LitInLine(d: nat, line: nat): nat
    requires d < 9 && line < 8
  {
    Count(Lit(d, line, 0)) + Count(Lit(d, line, 1)) + Count(Lit(d, line, 2)) + Count(Lit(d, line, 3))
  }

  // The lit pixels of the four different lines of each pattern.
  function Level(d: nat, line: nat): nat
    requires d < 9 && line < 4
  {
    [[0, 0, 0, 0], [2, 0, 0, 0], [2, 0, 0, 2], [2, 2, 2, 0], [2, 2, 2, 2], [2, 2, 4, 2], [2, 4, 4, 2], [4, 4, 4, 2],
     [4, 4, 4, 4]][d][line]
  }

  lemma LineHasLevel(d: nat, line: nat)
    requires d < 9 && line < 8
    ensures LitInLine(d, line) == Level(d, line % 4)
  {
    if d < 3 { DarkLines(d, line); } else if d < 6 { MiddleLines(d, line); } else { BrightLines(d, line); }
  }

  lemma DarkLines(d: nat, line: nat)
    requires d < 3 && line < 8
    ensures LitInLine(d, line) == Level(d, line % 4)
  {}

  lemma MiddleLines(d: nat, line: nat)
    requires 3 <= d < 6 && line < 8
    ensures LitInLine(d, line) == Level(d, line % 4)
  {}

  lemma BrightLines(d: nat, line: nat)
    requires 6 <= d < 9 && line < 8
    ensures LitInLine(d, line) == Level(d, line % 4)
  {}

  lemma LevelsAddUp(d: nat)
    requires d < 9
    ensures Level(d, 0) + Level(d, 1) + Level(d, 2) + Level(d, 3) == 2 * d
  {}

  lemma OneLineMore(d: nat, n: nat)
    requires d < 9 && n < 8
    ensures LitIn(d, n + 1) == LitIn(d, n) + Level(d, n % 4) && LitIn(d, 0) == 0
  {
    LineHasLevel(d, n);
    hide Lit, Level;
  }

  // The patterns are levels of brightness: number d lights exactly 4 d of its 32 pixels.
  lemma PatternsAreLevels(d: nat)
    requires d < 9
    ensures LitIn(d, 8) == 4 * d
  {
    hide LitIn, Level;
    OneLineMore(d, 0);
    OneLineMore(d, 1);
    OneLineMore(d, 2);
    OneLineMore(d, 3);
    OneLineMore(d, 4);
    OneLineMore(d, 5);
    OneLineMore(d, 6);
    OneLineMore(d, 7);
    LevelsAddUp(d);
  }

  // ------------------------------------------------------------------ areas of one luma value

  // The luma that one line of an area shows: line 2 y + field.
  function ShownAt(l: Palette, a: Luma, line: nat, x: nat): nat
    requires line < 8 && x < 4
  {
    l[Shade(l, a, line / 2, x, line % 2)]
  }

  // The luma values that the first n lines show, in all.
  function Brightness(l: Palette, a: Luma, n: nat): nat
    requires n <= 8
  {
    if n == 0 then 0
    else
      Brightness(l, a, n - 1) + ShownAt(l, a, n - 1, 0) + ShownAt(l, a, n - 1, 1) + ShownAt(l, a, n - 1, 2)
      + ShownAt(l, a, n - 1, 3)
  }

  function Entry(l: Palette, i: nat): int
    requires i < |l|
  {
    l[i]
  }

  // The distance between the two entries that are mixed.
  function Step(l: Palette, a: Luma): int { Entry(l, Index2(l, a)) - Entry(l, Index1(l, a)) }

  lemma ShownIsLit(l: Palette, a: Luma, line: nat, x: nat)
    requires line < 8 && x < 4
    ensures ShownAt(l, a, line, x) == Entry(l, Index1(l, a)) + Step(l, a) * Count(Lit(Dither(l, a), line, x))
  {
    assert line / 2 % 4 * 2 + line % 2 == line;
    hide Lit, Dither, Index1, Index2;
  }

  lemma LineIsLit(l: Palette, a: Luma, n: nat)
    requires n < 8
    ensures Brightness(l, a, n + 1)
         == Brightness(l, a, n) + 4 * Entry(l, Index1(l, a)) + Step(l, a) * LitInLine(Dither(l, a), n)
  {
    var d := Dither(l, a);
    hide *;
    ShownIsLit(l, a, n, 0);
    ShownIsLit(l, a, n, 1);
    ShownIsLit(l, a, n, 2);
    ShownIsLit(l, a, n, 3);
    BrightnessMore(l, a, n);
    Gathered(Step(l, a), Count(Lit(d, n, 0)), Count(Lit(d, n, 1)), Count(Lit(d, n, 2)), Count(Lit(d, n, 3)));
    LineIsCounted(d, n);
  }

  lemma BrightnessMore(l: Palette, a: Luma, n: nat)
    requires n < 8
    ensures Brightness(l, a, n + 1)
         == Brightness(l, a, n) + ShownAt(l, a, n, 0) + ShownAt(l, a, n, 1) + ShownAt(l, a, n, 2) + ShownAt(l, a, n, 3)
    ensures Brightness(l, a, 0) == 0
  {
    hide ShownAt;
  }

  lemma LineIsCounted(d: nat, n: nat)
    requires d < 9 && n < 8
    ensures LitInLine(d, n) == Count(Lit(d, n, 0)) + Count(Lit(d, n, 1)) + Count(Lit(d, n, 2)) + Count(Lit(d, n, 3))
  {
    hide Lit, Count;
  }

  lemma Gathered(s: int, a: int, b: int, c: int, d: int)
    ensures s * (a + b + c + d) == s * a + s * b + s * c + s * d
  {}

  lemma LitLineMore(d: nat, n: nat)
    requires d < 9 && n < 8
    ensures LitIn(d, n + 1) == LitIn(d, n) + LitInLine(d, n) && LitIn(d, 0) == 0
  {
    hide Lit, Count;
  }

  lemma {:induction false} BrightnessIsLit(l: Palette, a: Luma, n: nat)
    requires n <= 8
    ensures Brightness(l, a, n) == n * (4 * Entry(l, Index1(l, a))) + Step(l, a) * LitIn(Dither(l, a), n)
  {
    var d := Dither(l, a);
    hide *;
    if n > 0 {
      BrightnessIsLit(l, a, n - 1);
      LineIsLit(l, a, n - 1);
      LitLineMore(d, n - 1);
      Added(n, 4 * Entry(l, Index1(l, a)), Step(l, a), LitIn(d, n - 1), LitInLine(d, n - 1));
    } else {
      BrightnessMore(l, a, 0);
      LitLineMore(d, 0);
    }
  }

  lemma Added(n: nat, low: int, step: int, lit: int, more: int)
    requires n > 0
    ensures n * low + step * (lit + more) == (n - 1) * low + step * lit + low + step * more
  {}

  // An area of one luma value comes out as bright as this value, darker by less than a quarter of
  // the distance between the palette entries around it, or as the brightest entry beyond that.
  lemma AreaIsBright(l: Palette, a: Luma)
    ensures var i, shown: int := Index1(l, a), Brightness(l, a, 8);
            if i == |l| - 1 then shown == 32 * Entry(l, i)
            else 32 * a - 8 * (Entry(l, i + 1) - Entry(l, i)) < shown <= 32 * a
  {
    var i, d := Index1(l, a), Dither(l, a);
    BrightnessIsLit(l, a, 8);
    PatternsAreLevels(d);
    DitherIsPortion(l, a);
    hide *;
    Mixed(Step(l, a), d, a - Entry(l, i));
  }

  lemma Mixed(step: int, d: nat, b: int)
    requires if step == 0 then d == 0 else d * step <= 7 * b < d * step + step && b < step
    requires step >= 0
    ensures step == 0 ==> step * (4 * d) == 0
    ensures step > 0 ==> 32 * b - 8 * step < step * (4 * d) <= 32 * b
  {
    assert step * (4 * d) == 4 * (d * step);
    assert step >= 0 ==> d * step >= 0;
  }

  // The dither step is the position between the two entries, on a scale of seven.
  lemma DitherIsPortion(l: Palette, a: Luma)
    ensures var i, d, step, b := Index1(l, a), Dither(l, a), Step(l, a), a - Entry(l, Index1(l, a));
            if i == |l| - 1 then step == 0 && d == 0
            else step == Entry(l, i + 1) - Entry(l, i) && step > 0 && 0 <= b < step
                 && d * step <= 7 * b < d * step + step
  {
    var i := Index1(l, a);
    if i < |l| - 1 {
      var b: nat, distance: nat := a - l[i], l[i + 1] - l[i];
      Quotient(b * 7, distance);
    }
    hide Index1;
  }

  lemma Quotient(n: nat, m: nat)
    requires m > 0
    ensures n / m * m <= n < n / m * m + m
  {}
}
