/** What the code tables of FourXmHuffman promise: short codes, a complete prefix code, and no
    other prefix code that is shorter in all. */
module FourXmCodeTables {
  import opened Wrappers
  import opened HuffmanTrees
  import opened FourXmHuffman

  // ------------------------------------------------------------------ what the tables promise

  lemma CodesAtMost22(f: map<nat, nat>, lens: seq<nat>, bits: seq<nat>, i: nat)
    requires HuffmanTables(f, lens, bits) && i < SYMBOLS
    ensures |lens| == SYMBOLS && lens[i] <= 22
  {
    var ms, up, flag :| TablesOf(f, ms, up, flag, lens, bits);
    WalkAtMost22(f, ms, up, flag, i);
  }

  // t is a tree over exactly the symbols of f, and the tables hold its codes.
  ghost predicate Spells(t: Tree, f: map<nat, nat>, lens: seq<nat>, bits: seq<nat>) {
    && Proper(t) && Ids(t) == f.Keys && |lens| == SYMBOLS == |bits|
    && (forall i: nat | i in f :: i < SYMBOLS && lens[i] == |Code(t, i)| && bits[i] == Bits(Code(t, i)))
    && (forall i: nat | i < SYMBOLS && i !in f :: lens[i] == 0)
  }

  ghost predicate Optimal(t: Tree, f: map<nat, nat>) {
    Ids(t) == f.Keys && forall u | Proper(u) && Ids(u) == f.Keys :: Cost(t, f) <= Cost(u, f)
  }

  // With at most 256 symbols in use the tables are the codes of one optimal tree.
  lemma TablesSpellOneTree(f: map<nat, nat>, lens: seq<nat>, bits: seq<nat>) returns (t: Tree)
    requires HuffmanTables(f, lens, bits) && 1 <= |f| <= 256
    ensures Spells(t, f, lens, bits) && Optimal(t, f)
  {
    var ms, up, flag :| TablesOf(f, ms, up, flag, lens, bits);
    var root := OneRootLeft(f, ms);
    t := TreeFrom(ms, root, 0);
    TreeCovers(f, ms, root, 0);
    forall i: nat | i in f ensures i < SYMBOLS && lens[i] == |Code(t, i)| && bits[i] == Bits(Code(t, i)) {
      WalkIsCode(f, ms, root, 0, up, flag, i);
    }
    forall i: nat | i < SYMBOLS && i !in f ensures lens[i] == 0 {
      UnusedHasNoParent(f, ms, up, flag, i);
    }
    forall u | Proper(u) && Ids(u) == f.Keys ensures Cost(t, f) <= Cost(u, f) {
      TreeIsOptimal(f, ms, root, 0, u);
    }
  }

  lemma {:induction false} UnusedStaysUnused(f: map<nat, nat>, ms: seq<(nat, nat)>, k: nat, i: nat)
    requires k <= |ms| && i < SYMBOLS && i !in f
    ensures i !in After(f, ms, k)
  {
    if k > 0 { UnusedStaysUnused(f, ms, k - 1, i); }
  }

  lemma UnusedHasNoParent(f: map<nat, nat>, ms: seq<(nat, nat)>, up: seq<int>, flag: seq<int>, i: nat)
    requires Initial(f) && Run(f, ms, |ms|) && Recorded(up, flag, ms) && i < SYMBOLS && i !in f
    ensures up[i] == -1
  {
    if up[i] != -1 {
      assert JoinedBy(ms, i, up[i]);
      UnusedStaysUnused(f, ms, up[i] - SYMBOLS, i);
      StepFacts(f, ms, up[i] - SYMBOLS);
    }
  }

  // ------------------------------------------------------------------ sums over live nodes

  // What one merge changes in a sum over the live nodes: two parts go, the joined node comes.
  lemma JoinSum(g: map<nat, nat>, m: (nat, nat), z: nat, h: nat -> int, h': nat -> int)
    requires Below(g, z) && FirstTwo(g, m.0, m.1) && z < NODES
    requires forall i | i in g && i != m.0 && i != m.1 :: h(i) == h'(i)
    ensures SumOn(NODES, g.Keys, h) - h(m.0) - h(m.1) == SumOn(NODES, Join(g, m, z).Keys, h') - h'(z)
  {
    var rest := g.Keys - {m.0, m.1};
    assert g.Keys == rest + {m.0} + {m.1} && Join(g, m, z).Keys == rest + {z};
    hide SumOn, FirstTwo;
    SumSplits(NODES, rest + {m.0}, {m.1}, h);
    SumSplits(NODES, rest, {m.0}, h);
    SumSplits(NODES, rest, {z}, h');
    SumSingle(NODES, m.0, h);
    SumSingle(NODES, m.1, h);
    SumSingle(NODES, z, h');
    SumCongruent(NODES, rest, h, h');
  }

  // Sums over symbols need not go beyond the symbols.
  lemma {:induction false} SumOfSymbols(n: nat, s: set<nat>, h: nat -> int)
    requires SYMBOLS <= n && forall i | i in s :: i < SYMBOLS
    ensures SumOn(n, s, h) == SumOn(SYMBOLS, s, h)
    decreases n
  {
    if n > SYMBOLS { SumOfSymbols(n - 1, s, h); }
  }

  // ------------------------------------------------------------------ Kraft sums

  // Share of a 2^22 code space that each coded symbol takes.
  function TableShare(lens: seq<nat>): nat -> int {
    (i: nat) => if i < |lens| && lens[i] <= 22 then Pow2(22 - lens[i]) else 0
  }

  // Share of the code space that each node takes by its walk.
  ghost function WalkShare(up: seq<int>, flag: seq<int>): nat -> int
    requires Linked(up) && |flag| == NODES
  {
    (i: nat) => if i < NODES && |Walk(up, flag, i)| <= 22 then Pow2(22 - |Walk(up, flag, i)|) else 0
  }

  lemma ShareAt(up: seq<int>, flag: seq<int>, i: nat)
    requires Linked(up) && |flag| == NODES && i < NODES && |Walk(up, flag, i)| <= 22
    ensures WalkShare(up, flag)(i) == Pow2(22 - |Walk(up, flag, i)|)
  {
    hide Walk, Pow2;
  }

  // The walks to both parts of a merge are one step longer than the walk to the joined node.
  lemma PartsAreOneDeeper(f: map<nat, nat>, ms: seq<(nat, nat)>, up: seq<int>, flag: seq<int>, k: nat)
    requires Initial(f) && Run(f, ms, |ms|) && Recorded(up, flag, ms) && k < |ms|
    ensures SYMBOLS + k < NODES && ms[k].0 < NODES && ms[k].1 < NODES
    ensures var n := |Walk(up, flag, SYMBOLS + k)|;
            n < 22 && |Walk(up, flag, ms[k].0)| == n + 1 == |Walk(up, flag, ms[k].1)|
  {
    assert RecordedAt(up, flag, ms, k);
    WalkAtMost22(f, ms, up, flag, ms[k].0);
    hide Run, Initial, After;
  }

  // A joined node takes what its two parts take.
  lemma ShareSplits(f: map<nat, nat>, ms: seq<(nat, nat)>, up: seq<int>, flag: seq<int>, k: nat)
    requires Initial(f) && Run(f, ms, |ms|) && Recorded(up, flag, ms) && k < |ms|
    ensures WalkShare(up, flag)(ms[k].0) + WalkShare(up, flag)(ms[k].1) == WalkShare(up, flag)(SYMBOLS + k)
  {
    hide *;
    RecordedIsLinked(up, flag, ms);
    PartsAreOneDeeper(f, ms, up, flag, k);
    ShareAt(up, flag, ms[k].0);
    ShareAt(up, flag, ms[k].1);
    ShareAt(up, flag, SYMBOLS + k);
    ShareHalves(|Walk(up, flag, SYMBOLS + k)|);
  }

  lemma RecordedIsLinked(up: seq<int>, flag: seq<int>, ms: seq<(nat, nat)>)
    requires Recorded(up, flag, ms)
    ensures Linked(up) && |flag| == NODES && |ms| <= NODES - SYMBOLS
  {}

  lemma ShareHalves(n: nat)
    requires n < 22
    ensures Pow2(22 - n) == 2 * Pow2(22 - (n + 1))
  {}

  // At every stage of the run the live nodes share out as many code spaces as trees are left over.
  lemma {:induction false} LiveShares(f: map<nat, nat>, ms: seq<(nat, nat)>, up: seq<int>, flag: seq<int>, k: nat)
    requires Initial(f) && Run(f, ms, |ms|) && Recorded(up, flag, ms) && k <= |ms|
    ensures SumOn(NODES, After(f, ms, k).Keys, WalkShare(up, flag)) == |After(f, ms, |ms|)| * Pow2(22)
    decreases |ms| - k
  {
    hide *;
    RecordedIsLinked(up, flag, ms);
    if k == |ms| {
      RootShares(f, ms, up, flag);
    } else {
      StepFacts(f, ms, k);
      ShareSplits(f, ms, up, flag, k);
      LiveShares(f, ms, up, flag, k + 1);
      JoinSum(After(f, ms, k), ms[k], SYMBOLS + k, WalkShare(up, flag), WalkShare(up, flag));
    }
  }

  lemma RootShares(f: map<nat, nat>, ms: seq<(nat, nat)>, up: seq<int>, flag: seq<int>)
    requires Initial(f) && Run(f, ms, |ms|) && Recorded(up, flag, ms)
    ensures SumOn(NODES, After(f, ms, |ms|).Keys, WalkShare(up, flag)) == |After(f, ms, |ms|)| * Pow2(22)
  {
    var g := After(f, ms, |ms|);
    LiveAreBelow(f, ms, |ms|);
    forall i | i in g.Keys ensures i < NODES && WalkShare(up, flag)(i) == Pow2(22) {
      LiveHasNoParent(f, ms, up, flag, i);
      hide After, Pow2, Run;
    }
    hide *;
    SumConstant(NODES, g.Keys, WalkShare(up, flag), Pow2(22));
    assert |g.Keys| == |g|;
  }

  // How many trees the merging loop leaves over.
  function TreesLeft(symbols: nat): nat { if symbols == 0 then 0 else if symbols <= 256 then 1 else 2 }

  lemma TreesLeftAfter(f: map<nat, nat>, ms: seq<(nat, nat)>)
    requires Initial(f) && Complete(f, ms)
    ensures |After(f, ms, |ms|)| == TreesLeft(|f|)
  {
    LiveCount(f, ms, |ms|);
    AtMostAllSymbols(f);
    if 1 <= |f| <= 256 {
      var root := OneRootLeft(f, ms);
      assert |After(f, ms, |ms|).Keys| == 1;
    } else if |f| > 256 {
      hide After, Run, Initial;
      TwoAreNotFinished(After(f, ms, |ms|));
    }
  }

  lemma TwoAreNotFinished(g: map<nat, nat>)
    requires |g| >= 2
    ensures !Finished(g)
  {
    var a :| a in g.Keys;
    assert |g.Keys - {a}| == |g| - 1;
    var b :| b in g.Keys - {a};
  }

  lemma AtMostAllSymbols(f: map<nat, nat>)
    requires Initial(f)
    ensures |f| <= SYMBOLS
  {
    CountUpTo(SYMBOLS);
    hide UpTo;
    assert UpTo(SYMBOLS) == f.Keys + (UpTo(SYMBOLS) - f.Keys);
    assert |f| == |f.Keys|;
  }

  // The codes of every frequency table take one code space for each tree left over: they use up
  // the code space exactly if at most 256 symbols are used, and twice if all 257 are.
  lemma KraftSumExactly(f: map<nat, nat>, lens: seq<nat>, bits: seq<nat>)
    requires HuffmanTables(f, lens, bits)
    ensures SumOn(SYMBOLS, f.Keys, TableShare(lens)) == TreesLeft(|f|) * Pow2(22)
    ensures SumOn(SYMBOLS, f.Keys, TableShare(lens)) == Pow2(22) <==> 1 <= |f| <= 256
  {
    var ms, up, flag :| TablesOf(f, ms, up, flag, lens, bits);
    hide *;
    SharesOfTables(f, ms, up, flag, lens, bits);
    LiveShares(f, ms, up, flag, 0);
    TreesLeftAfter(f, ms);
    SumOfSymbols(NODES, f.Keys, WalkShare(up, flag));
    SumCongruent(SYMBOLS, f.Keys, WalkShare(up, flag), TableShare(lens));
    Pow2IsPositive(22);
    OnlyOneTree(|f|, Pow2(22));
  }

  lemma SharesOfTables(f: map<nat, nat>, ms: seq<(nat, nat)>, up: seq<int>, flag: seq<int>,
                       lens: seq<nat>, bits: seq<nat>)
    requires TablesOf(f, ms, up, flag, lens, bits)
    ensures Initial(f) && Complete(f, ms) && Run(f, ms, |ms|) && Recorded(up, flag, ms) && After(f, ms, 0) == f
    ensures forall i: nat | i in f :: i < SYMBOLS && WalkShare(up, flag)(i) == TableShare(lens)(i)
  {
    hide Pow2, Walk, Run;
  }

  lemma OnlyOneTree(symbols: nat, space: nat)
    requires space > 0
    ensures TreesLeft(symbols) * space == space <==> 1 <= symbols <= 256
  {}

  // ------------------------------------------------------------------ prefix freedom

  // The numbers whose binary form continues a code of this value by `more` further bits.
  predicate Continues(x: int, code: int, more: nat) {
    code * Pow2(more) <= x < (code + 1) * Pow2(more)
  }

  // No code is the beginning of another.
  lemma TablesArePrefixFree(f: map<nat, nat>, lens: seq<nat>, bits: seq<nat>, i: nat, k: nat)
    requires HuffmanTables(f, lens, bits) && 1 <= |f| <= 256 && i in f && k in f && i != k
    requires |lens| == SYMBOLS == |bits| && i < SYMBOLS && k < SYMBOLS && lens[i] <= lens[k]
    ensures !Continues(bits[k], bits[i], lens[k] - lens[i])
  {
    hide Optimal, HuffmanTables, Continues;
    var t := TablesSpellOneTree(f, lens, bits);
    SpelledIsPrefixFree(t, f, lens, bits, i, k);
  }

  ghost predicate NoCodeContinues(f: map<nat, nat>, lens: seq<nat>, bits: seq<nat>) {
    |lens| == SYMBOLS == |bits| &&
    forall i: nat, k: nat | i in f && k in f && i != k && i < SYMBOLS && k < SYMBOLS && lens[i] <= lens[k] ::
      !Continues(bits[k], bits[i], lens[k] - lens[i])
  }

  // The array has room for 255 merges: exactly if all 257 symbols are used, two trees are left
  // over and their codes clash.
  lemma PrefixFreeExactly(f: map<nat, nat>, lens: seq<nat>, bits: seq<nat>)
    requires HuffmanTables(f, lens, bits)
    ensures NoCodeContinues(f, lens, bits) <==> |f| <= 256
  {
    var ms, up, flag :| TablesOf(f, ms, up, flag, lens, bits);
    if |f| > 256 {
      var i, k := TwoTreesLeft(f, ms, up, flag);
      hide Bits, Walk;
      assert bits[i] == 0 == bits[k] && i in f && k in f && i != k;
      ZeroContinuesZero();
    } else {
      hide HuffmanTables, Continues, TablesOf;
      forall i: nat, k: nat | i in f && k in f && i != k && i < SYMBOLS && k < SYMBOLS && lens[i] <= lens[k]
        ensures !Continues(bits[k], bits[i], lens[k] - lens[i])
      {
        assert f != map[];
        TablesArePrefixFree(f, lens, bits, i, k);
      }
    }
  }

  // One tree spells all codes exactly if some and at most 256 symbols are used.
  lemma SpellsExactly(f: map<nat, nat>, lens: seq<nat>, bits: seq<nat>)
    requires HuffmanTables(f, lens, bits)
    ensures (exists t :: Spells(t, f, lens, bits)) <==> 1 <= |f| <= 256
  {
    if 1 <= |f| <= 256 {
      var t := TablesSpellOneTree(f, lens, bits);
    }
    if t :| Spells(t, f, lens, bits) {
      hide HuffmanTables, Continues;
      forall i: nat, k: nat | i in f && k in f && i != k && i < SYMBOLS && k < SYMBOLS && lens[i] <= lens[k]
        ensures !Continues(bits[k], bits[i], lens[k] - lens[i])
      {
        SpelledIsPrefixFree(t, f, lens, bits, i, k);
      }
      PrefixFreeExactly(f, lens, bits);
      HasLeaf(t);
      assert |f| == |f.Keys|;
    }
  }

  lemma ZeroContinuesZero()
    ensures forall more: nat :: Continues(0, 0, more)
  {
    forall more: nat ensures Continues(0, 0, more) { Pow2IsPositive(more); }
  }

  lemma {:induction false} Pow2IsPositive(n: nat)
    ensures Pow2(n) > 0
  {
    if n > 0 { Pow2IsPositive(n - 1); }
  }

  ghost function Top(up: seq<int>, i: nat): nat
    requires Linked(up) && i < NODES
    decreases NODES - i
  {
    if up[i] == -1 then i else Top(up, up[i])
  }

  // Below every node that is reached by zeros only there is a symbol reached by zeros only.
  lemma {:induction false} ZeroLeaf(f: map<nat, nat>, ms: seq<(nat, nat)>, up: seq<int>, flag: seq<int>, n: nat)
      returns (leaf: nat)
    requires Initial(f) && Run(f, ms, |ms|) && Recorded(up, flag, ms) && n < SYMBOLS + |ms|
    requires (n < SYMBOLS ==> n in f) && Bits(Walk(up, flag, n)) == 0
    ensures leaf < SYMBOLS && leaf in f && Bits(Walk(up, flag, leaf)) == 0 && Top(up, leaf) == Top(up, n)
    decreases n
  {
    if n < SYMBOLS {
      leaf := n;
    } else {
      ZeroChild(f, ms, up, flag, n);
      hide *;
      leaf := ZeroLeaf(f, ms, up, flag, ms[n - SYMBOLS].0);
    }
  }

  lemma ZeroChild(f: map<nat, nat>, ms: seq<(nat, nat)>, up: seq<int>, flag: seq<int>, n: nat)
    requires Initial(f) && Run(f, ms, |ms|) && Recorded(up, flag, ms) && SYMBOLS <= n < SYMBOLS + |ms|
    requires Bits(Walk(up, flag, n)) == 0
    ensures var c := ms[n - SYMBOLS].0;
            && c < n && (c < SYMBOLS ==> c in f)
            && Bits(Walk(up, flag, c)) == 0 && Top(up, c) == Top(up, n)
  {
    var c, walk := ms[n - SYMBOLS].0, Walk(up, flag, n);
    StepFacts(f, ms, n - SYMBOLS);
    assert RecordedAt(up, flag, ms, n - SYMBOLS);
    if c < SYMBOLS && c !in f { UnusedStaysUnused(f, ms, n - SYMBOLS, c); }
    hide After, Run;
    assert Walk(up, flag, c) == walk + [false];
    assert (walk + [false])[..|walk|] == walk;
  }

  lemma TwoTreesLeft(f: map<nat, nat>, ms: seq<(nat, nat)>, up: seq<int>, flag: seq<int>) returns (i: nat, k: nat)
    requires Initial(f) && Complete(f, ms) && Recorded(up, flag, ms) && |f| > 256
    ensures i in f && k in f && i != k && i < SYMBOLS && k < SYMBOLS
    ensures Bits(Walk(up, flag, i)) == 0 == Bits(Walk(up, flag, k))
  {
    var g := After(f, ms, |ms|);
    LiveCount(f, ms, |ms|);
    LiveAreBelow(f, ms, |ms|);
    var a :| a in g.Keys;
    assert |g.Keys - {a}| == |g| - 1;
    var b :| b in g.Keys - {a};
    i := ZeroLeafOfRoot(f, ms, up, flag, a);
    k := ZeroLeafOfRoot(f, ms, up, flag, b);
  }

  lemma ZeroLeafOfRoot(f: map<nat, nat>, ms: seq<(nat, nat)>, up: seq<int>, flag: seq<int>, root: nat)
      returns (leaf: nat)
    requires Initial(f) && Run(f, ms, |ms|) && Recorded(up, flag, ms)
    requires root in After(f, ms, |ms|) && root < SYMBOLS + |ms|
    ensures leaf < SYMBOLS && leaf in f && Bits(Walk(up, flag, leaf)) == 0 && Top(up, leaf) == root
  {
    LiveHasNoParent(f, ms, up, flag, root);
    if root < SYMBOLS && root !in f { UnusedStaysUnused(f, ms, |ms|, root); }
    leaf := ZeroLeaf(f, ms, up, flag, root);
  }

  lemma SpelledIsPrefixFree(t: Tree, f: map<nat, nat>, lens: seq<nat>, bits: seq<nat>, i: nat, k: nat)
    requires Spells(t, f, lens, bits) && i in f && k in f && i != k
    requires i < SYMBOLS && k < SYMBOLS && lens[i] <= lens[k]
    ensures !Continues(bits[k], bits[i], lens[k] - lens[i])
  {
    hide Continues, Code, Bits, Proper;
    var short, long := Code(t, i), Code(t, k);
    CodesArePrefixFree(t, i, k);
    NoContinuation(short, long);
    assert bits[i] == Bits(short) && bits[k] == Bits(long);
    assert lens[i] == |short| && lens[k] == |long|;
  }

  lemma NoContinuation(short: seq<bool>, long: seq<bool>)
    requires |short| <= |long| && !(short <= long)
    ensures !Continues(Bits(long), Bits(short), |long| - |short|)
  {
    var cut := long[..|short|];
    CutBits(long, |short|);
    if Continues(Bits(long), Bits(short), |long| - |short|) {
      SameCell(Bits(long), Bits(cut), Bits(short), Pow2(|long| - |short|));
    }
  }

  lemma SameCell(x: int, u: int, v: int, p: nat)
    requires u * p <= x < (u + 1) * p && v * p <= x < (v + 1) * p
    ensures u == v
  {}

  lemma {:induction false} CutBits(code: seq<bool>, n: nat)
    requires n <= |code|
    ensures Continues(Bits(code), Bits(code[..n]), |code| - n)
  {
    if n == |code| {
      assert code[..n] == code;
    } else {
      var front := code[..|code| - 1];
      CutBits(front, n);
      assert front[..n] == code[..n];
      CutStep(Bits(front), Bits(front[..n]), Pow2(|front| - n), if code[|code| - 1] then 1 else 0);
    }
  }

  lemma CutStep(x: nat, c: nat, p: nat, d: nat)
    requires c * p <= x < (c + 1) * p && d <= 1
    ensures c * (2 * p) <= 2 * x + d < (c + 1) * (2 * p)
  {
    assert c * (2 * p) == 2 * (c * p) && (c + 1) * (2 * p) == 2 * ((c + 1) * p);
  }

  // ------------------------------------------------------------------ weighted length

  function TableCharge(f: map<nat, nat>, lens: seq<nat>): nat -> int {
    (i: nat) => if i in f && i < |lens| then f[i] * lens[i] else 0
  }

  function WordCharge(f: map<nat, nat>, c: map<nat, seq<bool>>): nat -> int {
    i => if i in f && i in c then f[i] * |c[i]| else 0
  }

  // The weight of each live node times the length of its walk.
  ghost function WalkCharge(g: map<nat, nat>, up: seq<int>, flag: seq<int>): nat -> int
    requires Linked(up) && |flag| == NODES
  {
    (i: nat) => if i in g && i < NODES then g[i] * |Walk(up, flag, i)| else 0
  }

  // A joined node is charged its own weight less than its two parts.
  lemma ChargeSplits(g: map<nat, nat>, m: (nat, nat), z: nat, up: seq<int>, flag: seq<int>, n: nat)
    requires Linked(up) && |flag| == NODES && FirstTwo(g, m.0, m.1)
    requires m.0 < NODES && m.1 < NODES && z < NODES && |Walk(up, flag, z)| == n
    requires |Walk(up, flag, m.0)| == n + 1 == |Walk(up, flag, m.1)|
    ensures WalkCharge(g, up, flag)(m.0) + WalkCharge(g, up, flag)(m.1)
         == WalkCharge(Join(g, m, z), up, flag)(z) + g[m.0] + g[m.1]
  {
    hide Walk;
    OneMore(g[m.0], g[m.1], n);
  }

  lemma OneMore(v: int, w: int, n: int)
    ensures v * (n + 1) + w * (n + 1) == (v + w) * n + v + w
  {}

  // At every stage of the run, what the walks to the live nodes are charged in all is no more than
  // the cost of any tree over these nodes, however many trees are left over at the end.
  lemma {:induction false} WalksAreMinimal(f: map<nat, nat>, ms: seq<(nat, nat)>, up: seq<int>, flag: seq<int>,
                                           k: nat, t: Tree)
    requires Initial(f) && Run(f, ms, |ms|) && Recorded(up, flag, ms) && k <= |ms|
    requires Proper(t) && Ids(t) == After(f, ms, k).Keys
    ensures SumOn(NODES, After(f, ms, k).Keys, WalkCharge(After(f, ms, k), up, flag)) <= Cost(t, After(f, ms, k))
    decreases |ms| - k
  {
    hide *;
    RecordedIsLinked(up, flag, ms);
    if k == |ms| {
      RootsAreFree(f, ms, up, flag);
    } else {
      var g, m, z := After(f, ms, k), ms[k], SYMBOLS + k;
      StepFacts(f, ms, k);
      FirstTwoAreLightest(g, m.0, m.1, z);
      var u := GreedyStep(t, g, m.0, m.1, z);
      WalksAreMinimal(f, ms, up, flag, k + 1, u);
      PartsAreOneDeeper(f, ms, up, flag, k);
      ChargeSplits(g, m, z, up, flag, |Walk(up, flag, z)|);
      RestIsCharged(g, m, z, up, flag);
      JoinSum(g, m, z, WalkCharge(g, up, flag), WalkCharge(Join(g, m, z), up, flag));
    }
  }

  lemma RestIsCharged(g: map<nat, nat>, m: (nat, nat), z: nat, up: seq<int>, flag: seq<int>)
    requires Linked(up) && |flag| == NODES && FirstTwo(g, m.0, m.1) && Below(g, z)
    ensures forall i | i in g && i != m.0 && i != m.1 ::
              WalkCharge(g, up, flag)(i) == WalkCharge(Join(g, m, z), up, flag)(i)
  {
    hide Walk;
  }

  lemma RootsAreFree(f: map<nat, nat>, ms: seq<(nat, nat)>, up: seq<int>, flag: seq<int>)
    requires Initial(f) && Run(f, ms, |ms|) && Recorded(up, flag, ms)
    ensures var g := After(f, ms, |ms|); SumOn(NODES, g.Keys, WalkCharge(g, up, flag)) == 0
  {
    var g := After(f, ms, |ms|);
    LiveAreBelow(f, ms, |ms|);
    forall i | i in g.Keys ensures i < NODES && WalkCharge(g, up, flag)(i) == 0 {
      LiveHasNoParent(f, ms, up, flag, i);
      hide After, Run;
    }
    hide *;
    SumConstant(NODES, g.Keys, WalkCharge(g, up, flag), 0);
  }

  // No prefix code for the same symbols has a smaller total weighted length, however many symbols
  // are used.
  lemma TablesAreMinimal(f: map<nat, nat>, lens: seq<nat>, bits: seq<nat>, c: map<nat, seq<bool>>)
    requires HuffmanTables(f, lens, bits)
    requires PrefixFree(c) && c.Keys == f.Keys
    ensures SumOn(SYMBOLS, f.Keys, TableCharge(f, lens)) <= SumOn(SYMBOLS, f.Keys, WordCharge(f, c))
  {
    var ms, up, flag :| TablesOf(f, ms, up, flag, lens, bits);
    hide *;
    ChargesOfTables(f, ms, up, flag, lens, bits);
    if f.Keys == {} {
      SumNone(SYMBOLS, f.Keys, TableCharge(f, lens));
      SumNone(SYMBOLS, f.Keys, WordCharge(f, c));
    } else {
      var u := CodeAsTree(c, LongestWord(c));
      WalksAreMinimal(f, ms, up, flag, 0, u);
      SumOfSymbols(NODES, f.Keys, WalkCharge(f, up, flag));
      SumCongruent(SYMBOLS, f.Keys, WalkCharge(f, up, flag), TableCharge(f, lens));
      WordLength(u, f, c);
    }
  }

  lemma ChargesOfTables(f: map<nat, nat>, ms: seq<(nat, nat)>, up: seq<int>, flag: seq<int>,
                        lens: seq<nat>, bits: seq<nat>)
    requires TablesOf(f, ms, up, flag, lens, bits)
    ensures Initial(f) && Run(f, ms, |ms|) && Recorded(up, flag, ms) && After(f, ms, 0) == f
    ensures forall i: nat | i in f :: i < SYMBOLS && WalkCharge(f, up, flag)(i) == TableCharge(f, lens)(i)
  {
    hide Walk, Run;
  }

  lemma WordLength(u: Tree, f: map<nat, nat>, c: map<nat, seq<bool>>)
    requires Proper(u) && Ids(u) == f.Keys == c.Keys && (forall i: nat | i in f :: i < SYMBOLS)
    requires forall i | i in c :: |Code(u, i)| <= |c[i]|
    ensures Cost(u, f) <= SumOn(SYMBOLS, f.Keys, WordCharge(f, c))
  {
    hide SumOn, Cost;
    CostIsWeightedLength(u, f, SYMBOLS);
    forall i | i in f.Keys && i < SYMBOLS ensures Charge(u, f)(i) <= WordCharge(f, c)(i) {
      Scale(f[i], |Code(u, i)|, |c[i]|);
    }
    SumMonotone(SYMBOLS, f.Keys, Charge(u, f), WordCharge(f, c));
  }

  lemma Scale(w: nat, x: nat, y: nat)
    requires x <= y
    ensures w * x <= w * y
  {}

  // ------------------------------------------------------------------ a packet that uses all symbols

  // One range of 256 equal frequencies; the end marker follows, and padding to four bytes.
  function FullRange(): seq<Range> { [Range(0, seq(256, i => 1))] }
  function FullPacket(): seq<int> { [] + EncodeRanges(FullRange()) + [0] }

  function UpTo(n: nat): set<nat> { if n == 0 then {} else UpTo(n - 1) + {n - 1} }

  lemma {:induction false} CountUpTo(n: nat)
    ensures |UpTo(n)| == n && forall i: nat :: i in UpTo(n) <==> i < n
  {
    if n > 0 { CountUpTo(n - 1); }
  }

  // The parser reads its one range, and finds the end marker and the padding.
  lemma FullPacketParses()
    ensures Bytes(FullPacket()) && ParseTable(FullPacket()).Some?
    ensures ParseTable(FullPacket()).value.0 == Overlay(Zeros(), 0, seq(256, i => 1))[256 := 1]
  {
    var ones := seq(256, i => 1);
    assert FullRange()[1..] == [];
    assert EncodeRanges(FullRange()) == [0, 255] + ones + [0];
    hide EncodeRanges, ParseRanges, Overlay, Zeros;
    RangesRoundTrip([], FullRange(), [0], Zeros());
    assert Tabulate(Zeros(), FullRange()) == Overlay(Zeros(), 0, ones);
  }

  // In this packet all 257 symbols are used.
  lemma AllSymbolsUsed()
    ensures Bytes(FullPacket()) && ParseTable(FullPacket()).Some?
    ensures var freq := ParseTable(FullPacket()).value.0;
            (forall i | 0 <= i < |freq| :: 0 <= freq[i]) && |Live(freq)| == 257
  {
    FullPacketParses();
    FullTableEntries();
    hide *;
    CountLive(ParseTable(FullPacket()).value.0);
  }

  lemma FullTableEntries()
    ensures var freq := Overlay(Zeros(), 0, seq(256, i => 1))[256 := 1];
            |freq| == NODES && forall i | 0 <= i < NODES :: freq[i] == if i <= 256 then 1 else 0
  {}

  lemma CountLive(freq: seq<int>)
    requires |freq| == NODES && forall i | 0 <= i < NODES :: freq[i] == if i <= 256 then 1 else 0
    ensures (forall i | 0 <= i < |freq| :: 0 <= freq[i]) && |Live(freq)| == 257
  {
    var f := Live(freq);
    forall i: nat ensures i in f <==> i < 257 {}
    hide *;
    CountKeys(f, 257);
  }

  lemma CountKeys(f: map<nat, nat>, n: nat)
    requires forall i: nat :: i in f <==> i < n
    ensures |f| == n
  {
    CountUpTo(n);
    hide UpTo;
    assert f.Keys == UpTo(n);
    assert |f| == |f.Keys|;
  }

  // For this packet the code tables hold codes that continue one another.
  method ReadClashingTables() returns (ok: bool, lens: seq<nat>, bits: seq<nat>)
    ensures ok && Bytes(FullPacket()) && ParseTable(FullPacket()).Some?
    ensures var freq := ParseTable(FullPacket()).value.0;
            (forall i | 0 <= i < |freq| :: 0 <= freq[i])
            && HuffmanTables(Live(freq), lens, bits) && !NoCodeContinues(Live(freq), lens, bits)
  {
    AllSymbolsUsed();
    hide FullPacket, ParseTable;
    var next, lengths, codes;
    ok, next, lengths, codes := ReadHuffmanTables(FullPacket());
    lens, bits := lengths[..], codes[..];
    PrefixFreeExactly(Live(ParseTable(FullPacket()).value.0), lens, bits);
  }

  // ------------------------------------------------------------------ what init_vlc asks of a code

  lemma {:induction false} BitsFit(code: seq<bool>)
    ensures Bits(code) < Pow2(|code|)
  {
    if code != [] { BitsFit(code[..|code| - 1]); }
  }

  // No code is longer than three lookups of 9 bits, nor has more bits than its length says.
  lemma CodesFitTheirLength(f: map<nat, nat>, lens: seq<nat>, bits: seq<nat>, i: nat)
    requires HuffmanTables(f, lens, bits) && i < SYMBOLS
    ensures |lens| == SYMBOLS == |bits| && lens[i] <= 3 * 9 && bits[i] < Pow2(lens[i])
  {
    CodesAtMost22(f, lens, bits, i);
    var ms, up, flag :| TablesOf(f, ms, up, flag, lens, bits);
    BitsFit(Walk(up, flag, i));
  }
}
