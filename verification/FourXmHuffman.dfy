/** The Huffman tables of the 4XM codec, read_huffman_tables in FFmpeg/libavcodec/4xm.c.
    The two merging and numbering loops work in place on 512-entry arrays; a run of the first
    loop is described by the list of pairs it merges. */
module FourXmHuffman {
  import opened Sequences
  import opened Wrappers
  import opened HuffmanTrees

  const SYMBOLS: nat := 257
  const NODES: nat := 512
  const NO_WEIGHT: int := 256 * 256

  // The nodes that still take part in merging, with their weights.
  function Live(freq: seq<int>): map<nat, nat>
    requires forall i | 0 <= i < |freq| :: 0 <= freq[i]
  {
    map i: nat | i < |freq| && freq[i] != 0 :: freq[i]
  }

  // The order in which the scan prefers nodes: by weight, the lower index first among equals.
  predicate Precedes(f: map<nat, nat>, i: nat, k: nat)
    requires i in f && k in f
  {
    f[i] < f[k] || (f[i] == f[k] && i < k)
  }

  predicate FirstTwo(f: map<nat, nat>, a: nat, b: nat) {
    && a in f && b in f && a != b && Precedes(f, a, b)
    && forall c | c in f && c != a && c != b :: Precedes(f, b, c)
  }

  // ------------------------------------------------------------------ runs of the merging loop

  // The live nodes after the first k merges; merge number k creates node SYMBOLS + k.
  function After(f: map<nat, nat>, ms: seq<(nat, nat)>, k: nat): map<nat, nat>
    requires k <= |ms|
  {
    if k == 0 then f else Join(After(f, ms, k - 1), ms[k - 1], SYMBOLS + k - 1)
  }

  function Join(g: map<nat, nat>, m: (nat, nat), z: nat): map<nat, nat> {
    if m.0 in g && m.1 in g then Merge(g, m.0, m.1, z) else g
  }

  // Each of the first k merges joins the two nodes the scan prefers at that moment.
  ghost predicate Run(f: map<nat, nat>, ms: seq<(nat, nat)>, k: nat)
    requires k <= |ms|
  {
    k == 0 || (Run(f, ms, k - 1) && FirstTwo(After(f, ms, k - 1), ms[k - 1].0, ms[k - 1].1))
  }

  ghost predicate Initial(f: map<nat, nat>) {
    forall i | i in f :: i < SYMBOLS && 0 < f[i] && (i < 256 ==> f[i] <= 255) && (i == 256 ==> f[i] == 1)
  }

  lemma {:induction false} RunExtends(f: map<nat, nat>, ms: seq<(nat, nat)>, m: (nat, nat), k: nat)
    requires k <= |ms| && Run(f, ms, k)
    ensures After(f, ms + [m], k) == After(f, ms, k) && Run(f, ms + [m], k)
  {
    if k > 0 { RunExtends(f, ms, m, k - 1); }
  }

  lemma {:induction false} RunPrefix(f: map<nat, nat>, ms: seq<(nat, nat)>, k: nat, n: nat)
    requires k <= n <= |ms| && Run(f, ms, n)
    ensures Run(f, ms, k)
  {
    if k < n { RunPrefix(f, ms, k, n - 1); }
  }

  // All nodes are below z and have positive weight.
  ghost predicate Below(g: map<nat, nat>, z: nat) {
    forall i | i in g :: i < z && 0 < g[i]
  }

  lemma {:induction false} LiveAreBelow(f: map<nat, nat>, ms: seq<(nat, nat)>, k: nat)
    requires Initial(f) && k <= |ms| && Run(f, ms, k)
    ensures Below(After(f, ms, k), SYMBOLS + k)
  {
    if k > 0 {
      LiveAreBelow(f, ms, k - 1);
    }
  }

  // A merged node never becomes live again.
  lemma {:induction false} MergedStaysDead(f: map<nat, nat>, ms: seq<(nat, nat)>, k: nat, n: nat)
    requires Initial(f) && k < n <= |ms| && Run(f, ms, n)
    ensures ms[k].0 < SYMBOLS + k && ms[k].1 < SYMBOLS + k
    ensures ms[k].0 !in After(f, ms, n) && ms[k].1 !in After(f, ms, n)
  {
    LiveAreBelow(f, ms, n - 1);
    if k + 1 < n { MergedStaysDead(f, ms, k, n - 1); }
  }

  // ------------------------------------------------------------------ total weight

  function Total(f: map<nat, nat>): int { SumOn(NODES, f.Keys, WeightAt(f)) }

  lemma {:induction false} AtMostTotal(n: nat, f: map<nat, nat>, x: nat)
    requires x in f && x < n
    ensures 0 <= f[x] <= SumOn(n, f.Keys, WeightAt(f))
    decreases n
  {
    SumNonNegative(n - 1, f);
    if x < n - 1 { AtMostTotal(n - 1, f, x); }
  }

  lemma {:induction false} SumNonNegative(n: nat, f: map<nat, nat>)
    ensures 0 <= SumOn(n, f.Keys, WeightAt(f))
  {
    if n > 0 { SumNonNegative(n - 1, f); }
  }

  lemma {:induction false} SumRemove(n: nat, f: map<nat, nat>, x: nat)
    requires x in f && x < n
    ensures SumOn(n, (f - {x}).Keys, WeightAt(f - {x})) == SumOn(n, f.Keys, WeightAt(f)) - f[x]
  {
    if x < n - 1 { SumRemove(n - 1, f, x); } else { SumSame(n - 1, f, f - {x}); }
  }

  lemma {:induction false} SumSame(n: nat, f: map<nat, nat>, g: map<nat, nat>)
    requires forall i: nat | i < n :: (i in f <==> i in g) && (i in f ==> f[i] == g[i])
    ensures SumOn(n, f.Keys, WeightAt(f)) == SumOn(n, g.Keys, WeightAt(g))
  {
    if n > 0 { SumSame(n - 1, f, g); }
  }

  lemma MergeKeepsTotal(f: map<nat, nat>, a: nat, b: nat, z: nat)
    requires a in f && b in f && a != b && z !in f && a < NODES && b < NODES && z < NODES
    ensures Total(Merge(f, a, b, z)) == Total(f)
  {
    var g := Merge(f, a, b, z);
    SumRemove(NODES, f, a);
    SumRemove(NODES, f - {a}, b);
    assert f - {a} - {b} == f - {a, b};
    SumRemove(NODES, g, z);
    assert g - {z} == f - {a, b};
  }

  lemma {:induction false} TotalIsKept(f: map<nat, nat>, ms: seq<(nat, nat)>, k: nat)
    requires Initial(f) && k <= |ms| <= NODES - SYMBOLS && Run(f, ms, k)
    ensures Total(After(f, ms, k)) == Total(f)
  {
    if k > 0 {
      TotalIsKept(f, ms, k - 1);
      LiveAreBelow(f, ms, k - 1);
      JoinKeepsTotal(After(f, ms, k - 1), ms[k - 1], SYMBOLS + k - 1);
    }
  }

  lemma JoinKeepsTotal(g: map<nat, nat>, m: (nat, nat), z: nat)
    requires Below(g, z) && FirstTwo(g, m.0, m.1) && z < NODES
    ensures Total(Join(g, m, z)) == Total(g)
  {
    MergeKeepsTotal(g, m.0, m.1, z);
  }

  lemma {:induction false} SumBounded(n: nat, f: map<nat, nat>)
    requires Initial(f)
    ensures SumOn(n, f.Keys, WeightAt(f)) <= 255 * n && (n >= SYMBOLS ==> SumOn(n, f.Keys, WeightAt(f)) <= 65281)
  {
    if n > 0 { SumBounded(n - 1, f); }
  }

  // No live weight ever reaches the scan's sentinel.
  lemma SentinelIsFree(f: map<nat, nat>, ms: seq<(nat, nat)>, k: nat, x: nat)
    requires Initial(f) && k <= |ms| <= NODES - SYMBOLS && Run(f, ms, k) && x in After(f, ms, k)
    ensures After(f, ms, k)[x] <= 65281 < NO_WEIGHT
  {
    TotalIsKept(f, ms, k);
    LiveAreBelow(f, ms, k);
    AtMostTotal(NODES, After(f, ms, k), x);
    SumBounded(NODES, f);
  }

  // ------------------------------------------------------------------ no code is longer than 22 bits

  function Fib(n: nat): nat { if n < 2 then n else Fib(n - 1) + Fib(n - 2) }

  lemma {:induction false} FibGrows(n: nat, m: nat)
    requires n <= m
    ensures Fib(n) <= Fib(m)
  {
    if n < m {
      FibGrows(n, m - 1);
      assert m >= 2 ==> Fib(m) == Fib(m - 1) + Fib(m - 2);
    }
  }

  lemma Fib25() ensures Fib(25) == 75025 {
    assert Fib(5) == 5 && Fib(6) == 8;
    assert Fib(9) == 34 && Fib(10) == 55;
    assert Fib(13) == 233 && Fib(14) == 377;
    assert Fib(17) == 1597 && Fib(18) == 2584;
    assert Fib(21) == 10946 && Fib(22) == 17711;
  }

  // Every merge joined nodes that had existed before.
  ghost predicate Grounded(ms: seq<(nat, nat)>) {
    forall k: nat | k < |ms| :: ms[k].0 < SYMBOLS + k && ms[k].1 < SYMBOLS + k
  }

  ghost function NodeHeight(ms: seq<(nat, nat)>, i: nat): nat
    requires Grounded(ms) && i < SYMBOLS + |ms|
  {
    if i < SYMBOLS then 0 else 1 + Max(NodeHeight(ms, ms[i - SYMBOLS].0), NodeHeight(ms, ms[i - SYMBOLS].1))
  }

  function Max(x: nat, y: nat): nat { if x >= y then x else y }

  lemma RunIsGrounded(f: map<nat, nat>, ms: seq<(nat, nat)>)
    requires Initial(f) && Run(f, ms, |ms|)
    ensures Grounded(ms)
  {
    forall k: nat | k < |ms| ensures ms[k].0 < SYMBOLS + k && ms[k].1 < SYMBOLS + k {
      MergedStaysDead(f, ms, k, |ms|);
    }
  }

  // A node of height h weighs at least Fib(h + 2).
  ghost predicate HeavyForHeight(g: map<nat, nat>, ms: seq<(nat, nat)>, z: nat)
    requires Grounded(ms) && z <= SYMBOLS + |ms|
  {
    forall i | i in g && i < z :: Fib(NodeHeight(ms, i) + 2) <= g[i]
  }

  // Every node is at least as heavy as the heavier child of the inner node n.
  ghost predicate HeavyForMerge(g: map<nat, nat>, ms: seq<(nat, nat)>, n: nat)
    requires Grounded(ms) && n < SYMBOLS + |ms|
  {
    forall i | i in g :: Fib(NodeHeight(ms, n) + 1) <= g[i]
  }

  ghost predicate Heavy(g: map<nat, nat>, ms: seq<(nat, nat)>, z: nat)
    requires Grounded(ms) && z <= SYMBOLS + |ms|
  {
    Below(g, z) && HeavyForHeight(g, ms, z) && forall n: nat | SYMBOLS <= n < z :: HeavyForMerge(g, ms, n)
  }

  // In every run nodes are heavy for their height, and joining the two lightest keeps them so.
  lemma WeightsGrow(f: map<nat, nat>, ms: seq<(nat, nat)>, k: nat)
    requires Initial(f) && k <= |ms| && Run(f, ms, |ms|)
    ensures Grounded(ms) && Heavy(After(f, ms, k), ms, SYMBOLS + k)
  {
    RunIsGrounded(f, ms);
    RunPrefix(f, ms, k, |ms|);
    HeavyAfter(f, ms, k);
  }

  lemma {:induction false} HeavyAfter(f: map<nat, nat>, ms: seq<(nat, nat)>, k: nat)
    requires Initial(f) && k <= |ms| && Run(f, ms, k) && Grounded(ms)
    ensures Heavy(After(f, ms, k), ms, SYMBOLS + k)
  {
    if k == 0 {
      StartIsHeavy(f, ms);
    } else {
      hide Heavy, Initial, FirstTwo, Grounded;
      HeavyAfter(f, ms, k - 1);
      JoinKeepsHeavy(After(f, ms, k - 1), ms, k - 1);
    }
  }

  lemma StartIsHeavy(f: map<nat, nat>, ms: seq<(nat, nat)>)
    requires Initial(f) && Grounded(ms)
    ensures Heavy(f, ms, SYMBOLS)
  {
    assert Fib(2) == 1;
  }

  lemma JoinKeepsHeavy(g: map<nat, nat>, ms: seq<(nat, nat)>, k: nat)
    requires Grounded(ms) && k < |ms| && Heavy(g, ms, SYMBOLS + k) && FirstTwo(g, ms[k].0, ms[k].1)
    ensures Heavy(Join(g, ms[k], SYMBOLS + k), ms, SYMBOLS + k + 1)
  {
    var m, z := ms[k], SYMBOLS + k;
    MergedWeight(g, ms, k);
    forall n: nat | SYMBOLS <= n < z + 1 ensures HeavyForMerge(Join(g, m, z), ms, n) {
      if n < z {
        assert HeavyForMerge(g, ms, n);
      } else {
        RestIsHeavier(g, m, z, Fib(NodeHeight(ms, z) + 1));
      }
    }
    hide Fib, FirstTwo, Precedes, Below, HeavyForMerge;
  }

  lemma RestIsHeavier(g: map<nat, nat>, m: (nat, nat), z: nat, w: nat)
    requires FirstTwo(g, m.0, m.1) && w <= g[m.1]
    ensures forall i | i in Join(g, m, z) :: w <= Join(g, m, z)[i]
  {}

  lemma FibStep(t: nat)
    ensures Fib(t + 3) == Fib(t + 2) + Fib(t + 1) && Fib(1) == 1
  {}

  lemma PositiveIn(g: map<nat, nat>, i: nat, z: nat)
    requires Below(g, z) && i in g
    ensures 0 < g[i]
  {}

  // The heavier child weighs at least Fib(t + 2), t the greater height, and both together at
  // least Fib(t + 3).
  lemma MergedWeight(g: map<nat, nat>, ms: seq<(nat, nat)>, k: nat)
    requires Grounded(ms) && k < |ms| && Heavy(g, ms, SYMBOLS + k) && FirstTwo(g, ms[k].0, ms[k].1)
    ensures Fib(NodeHeight(ms, SYMBOLS + k) + 1) <= g[ms[k].1]
    ensures Fib(NodeHeight(ms, SYMBOLS + k) + 2) <= g[ms[k].0] + g[ms[k].1]
  {
    hide Below, Fib;
    var m := ms[k];
    assert g[m.0] <= g[m.1];
    hide FirstTwo;
    var (tall, short) := if NodeHeight(ms, m.0) >= NodeHeight(ms, m.1) then (m.0, m.1) else (m.1, m.0);
    var t := NodeHeight(ms, tall);
    assert NodeHeight(ms, SYMBOLS + k) == t + 1;
    assert Fib(t + 2) <= g[tall];
    assert Fib(t + 3) == Fib(t + 2) + Fib(t + 1) by { FibStep(t); }
    if tall < SYMBOLS {
      FibStep(t);
      assert 1 <= g[short] by { PositiveIn(g, short, SYMBOLS + k); }
    } else {
      assert HeavyForMerge(g, ms, tall);
    }
  }

  lemma HeightAtMost22(f: map<nat, nat>, ms: seq<(nat, nat)>, i: nat)
    requires Initial(f) && |ms| <= NODES - SYMBOLS && Run(f, ms, |ms|) && i < SYMBOLS + |ms|
    ensures Grounded(ms) && NodeHeight(ms, i) <= 22
  {
    RunIsGrounded(f, ms);
    if i >= SYMBOLS {
      var k := i - SYMBOLS + 1;
      RunPrefix(f, ms, k, |ms|);
      WeightsGrow(f, ms, k);
      NewestIsLive(f, ms, k);
      SentinelIsFree(f, ms, k, i);
      hide After, Run, Initial, Grounded;
      FibUnder(NodeHeight(ms, i));
    }
  }

  lemma FibUnder(h: nat)
    requires Fib(h + 2) <= 65281
    ensures h <= 22
  {
    hide Fib;
    Fib25();
    if h >= 23 { FibGrows(25, h + 2); }
  }

  lemma NewestIsLive(f: map<nat, nat>, ms: seq<(nat, nat)>, k: nat)
    requires 0 < k <= |ms| && Run(f, ms, k)
    ensures SYMBOLS + k - 1 in After(f, ms, k)
  {}

  // ------------------------------------------------------------------ the arrays a run leaves behind

  // Parent links point upwards; -1 marks a node without a parent.
  ghost predicate Linked(up: seq<int>) {
    |up| == NODES && forall i | 0 <= i < NODES :: up[i] == -1 || i < up[i] < NODES
  }

  // up and flag hold exactly the merges ms: parent and branch of every merged node.
  ghost predicate Recorded(up: seq<int>, flag: seq<int>, ms: seq<(nat, nat)>) {
    && Linked(up) && |flag| == NODES && |ms| <= NODES - SYMBOLS && Grounded(ms)
    && (forall k: nat | k < |ms| :: RecordedAt(up, flag, ms, k))
    && (forall i: nat | i < NODES && up[i] != -1 :: JoinedBy(ms, i, up[i]))
  }

  ghost predicate RecordedAt(up: seq<int>, flag: seq<int>, ms: seq<(nat, nat)>, k: nat)
    requires |up| == NODES == |flag| && k < |ms| && ms[k].0 < NODES && ms[k].1 < NODES
  {
    up[ms[k].0] == SYMBOLS + k == up[ms[k].1] && flag[ms[k].0] == 0 && flag[ms[k].1] == 1
  }

  // The merge that created node p had i as one of its two parts.
  ghost predicate JoinedBy(ms: seq<(nat, nat)>, i: nat, p: int) {
    SYMBOLS <= p < SYMBOLS + |ms| && (i == ms[p - SYMBOLS].0 || i == ms[p - SYMBOLS].1)
  }

  // The branches from the top of node i's tree down to i.
  ghost function Walk(up: seq<int>, flag: seq<int>, i: nat): seq<bool>
    requires Linked(up) && |flag| == NODES && i < NODES
    decreases NODES - i
  {
    if up[i] == -1 then [] else Walk(up, flag, up[i]) + [flag[i] == 1]
  }

  lemma {:induction false} WalkAtMost22(f: map<nat, nat>, ms: seq<(nat, nat)>, up: seq<int>, flag: seq<int>, i: nat)
    requires Initial(f) && Recorded(up, flag, ms) && Run(f, ms, |ms|) && i < SYMBOLS + |ms|
    ensures |Walk(up, flag, i)| + NodeHeight(ms, i) <= 22
    decreases NODES - i
  {
    if up[i] == -1 {
      HeightAtMost22(f, ms, i);
    } else {
      WalkAtMost22(f, ms, up, flag, up[i]);
      assert JoinedBy(ms, i, up[i]);
    }
  }

  // ------------------------------------------------------------------ the tree of a complete run

  // Fewer than two live nodes are left.
  ghost predicate Finished(g: map<nat, nat>) { forall a, b | a in g && b in g :: a == b }

  lemma {:induction false} LiveCount(f: map<nat, nat>, ms: seq<(nat, nat)>, k: nat)
    requires Initial(f) && k <= |ms| && Run(f, ms, k)
    ensures |After(f, ms, k)| == |f| - k
  {
    if k > 0 {
      LiveCount(f, ms, k - 1);
      LiveAreBelow(f, ms, k - 1);
      JoinCount(After(f, ms, k - 1), ms[k - 1], SYMBOLS + k - 1);
    }
  }

  lemma JoinCount(g: map<nat, nat>, m: (nat, nat), z: nat)
    requires Below(g, z) && FirstTwo(g, m.0, m.1)
    ensures |Join(g, m, z)| == |g| - 1
  {
    var rest := g - {m.0, m.1};
    assert rest.Keys == g.Keys - {m.0, m.1};
    assert Join(g, m, z).Keys == rest.Keys + {z};
    assert z !in rest;
  }

  // The run stopped because nothing was left to merge or because the array was full.
  ghost predicate Complete(f: map<nat, nat>, ms: seq<(nat, nat)>) {
    Run(f, ms, |ms|) && |ms| <= NODES - SYMBOLS
    && (Finished(After(f, ms, |ms|)) || |ms| == NODES - SYMBOLS)
  }

  // With at most 256 symbols in use the array is large enough: one node is left.
  lemma OneRootLeft(f: map<nat, nat>, ms: seq<(nat, nat)>) returns (root: nat)
    requires Initial(f) && Complete(f, ms) && 1 <= |f| <= 256
    ensures After(f, ms, |ms|).Keys == {root} && root < SYMBOLS + |ms|
  {
    var g := After(f, ms, |ms|);
    LiveCount(f, ms, |ms|);
    LiveAreBelow(f, ms, |ms|);
    assert |g| <= 1 by {
      if Finished(g) && g.Keys != {} {
        var a :| a in g.Keys;
        assert g.Keys == {a};
      }
    }
    assert |g| == 1 by { if |ms| > 0 { NewestIsLive(f, ms, |ms|); } }
    root :| root in g.Keys;
    assert |g.Keys - {root}| == 0;
  }

  // The tree over the nodes live after k merges, obtained by undoing the later ones.
  ghost function TreeFrom(ms: seq<(nat, nat)>, root: nat, k: nat): Tree
    requires k <= |ms|
    decreases |ms| - k
  {
    if k == |ms| then Leaf(root) else Expand(TreeFrom(ms, root, k + 1), SYMBOLS + k, ms[k].0, ms[k].1)
  }

  lemma ExpandJoin(g: map<nat, nat>, m: (nat, nat), z: nat, t: Tree)
    requires Below(g, z) && FirstTwo(g, m.0, m.1) && Proper(t) && Ids(t) == Join(g, m, z).Keys
    ensures Proper(Expand(t, z, m.0, m.1)) && Ids(Expand(t, z, m.0, m.1)) == g.Keys
    ensures Cost(Expand(t, z, m.0, m.1), g) == Cost(t, Join(g, m, z)) + g[m.0] + g[m.1]
  {
    assert Join(g, m, z).Keys == g.Keys - {m.0, m.1} + {z};
    ExpandCost(t, z, m.0, m.1, g);
  }

  lemma {:induction false} TreeCovers(f: map<nat, nat>, ms: seq<(nat, nat)>, root: nat, k: nat)
    requires Initial(f) && Run(f, ms, |ms|) && After(f, ms, |ms|).Keys == {root} && k <= |ms|
    ensures Proper(TreeFrom(ms, root, k)) && Ids(TreeFrom(ms, root, k)) == After(f, ms, k).Keys
    decreases |ms| - k
  {
    if k < |ms| {
      TreeCovers(f, ms, root, k + 1);
      RunPrefix(f, ms, k + 1, |ms|);
      LiveAreBelow(f, ms, k);
      ExpandJoin(After(f, ms, k), ms[k], SYMBOLS + k, TreeFrom(ms, root, k + 1));
    }
  }

  lemma FirstTwoAreLightest(g: map<nat, nat>, a: nat, b: nat, z: nat)
    requires FirstTwo(g, a, b) && Below(g, z)
    ensures Lightest(g, a, b) && z !in g && Join(g, (a, b), z) == Merge(g, a, b, z)
  {}

  lemma TreeFromStep(ms: seq<(nat, nat)>, root: nat, k: nat)
    requires k < |ms|
    ensures TreeFrom(ms, root, k) == Expand(TreeFrom(ms, root, k + 1), SYMBOLS + k, ms[k].0, ms[k].1)
  {}

  // No tree over the same leaves has a smaller weighted code length.
  lemma {:induction false} TreeIsOptimal(f: map<nat, nat>, ms: seq<(nat, nat)>, root: nat, k: nat, t: Tree)
    requires Initial(f) && Run(f, ms, |ms|) && After(f, ms, |ms|).Keys == {root} && k <= |ms|
    requires Proper(t) && Ids(t) == After(f, ms, k).Keys
    ensures Ids(TreeFrom(ms, root, k)) == After(f, ms, k).Keys
    ensures Cost(TreeFrom(ms, root, k), After(f, ms, k)) <= Cost(t, After(f, ms, k))
    decreases |ms| - k
  {
    if k == |ms| {
      OptimalAtEnd(f, ms, root, t);
    } else {
      var g, m, z := After(f, ms, k), ms[k], SYMBOLS + k;
      StepFacts(f, ms, k);
      FirstTwoAreLightest(g, m.0, m.1, z);
      hide *;
      TreeCovers(f, ms, root, k);
      var u := GreedyStep(t, g, m.0, m.1, z);
      TreeIsOptimal(f, ms, root, k + 1, u);
      TreeCovers(f, ms, root, k + 1);
      ExpandJoin(g, m, z, TreeFrom(ms, root, k + 1));
      TreeFromStep(ms, root, k);
    }
  }

  lemma OptimalAtEnd(f: map<nat, nat>, ms: seq<(nat, nat)>, root: nat, t: Tree)
    requires After(f, ms, |ms|).Keys == {root} && Proper(t) && Ids(t) == {root}
    ensures Ids(TreeFrom(ms, root, |ms|)) == {root}
    ensures Cost(TreeFrom(ms, root, |ms|), After(f, ms, |ms|)) <= Cost(t, After(f, ms, |ms|))
  {
    hide After;
  }

  // Walking up the arrays from a live node spells its code in the tree.
  lemma {:induction false} WalkIsCode(f: map<nat, nat>, ms: seq<(nat, nat)>, root: nat, k: nat,
                                      up: seq<int>, flag: seq<int>, i: nat)
    requires Initial(f) && Run(f, ms, |ms|) && After(f, ms, |ms|).Keys == {root} && k <= |ms|
    requires Recorded(up, flag, ms) && i in After(f, ms, k) && i < NODES
    ensures i in Ids(TreeFrom(ms, root, k)) && Walk(up, flag, i) == Code(TreeFrom(ms, root, k), i)
    decreases |ms| - k
  {
    hide *;
    if k == |ms| {
      RootIsItsTree(f, ms, root, up, flag, i);
    } else {
      var g, m, z := After(f, ms, k), ms[k], SYMBOLS + k;
      StepFacts(f, ms, k);
      TreeCovers(f, ms, root, k + 1);
      StepLinks(up, flag, ms, k);
      var j := if i == m.0 || i == m.1 then z else i;
      StaysLive(g, m, z, i);
      WalkIsCode(f, ms, root, k + 1, up, flag, j);
      WalkStep(g, m, z, TreeFrom(ms, root, k + 1), up, flag, i, j);
      TreeFromStep(ms, root, k);
    }
  }

  lemma RootIsItsTree(f: map<nat, nat>, ms: seq<(nat, nat)>, root: nat, up: seq<int>, flag: seq<int>, i: nat)
    requires Initial(f) && Run(f, ms, |ms|) && After(f, ms, |ms|).Keys == {root}
    requires Recorded(up, flag, ms) && i in After(f, ms, |ms|) && i < NODES
    ensures i in Ids(TreeFrom(ms, root, |ms|)) && Walk(up, flag, i) == Code(TreeFrom(ms, root, |ms|), i)
  {
    LiveHasNoParent(f, ms, up, flag, i);
    hide After, Run, Initial;
  }

  lemma StepLinks(up: seq<int>, flag: seq<int>, ms: seq<(nat, nat)>, k: nat)
    requires Recorded(up, flag, ms) && k < |ms|
    ensures Linked(up) && |flag| == NODES && SYMBOLS + k < NODES && ms[k].0 < NODES && ms[k].1 < NODES
    ensures up[ms[k].0] == SYMBOLS + k == up[ms[k].1] && flag[ms[k].0] == 0 && flag[ms[k].1] == 1
  {
    assert RecordedAt(up, flag, ms, k);
  }

  // A live node, or the one it is merged into, is live after the merge.
  lemma StaysLive(g: map<nat, nat>, m: (nat, nat), z: nat, i: nat)
    requires FirstTwo(g, m.0, m.1) && i in g
    ensures (if i == m.0 || i == m.1 then z else i) in Join(g, m, z)
  {}

  lemma LiveHasNoParent(f: map<nat, nat>, ms: seq<(nat, nat)>, up: seq<int>, flag: seq<int>, i: nat)
    requires Initial(f) && Run(f, ms, |ms|) && Recorded(up, flag, ms) && i in After(f, ms, |ms|) && i < NODES
    ensures up[i] == -1
  {
    if up[i] != -1 { assert JoinedBy(ms, i, up[i]); MergedStaysDead(f, ms, up[i] - SYMBOLS, |ms|); }
  }

  lemma StepFacts(f: map<nat, nat>, ms: seq<(nat, nat)>, k: nat)
    requires Initial(f) && Run(f, ms, |ms|) && k < |ms|
    ensures Below(After(f, ms, k), SYMBOLS + k) && FirstTwo(After(f, ms, k), ms[k].0, ms[k].1)
    ensures After(f, ms, k + 1) == Join(After(f, ms, k), ms[k], SYMBOLS + k)
  {
    RunPrefix(f, ms, k + 1, |ms|);
    LiveAreBelow(f, ms, k);
  }

  lemma WalkStep(g: map<nat, nat>, m: (nat, nat), z: nat, t: Tree, up: seq<int>, flag: seq<int>, i: nat, j: nat)
    requires Below(g, z) && FirstTwo(g, m.0, m.1) && z < NODES && Proper(t) && Ids(t) == Join(g, m, z).Keys
    requires Linked(up) && |flag| == NODES && i in g && j in Ids(t)
    requires up[m.0] == z == up[m.1] && flag[m.0] == 0 && flag[m.1] == 1
    requires j == if i == m.0 || i == m.1 then z else i
    requires j < NODES && Walk(up, flag, j) == Code(t, j)
    ensures i in Ids(Expand(t, z, m.0, m.1)) && Walk(up, flag, i) == Code(Expand(t, z, m.0, m.1), i)
  {
    ExpandCode(t, z, m.0, m.1, j);
  }

  // ------------------------------------------------------------------ reading the frequency ranges

  ghost predicate Bytes(s: seq<int>) { forall i | 0 <= i < |s| :: 0 <= s[i] < 256 }

  // Reads behind the packet hit its zero padding.
  function ByteAt(buf: seq<int>, p: nat): int { if p < |buf| then buf[p] else 0 }

  function Overlay(freq: seq<int>, start: nat, values: seq<int>): seq<int>
    requires start + |values| <= |freq|
  {
    freq[..start] + values + freq[start + |values|..]
  }

  function RangeSize(start: int, end: int): nat { if end < start then 0 else end - start + 1 }

  function ParseRanges(buf: seq<int>, p: nat, start: nat, end: nat, freq: seq<int>): (r: Option<(seq<int>, nat)>)
    requires Bytes(buf) && start < 256 && end < 256 && |freq| == NODES
    ensures r.Some? ==> |r.value.0| == NODES
    decreases |buf| + 1 - p
  {
    var n := RangeSize(start, end);
    if |buf| - p < n + 1 then None
    else
      var freq' := Overlay(freq, start, buf[p..p + n]);
      if buf[p + n] == 0 then Some((freq', p + n + 1))
      else ParseRanges(buf, p + n + 2, buf[p + n], ByteAt(buf, p + n + 1), freq')
  }

  function Zeros(): seq<int> { seq(NODES, i => 0) }

  // The frequency table and the 4-byte aligned position behind it.
  function ParseTable(buf: seq<int>): (r: Option<(seq<int>, nat)>)
    requires Bytes(buf)
    ensures r.Some? ==> |r.value.0| == NODES
  {
    match ParseRanges(buf, 2, ByteAt(buf, 0), ByteAt(buf, 1), Zeros())
    case None => None
    case Some((freq, p)) =>
      var aligned := (p + 3) / 4 * 4;
      if aligned > |buf| then None else Some((freq[256 := 1], aligned))
  }

  ghost predicate TableShape(freq: seq<int>) {
    && |freq| == NODES && freq[256] == 1
    && (forall i | 0 <= i < 256 :: 0 <= freq[i] <= 255)
    && (forall i | 257 <= i < NODES :: freq[i] == 0)
  }

  ghost predicate RangeShape(freq: seq<int>) {
    |freq| == NODES && forall i | 0 <= i < NODES :: 0 <= freq[i] <= 255 && (i >= 256 ==> freq[i] == 0)
  }

  lemma OverlayShape(freq: seq<int>, start: nat, values: seq<int>)
    requires RangeShape(freq) && Bytes(values) && start + |values| <= 256
    ensures RangeShape(Overlay(freq, start, values))
  {}

  lemma {:induction false} ParsedShape(buf: seq<int>, p: nat, start: nat, end: nat, freq: seq<int>)
    requires Bytes(buf) && start < 256 && end < 256 && RangeShape(freq)
    ensures var r := ParseRanges(buf, p, start, end, freq); r.Some? ==> RangeShape(r.value.0)
    decreases |buf| + 1 - p
  {
    hide Overlay;
    var n := RangeSize(start, end);
    if |buf| - p >= n + 1 {
      assert Bytes(buf[p..p + n]);
      OverlayShape(freq, start, buf[p..p + n]);
      if buf[p + n] != 0 {
        ParsedShape(buf, p + n + 2, buf[p + n], ByteAt(buf, p + n + 1), Overlay(freq, start, buf[p..p + n]));
      }
    }
  }

  lemma ParsedTableShape(buf: seq<int>)
    requires Bytes(buf)
    ensures ParseTable(buf).Some? ==> TableShape(ParseTable(buf).value.0)
  {
    ParsedShape(buf, 2, ByteAt(buf, 0), ByteAt(buf, 1), Zeros());
  }

  // A run of consecutive symbols with their frequencies, as the stream transmits it.
  datatype Range = Range(start: nat, values: seq<int>)

  // A range without values ends before it starts.
  ghost predicate ValidRange(r: Range) {
    Bytes(r.values) && r.start < 256 && r.start + |r.values| <= 256 && (r.start > 0 || r.values != [])
  }

  ghost predicate ValidRanges(rs: seq<Range>) { forall i | 0 <= i < |rs| :: ValidRange(rs[i]) }

  function EncodeRanges(rs: seq<Range>): seq<int> {
    if rs == [] then [0]
    else [rs[0].start, rs[0].start + |rs[0].values| - 1] + rs[0].values + EncodeRanges(rs[1..])
  }

  ghost function Tabulate(freq: seq<int>, rs: seq<Range>): seq<int>
    requires |freq| == NODES && ValidRanges(rs)
    decreases |rs|
  {
    if rs == [] then freq else Tabulate(Overlay(freq, rs[0].start, rs[0].values), rs[1..])
  }

  // Ranges that can be transmitted: only the first one may start at 0, which ends the list elsewhere.
  ghost predicate Transmittable(rs: seq<Range>) {
    rs != [] && ValidRanges(rs) && forall i | 1 <= i < |rs| :: rs[i].start != 0
  }

  // What the parser has read, and where it stops; nothing and nowhere if it fails.
  function TableRead(buf: seq<int>, p: nat, start: nat, end: nat, freq: seq<int>): seq<int>
    requires Bytes(buf) && start < 256 && end < 256 && |freq| == NODES
  {
    match ParseRanges(buf, p, start, end, freq) case None => [] case Some(r) => r.0
  }

  function EndRead(buf: seq<int>, p: nat, start: nat, end: nat, freq: seq<int>): int
    requires Bytes(buf) && start < 256 && end < 256 && |freq| == NODES
  {
    match ParseRanges(buf, p, start, end, freq) case None => -1 case Some(r) => r.1
  }

  function Last(r: Range): int { r.start + |r.values| - 1 }

  // Parsing undoes the encoding of any list of ranges; a later range overwrites an earlier one.
  lemma RangesRoundTrip(pre: seq<int>, rs: seq<Range>, post: seq<int>, freq: seq<int>)
    requires |freq| == NODES && rs != [] && ValidRanges(rs) && ValidRange(rs[0])
    requires forall i | 1 <= i < |rs| :: rs[i].start != 0
    requires Bytes(pre + EncodeRanges(rs) + post)
    ensures var buf := pre + EncodeRanges(rs) + post;
            var r := ParseRanges(buf, |pre| + 2, rs[0].start, Last(rs[0]), freq);
            r.Some? && r.value.0 == Tabulate(freq, rs) && r.value.1 == |pre| + |EncodeRanges(rs)|
  {
    var buf := pre + EncodeRanges(rs) + post;
    StandsBetween(pre, EncodeRanges(rs), post);
    assert Transmittable(rs);
    RangesAt(buf, |pre|, rs, freq);
    hide EncodeRanges, ParseRanges, Tabulate, HasAt, Bytes, Transmittable, ValidRanges;
  }

  lemma StandsBetween(pre: seq<int>, part: seq<int>, post: seq<int>)
    ensures HasAt(pre + part + post, |pre|, part)
  {}

  lemma {:induction false} RangesAt(buf: seq<int>, p: nat, rs: seq<Range>, freq: seq<int>)
    requires |freq| == NODES && Transmittable(rs) && Bytes(buf) && HasAt(buf, p, EncodeRanges(rs)) && ValidRange(rs[0])
    ensures TableRead(buf, p + 2, rs[0].start, Last(rs[0]), freq) == Tabulate(freq, rs)
    ensures EndRead(buf, p + 2, rs[0].start, Last(rs[0]), freq) == p + |EncodeRanges(rs)|
    decreases |rs|
  {
    RangeStep(buf, p, rs, freq);
    hide *;
    if |rs| > 1 {
      RangesAt(buf, p + 2 + |rs[0].values|, rs[1..], Overlay(freq, rs[0].start, rs[0].values));
    }
  }

  // The parser's turn for the first of several ranges, or for the last one.
  lemma RangeStep(buf: seq<int>, p: nat, rs: seq<Range>, freq: seq<int>)
    requires |freq| == NODES && Transmittable(rs) && Bytes(buf) && HasAt(buf, p, EncodeRanges(rs)) && ValidRange(rs[0])
    ensures var r, rest := rs[0], rs[1..];
            var q, freq' := p + 2 + |r.values|, Overlay(freq, r.start, r.values);
            && |EncodeRanges(rs)| == 2 + |r.values| + |EncodeRanges(rest)|
            && (|rs| == 1 ==>
                  TableRead(buf, p + 2, r.start, Last(r), freq) == freq' == Tabulate(freq, rs)
                  && EndRead(buf, p + 2, r.start, Last(r), freq) == q + 1 && |EncodeRanges(rest)| == 1)
            && (|rs| > 1 ==>
                  && Transmittable(rest) && ValidRange(rest[0]) && HasAt(buf, q, EncodeRanges(rest))
                  && TableRead(buf, p + 2, r.start, Last(r), freq)
                     == TableRead(buf, q + 2, rest[0].start, Last(rest[0]), freq')
                  && EndRead(buf, p + 2, r.start, Last(r), freq)
                     == EndRead(buf, q + 2, rest[0].start, Last(rest[0]), freq')
                  && Tabulate(freq, rs) == Tabulate(freq', rest))
  {
    FirstRange(buf, p, rs);
    RestIsTransmittable(rs);
    hide EncodeRanges, HasAt, Bytes, Overlay;
  }

  // How the parser meets the first range of an encoding: its values, then what follows them.
  lemma FirstRange(buf: seq<int>, p: nat, rs: seq<Range>)
    requires rs != [] && HasAt(buf, p, EncodeRanges(rs))
    ensures var q := p + 2 + |rs[0].values|;
            && q < |buf| && buf[p + 2..q] == rs[0].values && HasAt(buf, q, EncodeRanges(rs[1..]))
            && |EncodeRanges(rs)| == 2 + |rs[0].values| + |EncodeRanges(rs[1..])|
            && (|rs| == 1 ==> buf[q] == 0 && |EncodeRanges(rs[1..])| == 1)
            && (|rs| > 1 ==> buf[q] == rs[1].start && ByteAt(buf, q + 1) == Last(rs[1]))
  {
    var tail, q := EncodeRanges(rs[1..]), p + 2 + |rs[0].values|;
    TailStarts(rs);
    FirstSplits(buf, p, rs);
    hide EncodeRanges;
    HasEntries(buf, q, tail);
    assert buf[q + 0] == tail[0] && (|tail| > 1 ==> buf[q + 1] == tail[1]);
  }

  lemma FirstSplits(buf: seq<int>, p: nat, rs: seq<Range>)
    requires rs != [] && HasAt(buf, p, EncodeRanges(rs))
    ensures HasAt(buf, p + 2, rs[0].values) && HasAt(buf, p + 2 + |rs[0].values|, EncodeRanges(rs[1..]))
    ensures |EncodeRanges(rs)| == 2 + |rs[0].values| + |EncodeRanges(rs[1..])|
  {
    var bounds, values, tail := [rs[0].start, Last(rs[0])], rs[0].values, EncodeRanges(rs[1..]);
    hide *;
    EncodingSplits(rs);
    HasParts(buf, p, bounds, values + tail);
    HasParts(buf, p + 2, values, tail);
  }

  lemma EncodingSplits(rs: seq<Range>)
    requires rs != []
    ensures EncodeRanges(rs) == [rs[0].start, Last(rs[0])] + (rs[0].values + EncodeRanges(rs[1..]))
  {
    var bounds, values, tail := [rs[0].start, Last(rs[0])], rs[0].values, EncodeRanges(rs[1..]);
    assert EncodeRanges(rs) == bounds + values + tail;
    hide *;
    assert bounds + values + tail == bounds + (values + tail);
  }

  lemma TailStarts(rs: seq<Range>)
    requires rs != []
    ensures var tail := EncodeRanges(rs[1..]);
            && (|rs| == 1 ==> tail == [0])
            && (|rs| > 1 ==> |tail| > 1 && tail[0] == rs[1].start && tail[1] == Last(rs[1]))
  {}

  lemma HasEntries(buf: seq<int>, q: nat, tail: seq<int>)
    requires HasAt(buf, q, tail)
    ensures forall i | 0 <= i < |tail| :: buf[q + i] == tail[i]
  {
    forall i | 0 <= i < |tail| ensures buf[q + i] == tail[i] {
      assert buf[q..q + |tail|][i] == tail[i];
    }
  }

  lemma RestIsTransmittable(rs: seq<Range>)
    requires Transmittable(rs)
    ensures ValidRange(rs[0])
    ensures |rs| > 1 ==> Transmittable(rs[1..]) && ValidRange(rs[1]) && rs[1].start != 0
  {}

  method FillRange(buf: seq<int>, ptr: nat, start: nat, end: int, frequency: array<int>)
    requires start < 256 && end < 256 && frequency.Length == NODES
    requires ptr + RangeSize(start, end) <= |buf|
    modifies frequency
    ensures frequency[..] == Overlay(old(frequency[..]), start, buf[ptr..ptr + RangeSize(start, end)])
  {
    var i := start;
    while i <= end
      invariant start <= i <= start + RangeSize(start, end)
      invariant forall k | 0 <= k < NODES ::
                  frequency[k] == if start <= k < i then buf[ptr + k - start] else old(frequency[k])
    {
      frequency[i] := buf[ptr + i - start];
      i := i + 1;
    }
  }

  lemma ParseTurn(buf: seq<int>, p: nat, start: nat, end: nat, freq: seq<int>)
    requires Bytes(buf) && start < 256 && end < 256 && |freq| == NODES
    ensures var n, r := RangeSize(start, end), ParseRanges(buf, p, start, end, freq);
            if |buf| - p < n + 1 then r.None?
            else
              var freq' := Overlay(freq, start, buf[p..p + n]);
              if buf[p + n] == 0 then r.Some? && r.value.0 == freq' && r.value.1 == p + n + 1
              else r == ParseRanges(buf, p + n + 2, buf[p + n], ByteAt(buf, p + n + 1), freq')
  {}

  // The ranges of the table; fails if the packet ends before one of them does.
  method ReadRanges(buf: seq<int>, frequency: array<int>) returns (ok: bool, ptr: nat)
    requires Bytes(buf) && frequency.Length == NODES && frequency[..] == Zeros()
    modifies frequency
    ensures var spec := ParseRanges(buf, 2, ByteAt(buf, 0), ByteAt(buf, 1), Zeros());
            ok == spec.Some? && (ok ==> frequency[..] == spec.value.0 && ptr == spec.value.1)
  {
    var start, end := ByteAt(buf, 0), ByteAt(buf, 1);
    ptr := 2;
    ghost var spec := ParseRanges(buf, 2, start, end, Zeros());
    hide Overlay, Zeros, ParseRanges;
    while true
      invariant 0 <= start < 256 && 0 <= end < 256
      invariant ParseRanges(buf, ptr, start, end, frequency[..]) == spec
      decreases |buf| + 1 - ptr
    {
      ParseTurn(buf, ptr, start, end, frequency[..]);
      if |buf| - ptr < RangeSize(start, end) + 1 {
        return false, 0;
      }
      FillRange(buf, ptr, start, end, frequency);
      ptr := ptr + RangeSize(start, end);
      start, ptr := buf[ptr], ptr + 1;
      if start == 0 {
        return true, ptr;
      }
      end, ptr := ByteAt(buf, ptr), ptr + 1;
    }
  }

  method ReadFrequencies(buf: seq<int>, frequency: array<int>) returns (ok: bool, next: nat)
    requires Bytes(buf) && frequency.Length == NODES && frequency[..] == Zeros()
    modifies frequency
    ensures ok == ParseTable(buf).Some?
    ensures ok ==> ParseTable(buf) == Some((frequency[..], next))
  {
    hide ParseRanges;
    var parsed, ptr := ReadRanges(buf, frequency);
    if !parsed {
      return false, 0;
    }
    frequency[256] := 1;
    next := Align(ptr);
    if next > |buf| {
      return false, 0;
    }
    return true, next;
  }

  method Align(start: nat) returns (ptr: nat)
    ensures ptr == (start + 3) / 4 * 4
  {
    ptr := start;
    while ptr % 4 != 0
      invariant start <= ptr <= (start + 3) / 4 * 4
      decreases (start + 3) / 4 * 4 - ptr
    {
      ptr := ptr + 1;
    }
  }

  // ------------------------------------------------------------------ merging and numbering

  // What the scan knows about the nodes below i: the two it prefers, or that there are fewer.
  ghost predicate Scanned(f: map<nat, nat>, i: nat, w0: int, w1: int, s0: nat, s1: nat) {
    if w0 == NO_WEIGHT then w1 == NO_WEIGHT && forall c | c in f :: i <= c
    else
      && s0 in f && s0 < i && f[s0] == w0
      && (forall c | c in f && c < i && c != s0 :: Precedes(f, s0, c))
      && if w1 == NO_WEIGHT then forall c | c in f && c < i :: c == s0
         else
           && s1 in f && s1 < i && s1 != s0 && f[s1] == w1
           && forall c | c in f && c < i && c != s0 && c != s1 :: Precedes(f, s1, c)
  }

  method FindTwo(frequency: array<int>, j: nat, ghost f: map<nat, nat>) returns (w0: int, w1: int, s0: nat, s1: nat)
    requires frequency.Length == NODES && j <= NODES
    requires forall i | 0 <= i < NODES :: 0 <= frequency[i] < NO_WEIGHT
    requires f == Live(frequency[..]) && forall i | i in f :: i < j
    ensures Scanned(f, j, w0, w1, s0, s1)
  {
    w0, w1, s0, s1 := NO_WEIGHT, NO_WEIGHT, 0, 0;
    for i := 0 to j
      invariant w0 <= NO_WEIGHT && w1 <= NO_WEIGHT
      invariant Scanned(f, i, w0, w1, s0, s1)
    {
      if frequency[i] == 0 { continue; }
      assert i in f && f[i] == frequency[i];
      if frequency[i] < w1 {
        if frequency[i] < w0 {
          w1, s1 := w0, s0;
          w0, s0 := frequency[i], i;
        } else {
          w1, s1 := frequency[i], i;
        }
      }
    }
  }

  lemma RecordStep(up: seq<int>, flag: seq<int>, ms: seq<(nat, nat)>, a: nat, b: nat)
    requires Recorded(up, flag, ms) && SYMBOLS + |ms| < NODES && a != b
    requires a < SYMBOLS + |ms| && b < SYMBOLS + |ms| && up[a] == -1 && up[b] == -1
    ensures Recorded(up[a := SYMBOLS + |ms|][b := SYMBOLS + |ms|], flag[a := 0][b := 1], ms + [(a, b)])
  {
    var j, ms' := SYMBOLS + |ms|, ms + [(a, b)];
    var up', flag' := up[a := j][b := j], flag[a := 0][b := 1];
    assert Grounded(ms') by {
      forall k: nat | k < |ms'| ensures ms'[k].0 < SYMBOLS + k && ms'[k].1 < SYMBOLS + k {}
    }
    forall k: nat | k < |ms'| ensures RecordedAt(up', flag', ms', k) {
      if k < |ms| { assert RecordedAt(up, flag, ms, k); }
    }
    forall i: nat | i < NODES && up'[i] != -1 ensures JoinedBy(ms', i, up'[i]) {
      if i != a && i != b { assert JoinedBy(ms, i, up[i]); }
    }
  }

  // The state the loop keeps: what a prefix of the run leaves in the three arrays.
  ghost predicate Kept(f: map<nat, nat>, ms: seq<(nat, nat)>, freq: seq<int>, up: seq<int>, flag: seq<int>) {
    && |ms| <= NODES - SYMBOLS && Run(f, ms, |ms|) && Recorded(up, flag, ms)
    && |freq| == NODES && (forall i | 0 <= i < NODES :: 0 <= freq[i]) && Live(freq) == After(f, ms, |ms|)
  }

  lemma RunStep(f: map<nat, nat>, ms: seq<(nat, nat)>, a: nat, b: nat)
    requires Run(f, ms, |ms|) && FirstTwo(After(f, ms, |ms|), a, b)
    ensures Run(f, ms + [(a, b)], |ms| + 1)
    ensures After(f, ms + [(a, b)], |ms| + 1) == Join(After(f, ms, |ms|), (a, b), SYMBOLS + |ms|)
  {
    RunExtends(f, ms, (a, b), |ms|);
  }

  lemma StepIsSound(f: map<nat, nat>, ms: seq<(nat, nat)>, a: nat, b: nat, freq: seq<int>, up: seq<int>, flag: seq<int>)
    requires Initial(f) && Kept(f, ms, freq, up, flag) && |ms| < NODES - SYMBOLS
    requires FirstTwo(Live(freq), a, b) && a < NODES && b < NODES
    ensures var j := SYMBOLS + |ms|;
            Kept(f, ms + [(a, b)], freq[j := freq[a] + freq[b]][a := 0][b := 0], up[a := j][b := j],
                 flag[a := 0][b := 1])
  {
    hide After, Run;
    var j := SYMBOLS + |ms|;
    ScanIsSafe(freq, f, ms);
    assert a < j && b < j && freq[a] != 0 && freq[b] != 0;
    LiveHasNoParent(f, ms, up, flag, a);
    LiveHasNoParent(f, ms, up, flag, b);
    hide Initial, Precedes, FirstTwo;
    RunStep(f, ms, a, b);
    RecordStep(up, flag, ms, a, b);
    hide Live, Recorded;
  }

  method JoinTwo(frequency: array<int>, up: array<int>, flag: array<int>, j: nat, a: nat, b: nat)
    requires frequency.Length == up.Length == flag.Length == NODES
    requires frequency != up && up != flag && frequency != flag && j < NODES && a < NODES && b < NODES && a != b
    requires a != j && b != j
    modifies frequency, up, flag
    ensures frequency[..] == old(frequency[..])[j := old(frequency[a] + frequency[b])][a := 0][b := 0]
    ensures flag[..] == old(flag[..])[a := 0][b := 1]
    ensures up[..] == old(up[..])[a := j][b := j]
  {
    frequency[j] := frequency[a] + frequency[b];
    flag[a] := 0;
    flag[b] := 1;
    up[a] := j;
    up[b] := j;
    frequency[a] := 0;
    frequency[b] := 0;
  }

  lemma StartIsKept(freq: seq<int>, up: seq<int>, flag: seq<int>)
    requires TableShape(freq) && |up| == NODES == |flag| && forall i | 0 <= i < NODES :: up[i] == -1
    ensures Kept(Live(freq), [], freq, up, flag) && Initial(Live(freq))
  {}

  lemma KeptIsScannable(f: map<nat, nat>, ms: seq<(nat, nat)>, freq: seq<int>, up: seq<int>, flag: seq<int>)
    requires Initial(f) && Kept(f, ms, freq, up, flag) && |ms| < NODES - SYMBOLS
    ensures |freq| == NODES && (forall i | 0 <= i < NODES :: 0 <= freq[i] < NO_WEIGHT)
    ensures Below(Live(freq), SYMBOLS + |ms|) && forall i | i in Live(freq) :: i < SYMBOLS + |ms|
  {
    ScanIsSafe(freq, f, ms);
  }

  lemma KeptIsComplete(f: map<nat, nat>, ms: seq<(nat, nat)>, freq: seq<int>, up: seq<int>, flag: seq<int>)
    requires Kept(f, ms, freq, up, flag) && (|ms| == NODES - SYMBOLS || Finished(Live(freq)))
    ensures Complete(f, ms) && Recorded(up, flag, ms)
  {}

  // One merge extends the recorded run.
  method ApplyMerge(frequency: array<int>, up: array<int>, flag: array<int>, j: nat, a: nat, b: nat,
                ghost f: map<nat, nat>, ghost ms: seq<(nat, nat)>)
    requires frequency.Length == up.Length == flag.Length == NODES && j == SYMBOLS + |ms| < NODES
    requires frequency != up && up != flag && frequency != flag
    requires Initial(f) && Kept(f, ms, frequency[..], up[..], flag[..])
    requires (forall i | 0 <= i < NODES :: 0 <= frequency[i]) && FirstTwo(Live(frequency[..]), a, b) && a < j && b < j
    modifies frequency, up, flag
    ensures Kept(f, ms + [(a, b)], frequency[..], up[..], flag[..])
  {
    StepIsSound(f, ms, a, b, frequency[..], up[..], flag[..]);
    FirstTwoDiffer(Live(frequency[..]), a, b);
    hide *;
    JoinTwo(frequency, up, flag, j, a, b);
  }

  lemma FirstTwoDiffer(g: map<nat, nat>, a: nat, b: nat)
    requires FirstTwo(g, a, b)
    ensures a != b
  {}

  method MergeNodes(frequency: array<int>, up: array<int>, flag: array<int>) returns (ghost ms: seq<(nat, nat)>)
    requires frequency.Length == up.Length == flag.Length == NODES
    requires frequency != up && up != flag && frequency != flag
    requires TableShape(frequency[..]) && forall i | 0 <= i < NODES :: up[i] == -1
    modifies frequency, up, flag
    ensures Complete(Live(old(frequency[..])), ms) && Recorded(up[..], flag[..], ms)
  {
    ghost var f := Live(frequency[..]);
    StartIsKept(frequency[..], up[..], flag[..]);
    hide *;
    ms := [];
    for j := SYMBOLS to NODES
      invariant |ms| == j - SYMBOLS && Kept(f, ms, frequency[..], up[..], flag[..])
    {
      ghost var freq0, up0, flag0 := frequency[..], up[..], flag[..];
      KeptIsScannable(f, ms, freq0, up0, flag0);
      var w0, w1, s0, s1 := FindTwo(frequency, j, Live(freq0));
      if w1 == NO_WEIGHT {
        KeptIsComplete(f, ms, freq0, up0, flag0);
        return;
      }
      ApplyMerge(frequency, up, flag, j, s0, s1, f, ms);
      ms := ms + [(s0, s1)];
    }
    KeptIsComplete(f, ms, frequency[..], up[..], flag[..]);
  }

  lemma ScanIsSafe(freq: seq<int>, f: map<nat, nat>, ms: seq<(nat, nat)>)
    requires |freq| == NODES && (forall i | 0 <= i < NODES :: 0 <= freq[i])
    requires Initial(f) && |ms| < NODES - SYMBOLS && Run(f, ms, |ms|) && Live(freq) == After(f, ms, |ms|)
    ensures Below(Live(freq), SYMBOLS + |ms|) && freq[SYMBOLS + |ms|] == 0
    ensures forall i | 0 <= i < NODES :: freq[i] < NO_WEIGHT
  {
    LiveAreBelow(f, ms, |ms|);
    assert forall i: nat | i < NODES && freq[i] != 0 :: i in Live(freq);
    forall i | 0 <= i < NODES && freq[i] != 0 ensures freq[i] < NO_WEIGHT {
      SentinelIsFree(f, ms, |ms|, i);
    }
  }

  // A code read as a binary number, its first branch in the highest bit.
  function Bits(code: seq<bool>): nat {
    if code == [] then 0 else 2 * Bits(code[..|code| - 1]) + if code[|code| - 1] then 1 else 0
  }

  ghost predicate Numbers(lens: seq<nat>, bits: seq<nat>, up: seq<int>, flag: seq<int>, n: nat)
    requires Linked(up) && |flag| == NODES && n <= SYMBOLS && n <= |lens| && n <= |bits|
  {
    forall i: nat | i < n :: lens[i] == |Walk(up, flag, i)| && bits[i] == Bits(Walk(up, flag, i))
  }

  ghost predicate TablesOf(f: map<nat, nat>, ms: seq<(nat, nat)>, up: seq<int>, flag: seq<int>,
                           lens: seq<nat>, bits: seq<nat>) {
    && Initial(f) && Complete(f, ms) && Recorded(up, flag, ms)
    && |lens| == SYMBOLS == |bits| && Numbers(lens, bits, up, flag, SYMBOLS)
  }

  // The code tables of a complete run of the merging loop on the weights f.
  ghost predicate HuffmanTables(f: map<nat, nat>, lens: seq<nat>, bits: seq<nat>) {
    exists ms, up, flag :: TablesOf(f, ms, up, flag, lens, bits)
  }

  method WriteCodes(up: array<int>, flag: array<int>, lens: array<nat>, bits: array<nat>,
                    ghost f: map<nat, nat>, ghost ms: seq<(nat, nat)>) returns (overflow: bool)
    requires up.Length == NODES == flag.Length && lens.Length == SYMBOLS == bits.Length && lens != bits
    requires Initial(f) && Complete(f, ms) && Recorded(up[..], flag[..], ms)
    modifies lens, bits
    ensures up[..] == old(up[..]) && flag[..] == old(flag[..])
    ensures Numbers(lens[..], bits[..], up[..], flag[..], SYMBOLS) && !overflow
  {
    overflow := false;
    ghost var ups, flags := up[..], flag[..];
    for j := 0 to SYMBOLS
      invariant up[..] == ups && flag[..] == flags && !overflow
      invariant Numbers(lens[..], bits[..], ups, flags, j)
    {
      WalkAtMost22(f, ms, ups, flags, j);
      FlagsAreBits(ups, flags, ms);
      var length, code, over := ClimbFrom(up, flag, j);
      overflow := overflow || over;
      ghost var lens0, bits0 := lens[..], bits[..];
      lens[j], bits[j] := length, code;
      assert lens[..] == lens0[j := length] && bits[..] == bits0[j := code];
    }
  }

  lemma FlagsAreBits(up: seq<int>, flag: seq<int>, ms: seq<(nat, nat)>)
    requires Recorded(up, flag, ms)
    ensures forall i | 0 <= i < NODES && up[i] != -1 :: flag[i] == 0 || flag[i] == 1
  {
    forall i: nat | i < NODES && up[i] != -1 ensures flag[i] == 0 || flag[i] == 1 {
      assert JoinedBy(ms, i, up[i]);
      assert RecordedAt(up, flag, ms, up[i] - SYMBOLS);
    }
  }

  method ClimbFrom(up: array<int>, flag: array<int>, j: nat) returns (length: nat, code: nat, overflow: bool)
    requires up.Length == NODES == flag.Length && Linked(up[..]) && j < SYMBOLS
    requires forall i | 0 <= i < NODES && up[i] != -1 :: flag[i] == 0 || flag[i] == 1
    ensures length == |Walk(up[..], flag[..], j)| && code == Bits(Walk(up[..], flag[..], j))
    ensures overflow <==> length > 31
  {
    ghost var ups, flags := up[..], flag[..];
    var node: nat := j;
    length, code, overflow := 0, 0, false;
    hide Climbed, Shifted, Bits;
    while up[node] != -1
      invariant 0 <= node < NODES
      invariant |Walk(ups, flags, j)| == |Walk(ups, flags, node)| + length
      invariant Bits(Walk(ups, flags, j)) == Climbed(Walk(ups, flags, node), length, code)
      invariant overflow <==> length > 31
      decreases NODES - node
    {
      assert ups[node] == up[node] && flags[node] == flag[node];
      ClimbStep(Walk(ups, flags, up[node]), flag[node], length, code);
      code := code + Shifted(flag[node], length);
      length := length + 1;
      if length > 31 { overflow := true; }
      node := up[node];
    }
  }

  // flag << len
  function Shifted(bit: int, length: nat): (n: nat)
    requires 0 <= bit <= 1
  {
    if bit == 0 then 0 else Pow2(length)
  }

  // The number of a code of which the last `length` branches are read already, as the number code.
  function Climbed(rest: seq<bool>, length: nat, code: nat): int { Bits(rest) * Pow2(length) + code }

  lemma ClimbStep(rest: seq<bool>, bit: int, length: nat, code: nat)
    requires 0 <= bit <= 1
    ensures Climbed(rest + [bit == 1], length, code) == Climbed(rest, length + 1, code + Shifted(bit, length))
  {
    assert (rest + [bit == 1])[..|rest|] == rest;
    var b, p := Bits(rest), Pow2(length);
    assert Bits(rest + [bit == 1]) == 2 * b + bit;
    assert (2 * b + bit) * p == b * (2 * p) + bit * p;
  }

  method ReadHuffmanTables(buf: seq<int>) returns (ok: bool, next: nat, lens: array<nat>, bits: array<nat>)
    requires Bytes(buf)
    ensures fresh(lens) && fresh(bits)
    ensures ok == ParseTable(buf).Some?
    ensures ok ==> next == ParseTable(buf).value.1 <= |buf| && next % 4 == 0
    ensures ok ==> (forall i | 0 <= i < NODES :: 0 <= ParseTable(buf).value.0[i])
                   && HuffmanTables(Live(ParseTable(buf).value.0), lens[..], bits[..])
  {
    lens, bits := new nat[SYMBOLS](_ => 0), new nat[SYMBOLS](_ => 0);
    var frequency, up, flag := new int[NODES](_ => 0), new int[NODES](_ => -1), new int[NODES](_ => 0);
    assert frequency[..] == Zeros();
    ok, next := ReadFrequencies(buf, frequency);
    if !ok {
      return;
    }
    ParsedTableShape(buf);
    ghost var f := Live(frequency[..]);
    ghost var ms := MergeNodes(frequency, up, flag);
    var overflow := WriteCodes(up, flag, lens, bits, f, ms);
    assert TablesOf(f, ms, up[..], flag[..], lens[..], bits[..]);
  }
}
