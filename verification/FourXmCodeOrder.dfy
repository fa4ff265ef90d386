/** Which symbols of FourXmHuffman get the longer codes: the order of the codes follows from the
    order in which the scan prefers nodes, equal frequencies included. */
module FourXmCodeOrder {
  import opened HuffmanTrees
  import opened FourXmHuffman
  import opened FourXmCodeTables

  // What one merge does to any two live nodes.
  lemma MergeFacts(f: map<nat, nat>, ms: seq<(nat, nat)>, up: seq<int>, flag: seq<int>, k: nat)
    requires Initial(f) && Run(f, ms, |ms|) && Recorded(up, flag, ms) && k < |ms|
    ensures Linked(up) && |flag| == NODES && SYMBOLS + k < NODES && ms[k].0 < NODES && ms[k].1 < NODES
    ensures Below(After(f, ms, k), SYMBOLS + k) && FirstTwo(After(f, ms, k), ms[k].0, ms[k].1)
    ensures After(f, ms, k + 1) == Join(After(f, ms, k), ms[k], SYMBOLS + k)
    ensures |Walk(up, flag, ms[k].0)| == |Walk(up, flag, SYMBOLS + k)| + 1 == |Walk(up, flag, ms[k].1)|
  {
    StepFacts(f, ms, k);
    PartsAreOneDeeper(f, ms, up, flag, k);
    RecordedIsLinked(up, flag, ms);
  }

  lemma RootsAreLevel(f: map<nat, nat>, ms: seq<(nat, nat)>, up: seq<int>, flag: seq<int>, i: nat)
    requires Initial(f) && Run(f, ms, |ms|) && Recorded(up, flag, ms) && i in After(f, ms, |ms|)
    ensures Linked(up) && |flag| == NODES && i < NODES && Walk(up, flag, i) == []
  {
    LiveAreBelow(f, ms, |ms|);
    LiveHasNoParent(f, ms, up, flag, i);
  }

  lemma LiveIsNode(f: map<nat, nat>, ms: seq<(nat, nat)>, up: seq<int>, flag: seq<int>, k: nat)
    requires Initial(f) && Run(f, ms, |ms|) && Recorded(up, flag, ms) && k <= |ms|
    ensures Linked(up) && |flag| == NODES && forall i | i in After(f, ms, k) :: i < NODES
  {
    RunPrefix(f, ms, k, |ms|);
    LiveAreBelow(f, ms, k);
  }

  // How the preferred of two nodes fares in the next merge.
  lemma PreferredGoesFirst(g: map<nat, nat>, m: (nat, nat), z: nat, i: nat, j: nat)
    requires Below(g, z) && FirstTwo(g, m.0, m.1) && i in g && j in g && Precedes(g, i, j)
    ensures j == m.0 || j == m.1 ==> i == m.0 && j == m.1
    ensures i != m.0 && i != m.1 ==> i in Join(g, m, z) && Join(g, m, z)[i] == g[i] && i != z
    ensures j != m.0 && j != m.1 ==> j in Join(g, m, z) && Join(g, m, z)[j] == g[j] && j != z
  {}

  ghost predicate HalfAt(g: map<nat, nat>, w: nat) { forall c | c in g :: 2 * g[c] >= w }

  lemma JoinedWeight(g: map<nat, nat>, m: (nat, nat), z: nat, w: nat)
    requires Below(g, z) && FirstTwo(g, m.0, m.1)
    ensures z in Join(g, m, z) && Join(g, m, z)[z] == g[m.0] + g[m.1]
    ensures HalfAt(Join(g, m, z), g[m.0] + g[m.1])
    ensures HalfAt(g, w) ==> HalfAt(Join(g, m, z), w) && w <= g[m.0] + g[m.1]
  {}

  // A node that the scan prefers to another is at least as deep in the end.
  lemma {:induction false} PreferredIsDeeper(f: map<nat, nat>, ms: seq<(nat, nat)>, up: seq<int>, flag: seq<int>,
                                             k: nat, i: nat, j: nat)
    requires Initial(f) && Run(f, ms, |ms|) && Recorded(up, flag, ms) && k <= |ms|
    requires i in After(f, ms, k) && j in After(f, ms, k) && Precedes(After(f, ms, k), i, j)
    ensures Linked(up) && |flag| == NODES && i < NODES && j < NODES
    ensures |Walk(up, flag, i)| >= |Walk(up, flag, j)|
    decreases |ms| - k
  {
    hide *;
    LiveIsNode(f, ms, up, flag, k);
    if k == |ms| {
      RootsAreLevel(f, ms, up, flag, i);
      RootsAreLevel(f, ms, up, flag, j);
    } else {
      var g, m, z := After(f, ms, k), ms[k], SYMBOLS + k;
      MergeFacts(f, ms, up, flag, k);
      PreferredGoesFirst(g, m, z, i, j);
      JoinedWeight(g, m, z, 0);
      if j == m.0 || j == m.1 {
      } else if i == m.0 || i == m.1 {
        JoinedMeets(f, ms, up, flag, k, z, j);
      } else {
        StillPrecedes(g, Join(g, m, z), i, j);
        PreferredIsDeeper(f, ms, up, flag, k + 1, i, j);
      }
    }
  }

  lemma StillPrecedes(g: map<nat, nat>, g': map<nat, nat>, i: nat, j: nat)
    requires i in g && j in g && i in g' && j in g' && g[i] == g'[i] && g[j] == g'[j]
    ensures Precedes(g, i, j) <==> Precedes(g', i, j)
  {}

  lemma EitherPrecedes(g: map<nat, nat>, i: nat, j: nat)
    requires i in g && j in g && i != j
    ensures Precedes(g, i, j) || Precedes(g, j, i)
  {}

  // The node just joined is at most one level above any other live one.
  lemma {:induction false} JoinedMeets(f: map<nat, nat>, ms: seq<(nat, nat)>, up: seq<int>, flag: seq<int>, k: nat,
                                       z: nat, j: nat)
    requires Initial(f) && Run(f, ms, |ms|) && Recorded(up, flag, ms) && k < |ms| && z == SYMBOLS + k
    requires z in After(f, ms, k + 1) && j in After(f, ms, k + 1) && j != z
    ensures Linked(up) && |flag| == NODES && z < NODES && j < NODES
    ensures |Walk(up, flag, j)| <= |Walk(up, flag, z)| + 1
    decreases |ms| - k, 0
  {
    hide *;
    MergeFacts(f, ms, up, flag, k);
    LiveIsNode(f, ms, up, flag, k + 1);
    var g := After(f, ms, k + 1);
    JoinedWeight(After(f, ms, k), ms[k], z, 0);
    EitherPrecedes(g, z, j);
    if Precedes(g, z, j) {
      PreferredIsDeeper(f, ms, up, flag, k + 1, z, j);
    } else {
      LighterIsNear(f, ms, up, flag, k + 1, j, z, g[z]);
    }
  }

  // As long as two nodes together always outweigh z, a node preferred to z is at most one level
  // below it: when it is merged, z is preferred to the node that it becomes a part of.
  lemma {:induction false} LighterIsNear(f: map<nat, nat>, ms: seq<(nat, nat)>, up: seq<int>, flag: seq<int>, k: nat,
                                         j: nat, z: nat, w: nat)
    requires Initial(f) && Run(f, ms, |ms|) && Recorded(up, flag, ms) && k <= |ms|
    requires j in After(f, ms, k) && z in After(f, ms, k) && Precedes(After(f, ms, k), j, z)
    requires After(f, ms, k)[z] == w && HalfAt(After(f, ms, k), w)
    ensures Linked(up) && |flag| == NODES && z < NODES && j < NODES
    ensures |Walk(up, flag, j)| <= |Walk(up, flag, z)| + 1
    decreases |ms| - k
  {
    hide *;
    LiveIsNode(f, ms, up, flag, k);
    if k == |ms| {
      RootsAreLevel(f, ms, up, flag, j);
      RootsAreLevel(f, ms, up, flag, z);
    } else {
      var g, m, y := After(f, ms, k), ms[k], SYMBOLS + k;
      MergeFacts(f, ms, up, flag, k);
      PreferredGoesFirst(g, m, y, j, z);
      JoinedWeight(g, m, y, w);
      if z == m.0 || z == m.1 {
      } else if j == m.0 || j == m.1 {
        NewerComesLater(Join(g, m, y), z, y);
        PreferredIsDeeper(f, ms, up, flag, k + 1, z, y);
      } else {
        StillPrecedes(g, Join(g, m, y), j, z);
        LighterIsNear(f, ms, up, flag, k + 1, j, z, w);
      }
    }
  }

  lemma NewerComesLater(g: map<nat, nat>, z: nat, y: nat)
    requires z in g && y in g && g[z] <= g[y] && z < y
    ensures Precedes(g, z, y)
  {}

  // A rarer symbol never has a shorter code; among equally frequent symbols the lower one never has.
  lemma RarerIsLonger(f: map<nat, nat>, lens: seq<nat>, bits: seq<nat>, i: nat, j: nat)
    requires HuffmanTables(f, lens, bits) && i in f && j in f && (f[i] < f[j] || (f[i] == f[j] && i < j))
    ensures |lens| == SYMBOLS && i < SYMBOLS && j < SYMBOLS && lens[i] >= lens[j]
  {
    var ms, up, flag :| TablesOf(f, ms, up, flag, lens, bits);
    PreferredIsDeeper(f, ms, up, flag, 0, i, j);
  }

  // The two symbols merged first have codes that differ in their last bit only, 0 for the first.
  lemma FirstTwoAreTwins(f: map<nat, nat>, lens: seq<nat>, bits: seq<nat>, a: nat, b: nat)
    requires HuffmanTables(f, lens, bits) && FirstTwo(f, a, b)
    ensures |lens| == SYMBOLS == |bits| && a < SYMBOLS && b < SYMBOLS
    ensures lens[a] == lens[b] > 0 && bits[a] % 2 == 0 && bits[b] == bits[a] + 1
  {
    var ms, up, flag :| TablesOf(f, ms, up, flag, lens, bits);
    TwinsInTables(f, ms, up, flag, lens, bits, a, b);
  }

  lemma TwinsInTables(f: map<nat, nat>, ms: seq<(nat, nat)>, up: seq<int>, flag: seq<int>, lens: seq<nat>,
                      bits: seq<nat>, a: nat, b: nat)
    requires TablesOf(f, ms, up, flag, lens, bits) && FirstTwo(f, a, b)
    ensures |lens| == SYMBOLS == |bits| && a < SYMBOLS && b < SYMBOLS
    ensures lens[a] == lens[b] > 0 && bits[a] % 2 == 0 && bits[b] == bits[a] + 1
  {
    hide *;
    TablesAreComplete(f, ms, up, flag, lens, bits);
    SomeMerge(f, ms, a, b);
    FirstMerge(f, ms, up, flag, a, b);
    TablesAreWalks(f, ms, up, flag, lens, bits, a);
    TablesAreWalks(f, ms, up, flag, lens, bits, b);
    LastBit(Walk(up, flag, SYMBOLS), false);
    LastBit(Walk(up, flag, SYMBOLS), true);
  }

  lemma TablesAreComplete(f: map<nat, nat>, ms: seq<(nat, nat)>, up: seq<int>, flag: seq<int>, lens: seq<nat>,
                          bits: seq<nat>)
    requires TablesOf(f, ms, up, flag, lens, bits)
    ensures Initial(f) && Complete(f, ms) && Run(f, ms, |ms|) && Recorded(up, flag, ms)
  {}

  lemma SomeMerge(f: map<nat, nat>, ms: seq<(nat, nat)>, a: nat, b: nat)
    requires Complete(f, ms) && FirstTwo(f, a, b)
    ensures |ms| > 0
  {
    assert After(f, ms, 0) == f;
  }

  lemma FirstMerge(f: map<nat, nat>, ms: seq<(nat, nat)>, up: seq<int>, flag: seq<int>, a: nat, b: nat)
    requires Initial(f) && Run(f, ms, |ms|) && Recorded(up, flag, ms) && |ms| > 0 && FirstTwo(f, a, b)
    ensures Linked(up) && |flag| == NODES && a < SYMBOLS && b < SYMBOLS
    ensures Walk(up, flag, a) == Walk(up, flag, SYMBOLS) + [false]
    ensures Walk(up, flag, b) == Walk(up, flag, SYMBOLS) + [true]
  {
    StepFacts(f, ms, 0);
    StepLinks(up, flag, ms, 0);
    assert ms[0] == (a, b);
    hide Run, Recorded, Initial, After;
  }

  lemma TablesAreWalks(f: map<nat, nat>, ms: seq<(nat, nat)>, up: seq<int>, flag: seq<int>, lens: seq<nat>,
                       bits: seq<nat>, i: nat)
    requires TablesOf(f, ms, up, flag, lens, bits) && i < SYMBOLS
    ensures Linked(up) && |flag| == NODES && |lens| == SYMBOLS == |bits|
    ensures lens[i] == |Walk(up, flag, i)| && bits[i] == Bits(Walk(up, flag, i))
  {}

  lemma LastBit(front: seq<bool>, b: bool)
    ensures Bits(front + [b]) == 2 * Bits(front) + if b then 1 else 0
  {
    assert (front + [b])[..|front|] == front;
  }
}
