/** Binary code trees whose leaves are node numbers: the codes they assign, their
    weighted length, and the fact that merging the two lightest nodes first is optimal.
    Independent of how FFmpeg/libavcodec/4xm.c stores a tree in arrays. */
module HuffmanTrees {

  datatype Tree = Leaf(id: nat) | Node(left: Tree, right: Tree)

  function Ids(t: Tree): set<nat> {
    match t
    case Leaf(id) => {id}
    case Node(l, r) => Ids(l) + Ids(r)
  }

  // Every node number labels at most one leaf.
  predicate Proper(t: Tree) {
    match t
    case Leaf(_) => true
    case Node(l, r) => Proper(l) && Proper(r) && Ids(l) !! Ids(r)
  }

  // The branch decisions from the root to a leaf, root first; false is the left branch.
  function Code(t: Tree, id: nat): seq<bool>
    requires id in Ids(t)
  {
    match t
    case Leaf(_) => []
    case Node(l, r) => if id in Ids(l) then [false] + Code(l, id) else [true] + Code(r, id)
  }

  function Height(t: Tree): nat {
    match t
    case Leaf(_) => 0
    case Node(l, r) => 1 + if Height(l) >= Height(r) then Height(l) else Height(r)
  }

  function Weight(t: Tree, f: map<nat, nat>): nat
    requires Ids(t) <= f.Keys
  {
    match t
    case Leaf(id) => f[id]
    case Node(l, r) => Weight(l, f) + Weight(r, f)
  }

  // Sum over the leaves of weight times depth, computed as the sum of all inner weights.
  function Cost(t: Tree, f: map<nat, nat>): nat
    requires Ids(t) <= f.Keys
  {
    match t
    case Leaf(_) => 0
    case Node(l, r) => Cost(l, f) + Cost(r, f) + Weight(l, f) + Weight(r, f)
  }

  // ------------------------------------------------------------------ prefix freedom

  lemma {:induction false} CodesArePrefixFree(t: Tree, a: nat, b: nat)
    requires Proper(t) && a in Ids(t) && b in Ids(t) && a != b
    ensures !(Code(t, a) <= Code(t, b))
  {
    match t
    case Leaf(_) =>
    case Node(l, r) =>
      var ca, cb := Code(t, a), Code(t, b);
      if a in Ids(l) && b in Ids(l) {
        CodesArePrefixFree(l, a, b);
        assert ca[1..] == Code(l, a) && cb[1..] == Code(l, b);
      } else if a in Ids(r) && b in Ids(r) {
        CodesArePrefixFree(r, a, b);
        assert ca[1..] == Code(r, a) && cb[1..] == Code(r, b);
      } else {
        assert ca[0] != cb[0];
      }
  }

  lemma {:induction false} CodeAtMostHeight(t: Tree, id: nat)
    requires id in Ids(t)
    ensures |Code(t, id)| <= Height(t)
  {
    match t
    case Leaf(_) =>
    case Node(l, r) => if id in Ids(l) { CodeAtMostHeight(l, id); } else { CodeAtMostHeight(r, id); }
  }

  lemma {:induction false} HasLeaf(t: Tree)
    ensures Ids(t) != {}
  {
    if t.Node? { HasLeaf(t.left); }
  }

  // ------------------------------------------------------------------ sums over leaves

  // Sum of g(i) over the members of s below n.
  function SumOn(n: nat, s: set<nat>, g: nat -> int): int {
    if n == 0 then 0 else SumOn(n - 1, s, g) + if n - 1 in s then g(n - 1) else 0
  }

  lemma {:induction false} SumSplits(n: nat, a: set<nat>, b: set<nat>, g: nat -> int)
    requires a !! b
    ensures SumOn(n, a + b, g) == SumOn(n, a, g) + SumOn(n, b, g)
  {
    if n > 0 { SumSplits(n - 1, a, b, g); }
  }

  lemma {:induction false} SumMonotone(n: nat, s: set<nat>, g: nat -> int, h: nat -> int)
    requires forall i | i in s && i < n :: g(i) <= h(i)
    ensures SumOn(n, s, g) <= SumOn(n, s, h)
  {
    if n > 0 { SumMonotone(n - 1, s, g, h); }
  }

  lemma SumCongruent(n: nat, s: set<nat>, g: nat -> int, h: nat -> int)
    requires forall i | i in s && i < n :: g(i) == h(i)
    ensures SumOn(n, s, g) == SumOn(n, s, h)
  {
    SumMonotone(n, s, g, h);
    SumMonotone(n, s, h, g);
  }

  lemma {:induction false} SumSingle(n: nat, x: nat, g: nat -> int)
    requires x < n
    ensures SumOn(n, {x}, g) == g(x)
  {
    if n - 1 == x { SumNone(n - 1, {x}, g); } else { SumSingle(n - 1, x, g); }
  }

  lemma {:induction false} SumNone(n: nat, s: set<nat>, g: nat -> int)
    requires forall i | i in s :: n <= i
    ensures SumOn(n, s, g) == 0
  {
    if n > 0 { SumNone(n - 1, s, g); }
  }

  lemma {:induction false} SumConstant(n: nat, s: set<nat>, g: nat -> int, v: int)
    requires forall i | i in s :: i < n && g(i) == v
    ensures SumOn(n, s, g) == |s| * v
  {
    if n == 0 {
      assert s == {};
    } else {
      var rest := s - {n - 1};
      SumConstant(n - 1, rest, g, v);
      SumCut(n - 1, s, n - 1, g);
      if n - 1 in s {
        assert |rest| == |s| - 1;
        assert |s| * v == |rest| * v + v;
      } else {
        assert rest == s;
      }
    }
  }

  lemma {:induction false} SumCut(n: nat, s: set<nat>, x: nat, g: nat -> int)
    requires n <= x
    ensures SumOn(n, s, g) == SumOn(n, s - {x}, g)
  {
    if n > 0 { SumCut(n - 1, s, x, g); }
  }

  function Pow2(n: nat): nat { if n == 0 then 1 else 2 * Pow2(n - 1) }

  // The share of a code space of 2^bits taken by each leaf of a tree.
  function Share(t: Tree, bits: nat): nat -> int {
    i => if i in Ids(t) && |Code(t, i)| <= bits then Pow2(bits - |Code(t, i)|) else 0
  }

  // Kraft's equality: the codes of a tree fill the code space exactly.
  lemma {:induction false} KraftExact(t: Tree, bits: nat, n: nat)
    requires Proper(t) && Height(t) <= bits
    requires forall i | i in Ids(t) :: i < n
    ensures SumOn(n, Ids(t), Share(t, bits)) == Pow2(bits)
  {
    match t
    case Leaf(id) => SumSingle(n, id, Share(t, bits));
    case Node(l, r) =>
      assert forall i | i in Ids(l) || i in Ids(r) :: i in Ids(t);
      hide Share, SumOn;
      KraftExact(l, bits - 1, n);
      KraftExact(r, bits - 1, n);
      HalvesShare(t, bits, n);
  }

  // Each half of a tree takes the share it has of half the code space.
  lemma HalvesShare(t: Tree, bits: nat, n: nat)
    requires Proper(t) && t.Node? && 0 < Height(t) <= bits
    ensures SumOn(n, Ids(t), Share(t, bits))
         == SumOn(n, Ids(t.left), Share(t.left, bits - 1)) + SumOn(n, Ids(t.right), Share(t.right, bits - 1))
  {
    var l, r := t.left, t.right;
    hide Share, SumOn, Height, Code;
    SumSplits(n, Ids(l), Ids(r), Share(t, bits));
    forall i | i in Ids(t)
      ensures Share(t, bits)(i) == if i in Ids(l) then Share(l, bits - 1)(i) else Share(r, bits - 1)(i)
    {
    }
    SumCongruent(n, Ids(l), Share(t, bits), Share(l, bits - 1));
    SumCongruent(n, Ids(r), Share(t, bits), Share(r, bits - 1));
  }

  // The contribution of each leaf to the weighted code length.
  function Charge(t: Tree, f: map<nat, nat>): nat -> int {
    i => if i in Ids(t) && i in f then f[i] * |Code(t, i)| else 0
  }

  function WeightAt(f: map<nat, nat>): nat -> int { i => if i in f then f[i] else 0 }

  lemma {:induction false} WeightIsSum(t: Tree, f: map<nat, nat>, n: nat)
    requires Proper(t) && Ids(t) <= f.Keys
    requires forall i | i in Ids(t) :: i < n
    ensures Weight(t, f) == SumOn(n, Ids(t), WeightAt(f))
  {
    match t
    case Leaf(id) => SumSingle(n, id, WeightAt(f));
    case Node(l, r) =>
      WeightIsSum(l, f, n);
      WeightIsSum(r, f, n);
      SumSplits(n, Ids(l), Ids(r), WeightAt(f));
  }

  lemma {:induction false} SumAdds(n: nat, s: set<nat>, g: nat -> int, h: nat -> int, k: nat -> int)
    requires forall i | i in s && i < n :: k(i) == g(i) + h(i)
    ensures SumOn(n, s, k) == SumOn(n, s, g) + SumOn(n, s, h)
  {
    if n > 0 { SumAdds(n - 1, s, g, h, k); }
  }

  lemma Distribute(w: int, rest: int)
    ensures w * (1 + rest) == w + w * rest
  {}

  lemma ChargeStep(l: Tree, r: Tree, f: map<nat, nat>, i: nat)
    requires i in f && (i in Ids(l) || i in Ids(r))
    ensures Charge(Node(l, r), f)(i) == (if i in Ids(l) then Charge(l, f)(i) else Charge(r, f)(i)) + f[i]
  {
    Distribute(f[i], if i in Ids(l) then |Code(l, i)| else |Code(r, i)|);
  }

  // Cost is the weighted code length: the sum over the leaves of weight times code length.
  lemma {:induction false} CostIsWeightedLength(t: Tree, f: map<nat, nat>, n: nat)
    requires Proper(t) && Ids(t) <= f.Keys
    requires forall i | i in Ids(t) :: i < n
    ensures Cost(t, f) == SumOn(n, Ids(t), Charge(t, f))
  {
    match t
    case Leaf(id) => SumSingle(n, id, Charge(t, f));
    case Node(l, r) =>
      CostIsWeightedLength(l, f, n);
      CostIsWeightedLength(r, f, n);
      WeightIsSum(l, f, n);
      WeightIsSum(r, f, n);
      SumSplits(n, Ids(l), Ids(r), Charge(t, f));
      forall i | i in Ids(l) || i in Ids(r)
        ensures Charge(t, f)(i) == (if i in Ids(l) then Charge(l, f)(i) else Charge(r, f)(i)) + WeightAt(f)(i)
      {
        ChargeStep(l, r, f, i);
      }
      SumAdds(n, Ids(l), Charge(l, f), WeightAt(f), Charge(t, f));
      SumAdds(n, Ids(r), Charge(r, f), WeightAt(f), Charge(t, f));
  }

  // ------------------------------------------------------------------ exchanging two leaves

  function Other(x: nat, y: nat, i: nat): nat { if i == x then y else if i == y then x else i }

  // The tree with the labels x and y exchanged.
  function Swap(t: Tree, x: nat, y: nat): Tree {
    match t
    case Leaf(id) => Leaf(Other(x, y, id))
    case Node(l, r) => Node(Swap(l, x, y), Swap(r, x, y))
  }

  lemma {:induction false} SwapIds(t: Tree, x: nat, y: nat)
    ensures forall i :: i in Ids(Swap(t, x, y)) <==> Other(x, y, i) in Ids(t)
    ensures Proper(t) ==> Proper(Swap(t, x, y))
  {
    match t
    case Leaf(_) =>
    case Node(l, r) =>
      SwapIds(l, x, y);
      SwapIds(r, x, y);
      if Proper(t) {
        forall i | i in Ids(Swap(l, x, y)) ensures i !in Ids(Swap(r, x, y)) {
          assert Other(x, y, i) in Ids(l);
        }
      }
  }

  lemma {:induction false} SwapCode(t: Tree, x: nat, y: nat, i: nat)
    requires Proper(t) && i in Ids(t) && Other(x, y, i) in Ids(Swap(t, x, y))
    ensures Code(Swap(t, x, y), Other(x, y, i)) == Code(t, i)
  {
    match t
    case Leaf(_) =>
    case Node(l, r) =>
      SwapIds(l, x, y);
      SwapIds(r, x, y);
      assert Other(x, y, Other(x, y, i)) == i;
      if i in Ids(l) { SwapCode(l, x, y, i); } else { SwapCode(r, x, y, i); }
  }

  lemma {:induction false} SwapCost(t: Tree, x: nat, y: nat, f: map<nat, nat>)
    requires x in f && y in f && Ids(t) <= f.Keys
    ensures Ids(Swap(t, x, y)) <= f.Keys
    ensures Weight(Swap(t, x, y), f) == Weight(t, f[x := f[y]][y := f[x]])
    ensures Cost(Swap(t, x, y), f) == Cost(t, f[x := f[y]][y := f[x]])
  {
    match t
    case Leaf(_) =>
    case Node(l, r) => SwapCost(l, x, y, f); SwapCost(r, x, y, f);
  }

  lemma {:induction false} Frame(t: Tree, f: map<nat, nat>, g: map<nat, nat>)
    requires Ids(t) <= f.Keys && Ids(t) <= g.Keys
    requires forall i | i in Ids(t) :: f[i] == g[i]
    ensures Weight(t, f) == Weight(t, g) && Cost(t, f) == Cost(t, g)
  {
    match t
    case Leaf(_) =>
    case Node(l, r) => Frame(l, f, g); Frame(r, f, g);
  }

  lemma {:induction false} Reweigh(t: Tree, f: map<nat, nat>, x: nat, v: nat)
    requires Proper(t) && Ids(t) <= f.Keys && x in Ids(t)
    ensures Weight(t, f[x := v]) == Weight(t, f) + v - f[x]
    ensures Cost(t, f[x := v]) == Cost(t, f) + (v - f[x]) * |Code(t, x)|
  {
    match t
    case Leaf(_) =>
    case Node(l, r) =>
      var (in_, out) := if x in Ids(l) then (l, r) else (r, l);
      Reweigh(in_, f, x, v);
      Frame(out, f, f[x := v]);
      assert |Code(t, x)| == 1 + |Code(in_, x)|;
      assert (v - f[x]) * (1 + |Code(in_, x)|) == (v - f[x]) + (v - f[x]) * |Code(in_, x)|;
  }

  lemma DeeperIsDearer(light: int, heavy: int, deep: int, shallow: int)
    requires light <= heavy && shallow <= deep
    ensures (light - heavy) * deep + (heavy - light) * shallow <= 0
  {
    assert (heavy - light) * (deep - shallow) >= 0;
  }

  lemma ReweighTwice(t: Tree, f: map<nat, nat>, x: nat, a: nat, u: nat, v: nat, dx: nat, da: nat)
    requires Proper(t) && Ids(t) == f.Keys && x in f && a in f && a != x
    requires dx == |Code(t, x)| && da == |Code(t, a)|
    ensures Cost(t, f[x := u][a := v]) == Cost(t, f) + (u - f[x]) * dx + (v - f[a]) * da
  {
    Reweigh(t, f, x, u);
    Reweigh(t, f[x := u], a, v);
  }

  lemma ExchangeWeights(t: Tree, f: map<nat, nat>, x: nat, a: nat)
    requires Proper(t) && Ids(t) == f.Keys && x in f && a in f && a != x
    requires f[a] <= f[x] && |Code(t, a)| <= |Code(t, x)|
    ensures Cost(t, f[x := f[a]][a := f[x]]) <= Cost(t, f)
  {
    var dx, da, u, v := |Code(t, x)|, |Code(t, a)|, f[a], f[x];
    ReweighTwice(t, f, x, a, u, v, dx, da);
    DeeperIsDearer(u, v, dx, da);
  }

  // Moving the lighter leaf a to a place at least as deep does not lengthen the code.
  lemma ExchangeHelps(t: Tree, f: map<nat, nat>, x: nat, a: nat)
    requires Proper(t) && Ids(t) == f.Keys && x in f && a in f
    requires f[a] <= f[x] && |Code(t, a)| <= |Code(t, x)|
    ensures Ids(Swap(t, x, a)) == f.Keys && Proper(Swap(t, x, a))
    ensures Cost(Swap(t, x, a), f) <= Cost(t, f)
  {
    SwapIds(t, x, a);
    SwapCost(t, x, a, f);
    if x != a { ExchangeWeights(t, f, x, a); } else { assert f == f[x := f[a]][a := f[x]]; }
  }

  // ------------------------------------------------------------------ sibling leaves

  predicate Siblings(t: Tree, x: nat, y: nat) {
    match t
    case Leaf(_) => false
    case Node(l, r) =>
      t == Node(Leaf(x), Leaf(y)) || t == Node(Leaf(y), Leaf(x)) || Siblings(l, x, y) || Siblings(r, x, y)
  }

  lemma {:induction false} SiblingIds(t: Tree, x: nat, y: nat)
    requires Siblings(t, x, y)
    ensures x in Ids(t) && y in Ids(t) && (Proper(t) ==> x != y)
  {
    match t
    case Node(l, r) =>
      if Siblings(l, x, y) { SiblingIds(l, x, y); } else if Siblings(r, x, y) { SiblingIds(r, x, y); }
  }

  lemma {:induction false} DeepestSiblings(t: Tree) returns (x: nat, y: nat)
    requires Proper(t) && t.Node?
    ensures Siblings(t, x, y) && x in Ids(t) && y in Ids(t)
    ensures |Code(t, x)| == Height(t) == |Code(t, y)|
  {
    var Node(l, r) := t;
    if l.Leaf? && r.Leaf? {
      x, y := l.id, r.id;
    } else if Height(l) >= Height(r) {
      x, y := DeepestSiblings(l);
    } else {
      x, y := DeepestSiblings(r);
      assert x !in Ids(l) && y !in Ids(l);
    }
  }

  lemma {:induction false} SwapSiblings(t: Tree, x: nat, y: nat, u: nat, v: nat)
    requires Siblings(t, u, v)
    ensures Siblings(Swap(t, x, y), Other(x, y, u), Other(x, y, v))
  {
    match t
    case Node(l, r) =>
      if Siblings(l, u, v) { SwapSiblings(l, x, y, u, v); }
      else if Siblings(r, u, v) { SwapSiblings(r, x, y, u, v); }
  }

  // Replaces the sibling leaves x and y by the single leaf z.
  function Contract(t: Tree, x: nat, y: nat, z: nat): Tree
    requires Siblings(t, x, y)
  {
    var Node(l, r) := t;
    if t == Node(Leaf(x), Leaf(y)) || t == Node(Leaf(y), Leaf(x)) then Leaf(z)
    else if Siblings(l, x, y) then Node(Contract(l, x, y, z), r)
    else Node(l, Contract(r, x, y, z))
  }

  function Merge(f: map<nat, nat>, x: nat, y: nat, z: nat): map<nat, nat>
    requires x in f && y in f
  {
    (f - {x, y})[z := f[x] + f[y]]
  }

  lemma {:induction false} ContractCost(t: Tree, x: nat, y: nat, z: nat, f: map<nat, nat>)
    requires Proper(t) && Siblings(t, x, y) && Ids(t) <= f.Keys && z !in f && x in f && y in f
    ensures Proper(Contract(t, x, y, z)) && Ids(Contract(t, x, y, z)) == Ids(t) - {x, y} + {z}
    ensures Ids(Contract(t, x, y, z)) <= Merge(f, x, y, z).Keys
    ensures Weight(Contract(t, x, y, z), Merge(f, x, y, z)) == Weight(t, f)
    ensures Cost(Contract(t, x, y, z), Merge(f, x, y, z)) + f[x] + f[y] == Cost(t, f)
  {
    var Node(l, r) := t;
    SiblingIds(t, x, y);
    if t == Node(Leaf(x), Leaf(y)) || t == Node(Leaf(y), Leaf(x)) {
    } else if Siblings(l, x, y) {
      SiblingIds(l, x, y);
      ContractCost(l, x, y, z, f);
      Frame(r, f, Merge(f, x, y, z));
    } else {
      SiblingIds(r, x, y);
      ContractCost(r, x, y, z, f);
      Frame(l, f, Merge(f, x, y, z));
    }
  }

  // Splits the leaf z into an inner node over the leaves a (left) and b (right).
  function Expand(t: Tree, z: nat, a: nat, b: nat): Tree {
    match t
    case Leaf(id) => if id == z then Node(Leaf(a), Leaf(b)) else t
    case Node(l, r) => Node(Expand(l, z, a, b), Expand(r, z, a, b))
  }

  lemma {:induction false} ExpandAbsent(t: Tree, z: nat, a: nat, b: nat)
    requires z !in Ids(t)
    ensures Expand(t, z, a, b) == t
  {
    match t
    case Leaf(_) =>
    case Node(l, r) => ExpandAbsent(l, z, a, b); ExpandAbsent(r, z, a, b);
  }

  lemma {:induction false} ExpandCost(t: Tree, z: nat, a: nat, b: nat, f: map<nat, nat>)
    requires Proper(t) && z in Ids(t) && z !in f && a in f && b in f && a != b
    requires Ids(t) <= Merge(f, a, b, z).Keys
    ensures Proper(Expand(t, z, a, b)) && Ids(Expand(t, z, a, b)) == Ids(t) - {z} + {a, b}
    ensures Weight(Expand(t, z, a, b), f) == Weight(t, Merge(f, a, b, z))
    ensures Cost(Expand(t, z, a, b), f) == Cost(t, Merge(f, a, b, z)) + f[a] + f[b]
  {
    match t
    case Leaf(_) =>
    case Node(l, r) =>
      var (in_, out) := if z in Ids(l) then (l, r) else (r, l);
      ExpandCost(in_, z, a, b, f);
      ExpandAbsent(out, z, a, b);
      Frame(out, f, Merge(f, a, b, z));
  }

  lemma {:induction false} ExpandKeeps(t: Tree, z: nat, a: nat, b: nat)
    ensures forall i | i != a && i != b :: i in Ids(Expand(t, z, a, b)) <==> i in Ids(t) && i != z
    ensures z !in Ids(t) ==> Expand(t, z, a, b) == t
    ensures z in Ids(t) ==> a in Ids(Expand(t, z, a, b)) && b in Ids(Expand(t, z, a, b))
  {
    match t
    case Leaf(_) =>
    case Node(l, r) => ExpandKeeps(l, z, a, b); ExpandKeeps(r, z, a, b);
  }

  lemma {:induction false} ExpandCode(t: Tree, z: nat, a: nat, b: nat, i: nat)
    requires Proper(t) && a !in Ids(t) && b !in Ids(t) && a != b && i in Ids(t)
    ensures i != z ==> i in Ids(Expand(t, z, a, b)) && Code(Expand(t, z, a, b), i) == Code(t, i)
    ensures i == z ==> a in Ids(Expand(t, z, a, b)) && Code(Expand(t, z, a, b), a) == Code(t, z) + [false]
    ensures i == z ==> b in Ids(Expand(t, z, a, b)) && Code(Expand(t, z, a, b), b) == Code(t, z) + [true]
  {
    match t
    case Leaf(_) =>
    case Node(l, r) =>
      ExpandKeeps(l, z, a, b);
      ExpandKeeps(r, z, a, b);
      if i in Ids(l) { ExpandCode(l, z, a, b, i); } else { ExpandCode(r, z, a, b, i); }
  }

  // ------------------------------------------------------------------ the greedy step

  // a and b carry the two smallest weights.
  predicate Lightest(f: map<nat, nat>, a: nat, b: nat) {
    a in f && b in f && a != b && f[a] <= f[b] && forall c | c in f && c != a && c != b :: f[b] <= f[c]
  }

  // Some tree that has the two lightest leaves as siblings is at least as short as t; this is that
  // tree with the siblings merged.
  lemma GreedyStep(t: Tree, f: map<nat, nat>, a: nat, b: nat, z: nat) returns (u: Tree)
    requires Proper(t) && Ids(t) == f.Keys && Lightest(f, a, b) && z !in f
    ensures Proper(u) && Ids(u) == Merge(f, a, b, z).Keys
    ensures Cost(u, Merge(f, a, b, z)) + f[a] + f[b] <= Cost(t, f)
  {
    var t1, y1 := LightestGoesDeepest(t, f, a, b);
    var t2 := SecondBecomesSibling(t1, f, a, b, y1);
    ContractCost(t2, a, b, z, f);
    u := Contract(t2, a, b, z);
  }

  lemma LightestGoesDeepest(t: Tree, f: map<nat, nat>, a: nat, b: nat) returns (u: Tree, y: nat)
    requires Proper(t) && Ids(t) == f.Keys && Lightest(f, a, b)
    ensures Proper(u) && Ids(u) == f.Keys && Cost(u, f) <= Cost(t, f)
    ensures Siblings(u, a, y) && y in f && y != a && |Code(u, y)| == Height(u)
  {
    assert t.Node? by { if t.Leaf? { assert a in Ids(t) && b in Ids(t); } }
    var x, y0 := DeepestSiblings(t);
    CodeAtMostHeight(t, a);
    hide Code, Cost, Proper, Ids, Height, Siblings;
    assert f[a] <= f[x];
    ExchangeHelps(t, f, x, a);
    u, y := Swap(t, x, a), Other(x, a, y0);
    SwapSiblings(t, x, a, x, y0);
    SiblingIds(u, a, y);
    SwapIds(t, x, a);
    SwapCode(t, x, a, y0);
    SwapHeight(t, x, a);
  }

  lemma SecondBecomesSibling(t: Tree, f: map<nat, nat>, a: nat, b: nat, y: nat) returns (u: Tree)
    requires Proper(t) && Ids(t) == f.Keys && Lightest(f, a, b)
    requires Siblings(t, a, y) && y in f && y != a && |Code(t, y)| == Height(t)
    ensures Proper(u) && Ids(u) == f.Keys && Cost(u, f) <= Cost(t, f) && Siblings(u, a, b)
  {
    CodeAtMostHeight(t, b);
    hide Code, Cost, Proper, Ids, Height, Siblings;
    ExchangeHelps(t, f, y, b);
    u := Swap(t, y, b);
    SwapSiblings(t, y, b, a, y);
  }

  lemma {:induction false} SwapHeight(t: Tree, x: nat, y: nat)
    ensures Height(Swap(t, x, y)) == Height(t)
  {
    match t
    case Leaf(_) =>
    case Node(l, r) => SwapHeight(l, x, y); SwapHeight(r, x, y);
  }

  // ------------------------------------------------------------------ prefix codes are trees

  predicate PrefixFree(c: map<nat, seq<bool>>) {
    forall i, j | i in c && j in c && i != j :: !(c[i] <= c[j])
  }

  function Tails(c: map<nat, seq<bool>>, bit: bool): map<nat, seq<bool>> {
    map i | i in c && c[i] != [] && c[i][0] == bit :: c[i][1..]
  }

  // t is a tree over the symbols of c with codes no longer than the words of c.
  ghost predicate Matches(t: Tree, c: map<nat, seq<bool>>) {
    Proper(t) && Ids(t) == c.Keys && forall i | i in c :: |Code(t, i)| <= |c[i]|
  }

  ghost predicate Within(c: map<nat, seq<bool>>, bound: nat) { forall i | i in c :: |c[i]| <= bound }

  // Every prefix code is matched, word for word no longer, by the codes of a tree.
  lemma {:induction false} CodeAsTree(c: map<nat, seq<bool>>, bound: nat) returns (t: Tree)
    requires c.Keys != {} && PrefixFree(c) && forall i | i in c :: |c[i]| <= bound
    ensures Proper(t) && Ids(t) == c.Keys
    ensures forall i | i in c :: |Code(t, i)| <= |c[i]|
  {
    t := MatchingTree(c, bound);
  }

  lemma {:induction false} MatchingTree(c: map<nat, seq<bool>>, bound: nat) returns (t: Tree)
    requires c.Keys != {} && PrefixFree(c) && Within(c, bound)
    ensures Matches(t, c)
    decreases bound
  {
    var k :| k in c.Keys;
    var z, w := Tails(c, false), Tails(c, true);
    if c.Keys == {k} {
      t := Leaf(k);
    } else {
      TwoHalves(c, k, bound);
      hide *;
      if z.Keys == {} {
        t := MatchingTree(w, bound - 1);
      } else if w.Keys == {} {
        t := MatchingTree(z, bound - 1);
      } else {
        var l := MatchingTree(z, bound - 1);
        var r := MatchingTree(w, bound - 1);
        t := Node(l, r);
        BothSides(c, l, r);
      }
    }
  }

  // The words of a code of several words, sorted by their first bit.
  lemma TwoHalves(c: map<nat, seq<bool>>, k: nat, bound: nat)
    requires k in c && c.Keys != {k} && PrefixFree(c) && Within(c, bound)
    ensures forall i | i in c :: c[i] != []
    ensures var z, w := Tails(c, false), Tails(c, true);
            && bound > 0 && PrefixFree(z) && PrefixFree(w) && Within(z, bound - 1) && Within(w, bound - 1)
            && (z.Keys == {} ==> c.Keys == w.Keys && forall i | i in w :: |w[i]| == |c[i]| - 1)
            && (w.Keys == {} ==> c.Keys == z.Keys && forall i | i in z :: |z[i]| == |c[i]| - 1)
  {
    assert 0 < |c[k]| <= bound;
    TailsCover(c);
    TailsPrefixFree(c, false);
    TailsPrefixFree(c, true);
    hide Tails, PrefixFree, Within;
  }

  lemma BothSides(c: map<nat, seq<bool>>, l: Tree, r: Tree)
    requires Matches(l, Tails(c, false)) && Matches(r, Tails(c, true)) && forall i | i in c :: c[i] != []
    ensures Matches(Node(l, r), c)
  {
  }

  lemma TailsCover(c: map<nat, seq<bool>>)
    requires forall i | i in c :: c[i] != []
    ensures c.Keys == Tails(c, false).Keys + Tails(c, true).Keys
    ensures forall i | i in Tails(c, false) :: |Tails(c, false)[i]| == |c[i]| - 1
    ensures forall i | i in Tails(c, true) :: |Tails(c, true)[i]| == |c[i]| - 1
  {}

  lemma TailsPrefixFree(c: map<nat, seq<bool>>, bit: bool)
    requires PrefixFree(c)
    ensures PrefixFree(Tails(c, bit))
  {
    var d := Tails(c, bit);
    forall i, j | i in d && j in d && i != j ensures !(d[i] <= d[j]) {
      assert c[i] == [bit] + d[i] && c[j] == [bit] + d[j];
    }
  }

  ghost function LongestWord(c: map<nat, seq<bool>>): (n: nat)
    ensures forall i | i in c :: |c[i]| <= n
    decreases c.Keys
  {
    if c.Keys == {} then 0
    else
      var k :| k in c.Keys;
      var n := LongestWord(c - {k});
      assert forall i | i in c :: i == k || i in c - {k};
      if |c[k]| > n then |c[k]| else n
  }
}
