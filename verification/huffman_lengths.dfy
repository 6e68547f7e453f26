/** BZ2_hbMakeCodeLengths: a Huffman tree built on an in-place heap, with the
    weights halved and the tree rebuilt while some code is too long. */
module HuffmanLengths {
  import opened Words
  import opened Heap
  import opened HuffmanForest
  import opened HuffmanOptimal

  /** The total frequency of the symbols of one block is at most this. */
  const MAX_TOTAL_FREQ := 900001

  function WeightOf(x: nat): nat { x - x % 256 }
  function DepthOf(x: nat): nat { x % 256 }

  function AddWeights(x: nat, y: nat): nat {
    BitOr(WeightOf(x) + WeightOf(y), 1 + Max(DepthOf(x), DepthOf(y)))
  }

  lemma AddWeightsIsKey(w1: nat, h1: nat, w2: nat, h2: nat)
    requires h1 < 255 && h2 < 255
    ensures AddWeights(256 * w1 + h1, 256 * w2 + h2) == 256 * (w1 + w2) + (1 + Max(h1, h2))
  {
    hide BitOr;
    Pow2Values();
    OrIsAdd(w1 + w2, 8, 1 + Max(h1, h2));
    assert (256 * w1 + h1) % 256 == h1 && (256 * w2 + h2) % 256 == h2;
  }

  /** The arrays hold the forest. */
  ghost predicate Represents(weight: seq<nat>, parent: seq<int>, f: Forest, a: nat) {
    && Shape(f, a) && f.Last() < |weight| == |parent| && weight[0] == 0
    && forall x :: 1 <= x <= f.Last() ==> weight[x] == Key(f, x) && parent[x] == f.parent[x]
  }

  /** The heap holds each root once and nothing else. */
  ghost predicate HeapIsRoots(heap: seq<nat>, n: nat, f: Forest)
    requires n < |heap|
  {
    forall x: nat :: Nodes(heap, n)[x] == if IsRoot(f, x) then 1 else 0
  }

  ghost function Leaves(ws: seq<nat>): (f: Forest)
  {
    var n := |ws| + 1;
    Forest(seq(n, x => if x == 0 then -2 else -1), [0] + ws, seq(n, _ => 0), seq(n, _ => 0), seq(n, _ => 0))
  }

  lemma LeavesBuilt(ws: seq<nat>)
    requires |ws| >= 1 && forall i :: 0 <= i < |ws| ==> ws[i] >= 1
    ensures Built(Leaves(ws), |ws|) && Greedy(Leaves(ws), |ws|) && Sum(RootWeights(Leaves(ws))) == Sum(ws)
    ensures forall x: nat :: IsRoot(Leaves(ws), x) <==> 1 <= x <= |ws|
  {
    hide Sum, Heavy;
    LeavesAreHeavy(ws);
    SumShift(ws);
    var f := Leaves(ws);
    assert RootWeights(f) == [0] + ws;
    assert Children(f, |ws|) && LightTaken(f, |ws|);
    LeavesGreedy(f, |ws|);
  }

  lemma LeavesAreHeavy(ws: seq<nat>)
    requires |ws| >= 1 && forall i :: 0 <= i < |ws| ==> ws[i] >= 1
    ensures Shape(Leaves(ws), |ws|) && Heavy(Leaves(ws), |ws|)
  {
    assert Fib(0) == 1;
  }

  lemma NodesPush(heap: seq<nat>, n: nat)
    requires 1 <= n < |heap|
    ensures Nodes(heap, n) == Nodes(heap, n - 1) + multiset{heap[n]}
  {
    assert heap[1..n + 1] == heap[1..n] + [heap[n]];
  }

  /** Weights outside the heap do not matter to it. */
  lemma OrderedFrame(heap: seq<nat>, weight: seq<nat>, weight': seq<nat>, n: nat)
    requires InBounds(heap, weight, n) && Ordered(heap, weight, n) && |weight'| == |weight| && weight'[0] == 0
    requires forall x :: x in Nodes(heap, n) ==> x < |weight| && weight'[x] == weight[x]
    ensures InBounds(heap, weight', n) && Ordered(heap, weight', n)
  {
    forall i | 1 <= i <= n ensures heap[i] in Nodes(heap, n) {
      assert heap[i] == heap[1..n + 1][i - 1];
    }
  }

  /** Adds node x at the end of the heap and sifts it up. */
  method Push(heap: array<nat>, weight: array<nat>, nHeap0: nat, x: nat) returns (nHeap: nat)
    requires heap != weight && nHeap0 + 1 < heap.Length && x < weight.Length && weight[x] > 0
    requires InBounds(heap[..], weight[..], nHeap0) && Ordered(heap[..], weight[..], nHeap0)
    modifies heap
    ensures nHeap == nHeap0 + 1 && InBounds(heap[..], weight[..], nHeap) && Ordered(heap[..], weight[..], nHeap)
    ensures Nodes(heap[..], nHeap) == old(Nodes(heap[..], nHeap0)) + multiset{x}
  {
    ghost var v := heap[..];
    nHeap := nHeap0 + 1;
    heap[nHeap] := x;
    assert heap[..] == v[nHeap := x];
    PushOrder(v, weight[..], nHeap0, x);
    UpHeap(heap, weight, nHeap);
  }

  lemma PushOrder(v: seq<nat>, weight: seq<nat>, n: nat, x: nat)
    requires n + 1 < |v| && x < |weight| && weight[x] > 0 && InBounds(v, weight, n) && Ordered(v, weight, n)
    ensures var v' := v[n + 1 := x];
            && InBounds(v', weight, n + 1) && Ordered(v', weight, n)
            && Nodes(v', n + 1) == Nodes(v, n) + multiset{x}
  {
    var v' := v[n + 1 := x];
    NodesPush(v', n + 1);
    assert v'[1..n + 1] == v[1..n + 1];
  }

  /** One round of pairing: what PopLeast delivers are the lightest roots. */
  lemma PopsAreLightest(f: Forest, a: nat, weight: seq<nat>, parent: seq<int>, m: multiset<nat>, n1: nat, n2: nat)
    requires Represents(weight, parent, f, a)
    requires forall x: nat :: m[x] == if IsRoot(f, x) then 1 else 0
    requires n1 in m && n2 in m - multiset{n1} && n1 < |weight| && n2 < |weight|
    requires forall x :: x in m ==> x < |weight| && weight[n1] <= weight[x]
    requires forall x :: x in m - multiset{n1} ==> x < |weight| && weight[n2] <= weight[x]
    ensures Lightest(f, a, n1, n2)
  {
    hide Key;
    assert m[n1] == 1 && m[n2] == 1;
    assert n1 != n2;
    forall y | IsRoot(f, y) && y != n1 ensures Key(f, n2) <= Key(f, y) {
      assert m[y] == 1;
      assert y in m - multiset{n1};
    }
  }

  /** The heap content after pairing n1 and n2 into the new node. */
  lemma RootsAfterMerge(f: Forest, a: nat, m: multiset<nat>, n1: nat, n2: nat)
    requires Shape(f, a) && IsRoot(f, n1) && IsRoot(f, n2) && n1 != n2
    requires forall x: nat :: m[x] == if IsRoot(f, x) then 1 else 0
    ensures var g, m' := Merge(f, n1, n2), m - multiset{n1} - multiset{n2} + multiset{|f.parent|};
            forall x: nat :: m'[x] == if IsRoot(g, x) then 1 else 0
  {
    assert !IsRoot(f, |f.parent|);
  }

  method BuildTree(heap: array<nat>, weight: array<nat>, parent: array<int>, alphaSize: nat, ghost ws: seq<nat>)
      returns (ghost f: Forest)
    requires heap != weight && heap.Length == BZ_MAX_ALPHA_SIZE + 2
    requires weight.Length == parent.Length == 2 * BZ_MAX_ALPHA_SIZE && 1 <= alphaSize <= BZ_MAX_ALPHA_SIZE
    requires |ws| == alphaSize && Sum(ws) < 2178309
    requires forall i :: 0 <= i < alphaSize ==> ws[i] >= 1 && weight[i + 1] == 256 * ws[i]
    modifies heap, weight, parent
    ensures Complete(f, alphaSize) && f.Last() == 2 * alphaSize - 1 && Sum(RootWeights(f)) == Sum(ws)
    ensures Greedy(f, alphaSize) && forall i :: 0 <= i < alphaSize ==> f.w[i + 1] == ws[i]
    ensures Represents(weight[..], parent[..], f, alphaSize)
    ensures forall i :: 0 <= i < alphaSize ==> weight[i + 1] == 256 * ws[i]
  {
    hide Sum, Children, LightTaken, Heavy, Ordered, Nodes, RootWeights, AddWeights, Lightest, Key, Greedy;
    f := Leaves(ws);
    LeavesBuilt(ws);
    var nHeap := InitHeap(heap, weight, parent, alphaSize, ws);
    var nNodes := alphaSize;
    while nHeap > 1
      invariant Built(f, alphaSize) && Greedy(f, alphaSize) && f.Last() == nNodes && nHeap == 2 * alphaSize - nNodes
      invariant Sum(RootWeights(f)) == Sum(ws)
      invariant Represents(weight[..], parent[..], f, alphaSize)
      invariant forall i :: 0 <= i < alphaSize ==> weight[i + 1] == 256 * ws[i]
      invariant InBounds(heap[..], weight[..], nHeap) && Ordered(heap[..], weight[..], nHeap)
      invariant HeapIsRoots(heap[..], nHeap, f)
      decreases nHeap
    {
      nHeap, nNodes, f := PairLeast(heap, weight, parent, alphaSize, nHeap, nNodes, f);
    }
    OneRootLeft(heap[..], f, alphaSize);
    LeavesKept(weight[..], parent[..], f, alphaSize, ws);
  }

  lemma LeavesKept(weight: seq<nat>, parent: seq<int>, f: Forest, a: nat, ws: seq<nat>)
    requires Complete(f, a) && Represents(weight, parent, f, a) && |ws| == a
    requires forall i :: 0 <= i < a ==> weight[i + 1] == 256 * ws[i]
    ensures forall i :: 0 <= i < a ==> f.w[i + 1] == ws[i]
  {
    hide LightTaken, Heavy;
    forall i | 0 <= i < a ensures f.w[i + 1] == ws[i] {
      assert weight[i + 1] == Key(f, i + 1);
    }
  }

  lemma OneRootLeft(heap: seq<nat>, f: Forest, a: nat)
    requires Built(f, a) && f.Last() == 2 * a - 1 && 1 < |heap| && HeapIsRoots(heap, 1, f)
    ensures Complete(f, a)
  {
    assert heap[1..2] == [heap[1]];
    assert IsRoot(f, f.Last());
    forall x | IsRoot(f, x) ensures x == f.Last() {
      assert Nodes(heap, 1)[x] == 1 && Nodes(heap, 1)[f.Last()] == 1;
    }
  }

  method InitHeap(heap: array<nat>, weight: array<nat>, parent: array<int>, alphaSize: nat, ghost ws: seq<nat>)
      returns (nHeap: nat)
    requires heap != weight && heap.Length == BZ_MAX_ALPHA_SIZE + 2
    requires weight.Length == parent.Length == 2 * BZ_MAX_ALPHA_SIZE && 1 <= alphaSize <= BZ_MAX_ALPHA_SIZE
    requires |ws| == alphaSize && forall i :: 0 <= i < alphaSize ==> ws[i] >= 1 && weight[i + 1] == 256 * ws[i]
    modifies heap, weight, parent
    ensures nHeap == alphaSize && Represents(weight[..], parent[..], Leaves(ws), alphaSize)
    ensures forall i :: 0 <= i < alphaSize ==> weight[i + 1] == 256 * ws[i]
    ensures InBounds(heap[..], weight[..], nHeap) && Ordered(heap[..], weight[..], nHeap)
    ensures HeapIsRoots(heap[..], nHeap, Leaves(ws))
  {
    hide Ordered, Nodes, Greedy, Built, RootWeights, Sum;
    nHeap := 0;
    heap[0] := 0;
    weight[0] := 0;
    parent[0] := -2;
    EmptyHeap(heap[..], weight[..]);
    for i := 1 to alphaSize + 1
      invariant nHeap == i - 1 && weight[0] == 0
      invariant forall x :: 0 <= x < alphaSize ==> weight[x + 1] == 256 * ws[x]
      invariant forall x :: 1 <= x < i ==> parent[x] == -1
      invariant InBounds(heap[..], weight[..], nHeap) && Ordered(heap[..], weight[..], nHeap)
      invariant forall x: nat :: Nodes(heap[..], nHeap)[x] == if 1 <= x < i then 1 else 0
      modifies heap, parent
    {
      assert weight[i] == 256 * ws[i - 1];
      parent[i] := -1;
      nHeap := Push(heap, weight, nHeap, i);
    }
    LeavesBuilt(ws);
  }

  lemma EmptyHeap(heap: seq<nat>, weight: seq<nat>)
    requires 1 < |heap| && 0 < |weight| && heap[0] == 0 && weight[0] == 0
    ensures InBounds(heap, weight, 0) && Ordered(heap, weight, 0)
    ensures forall x: nat :: Nodes(heap, 0)[x] == 0
  {
    assert heap[1..1] == [];
  }

  /** Pops the two least nodes and pushes their merge. */
  method PairLeast(heap: array<nat>, weight: array<nat>, parent: array<int>, alphaSize: nat,
                   nHeap0: nat, nNodes0: nat, ghost f: Forest)
      returns (nHeap: nat, nNodes: nat, ghost g: Forest)
    requires heap != weight && heap.Length == BZ_MAX_ALPHA_SIZE + 2
    requires weight.Length == parent.Length == 2 * BZ_MAX_ALPHA_SIZE && 1 <= alphaSize <= BZ_MAX_ALPHA_SIZE
    requires Built(f, alphaSize) && Greedy(f, alphaSize) && f.Last() == nNodes0 && nHeap0 == 2 * alphaSize - nNodes0 > 1
    requires Sum(RootWeights(f)) < 2178309 && Represents(weight[..], parent[..], f, alphaSize)
    requires InBounds(heap[..], weight[..], nHeap0) && Ordered(heap[..], weight[..], nHeap0)
    requires HeapIsRoots(heap[..], nHeap0, f)
    modifies heap, weight, parent
    ensures nHeap == nHeap0 - 1 && nNodes == nNodes0 + 1
    ensures Built(g, alphaSize) && Greedy(g, alphaSize) && g.Last() == nNodes
    ensures Sum(RootWeights(g)) == Sum(RootWeights(f))
    ensures Represents(weight[..], parent[..], g, alphaSize)
    ensures forall x :: 0 <= x <= alphaSize ==> weight[x] == old(weight[x])
    ensures InBounds(heap[..], weight[..], nHeap) && Ordered(heap[..], weight[..], nHeap)
    ensures HeapIsRoots(heap[..], nHeap, g)
  {
    hide Sum, Children, LightTaken, Heavy, InBounds, Ordered, Nodes, RootWeights, AddWeights, Lightest, Key, Represents,
        Merge, Greedy;
    ghost var m, w, p := Nodes(heap[..], nHeap0), weight[..], parent[..];
    var n1, n2;
    n1, n2, nHeap := PopTwo(heap, weight, nHeap0);
    PopsAreLightest(f, alphaSize, w, p, m, n1, n2);
    MergeStepFacts(f, alphaSize, n1, n2);
    RootsAfterMerge(f, alphaSize, m, n1, n2);
    MergeRepresents(w, p, f, alphaSize, n1, n2);
    g := Merge(f, n1, n2);
    nNodes := nNodes0 + 1;
    LinkPair(weight, parent, nNodes, n1, n2);
    NewNodeOutside(heap[..], nHeap, f, w, weight[..], m, n1, n2);
    OrderedFrame(heap[..], w, weight[..], nHeap);
    nHeap := Push(heap, weight, nHeap, nNodes);
  }

  method LinkPair(weight: array<nat>, parent: array<int>, n: nat, n1: nat, n2: nat)
    requires n < weight.Length == parent.Length && n1 < n && n2 < n
    modifies weight, parent
    ensures weight[..] == old(weight[..])[n := AddWeights(old(weight[n1]), old(weight[n2]))]
    ensures parent[..] == old(parent[..])[n1 := n][n2 := n][n := -1]
  {
    parent[n1] := n;
    parent[n2] := n;
    weight[n] := AddWeights(weight[n1], weight[n2]);
    parent[n] := -1;
  }

  method PopTwo(heap: array<nat>, weight: array<nat>, nHeap0: nat) returns (n1: nat, n2: nat, nHeap: nat)
    requires heap != weight && 2 <= nHeap0
    requires InBounds(heap[..], weight[..], nHeap0) && Ordered(heap[..], weight[..], nHeap0)
    modifies heap
    ensures nHeap == nHeap0 - 2 && InBounds(heap[..], weight[..], nHeap) && Ordered(heap[..], weight[..], nHeap)
    ensures n1 < weight.Length && n2 < weight.Length
    ensures var m := old(Nodes(heap[..], nHeap0));
            && n1 in m && n2 in m - multiset{n1}
            && (forall x :: x in m ==> x < weight.Length && weight[n1] <= weight[x])
            && (forall x :: x in m - multiset{n1} ==> x < weight.Length && weight[n2] <= weight[x])
            && Nodes(heap[..], nHeap) == m - multiset{n1} - multiset{n2}
  {
    hide Ordered, Nodes;
    n1, nHeap := PopLeast(heap, weight, nHeap0);
    n2, nHeap := PopLeast(heap, weight, nHeap);
  }

  lemma MergeRepresents(w: seq<nat>, p: seq<int>, f: Forest, a: nat, l: nat, r: nat)
    requires Represents(w, p, f, a) && f.Last() + 1 < |w| && IsRoot(f, l) && IsRoot(f, r) && l != r
    requires Shape(Merge(f, l, r), a) && AddWeights(Key(f, l), Key(f, r)) == Key(Merge(f, l, r), |f.parent|)
    ensures l < |w| && r < |w| && w[l] == Key(f, l) && w[r] == Key(f, r) && w[0] == 0 < |f.parent| < |w|
    ensures var n := |f.parent|;
            Represents(w[n := AddWeights(w[l], w[r])], p[l := n][r := n][n := -1], Merge(f, l, r), a)
  {
    hide AddWeights;
  }

  /** The new node is not in the heap yet, and nothing in it changed weight. */
  lemma NewNodeOutside(heap: seq<nat>, n: nat, f: Forest, w: seq<nat>, w': seq<nat>, m: multiset<nat>, l: nat, r: nat)
    requires n < |heap| && Nodes(heap, n) == m - multiset{l} - multiset{r}
    requires forall x: nat :: m[x] == if IsRoot(f, x) then 1 else 0
    requires |w'| == |w| && |f.parent| < |w| && forall x :: 0 <= x < |w| && x != |f.parent| ==> w'[x] == w[x]
    ensures forall x :: x in Nodes(heap, n) ==> x < |w| && w'[x] == w[x]
  {
    hide Nodes;
    forall x | x in Nodes(heap, n) ensures x < |w| && w'[x] == w[x] {
      assert m[x] >= 1;
    }
  }

  lemma MergeStepFacts(f: Forest, a: nat, l: nat, r: nat)
    requires Built(f, a) && Greedy(f, a) && Lightest(f, a, l, r)
    requires f.Last() < 2 * a - 1 && Sum(RootWeights(f)) < 2178309
    ensures IsRoot(f, l) && IsRoot(f, r) && l != r
    ensures var g := Merge(f, l, r);
            && Built(g, a) && Greedy(g, a) && Sum(RootWeights(g)) == Sum(RootWeights(f)) && g.Last() == f.Last() + 1
            && AddWeights(Key(f, l), Key(f, r)) == Key(g, |f.parent|) < 0x8000_0000
            && Key(g, |f.parent|) > 0
  {
    hide Sum, Children, LightTaken, RootWeights, AddWeights, Greedy;
    MergeKeeps(f, a, l, r);
    MergeGreedy(f, a, l, r);
    var g := Merge(f, l, r);
    NewRootFits(g, a);
    assert Key(f, l) == 256 * f.w[l] + f.h[l] && Key(f, r) == 256 * f.w[r] + f.h[r];
    AddWeightsIsKey(f.w[l], f.h[l], f.w[r], f.h[r]);
  }

  lemma NewRootFits(g: Forest, a: nat)
    requires Built(g, a) && Sum(RootWeights(g)) < 2178309
    ensures 0 < g.w[g.Last()] < 2178309
  {
    hide Sum, Children, LightTaken;
    SumAtLeast(RootWeights(g), g.Last());
  }

  /** Reads the code lengths off the parent links. */
  method ReadLengths(len: array<nat>, parent: array<int>, alphaSize: nat, maxLen: nat, ghost f: Forest)
      returns (tooLong: bool)
    requires Complete(f, alphaSize) && f.Last() < parent.Length && alphaSize <= len.Length
    requires forall x :: 1 <= x <= f.Last() ==> parent[x] == f.parent[x]
    modifies len
    ensures forall i :: 0 <= i < alphaSize ==> len[i] == Depth(f, alphaSize, i + 1)
    ensures len[alphaSize..] == old(len[alphaSize..])
    ensures tooLong <==> exists i :: 0 <= i < alphaSize && len[i] > maxLen
  {
    hide Children, LightTaken, Heavy;
    ghost var p := parent[..];
    ghost var long := 0;
    tooLong := false;
    for i := 1 to alphaSize + 1
      invariant parent[..] == p
      invariant forall x :: 0 <= x < i - 1 ==> len[x] == Depth(f, alphaSize, x + 1)
      invariant len[alphaSize..] == old(len[alphaSize..])
      invariant tooLong ==> 0 <= long < i - 1 && len[long] > maxLen
      invariant !tooLong ==> forall x :: 0 <= x < i - 1 ==> len[x] <= maxLen
      modifies len
    {
      var j, k := 0, i;
      while parent[k] >= 0
        invariant 1 <= k <= f.Last() && j + Depth(f, alphaSize, k) == Depth(f, alphaSize, i)
        decreases f.Last() - k
      {
        k := parent[k];
        j := j + 1;
      }
      len[i - 1] := j;
      if j > maxLen {
        tooLong := true;
        long := i - 1;
      }
    }
  }

  /** Halving the weights, rounding up to at least 1. */
  function Scale(ws: seq<nat>): (s: seq<nat>)
    ensures |s| == |ws| && forall i :: 0 <= i < |s| ==> s[i] == 1 + ws[i] / 2
  {
    seq(|ws|, i requires 0 <= i < |ws| => 1 + ws[i] / 2)
  }

  /** Scaling never adds weight, and takes some away unless all are 1 or 2. */
  lemma {:induction false} ScaleShrinks(ws: seq<nat>)
    requires forall i :: 0 <= i < |ws| ==> ws[i] >= 1
    ensures Sum(Scale(ws)) <= Sum(ws)
    ensures (exists i :: 0 <= i < |ws| && ws[i] >= 3) ==> Sum(Scale(ws)) < Sum(ws)
    ensures (forall i :: 0 <= i < |ws| ==> ws[i] <= 2) ==> Sum(ws) <= 2 * |ws|
  {
    if |ws| != 0 {
      var h := ws[..|ws| - 1];
      ScaleShrinks(h);
      assert Scale(ws)[..|ws| - 1] == Scale(h);
    }
  }

  /** The leaf weights of a frequency table: 0 counts as 1. */
  function LeafWeights(freq: seq<nat>): (s: seq<nat>)
    ensures |s| == |freq| && forall i :: 0 <= i < |s| ==> s[i] == if freq[i] == 0 then 1 else freq[i]
  {
    seq(|freq|, i requires 0 <= i < |freq| => if freq[i] == 0 then 1 else freq[i])
  }

  lemma {:induction false} LeafWeightsTotal(freq: seq<nat>)
    ensures Sum(LeafWeights(freq)) <= Sum(freq) + |freq|
  {
    if |freq| != 0 {
      var h := freq[..|freq| - 1];
      LeafWeightsTotal(h);
      assert LeafWeights(freq)[..|freq| - 1] == LeafWeights(h);
    }
  }

  /** When a code is too long, some leaf still weighs at least 3. */
  lemma TooLongMeansHeavy(f: Forest, a: nat, ws: seq<nat>, len: seq<nat>, maxLen: nat)
    requires Complete(f, a) && |ws| == a <= BZ_MAX_ALPHA_SIZE && Sum(RootWeights(f)) == Sum(ws) && 12 <= maxLen
    requires forall i :: 0 <= i < a ==> ws[i] >= 1
    requires |len| == a && forall i :: 0 <= i < a ==> len[i] == Depth(f, a, i + 1)
    requires exists i :: 0 <= i < a && len[i] > maxLen
    ensures Sum(Scale(ws)) < Sum(ws)
  {
    hide Sum, Children, LightTaken, Heavy, RootWeights;
    var i :| 0 <= i < a && len[i] > maxLen;
    DepthBelowHeight(f, a, i + 1);
    ScaleShrinks(ws);
    if forall j :: 0 <= j < |ws| ==> ws[j] <= 2 {
      LightTreeIsLow(f, a);
    }
  }

  method ScaleWeights(weight: array<nat>, alphaSize: nat, ghost ws: seq<nat>)
    requires |ws| == alphaSize < weight.Length && forall x :: 0 <= x < alphaSize ==> weight[x + 1] == 256 * ws[x]
    modifies weight
    ensures forall x :: 0 <= x < alphaSize ==> weight[x + 1] == 256 * Scale(ws)[x]
  {
    for i := 1 to alphaSize + 1
      invariant forall x :: 0 <= x < alphaSize ==> weight[x + 1] == 256 * (if x < i - 1 then 1 + ws[x] / 2 else ws[x])
    {
      assert weight[i] == 256 * ws[i - 1];
      var j := weight[i] / 256;
      j := 1 + j / 2;
      weight[i] := j * 256;
    }
  }

  /** The leaf weights after k scalings. */
  function Scaled(ws: seq<nat>, k: nat): (s: seq<nat>)
    ensures |s| == |ws|
  {
    if k == 0 then ws else Scale(Scaled(ws, k - 1))
  }

  /** A tree built for these weights had a code of more than maxLen bits. */
  ghost predicate TreeTooLong(ws: seq<nat>, maxLen: nat) {
    exists len :: Optimal(ws, len) && exists i :: 0 <= i < |len| && len[i] > maxLen
  }

  lemma ThatTreeTooLong(ws: seq<nat>, len: seq<nat>, maxLen: nat)
    requires Optimal(ws, len) && exists i :: 0 <= i < |len| && len[i] > maxLen
    ensures TreeTooLong(ws, maxLen)
  {
    hide Optimal;
  }

  /** One tree: either its depths are the code lengths, or some are too long
      and scaling takes weight away. */
  method OneTree(len: array<nat>, heap: array<nat>, weight: array<nat>, parent: array<int>, alphaSize: nat,
                 maxLen: nat, ghost ws: seq<nat>)
      returns (tooLong: bool)
    requires heap != weight && heap != len && weight != len && heap.Length == BZ_MAX_ALPHA_SIZE + 2
    requires weight.Length == parent.Length == 2 * BZ_MAX_ALPHA_SIZE && alphaSize <= len.Length
    requires 2 <= alphaSize <= BZ_MAX_ALPHA_SIZE && 12 <= maxLen <= 20 && |ws| == alphaSize && Sum(ws) < 2178309
    requires forall i :: 0 <= i < alphaSize ==> ws[i] >= 1 && weight[i + 1] == 256 * ws[i]
    modifies len, heap, weight, parent
    ensures forall i :: 0 <= i < alphaSize ==> weight[i + 1] == 256 * ws[i]
    ensures len[alphaSize..] == old(len[alphaSize..])
    ensures Optimal(ws, len[..alphaSize])
    ensures tooLong ==> TreeTooLong(ws, maxLen) && Sum(Scale(ws)) < Sum(ws)
    ensures !tooLong ==> FineLengths(ws, len[..alphaSize], maxLen)
  {
    hide Sum, RootWeights, Children, LightTaken, Heavy, KraftSum, Optimal, TreeTooLong, Greedy, FineLengths;
    ghost var f := BuildTree(heap, weight, parent, alphaSize, ws);
    tooLong := ReadLengths(len, parent, alphaSize, maxLen, f);
    TreeIsOptimal(f, alphaSize, ws, len[..alphaSize]);
    if tooLong {
      ThatTreeTooLong(ws, len[..alphaSize], maxLen);
      TooLongMeansHeavy(f, alphaSize, ws, len[..alphaSize], maxLen);
    } else {
      LengthsAreFine(f, alphaSize, maxLen, len[..alphaSize]);
      HeaviestShortest(ws, len[..alphaSize], maxLen);
    }
  }

  /** In range, using the whole code space, and never longer for a heavier symbol. */
  ghost predicate FineLengths(ws: seq<nat>, len: seq<nat>, maxLen: nat) {
    && |len| == |ws|
    && (forall i :: 0 <= i < |len| ==> 1 <= len[i] <= maxLen)
    && KraftSum(len, maxLen) == Pow2(maxLen)
    && forall i, j :: 0 <= i < |ws| && 0 <= j < |ws| && ws[i] > ws[j] ==> len[i] <= len[j]
  }

  /** Main result: for every frequency table of one block the lengths are in
      range and use the whole code space; for the frequencies, scaled as often
      as the tree before was too deep, no prefix code takes fewer bits and no
      symbol has a longer code than a rarer one; and the loop ends. */
  method MakeCodeLengths(len: array<nat>, freq: array<nat>, alphaSize: nat, maxLen: nat) returns (ghost k: nat)
    requires len != freq && 2 <= alphaSize <= BZ_MAX_ALPHA_SIZE && alphaSize <= len.Length && alphaSize <= freq.Length
    requires Sum(freq[..alphaSize]) <= MAX_TOTAL_FREQ && 12 <= maxLen <= 20
    modifies len
    ensures forall i :: 0 <= i < alphaSize ==> 1 <= len[i] <= maxLen
    ensures KraftSum(len[..alphaSize], maxLen) == Pow2(maxLen)
    ensures Optimal(Scaled(LeafWeights(freq[..alphaSize]), k), len[..alphaSize])
    ensures var ws := Scaled(LeafWeights(freq[..alphaSize]), k);
            forall i, j :: 0 <= i < alphaSize && 0 <= j < alphaSize && ws[i] > ws[j] ==> len[i] <= len[j]
    ensures forall j: nat :: j < k ==> TreeTooLong(Scaled(LeafWeights(freq[..alphaSize]), j), maxLen)
    ensures len[alphaSize..] == old(len[alphaSize..])
  {
    hide Sum, KraftSum, Optimal, TreeTooLong, Pow2;
    var heap := new nat[BZ_MAX_ALPHA_SIZE + 2];
    var weight := new nat[2 * BZ_MAX_ALPHA_SIZE];
    var parent := new int[2 * BZ_MAX_ALPHA_SIZE];
    ghost var rest := len[alphaSize..];
    ghost var first := LeafWeights(freq[..alphaSize]);
    ghost var ws := first;
    LeafWeightsTotal(freq[..alphaSize]);
    for i := 0 to alphaSize
      invariant forall x :: 0 <= x < i ==> weight[x + 1] == 256 * ws[x]
      modifies weight
    {
      weight[i + 1] := 256 * (if freq[i] == 0 then 1 else freq[i]);
    }
    k := 0;
    while true
      invariant ws == Scaled(first, k) && |ws| == alphaSize && Sum(ws) < 2178309 && len[alphaSize..] == rest
      invariant forall x :: 0 <= x < alphaSize ==> ws[x] >= 1 && weight[x + 1] == 256 * ws[x]
      invariant forall j: nat :: j < k ==> TreeTooLong(Scaled(first, j), maxLen)
      modifies heap, weight, parent, len
      decreases Sum(ws)
    {
      var tooLong := OneTree(len, heap, weight, parent, alphaSize, maxLen, ws);
      if !tooLong {
        break;
      }
      ScaleWeights(weight, alphaSize, ws);
      ws := Scale(ws);
      k := k + 1;
    }
  }

  lemma HeaviestShortest(ws: seq<nat>, len: seq<nat>, d: nat)
    requires Optimal(ws, len) && CodeSpace(len, d)
    requires forall i :: 0 <= i < |len| ==> 1 <= len[i]
    requires KraftSum(len, d) == Pow2(d)
    ensures FineLengths(ws, len, d)
  {
    hide KraftSum, TotalBits;
    forall i, j | 0 <= i < |ws| && 0 <= j < |ws| && ws[i] > ws[j] ensures len[i] <= len[j] {
      HeavierIsShorter(ws, len, d, i, j);
    }
  }

  lemma LengthsAreFine(f: Forest, a: nat, maxLen: nat, len: seq<nat>)
    requires Complete(f, a) && f.Last() == 2 * a - 1 && a >= 2 && |len| == a
    requires forall i :: 0 <= i < a ==> len[i] == Depth(f, a, i + 1) && len[i] <= maxLen
    ensures forall i :: 0 <= i < a ==> 1 <= len[i] <= maxLen
    ensures KraftSum(len, maxLen) == Pow2(maxLen)
  {
    hide Children, LightTaken, Heavy, Sum;
    forall i | 0 <= i < a ensures 1 <= len[i] {
      LeafBelowRoot(f, a, i + 1);
    }
    var y := TallestLeaf(f, a, f.Last());
    assert Depth(f, a, f.Last()) == 0;
    assert len[y - 1] == Depth(f, a, y - 1 + 1);
    LeavesFillCodeSpace(f, a, maxLen, len);
  }
}
