/** The tree that pairing least weights builds: what every merge keeps, why
    the code lengths fill the code space exactly, and how deep it can get. */
module HuffmanForest {
  import opened Words

  const BZ_MAX_ALPHA_SIZE := 258

  /** Nodes 1..n; entry 0 is unused. Leaves are 1..a, later nodes are merges. */
  datatype Forest = Forest(parent: seq<int>, w: seq<nat>, h: seq<nat>, left: seq<nat>, right: seq<nat>) {
    function Last(): int { |parent| - 1 }
  }

  /** The heap key of a node: weight in the high bits, height in the low byte. */
  function Key(f: Forest, x: nat): nat
    requires x < |f.w| && x < |f.h|
  {
    256 * f.w[x] + f.h[x]
  }

  ghost predicate IsRoot(f: Forest, x: nat) {
    1 <= x < |f.parent| && f.parent[x] == -1
  }

  /** Fib(0) = 1, Fib(1) = 2: the least weight of a tree of that height. */
  function Fib(n: nat): (r: nat)
    ensures r >= 1
  {
    if n < 2 then n + 1 else Fib(n - 1) + Fib(n - 2)
  }

  ghost predicate Shape(f: Forest, a: nat) {
    && 1 <= a <= f.Last() <= 2 * a - 1
    && |f.w| == |f.h| == |f.left| == |f.right| == |f.parent|
    && (forall x :: 1 <= x <= f.Last() ==> f.parent[x] == -1 || (a < f.parent[x] <= f.Last() && x < f.parent[x]))
  }

  /** Node m is the merge of its two children. */
  ghost predicate IsMerge(f: Forest, m: nat)
    requires m < |f.parent| == |f.w| == |f.h| == |f.left| == |f.right|
  {
    var l, r := f.left[m], f.right[m];
    && 1 <= l < m && 1 <= r < m && l != r && f.parent[l] == m && f.parent[r] == m
    && f.w[m] == f.w[l] + f.w[r] && f.h[m] == 1 + Max(f.h[l], f.h[r])
  }

  ghost predicate Children(f: Forest, a: nat)
    requires Shape(f, a)
  {
    && (forall m :: a < m <= f.Last() ==> IsMerge(f, m))
    && (forall x :: 1 <= x <= f.Last() && f.parent[x] != -1 ==>
          x == f.left[f.parent[x]] || x == f.right[f.parent[x]])
    && (forall x :: 1 <= x <= a ==> f.h[x] == 0 && f.w[x] >= 1)
  }

  /** Nodes taken out of the heap were never heavier than those still in it. */
  ghost predicate LightTaken(f: Forest, a: nat)
    requires Shape(f, a)
  {
    forall x, y :: 1 <= x <= f.Last() && f.parent[x] != -1 && IsRoot(f, y) ==> Key(f, x) <= Key(f, y)
  }

  ghost predicate Heavy(f: Forest, a: nat)
    requires Shape(f, a)
  {
    forall x :: 1 <= x <= f.Last() ==> f.w[x] >= Fib(f.h[x]) && f.h[x] < 256
  }

  ghost predicate Built(f: Forest, a: nat) {
    Shape(f, a) && Children(f, a) && LightTaken(f, a) && Heavy(f, a)
  }

  function Max(x: nat, y: nat): nat {
    if x > y then x else y
  }

  function Merge(f: Forest, l: nat, r: nat): (g: Forest)
    requires l < |f.parent| && r < |f.parent| && |f.w| == |f.h| == |f.left| == |f.right| == |f.parent|
  {
    var n := |f.parent|;
    Forest(f.parent[l := n][r := n] + [-1], f.w + [f.w[l] + f.w[r]], f.h + [1 + Max(f.h[l], f.h[r])],
           f.left + [l], f.right + [r])
  }

  /** The two lightest roots. */
  ghost predicate Lightest(f: Forest, a: nat, l: nat, r: nat)
    requires Shape(f, a)
  {
    && IsRoot(f, l) && IsRoot(f, r) && l != r && Key(f, l) <= Key(f, r)
    && forall y :: IsRoot(f, y) && y != l ==> Key(f, r) <= Key(f, y)
  }

  // ---------- total weight ----------

  function Sum(s: seq<nat>): nat {
    if |s| == 0 then 0 else Sum(s[..|s| - 1]) + s[|s| - 1]
  }

  lemma {:induction false} SumUpdate(s: seq<nat>, i: nat, v: nat)
    requires i < |s|
    ensures Sum(s[i := v]) + s[i] == Sum(s) + v
  {
    var h := s[..|s| - 1];
    if i == |s| - 1 {
      assert s[i := v][..|s| - 1] == h;
    } else {
      SumUpdate(h, i, v);
      assert s[i := v][..|s| - 1] == h[i := v];
    }
  }

  lemma {:induction false} SumPush(s: seq<nat>, v: nat)
    ensures Sum(s + [v]) == Sum(s) + v
  {
    assert (s + [v])[..|s|] == s;
  }

  lemma {:induction false} SumAtLeast(s: seq<nat>, i: nat)
    requires i < |s|
    ensures s[i] <= Sum(s)
  {
    if i != |s| - 1 {
      SumAtLeast(s[..|s| - 1], i);
    }
  }

  /** The weights of the roots, 0 elsewhere. */
  ghost function RootWeights(f: Forest): (s: seq<nat>)
    requires |f.w| == |f.parent|
    ensures |s| == |f.parent|
  {
    seq(|f.parent|, x requires 0 <= x < |f.parent| => if x > 0 && f.parent[x] == -1 then f.w[x] else 0)
  }

  lemma MergeKeepsTotal(f: Forest, a: nat, l: nat, r: nat)
    requires Shape(f, a) && IsRoot(f, l) && IsRoot(f, r) && l != r
    ensures Sum(RootWeights(Merge(f, l, r))) == Sum(RootWeights(f))
  {
    hide Sum, Max;
    var s := RootWeights(f);
    SumUpdate(s, l, 0);
    SumUpdate(s[l := 0], r, 0);
    SumPush(s[l := 0][r := 0], f.w[l] + f.w[r]);
    assert RootWeights(Merge(f, l, r)) == s[l := 0][r := 0] + [f.w[l] + f.w[r]];
  }

  // ---------- every merge keeps the forest built ----------

  lemma {:induction false} FibMonotone(m: nat, n: nat)
    requires m <= n
    ensures Fib(m) <= Fib(n)
  {
    if m != n {
      FibMonotone(m, n - 1);
    }
  }

  /** A forest whose weight fits one block never gets 30 levels high. */
  lemma FibValues()
    ensures Fib(13) == 610 && Fib(30) == 2178309
  {
    assert Fib(2) == 3 && Fib(3) == 5 && Fib(4) == 8 && Fib(5) == 13 && Fib(6) == 21;
    assert Fib(7) == 34 && Fib(8) == 55 && Fib(9) == 89 && Fib(10) == 144 && Fib(11) == 233;
    assert Fib(12) == 377 && Fib(13) == 610 && Fib(14) == 987 && Fib(15) == 1597 && Fib(16) == 2584;
    assert Fib(17) == 4181 && Fib(18) == 6765 && Fib(19) == 10946 && Fib(20) == 17711;
    assert Fib(21) == 28657 && Fib(22) == 46368 && Fib(23) == 75025 && Fib(24) == 121393;
    assert Fib(25) == 196418 && Fib(26) == 317811 && Fib(27) == 514229 && Fib(28) == 832040;
    assert Fib(29) == 1346269;
  }

  /** A root weighs at least as much as the taller child of another root. */
  lemma TallerChild(f: Forest, a: nat, x: nat, y: nat)
    requires Built(f, a) && IsRoot(f, x) && IsRoot(f, y) && f.h[x] >= 1
    ensures f.w[y] >= Fib(f.h[x] - 1)
  {
    assert a < x;
    assert IsMerge(f, x);
    var c := if f.h[f.left[x]] >= f.h[f.right[x]] then f.left[x] else f.right[x];
    assert f.h[c] == f.h[x] - 1 && f.parent[c] == x;
    assert Key(f, c) <= Key(f, y);
  }

  lemma MergeHeavy(f: Forest, a: nat, l: nat, r: nat)
    requires Built(f, a) && IsRoot(f, l) && IsRoot(f, r) && l != r
    ensures f.w[l] + f.w[r] >= Fib(1 + Max(f.h[l], f.h[r]))
  {
    var x, y := if f.h[l] > f.h[r] then l else r, if f.h[l] > f.h[r] then r else l;
    if f.h[x] >= 1 {
      TallerChild(f, a, x, y);
    }
  }

  lemma MergeShape(f: Forest, a: nat, l: nat, r: nat)
    requires Built(f, a) && Lightest(f, a, l, r) && f.Last() < 2 * a - 1
    ensures Shape(Merge(f, l, r), a) && Children(Merge(f, l, r), a)
  {
    hide Fib, Key, LightTaken, Heavy, Max;
    var g, n := Merge(f, l, r), |f.parent|;
    assert Shape(g, a);
    forall m: nat | a < m <= g.Last() ensures IsMerge(g, m) {
      if m < n {
        assert IsMerge(f, m);
      }
    }
  }

  lemma MergeLight(f: Forest, a: nat, l: nat, r: nat)
    requires Built(f, a) && Lightest(f, a, l, r) && f.Last() < 2 * a - 1
    ensures Shape(Merge(f, l, r), a) && LightTaken(Merge(f, l, r), a)
  {
    hide Fib, Children, Max;
    MergeShape(f, a, l, r);
    var g := Merge(f, l, r);
    var n := |f.parent|;
    assert f.w[l] >= 1;
    forall x, y | 1 <= x <= g.Last() && g.parent[x] != -1 && IsRoot(g, y)
      ensures Key(g, x) <= Key(g, y)
    {
      assert x < n && Key(g, x) == Key(f, x) <= Key(f, r);
      if y != n {
        assert IsRoot(f, y) && y != l;
      }
    }
  }

  lemma MergeLow(f: Forest, a: nat, l: nat, r: nat)
    requires Built(f, a) && Lightest(f, a, l, r) && f.Last() < 2 * a - 1 && Sum(RootWeights(f)) < 2178309
    ensures 1 + Max(f.h[l], f.h[r]) < 30
  {
    hide Fib, Sum, Max;
    MergeKeepsTotal(f, a, l, r);
    MergeHeavy(f, a, l, r);
    var g, h := Merge(f, l, r), 1 + Max(f.h[l], f.h[r]);
    SumAtLeast(RootWeights(g), |f.parent|);
    if h >= 30 {
      FibMonotone(30, h);
      FibValues();
    }
  }

  /** Main result on one step: merging the two lightest roots of a forest that
      fits one block keeps everything. */
  lemma MergeKeeps(f: Forest, a: nat, l: nat, r: nat)
    requires Built(f, a) && Lightest(f, a, l, r) && f.Last() < 2 * a - 1 && Sum(RootWeights(f)) < 2178309
    ensures Built(Merge(f, l, r), a) && Sum(RootWeights(Merge(f, l, r))) == Sum(RootWeights(f))
    ensures 1 + Max(f.h[l], f.h[r]) < 30
  {
    hide Fib, Sum, Max, Children, LightTaken, RootWeights;
    MergeShape(f, a, l, r);
    MergeLight(f, a, l, r);
    MergeKeepsTotal(f, a, l, r);
    MergeHeavy(f, a, l, r);
    MergeLow(f, a, l, r);
  }

  // ---------- depth, height and the Kraft sum ----------

  ghost function Depth(f: Forest, a: nat, x: nat): nat
    requires Shape(f, a) && 1 <= x <= f.Last()
    decreases f.Last() - x
  {
    if f.parent[x] == -1 then 0 else 1 + Depth(f, a, f.parent[x])
  }

  /** All nodes hang under the last one. */
  ghost predicate Complete(f: Forest, a: nat) {
    Built(f, a) && forall x :: IsRoot(f, x) ==> x == f.Last()
  }

  lemma {:induction false} DepthBelowHeight(f: Forest, a: nat, x: nat)
    requires Complete(f, a) && 1 <= x <= f.Last()
    ensures Depth(f, a, x) + f.h[x] <= f.h[f.Last()]
    decreases f.Last() - x
  {
    if f.parent[x] != -1 {
      assert IsMerge(f, f.parent[x]);
      DepthBelowHeight(f, a, f.parent[x]);
    } else {
      assert IsRoot(f, x);
    }
  }

  /** The height is reached: some leaf is that deep. */
  lemma {:induction false} TallestLeaf(f: Forest, a: nat, x: nat) returns (y: nat)
    requires Complete(f, a) && 1 <= x <= f.Last()
    ensures 1 <= y <= a && Depth(f, a, y) == Depth(f, a, x) + f.h[x]
    decreases x
  {
    if x <= a {
      y := x;
    } else {
      assert IsMerge(f, x);
      y := TallestLeaf(f, a, if f.h[f.left[x]] >= f.h[f.right[x]] then f.left[x] else f.right[x]);
    }
  }

  /** The share of the code space, in units of 2^-d, of node x. */
  ghost function Share(f: Forest, a: nat, d: nat, x: nat): nat
    requires Complete(f, a) && 1 <= x <= f.Last() && f.h[f.Last()] <= d
  {
    DepthBelowHeight(f, a, x);
    Pow2(d - Depth(f, a, x))
  }

  /** The shares of the nodes up to m whose parent is beyond m. */
  ghost function Shares(f: Forest, a: nat, d: nat, m: nat): (s: seq<nat>)
    requires Complete(f, a) && m <= f.Last() && f.h[f.Last()] <= d
    ensures |s| == m + 1 && s[0] == 0
    ensures forall x :: 1 <= x <= m ==> s[x] == if f.parent[x] == -1 || f.parent[x] > m then Share(f, a, d, x) else 0
  {
    seq(m + 1, x requires 0 <= x < m + 1 =>
      if x > 0 && (f.parent[x] == -1 || f.parent[x] > m) then Share(f, a, d, x) else 0)
  }

  lemma ChildShare(f: Forest, a: nat, d: nat, m: nat)
    requires Complete(f, a) && a < m <= f.Last() && f.h[f.Last()] <= d
    ensures IsMerge(f, m)
    ensures Share(f, a, d, m) == 2 * Share(f, a, d, f.left[m]) == 2 * Share(f, a, d, f.right[m])
  {
    assert IsMerge(f, m);
    DepthBelowHeight(f, a, f.left[m]);
    DepthBelowHeight(f, a, f.right[m]);
  }

  lemma SharesShape(f: Forest, a: nat, d: nat, m: nat)
    requires Complete(f, a) && a < m <= f.Last() && f.h[f.Last()] <= d
    ensures var s, l, r := Shares(f, a, d, m), f.left[m], f.right[m];
            && 1 <= l < m && 1 <= r < m && l != r && s[l] == 0 && s[r] == 0 && s[m] == Share(f, a, d, m)
            && Shares(f, a, d, m - 1) == s[..m][l := Share(f, a, d, l)][r := Share(f, a, d, r)]
  {
    hide Share, Max;
    assert IsMerge(f, m);
    var s, t, l, r := Shares(f, a, d, m), Shares(f, a, d, m - 1), f.left[m], f.right[m];
    forall x | 1 <= x < m && x != l && x != r ensures t[x] == s[x] {
      assert f.parent[x] != m;
    }
  }

  /** Replacing a merge node by its two children keeps the share. */
  lemma SharesStep(f: Forest, a: nat, d: nat, m: nat)
    requires Complete(f, a) && a < m <= f.Last() && f.h[f.Last()] <= d
    ensures Sum(Shares(f, a, d, m - 1)) == Sum(Shares(f, a, d, m))
  {
    hide Sum, Share, Children, LightTaken, Heavy;
    SharesShape(f, a, d, m);
    ChildShare(f, a, d, m);
    var s, l, r := Shares(f, a, d, m), f.left[m], f.right[m];
    SumUpdate(s[..m], l, Share(f, a, d, l));
    SumUpdate(s[..m][l := Share(f, a, d, l)], r, Share(f, a, d, r));
    SumPush(s[..m], s[m]);
    assert s == s[..m] + [s[m]];
  }

  lemma SharesLast(f: Forest, a: nat, d: nat)
    requires Complete(f, a) && f.h[f.Last()] <= d
    ensures Sum(Shares(f, a, d, f.Last())) == Pow2(d)
  {
    hide Sum, Children, LightTaken, Heavy, Pow2;
    var m: nat := f.Last();
    var s := Shares(f, a, d, m);
    assert f.parent[m] == -1;
    assert s[m] == Share(f, a, d, m) == Pow2(d);
    forall x | 0 <= x < m ensures s[x] == 0 {
      assert !IsRoot(f, x);
    }
    SumOfZeros(s[..m]);
    SumPush(s[..m], s[m]);
    assert s == s[..m] + [s[m]];
  }

  lemma {:induction false} SharesAll(f: Forest, a: nat, d: nat, m: nat)
    requires Complete(f, a) && a <= m <= f.Last() && f.h[f.Last()] <= d
    ensures Sum(Shares(f, a, d, m)) == Pow2(d)
    decreases f.Last() - m
  {
    hide Sum, Shares, Children, LightTaken, Heavy;
    if m == f.Last() {
      SharesLast(f, a, d);
    } else {
      SharesAll(f, a, d, m + 1);
      SharesStep(f, a, d, m + 1);
    }
  }

  lemma {:induction false} SumOfZeros(s: seq<nat>)
    requires forall x :: 0 <= x < |s| ==> s[x] == 0
    ensures Sum(s) == 0
  {
    if |s| != 0 {
      SumOfZeros(s[..|s| - 1]);
    }
  }

  /** The code space that codes of these lengths use, in units of 2^-d. */
  ghost function KraftShares(len: seq<nat>, d: nat): (s: seq<nat>)
    requires forall i :: 0 <= i < |len| ==> len[i] <= d
    ensures |s| == |len|
  {
    seq(|len|, i requires 0 <= i < |len| => Pow2(d - len[i]))
  }

  ghost function KraftSum(len: seq<nat>, d: nat): nat
    requires forall i :: 0 <= i < |len| ==> len[i] <= d
  {
    Sum(KraftShares(len, d))
  }

  lemma {:induction false} SumShift(s: seq<nat>)
    ensures Sum([0] + s) == Sum(s)
  {
    if |s| == 0 {
      assert [0] + s == [0];
    } else {
      SumShift(s[..|s| - 1]);
      assert ([0] + s)[..|s|] == [0] + s[..|s| - 1];
    }
  }

  lemma LeafShares(f: Forest, a: nat, d: nat, len: seq<nat>)
    requires Complete(f, a) && f.h[f.Last()] <= d && |len| == a
    requires forall i :: 0 <= i < a ==> len[i] == Depth(f, a, i + 1) <= d
    ensures Shares(f, a, d, a) == [0] + KraftShares(len, d)
  {
    hide Depth, Children;
    var s := Shares(f, a, d, a);
    forall x | 1 <= x <= a ensures s[x] == Pow2(d - len[x - 1]) {
      assert s[x] == Share(f, a, d, x);
      assert len[x - 1] == Depth(f, a, x - 1 + 1);
    }
  }

  /** Main result: the leaves of a complete tree use the whole code space. */
  lemma LeavesFillCodeSpace(f: Forest, a: nat, d: nat, len: seq<nat>)
    requires Complete(f, a) && f.h[f.Last()] <= d && |len| == a
    requires forall i :: 0 <= i < a ==> len[i] == Depth(f, a, i + 1)
    ensures forall i :: 0 <= i < a ==> len[i] <= f.h[f.Last()]
    ensures KraftSum(len, d) == Pow2(d)
  {
    hide Sum, Children, LightTaken, Heavy, Depth, Pow2;
    forall i | 0 <= i < a ensures len[i] <= f.h[f.Last()] {
      DepthBelowHeight(f, a, i + 1);
    }
    SharesAll(f, a, d, a);
    SumShift(KraftShares(len, d));
    LeafShares(f, a, d, len);
  }

  /** Every leaf of a tree with at least two leaves has a code of at least one bit. */
  lemma LeafBelowRoot(f: Forest, a: nat, x: nat)
    requires Complete(f, a) && 1 <= x < f.Last()
    ensures Depth(f, a, x) >= 1
  {
    assert f.parent[x] == -1 ==> IsRoot(f, x);
  }

  /** A tree over at most 258 leaves of weight 1 or 2 is at most 12 high. */
  lemma LightTreeIsLow(f: Forest, a: nat)
    requires Complete(f, a) && Sum(RootWeights(f)) <= 2 * 258
    ensures f.h[f.Last()] <= 12
  {
    hide Sum, Fib, Children, LightTaken;
    var n: nat := f.Last();
    assert f.parent[n] == -1;
    SumAtLeast(RootWeights(f), n);
    if f.h[n] >= 13 {
      FibMonotone(13, f.h[n]);
      FibValues();
    }
  }
}
