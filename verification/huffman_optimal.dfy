/** Why pairing least weights gives the least total: no lengths that fit the
    code space cost less than the depths of the leaves. */
module HuffmanOptimal {
  import opened Words
  import opened HuffmanForest

  /** Node x is a root when the nodes up to m have been made. */
  ghost predicate Roots(f: Forest, m: int, x: nat) {
    1 <= x <= m < |f.parent| && (f.parent[x] == -1 || f.parent[x] > m)
  }

  /** When m was made its first child was no heavier than the second, and no
      other root was lighter than either. */
  ghost predicate NoneLighter(f: Forest, m: nat, y: nat)
    requires m < |f.w| == |f.left| == |f.right|
  {
    var l, r := f.left[m], f.right[m];
    && l < |f.w| && r < |f.w| && f.w[l] <= f.w[r]
    && (Roots(f, m - 1, y) && y < |f.w| && y != l && y != r ==> f.w[l] <= f.w[y] && f.w[r] <= f.w[y])
  }

  ghost predicate Greedy(f: Forest, a: nat)
    requires Shape(f, a)
  {
    forall m: nat, y: nat :: a < m <= f.Last() && y < m ==> NoneLighter(f, m, y)
  }

  lemma LeavesGreedy(f: Forest, a: nat)
    requires Shape(f, a) && f.Last() == a
    ensures Greedy(f, a)
  {
  }

  /** Merging the lightest keeps it so. */
  lemma MergeGreedy(f: Forest, a: nat, l: nat, r: nat)
    requires Built(f, a) && Greedy(f, a) && Lightest(f, a, l, r) && Shape(Merge(f, l, r), a)
    ensures Greedy(Merge(f, l, r), a)
  {
    hide LightTaken, Fib, Max, Children;
    var g, n := Merge(f, l, r), |f.parent|;
    forall m: nat, y: nat | a < m <= g.Last() && y < m ensures NoneLighter(g, m, y) {
      if m < n {
        assert NoneLighter(f, m, y);
        OlderRoot(f, l, r, m, y);
      } else {
        LastGreedy(f, a, l, r, y);
      }
    }
  }

  lemma OlderRoot(f: Forest, l: nat, r: nat, m: nat, y: nat)
    requires l < |f.parent| && r < |f.parent| && |f.w| == |f.h| == |f.left| == |f.right| == |f.parent|
    requires m < |f.parent| && NoneLighter(f, m, y) && IsRoot(f, l) && IsRoot(f, r)
    ensures NoneLighter(Merge(f, l, r), m, y)
  {
    assert Roots(Merge(f, l, r), m - 1, y) ==> Roots(f, m - 1, y);
  }

  lemma LastGreedy(f: Forest, a: nat, l: nat, r: nat, y: nat)
    requires Built(f, a) && Lightest(f, a, l, r) && y < |f.parent|
    ensures NoneLighter(Merge(f, l, r), |f.parent|, y)
  {
    hide LightTaken, Fib, Max, Children;
    if Roots(Merge(f, l, r), f.Last(), y) && y != l && y != r {
      assert IsRoot(f, y);
    }
  }

  // ---------- lengths for the roots of one stage ----------

  /** Lengths of at most d for the roots of stage m. */
  ghost predicate Within(f: Forest, m: nat, lam: seq<nat>, d: nat) {
    |lam| == m + 1 && m < |f.parent| == |f.w| && forall x: nat {:trigger lam[x]} :: Roots(f, m, x) ==> lam[x] <= d
  }

  /** The code space used, in units of 2^-d. */
  ghost function Used(f: Forest, m: nat, lam: seq<nat>, d: nat): (s: seq<nat>)
    requires Within(f, m, lam, d)
    ensures |s| == m + 1
    ensures forall x: nat {:trigger s[x]} :: x <= m ==> s[x] == if Roots(f, m, x) then Pow2(d - lam[x]) else 0
  {
    seq(m + 1, x requires 0 <= x < m + 1 => if Roots(f, m, x) then Pow2(d - lam[x]) else 0)
  }

  ghost function Costs(f: Forest, m: nat, lam: seq<nat>): (s: seq<nat>)
    requires |lam| == m + 1 && m < |f.parent| == |f.w|
    ensures |s| == m + 1
    ensures forall x: nat {:trigger s[x]} :: x <= m ==> s[x] == if Roots(f, m, x) then f.w[x] * lam[x] else 0
  {
    seq(m + 1, x requires 0 <= x < m + 1 => if Roots(f, m, x) then f.w[x] * lam[x] else 0)
  }

  ghost function Depths(f: Forest, a: nat, m: nat): (s: seq<nat>)
    requires Shape(f, a) && m <= f.Last()
    ensures |s| == m + 1 && forall x: nat {:trigger s[x]} :: 1 <= x <= m ==> s[x] == Depth(f, a, x)
  {
    seq(m + 1, x requires 0 <= x < m + 1 => if x == 0 then 0 else Depth(f, a, x))
  }

  /** Exchanging two entries keeps the sum. */
  lemma SumExchange(s: seq<nat>, i: nat, j: nat)
    requires i < |s| && j < |s|
    ensures Sum(s[i := s[j]][j := s[i]]) == Sum(s)
  {
    hide Sum;
    SumUpdate(s, i, s[j]);
    SumUpdate(s[i := s[j]], j, s[i]);
  }

  function Exchanged(lam: seq<nat>, i: nat, j: nat): seq<nat>
    requires i < |lam| && j < |lam|
  {
    lam[i := lam[j]][j := lam[i]]
  }

  /** Giving the longer length to the lighter of two costs no more. */
  lemma ExchangeCheaper(f: Forest, m: nat, lam: seq<nat>, d: nat, i: nat, j: nat)
    requires Within(f, m, lam, d) && Roots(f, m, i) && Roots(f, m, j) && f.w[i] <= f.w[j] && lam[i] <= lam[j]
    ensures Within(f, m, Exchanged(lam, i, j), d)
    ensures Sum(Used(f, m, Exchanged(lam, i, j), d)) == Sum(Used(f, m, lam, d))
    ensures Sum(Costs(f, m, Exchanged(lam, i, j))) <= Sum(Costs(f, m, lam))
  {
    hide Sum, Pow2;
    var lam' := Exchanged(lam, i, j);
    var s, c := Used(f, m, lam, d), Costs(f, m, lam);
    assert Used(f, m, lam', d) == s[i := s[j]][j := s[i]];
    SumExchange(s, i, j);
    var v: nat, w: nat := f.w[i] * lam[j], f.w[j] * lam[i];
    SumUpdate(c, i, v);
    if i != j {
      var half: seq<nat> := c[i := v];
      SumUpdate(half, j, w);
      assert Costs(f, m, lam') == half[j := w];
      Products(f.w[i], f.w[j], lam[i], lam[j]);
    } else {
      assert Costs(f, m, lam') == c;
    }
  }

  lemma Products(v: nat, w: nat, s: nat, t: nat)
    requires v <= w && s <= t
    ensures v * t + w * s <= v * s + w * t
  {
    MulAtMost(0, w - v, t - s);
    CrossProducts(v, s, w - v, t - s);
  }

  /** A root with the greatest length, besides one. */
  lemma {:induction false} Longest(f: Forest, m: nat, lam: seq<nat>, i: nat, but: nat, n: nat) returns (x: nat)
    requires |lam| == m + 1 && m < |f.parent| && Roots(f, m, i) && i != but && n <= m
    ensures Roots(f, m, x) && x != but
    ensures lam[i] <= lam[x] && forall y: nat :: y <= n && Roots(f, m, y) && y != but ==> lam[y] <= lam[x]
  {
    if n == 0 {
      x := i;
    } else {
      x := Longest(f, m, lam, i, but, n - 1);
      if Roots(f, m, n) && n != but && lam[n] > lam[x] {
        x := n;
      }
    }
  }

  // ---------- from one stage to the next ----------

  /** The roots of the stage where m was made are those before but its
      children, and m. */
  lemma NextRoots(f: Forest, a: nat, m: nat)
    requires Complete(f, a) && a < m <= f.Last()
    ensures IsMerge(f, m) && Roots(f, m - 1, f.left[m]) && Roots(f, m - 1, f.right[m]) && Roots(f, m, m)
    ensures forall x: nat :: x < m ==> (Roots(f, m, x) <==> Roots(f, m - 1, x) && x != f.left[m] && x != f.right[m])
  {
    hide LightTaken, Heavy, Max;
    assert IsMerge(f, m);
    forall x: nat | x < m && Roots(f, m - 1, x) && x != f.left[m] && x != f.right[m] ensures Roots(f, m, x) {
      assert f.parent[x] != m;
    }
  }

  lemma StageSum(s: seq<nat>, t: seq<nat>, l: nat, r: nat)
    requires l < |s| && r < |s| && l != r && |t| == |s| + 1 && t[..|s|] == s[l := 0][r := 0]
    ensures Sum(t) == Sum(s) - s[l] - s[r] + t[|s|]
  {
    hide Sum;
    SumUpdate(s, l, 0);
    SumUpdate(s[l := 0], r, 0);
    SumPush(s[l := 0][r := 0], t[|s|]);
    assert t == s[l := 0][r := 0] + [t[|s|]];
  }

  lemma {:induction false} SumDivisible(s: seq<nat>, c: seq<nat>, g: nat)
    requires |c| == |s| && forall x :: 0 <= x < |s| ==> s[x] == c[x] * g
    ensures Sum(s) == Sum(c) * g
  {
    if s != [] {
      var n := |s| - 1;
      SumDivisible(s[..n], c[..n], g);
      assert (Sum(c[..n]) + c[n]) * g == Sum(c[..n]) * g + c[n] * g;
    }
  }

  /** What is left of the code space is a multiple of the shorter of the two
      longest shares, so that both may have it. */
  lemma RoomForBoth(s: seq<nat>, lam: seq<nat>, l: nat, r: nat, d: nat)
    requires |lam| == |s| && l < |s| && r < |s| && l != r && lam[r] <= lam[l] <= d
    requires s[r] == Pow2(d - lam[r]) && s[l] == Pow2(d - lam[l])
    requires forall x :: 0 <= x < |s| && x != l && x != r ==>
      s[x] == 0 || (lam[x] <= lam[r] && s[x] == Pow2(d - lam[x]))
    requires Sum(s) <= Pow2(d)
    ensures 1 <= lam[r] && Sum(s) - s[l] - s[r] + Pow2(d - (lam[r] - 1)) <= Pow2(d)
  {
    hide Sum;
    var p := lam[r];
    var g := Pow2(d - p);
    var t := s[l := 0][r := 0];
    SumUpdate(s, l, 0);
    SumUpdate(s[l := 0], r, 0);
    var c := seq(|t|, x requires 0 <= x < |t| => if t[x] == 0 || lam[x] > p then 0 else Pow2(p - lam[x]));
    forall x | 0 <= x < |t| ensures t[x] == c[x] * g {
      if t[x] != 0 {
        Pow2Add(p - lam[x], d - p);
      }
    }
    SumDivisible(t, c, g);
    Pow2Add(p, d - p);
    FitsTwice(Sum(c), g, Pow2(p), s[l]);
    if p != 0 {
      assert Pow2(d - (p - 1)) == 2 * g;
    }
  }

  lemma FitsTwice(k: nat, g: nat, n: nat, e: nat)
    requires g > 0 && e > 0 && k * g + g + e <= n * g
    ensures k + 2 <= n && k * g + 2 * g <= n * g
  {
    assert (k + 1) * g == k * g + g;
    MulOrder(k + 1, n, g);
    MulAtMost(k + 2, n, g);
    assert (k + 2) * g == k * g + 2 * g;
  }

  lemma MulOrder(a: nat, b: nat, g: nat)
    requires a * g < b * g
    ensures a < b
  {
    if b <= a {
      MulAtMost(b, a, g);
    }
  }

  lemma MulAtMost(a: nat, b: nat, g: nat)
    requires a <= b
    ensures a * g <= b * g
  {
    assert (b - a) * g >= 0;
    assert (b - a) * g == b * g - a * g;
  }

  /** The children of m have the longest of the lengths. */
  ghost predicate ChildrenLongest(f: Forest, m: nat, lam: seq<nat>)
    requires 1 <= m < |f.parent| == |f.left| == |f.right| && |lam| == m
  {
    var l, r := f.left[m], f.right[m];
    && l < m && r < m && lam[r] <= lam[l]
    && forall y: nat :: Roots(f, m - 1, y) && y != l && y != r ==> lam[y] <= lam[r]
  }

  lemma RoomLeft(f: Forest, m: nat, lam: seq<nat>, d: nat)
    requires 1 <= m < |f.parent| == |f.left| == |f.right| && Within(f, m - 1, lam, d) && ChildrenLongest(f, m, lam)
    requires Roots(f, m - 1, f.left[m]) && Roots(f, m - 1, f.right[m]) && f.left[m] != f.right[m]
    requires Sum(Used(f, m - 1, lam, d)) <= Pow2(d)
    ensures var s, l, r := Used(f, m - 1, lam, d), f.left[m], f.right[m];
            1 <= lam[r] <= d && Sum(s) - s[l] - s[r] + Pow2(d - (lam[r] - 1)) <= Pow2(d)
  {
    hide Sum, Pow2;
    var s, l, r := Used(f, m - 1, lam, d), f.left[m], f.right[m];
    forall x | 0 <= x < |s| && x != l && x != r ensures s[x] == 0 || (lam[x] <= lam[r] && s[x] == Pow2(d - lam[x])) {
      assert s[x] == if Roots(f, m - 1, x) then Pow2(d - lam[x]) else 0;
    }
    RoomForBoth(s, lam, l, r, d);
  }

  /** Such lengths give lengths for the next stage, one less for m, */
  lemma Contracted(f: Forest, a: nat, m: nat, lam: seq<nat>, d: nat)
    requires Complete(f, a) && a < m <= f.Last() && Within(f, m - 1, lam, d) && ChildrenLongest(f, m, lam)
    requires Sum(Used(f, m - 1, lam, d)) <= Pow2(d)
    ensures lam[f.right[m]] >= 1
    ensures var lam' := lam + [lam[f.right[m]] - 1]; Within(f, m, lam', d) && Sum(Used(f, m, lam', d)) <= Pow2(d)
  {
    hide Sum, LightTaken, Heavy, Children, Pow2, ChildrenLongest;
    var l, r := f.left[m], f.right[m];
    NextRoots(f, a, m);
    RoomLeft(f, m, lam, d);
    var s := Used(f, m - 1, lam, d);
    var lam' := lam + [lam[r] - 1];
    assert Within(f, m, lam', d);
    var s' := Used(f, m, lam', d);
    UsedNext(f, m, lam, d);
    StageSum(s, s', l, r);
  }

  lemma UsedNext(f: Forest, m: nat, lam: seq<nat>, d: nat)
    requires 1 <= m < |f.parent| == |f.left| == |f.right| == |f.w| && Within(f, m - 1, lam, d)
    requires f.left[m] < m && f.right[m] < m && 1 <= lam[f.right[m]] <= d && Roots(f, m, m)
    requires forall x: nat :: x < m ==> (Roots(f, m, x) <==> Roots(f, m - 1, x) && x != f.left[m] && x != f.right[m])
    ensures var lam' := lam + [lam[f.right[m]] - 1];
            && Within(f, m, lam', d)
            && Used(f, m, lam', d)[..m] == Used(f, m - 1, lam, d)[f.left[m] := 0][f.right[m] := 0]
            && Used(f, m, lam', d)[m] == Pow2(d - (lam[f.right[m]] - 1))
  {
    hide Pow2;
    var lam' := lam + [lam[f.right[m]] - 1];
    assert Within(f, m, lam', d);
    var s, t := Used(f, m, lam', d), Used(f, m - 1, lam, d)[f.left[m] := 0][f.right[m] := 0];
    forall x: nat | x < m ensures s[x] == t[x] {
      assert lam'[x] == lam[x];
    }
  }

  /** which cost less by the weight of m. */
  lemma ContractedCost(f: Forest, a: nat, m: nat, lam: seq<nat>, d: nat)
    requires Complete(f, a) && a < m <= f.Last() && Within(f, m - 1, lam, d) && ChildrenLongest(f, m, lam)
    requires lam[f.right[m]] >= 1
    ensures Sum(Costs(f, m, lam + [lam[f.right[m]] - 1])) + f.w[m] <= Sum(Costs(f, m - 1, lam))
  {
    hide Sum, LightTaken, Heavy, Children;
    var l, r := f.left[m], f.right[m];
    NextRoots(f, a, m);
    var c, c' := Costs(f, m - 1, lam), Costs(f, m, lam + [lam[r] - 1]);
    assert c'[..m] == c[l := 0][r := 0];
    StageSum(c, c', l, r);
    Weighed(f.w[l], f.w[r], lam[l], lam[r]);
  }

  lemma Weighed(v: nat, w: nat, q: nat, p: nat)
    requires 1 <= p <= q
    ensures (v + w) * (p - 1) + (v + w) <= v * q + w * p
  {
    assert (v + w) * (p - 1) + (v + w) == v * p + w * p;
    assert v * (q - p) >= 0;
    assert v * (q - p) == v * q - v * p;
  }

  /** Lengths in which the two lightest are longest cost no more. */
  lemma Arranged(f: Forest, a: nat, m: nat, lam: seq<nat>, d: nat) returns (mu: seq<nat>)
    requires Complete(f, a) && Greedy(f, a) && a < m <= f.Last() && Within(f, m - 1, lam, d)
    ensures Within(f, m - 1, mu, d) && Sum(Used(f, m - 1, mu, d)) == Sum(Used(f, m - 1, lam, d))
    ensures Sum(Costs(f, m - 1, mu)) <= Sum(Costs(f, m - 1, lam))
    ensures ChildrenLongest(f, m, mu)
  {
    hide Sum, LightTaken, Heavy, Children;
    NextRoots(f, a, m);
    var l, r := f.left[m], f.right[m];
    var x := Longest(f, m - 1, lam, l, 0, m - 1);
    assert NoneLighter(f, m, x);
    ExchangeCheaper(f, m - 1, lam, d, l, x);
    var nu := Exchanged(lam, l, x);
    var y := Longest(f, m - 1, nu, r, l, m - 1);
    assert NoneLighter(f, m, y);
    ExchangeCheaper(f, m - 1, nu, d, r, y);
    mu := Exchanged(nu, r, y);
  }

  // ---------- the tree costs least ----------

  /** In a complete tree the cost of a stage is that of the next one and the
      weight of the node made there. */
  lemma DepthCosts(f: Forest, a: nat, m: nat)
    requires Complete(f, a) && a < m <= f.Last()
    ensures Sum(Costs(f, m - 1, Depths(f, a, m - 1))) == Sum(Costs(f, m, Depths(f, a, m))) + f.w[m]
  {
    hide Sum, LightTaken, Heavy, Children;
    NextRoots(f, a, m);
    var l, r, e := f.left[m], f.right[m], Depth(f, a, m);
    var c, c' := Costs(f, m - 1, Depths(f, a, m - 1)), Costs(f, m, Depths(f, a, m));
    assert Depth(f, a, l) == e + 1 && Depth(f, a, r) == e + 1;
    assert c'[..m] == c[l := 0][r := 0];
    StageSum(c, c', l, r);
    assert c[l] == f.w[l] * (e + 1) && c[r] == f.w[r] * (e + 1) && c'[m] == f.w[m] * e;
    Spread(f.w[l], f.w[r], e);
  }

  lemma Spread(v: nat, w: nat, e: nat)
    ensures v * (e + 1) + w * (e + 1) == (v + w) * e + (v + w)
  {
  }

  lemma RootCosts(f: Forest, a: nat, m: nat)
    requires Complete(f, a) && m == f.Last()
    ensures Sum(Costs(f, m, Depths(f, a, m))) == 0
  {
    hide Sum, LightTaken, Heavy, Children;
    var c := Costs(f, m, Depths(f, a, m));
    forall x | 0 <= x < |c| ensures c[x] == 0 {
      if Roots(f, m, x) {
        assert IsRoot(f, x);
      }
    }
    SumOfZeros(c);
  }

  /** Main result on the forest: at every stage, lengths for the roots that fit
      the code space cost at least as much as the depths in the tree. */
  lemma {:induction false} DepthsCostLeast(f: Forest, a: nat, m: nat, lam: seq<nat>, d: nat)
    requires Complete(f, a) && Greedy(f, a) && a <= m <= f.Last()
    requires Within(f, m, lam, d) && Sum(Used(f, m, lam, d)) <= Pow2(d)
    ensures Sum(Costs(f, m, Depths(f, a, m))) <= Sum(Costs(f, m, lam))
    decreases f.Last() - m
  {
    hide Sum, LightTaken, Heavy, Children, Greedy, Pow2;
    if m == f.Last() {
      RootCosts(f, a, m);
    } else {
      NextRoots(f, a, m + 1);
      var mu := Arranged(f, a, m + 1, lam, d);
      Contracted(f, a, m + 1, mu, d);
      ContractedCost(f, a, m + 1, mu, d);
      DepthsCostLeast(f, a, m + 1, mu + [mu[f.right[m + 1]] - 1], d);
      DepthCosts(f, a, m + 1);
    }
  }

  // ---------- code lengths ----------

  /** The bits that symbols of these frequencies take in codes of these lengths. */
  ghost function TotalBits(ws: seq<nat>, len: seq<nat>): nat
    requires |len| == |ws|
  {
    Sum(Bits(ws, len))
  }

  ghost function Bits(ws: seq<nat>, len: seq<nat>): (s: seq<nat>)
    requires |len| == |ws|
    ensures |s| == |ws| && forall i :: 0 <= i < |s| ==> s[i] == ws[i] * len[i]
  {
    seq(|ws|, i requires 0 <= i < |ws| => ws[i] * len[i])
  }

  /** Lengths that fit the code space, counted in units of 2^-d. */
  ghost predicate CodeSpace(len: seq<nat>, d: nat) {
    (forall i :: 0 <= i < |len| ==> len[i] <= d) && KraftSum(len, d) <= Pow2(d)
  }

  /** No prefix code takes fewer bits. */
  ghost predicate Optimal(ws: seq<nat>, len: seq<nat>) {
    && |len| == |ws|
    && forall other, d :: |other| == |ws| && CodeSpace(other, d) ==> TotalBits(ws, len) <= TotalBits(ws, other)
  }

  lemma OptimalAgainst(f: Forest, a: nat, ws: seq<nat>, len: seq<nat>, other: seq<nat>, d: nat)
    requires Complete(f, a) && Greedy(f, a) && |ws| == |len| == |other| == a
    requires forall i :: 0 <= i < a ==> f.w[i + 1] == ws[i] && len[i] == Depth(f, a, i + 1)
    requires CodeSpace(other, d)
    ensures TotalBits(ws, len) <= TotalBits(ws, other)
  {
    hide Sum, LightTaken, Heavy, Children, Greedy, Pow2, Depth;
    var lam := [0] + other;
    assert Within(f, a, lam, d);
    assert Used(f, a, lam, d) == [0] + KraftShares(other, d);
    SumShift(KraftShares(other, d));
    assert Costs(f, a, lam) == [0] + Bits(ws, other);
    SumShift(Bits(ws, other));
    var own := Depths(f, a, a);
    forall x: nat | 1 <= x <= a ensures own[x] == len[x - 1] && f.w[x] == ws[x - 1] {
      assert f.w[x - 1 + 1] == ws[x - 1];
    }
    assert Costs(f, a, own) == [0] + Bits(ws, len);
    SumShift(Bits(ws, len));
    DepthsCostLeast(f, a, a, lam, d);
  }

  /** Main result: the depths of the leaves are an optimal code. */
  lemma TreeIsOptimal(f: Forest, a: nat, ws: seq<nat>, len: seq<nat>)
    requires Complete(f, a) && Greedy(f, a) && |ws| == |len| == a
    requires forall i :: 0 <= i < a ==> f.w[i + 1] == ws[i] && len[i] == Depth(f, a, i + 1)
    ensures Optimal(ws, len)
  {
    hide Complete, Greedy, Depth, TotalBits, CodeSpace;
    forall other, d | |other| == |ws| && CodeSpace(other, d) ensures TotalBits(ws, len) <= TotalBits(ws, other) {
      OptimalAgainst(f, a, ws, len, other, d);
    }
  }

  /** In an optimal code a heavier symbol never has the longer code. */
  lemma HeavierIsShorter(ws: seq<nat>, len: seq<nat>, d: nat, i: nat, j: nat)
    requires Optimal(ws, len) && CodeSpace(len, d) && i < |ws| && j < |ws| && ws[i] > ws[j]
    ensures len[i] <= len[j]
  {
    hide Sum, Pow2;
    if len[i] > len[j] {
      var other := Exchanged(len, i, j);
      var s, c := KraftShares(len, d), Bits(ws, len);
      assert KraftShares(other, d) == s[i := s[j]][j := s[i]];
      SumExchange(s, i, j);
      assert CodeSpace(other, d);
      var v: nat, w: nat := ws[i] * len[j], ws[j] * len[i];
      SumUpdate(c, i, v);
      var half: seq<nat> := c[i := v];
      SumUpdate(half, j, w);
      assert Bits(ws, other) == half[j := w];
      Dearer(ws[j], ws[i], len[j], len[i]);
      assert false;
    }
  }

  lemma Dearer(v: nat, w: nat, s: nat, t: nat)
    requires v < w && s < t
    ensures v * t + w * s < v * s + w * t
  {
    MulAtMost(1, w - v, t - s);
    CrossProducts(v, s, w - v, t - s);
  }

  lemma CrossProducts(v: nat, s: nat, e: nat, g: nat)
    ensures v * (s + g) + (v + e) * s + e * g == v * s + (v + e) * (s + g)
  {
  }
}
