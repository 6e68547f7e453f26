/** Undoing the Burrows-Wheeler transform: the rank map from the last column
    to the first, the walk that recovers the block, and the two storage forms
    (FAST: one word per row; SMALL: a 16-bit and a 4-bit array). */
module InverseBwt {
  import opened Words
  import opened Counting
  import opened Cyclic

  // ---------- the rank map ----------

  /** The row of the first column that holds the character of row i of the
      last column: characters in order, equal characters in row order. */
  function Rank(l: seq<byte>, i: nat): (r: nat)
    requires i < |l|
  {
    CountLess(l, l[i]) + CountEq(l[..i], l[i])
  }

  /** The rows that come before row i of the last column. */
  ghost function Earlier(l: seq<byte>, i: nat): set<nat>
    requires i < |l|
  {
    set x | x in Range(0, |l|) && (l[x] < l[i] || (l[x] == l[i] && x < i))
  }

  /** The rows CountLess and CountEq count. */
  ghost function RowsLess(l: seq<byte>, c: nat): (s: set<nat>)
    ensures forall x: nat :: x in s <==> x < |l| && l[x] < c
    ensures |s| == CountLess(l, c)
  {
    if |l| == 0 then {}
    else
      var t := RowsLess(l[..|l| - 1], c);
      if l[|l| - 1] < c then t + {|l| - 1} else t
  }

  ghost function RowsEq(l: seq<byte>, c: nat): (s: set<nat>)
    ensures forall x: nat :: x in s <==> x < |l| && l[x] == c
    ensures |s| == CountEq(l, c)
  {
    if |l| == 0 then {}
    else
      var t := RowsEq(l[..|l| - 1], c);
      if l[|l| - 1] == c then t + {|l| - 1} else t
  }

  lemma RankIsSize(l: seq<byte>, i: nat)
    requires i < |l|
    ensures Rank(l, i) == |Earlier(l, i)| < |l|
  {
    var less, same := RowsLess(l, l[i]), RowsEq(l[..i], l[i]);
    assert less !! same;
    forall x: nat ensures x in Earlier(l, i) <==> x in less + same {
      if x < i {
        assert l[..i][x] == l[x];
      }
    }
    assert Earlier(l, i) == less + same;
    assert i !in Earlier(l, i);
    SubsetSize(Earlier(l, i) + {i}, Range(0, |l|));
  }

  lemma RankInjective(l: seq<byte>, i: nat, j: nat)
    requires i < |l| && j < |l| && i != j
    ensures Rank(l, i) != Rank(l, j)
  {
    RankIsSize(l, i);
    RankIsSize(l, j);
    if i in Earlier(l, j) {
      SubsetSize(Earlier(l, i) + {i}, Earlier(l, j));
    } else {
      SubsetSize(Earlier(l, j) + {j}, Earlier(l, i));
    }
  }

  ghost function Ranks(l: seq<byte>): (r: seq<nat>)
    ensures |r| == |l|
    ensures IsPermutation(r, |l|)
  {
    var r := seq(|l|, i requires 0 <= i < |l| => Rank(l, i));
    assert IsPermutation(r, |l|) by {
      forall i | 0 <= i < |l| ensures r[i] < |l| { RankIsSize(l, i); }
      forall i, j | 0 <= i < j < |l| ensures r[i] != r[j] { RankInjective(l, i, j); }
    }
    r
  }

  /** The row that Rank sends to x. */
  ghost function Unrank(l: seq<byte>, x: nat): (i: nat)
    requires x < |l|
    ensures i < |l| && Rank(l, i) == x
  {
    PermutationOnto(Ranks(l), |l|, x);
    var i: nat :| i < |l| && Ranks(l)[i] == x;
    i
  }

  lemma UnrankRank(l: seq<byte>, i: nat)
    requires i < |l|
    ensures Rank(l, i) < |l| && Unrank(l, Rank(l, i)) == i
  {
    RankIsSize(l, i);
    var j := Unrank(l, Rank(l, i));
    if j != i {
      RankInjective(l, i, j);
    }
  }

  // ---------- the walk ----------

  /** The row reached from row r after k steps back to the last column. */
  ghost function Row(l: seq<byte>, r: nat, k: nat): (x: nat)
    requires r < |l|
    ensures x < |l|
  {
    if k == 0 then r else Unrank(l, Row(l, r, k - 1))
  }

  /** The k-th character the decoder reads when it starts at row r. */
  ghost function WalkChar(l: seq<byte>, r: nat, k: nat): byte
    requires r < |l|
  {
    l[Row(l, r, k + 1)]
  }

  /** The last column of the sorted rotations. */
  ghost function LastColumn(b: seq<byte>, ptr: seq<nat>): (l: seq<byte>)
    requires IsPermutation(ptr, |b|)
    ensures |l| == |b|
    ensures forall i :: 0 <= i < |b| ==> l[i] == b[Prev(|b|, ptr[i])]
  {
    seq(|b|, i requires 0 <= i < |b| => b[Prev(|b|, ptr[i])])
  }

  /** Positions whose rotation comes before (after) the one at s. */
  ghost function PositionsBefore(b: seq<byte>, s: nat): set<nat>
    requires s < |b|
  {
    set p | p in Range(0, |b|) && Before(b, p, s)
  }

  ghost function PositionsAfter(b: seq<byte>, s: nat): set<nat>
    requires s < |b|
  {
    set p | p in Range(0, |b|) && Before(b, s, p)
  }

  /** The positions just before those that the rows in a point at. */
  ghost function PrevSeq(ptr: seq<nat>, n: nat): (q: seq<nat>)
    requires IsPermutation(ptr, n)
    ensures |q| == n && forall i :: 0 <= i < n ==> q[i] == Prev(n, ptr[i])
  {
    seq(n, i requires 0 <= i < n => Prev(n, ptr[i]))
  }

  /** The rows other than i that do not come before row i. */
  ghost function Later(l: seq<byte>, i: nat): (s: set<nat>)
    requires i < |l|
  {
    Range(0, |l|) - Earlier(l, i) - {i}
  }

  lemma LaterSize(l: seq<byte>, i: nat)
    requires i < |l|
    ensures |Later(l, i)| == |l| - 1 - Rank(l, i)
  {
    RankIsSize(l, i);
    var most := Earlier(l, i) + {i};
    SubsetSize(most, Range(0, |l|));
    assert Later(l, i) == Range(0, |l|) - most;
    assert |Range(0, |l|) - most| == |l| - |most|;
  }

  /** A row whose moved-back rotation comes before (after) that of row i is an
      earlier (later) row. */
  lemma OrderOfMovedRows(b: seq<byte>, ptr: seq<nat>, x: nat, i: nat)
    requires IsBlockSort(b, ptr) && x < |b| && i < |b|
    ensures var n, l := |b|, LastColumn(b, ptr);
            && (Before(b, Prev(n, ptr[x]), Prev(n, ptr[i])) ==> x in Earlier(l, i))
            && (Before(b, Prev(n, ptr[i]), Prev(n, ptr[x])) ==> x in Later(l, i))
  {
    var n := |b|;
    var p, s := Prev(n, ptr[x]), Prev(n, ptr[i]);
    BeforeByFirst(b, p, s);
    BeforeByFirst(b, s, p);
    if x == i {
      EqEquivalence(b, p, p, p, n);
      Trichotomy(b, p, p, n);
    }
  }

  /** Row i's rotation, moved back by one character, comes after at most Rank
      rotations and before at most the rest. */
  lemma NeighboursBounded(b: seq<byte>, ptr: seq<nat>, i: nat)
    requires IsBlockSort(b, ptr) && i < |b|
    ensures var l, s := LastColumn(b, ptr), Prev(|b|, ptr[i]);
            && |PositionsBefore(b, s)| <= Rank(l, i)
            && |PositionsAfter(b, s)| <= |b| - 1 - Rank(l, i)
  {
    var n, l, s, q := |b|, LastColumn(b, ptr), Prev(|b|, ptr[i]), PrevSeq(ptr, |b|);
    RankIsSize(l, i);
    LaterSize(l, i);
    var less, more := Image(q, Earlier(l, i)), Image(q, Later(l, i));
    ImageAtMost(q, Earlier(l, i));
    ImageAtMost(q, Later(l, i));
    forall p | p in Range(0, n)
      ensures Before(b, p, s) ==> p in less
      ensures Before(b, s, p) ==> p in more
    {
      PermutationOnto(ptr, n, Next(n, p));
      var x :| 0 <= x < n && ptr[x] == Next(n, p);
      assert q[x] == p;
      OrderOfMovedRows(b, ptr, x, i);
    }
    SubsetSize(PositionsBefore(b, s), less);
    SubsetSize(PositionsAfter(b, s), more);
  }

  /** The rank map moves every rotation back by one character, equal rotations
      included. */
  lemma RankMovesBack(b: seq<byte>, ptr: seq<nat>, i: nat)
    requires IsBlockSort(b, ptr) && i < |b|
    ensures var l := LastColumn(b, ptr);
            Rank(l, i) < |b| && Same(b, ptr[Rank(l, i)], Prev(|b|, ptr[i]))
  {
    var n, l, s := |b|, LastColumn(b, ptr), Prev(|b|, ptr[i]);
    var j := Rank(l, i);
    RankIsSize(l, i);
    NeighboursBounded(b, ptr, i);
    Trichotomy(b, ptr[j], s, n);
    if Before(b, ptr[j], s) {
      var rows := Range(0, j + 1);
      ImageExact(ptr, rows);
      forall x | x in rows ensures Before(b, ptr[x], s) {
        AtMostThenBefore(b, ptr, x, j, s);
      }
      SubsetSize(Image(ptr, rows), PositionsBefore(b, s));
      assert false;
    } else if Before(b, s, ptr[j]) {
      var rows := Range(j, n);
      ImageExact(ptr, rows);
      forall x | x in rows ensures Before(b, s, ptr[x]) {
        BeforeThenAtMost(b, ptr, j, x, s);
      }
      SubsetSize(Image(ptr, rows), PositionsAfter(b, s));
      assert false;
    }
  }

  lemma AtMostThenBefore(b: seq<byte>, ptr: seq<nat>, x: nat, j: nat, s: nat)
    requires IsBlockSort(b, ptr) && x <= j < |b| && s < |b| && Before(b, ptr[j], s)
    ensures Before(b, ptr[x], s)
  {
    if x != j {
      Trichotomy(b, ptr[x], ptr[j], |b|);
      LtTransitive(b, ptr[x], ptr[j], s, |b|);
    }
  }

  lemma BeforeThenAtMost(b: seq<byte>, ptr: seq<nat>, j: nat, x: nat, s: nat)
    requires IsBlockSort(b, ptr) && j <= x < |b| && s < |b| && Before(b, s, ptr[j])
    ensures Before(b, s, ptr[x])
  {
    if x != j {
      Trichotomy(b, ptr[x], ptr[j], |b|);
      EqEquivalence(b, ptr[x], ptr[j], ptr[x], |b|);
      LtTransitive(b, s, ptr[j], ptr[x], |b|);
    }
  }

  /** Equal rotations have the same last character. */
  lemma SamePrev(b: seq<byte>, p: nat, q: nat)
    requires p < |b| && q < |b| && Same(b, p, q)
    ensures Same(b, Prev(|b|, p), Prev(|b|, q)) && b[Prev(|b|, p)] == b[Prev(|b|, q)]
  {
    EqShift(b, Prev(|b|, p), Prev(|b|, q));
  }

  /** After k steps the walk stands on a rotation equal to the one at k. */
  lemma {:induction false} WalkFollowsBlock(b: seq<byte>, ptr: seq<nat>, r: nat, k: nat)
    requires IsBlockSort(b, ptr) && r < |b| && ptr[r] == 0
    ensures Same(b, ptr[Row(LastColumn(b, ptr), r, k)], Adv(|b|, 0, k))
  {
    var n, l := |b|, LastColumn(b, ptr);
    if k == 0 {
      EqEquivalence(b, 0, 0, 0, n);
    } else {
      WalkFollowsBlock(b, ptr, r, k - 1);
      var x, y := Row(l, r, k - 1), Row(l, r, k);
      RankMovesBack(b, ptr, y);
      assert Rank(l, y) == x;
      EqEquivalence(b, Prev(n, ptr[y]), ptr[x], Adv(n, 0, k - 1), n);
      EqEquivalence(b, ptr[x], Prev(n, ptr[y]), ptr[x], n);
      EqShift(b, Prev(n, ptr[y]), Adv(n, 0, k - 1));
      AdvNext(n, 0, k - 1);
    }
  }

  /** Main result: the walk from the row of the unrotated block reads the
      block, over and over. */
  lemma InverseTransform(b: seq<byte>, ptr: seq<nat>, r: nat, k: nat)
    requires IsBlockSort(b, ptr) && r < |b| && ptr[r] == 0
    ensures WalkChar(LastColumn(b, ptr), r, k) == b[Adv(|b|, 0, k)]
    ensures k < |b| ==> WalkChar(LastColumn(b, ptr), r, k) == b[k]
  {
    var n, l := |b|, LastColumn(b, ptr);
    WalkFollowsBlock(b, ptr, r, k + 1);
    SamePrev(b, ptr[Row(l, r, k + 1)], Adv(n, 0, k + 1));
    AdvNext(n, 0, k);
    if k < n {
      AdvIs(n, 0, k);
    }
  }
}
