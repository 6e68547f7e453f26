/** What the quadrants of the main sort say of equal rotations: when equal ones
    get different quadrants, and a block on which they do. */
module EqualQuadrants {
  import opened Words
  import opened Counting
  import opened Cyclic
  import opened MainOrder
  import opened MainQSort
  import opened MainBucket
  import opened MainRadix
  import opened MainBudget
  import opened MainGrades
  import opened SortChoice
  import opened Compressor
  import MainSort

  /** Of two positions with one character, the smaller quadrant is strictly
      before if and only if the rotations differ. */
  lemma StrictExactly(b: seq<byte>, q: seq<nat>, p: nat, r: nat)
    requires QuadrantsOk(b, q) && p < |b| && r < |b| && |b| <= |q| && b[p] == b[r] && q[p] < q[r]
    ensures Before(b, p, r) <==> !Same(b, p, r)
  {
    SameOrOrdered(b, p, r);
    Trichotomy(b, p, r, |b|);
    assert !Before(b, r, p);
  }

  /** Two equal rotations have different quadrants. */
  ghost predicate EqualsDiffer(b: seq<byte>, q: seq<nat>)
    requires |b| <= |q|
  {
    exists p: nat, r: nat {:trigger q[p], q[r]} :: p < |b| && r < |b| && Same(b, p, r) && q[p] != q[r]
  }

  ghost predicate Gradable(b: seq<byte>, last: byte) {
    exists p: nat {:trigger b[p]} :: p < |b| && b[p] != last && CountEq(b, b[p]) <= GRADES
  }

  /** Main result: when the main sort ends with budget left, some equal
      rotations have different quadrants if and only if the block is periodic
      and not one byte repeated. All the block must have for this, unless it is
      one byte repeated, is a character besides the last one sorted that is no
      more frequent than there are quadrants. */
  lemma EqualsDifferExactly(b: seq<byte>, q: seq<nat>, last: byte)
    requires |b| <= |q| && Told(b, q, last)
    requires Uniform(b) || Gradable(b, last)
    ensures EqualsDiffer(b, q) <==> !Primitive(b) && !Uniform(b)
  {
    hide CountEq, Same, Told, Apart, Uniform;
    if EqualsDiffer(b, q) {
      var p: nat, r: nat :| p < |b| && r < |b| && Same(b, p, r) && q[p] != q[r];
      SameFromStart(b, p, r);
      UniformBlank(b, q, last, p, r);
    }
    if !Primitive(b) && !Uniform(b) {
      var x: nat :| 0 < x < |b| && Same(b, 0, x);
      var p: nat :| p < |b| && b[p] != last && CountEq(b, b[p]) <= GRADES;
      SameShifted(b, x, p);
      AdvDiffers(|b|, p, x);
      ToldApart(b, q, last, p, Adv(|b|, p, x));
    }
  }

  lemma UniformBlank(b: seq<byte>, q: seq<nat>, last: byte, p: nat, r: nat)
    requires |b| <= |q| && Told(b, q, last) && p < |b| && r < |b|
    ensures Uniform(b) ==> q[p] == q[r]
  {
    hide CountEq, Apart;
    if Uniform(b) {
      SomePlace(b, last, b[0]);
      assert b[p] == last && b[r] == last;
    }
  }

  /** A character as frequent as one that occurs does occur. */
  lemma SomePlace(b: seq<byte>, c: byte, d: byte)
    requires d in b && CountEq(b, d) <= CountEq(b, c)
    ensures c in b
  {
    var i :| 0 <= i < |b| && b[i] == d;
    CountEqPrefix(b, d, i);
    if c !in b {
      NoneEqual(b, c);
    }
  }

  lemma {:induction false} NoneEqual(s: seq<nat>, c: nat)
    requires c !in s
    ensures CountEq(s, c) == 0
  {
    if s != [] {
      NoneEqual(s[..|s| - 1], c);
    }
  }

  /** Equal rotations stay equal when both are moved. */
  lemma {:induction false} SameShifted(b: seq<byte>, x: nat, p: nat)
    requires x < |b| && p < |b| && Same(b, 0, x)
    ensures Same(b, p, Adv(|b|, p, x)) && b[p] == b[Adv(|b|, p, x)]
    decreases |b| - p
  {
    hide Same;
    var n := |b|;
    var p' := Next(n, p);
    if p + 1 < n {
      SameShifted(b, x, p + 1);
    } else {
      AdvIs(n, 0, x);
    }
    AdvNext(n, p, x);
    var r := Adv(n, p, x);
    PrevNext(n, p);
    PrevNext(n, r);
    SamePrevious(b, p', Next(n, r));
    SameFirst(b, p, r);
  }

  lemma PrevNext(n: nat, p: nat)
    requires p < n
    ensures Prev(n, Next(n, p)) == p
  {
  }

  lemma SameFirst(b: seq<byte>, p: nat, r: nat)
    requires p < |b| && r < |b| && Same(b, p, r)
    ensures b[p] == b[r]
  {
  }

  lemma AdvDiffers(n: nat, p: nat, x: nat)
    requires p < n && 0 < x < n
    ensures Adv(n, p, x) != p
  {
    AdvIs(n, p, x);
  }

  lemma ToldApart(b: seq<byte>, q: seq<nat>, last: byte, p: nat, r: nat)
    requires |b| <= |q| && Told(b, q, last) && p < |b| && r < |b| && p != r && b[p] == b[r] != last
    requires CountEq(b, b[p]) <= GRADES
    ensures q[p] != q[r]
  {
    hide CountEq;
    assert Apart(b, q, b[p]);
  }

  // ---------- a block on which they differ ----------

  /** One byte x and m bytes z, twice. */
  function TwoRuns(x: byte, z: byte, m: nat): (b: seq<byte>)
    ensures |b| == 2 * (m + 1) && forall i :: 0 <= i < |b| ==> b[i] == if i == 0 || i == m + 1 then x else z
  {
    seq(2 * (m + 1), i => if i == 0 || i == m + 1 then x else z)
  }

  lemma {:induction false} TwoRunsEq(x: byte, z: byte, m: nat, p: nat, k: nat)
    requires p < 2 * (m + 1)
    ensures var b := TwoRuns(x, z, m); Eq(b, p, if p <= m then p + m + 1 else p - (m + 1), k)
    decreases k
  {
    if k > 0 {
      TwoRunsEq(x, z, m, Next(2 * (m + 1), p), k - 1);
    }
  }

  /** An entry that is at two places at most. */
  lemma {:induction false} TwoPlaces(s: seq<nat>, v: nat, i: int, j: int)
    requires forall k {:trigger s[k]} :: 0 <= k < |s| && s[k] == v ==> k == i || k == j
    ensures CountEq(s, v) <= (if 0 <= i < |s| then 1 else 0) + (if 0 <= j < |s| then 1 else 0)
  {
    if s != [] {
      TwoPlaces(s[..|s| - 1], v, i, j);
    }
  }

  /** An entry that is missing at four places at most. */
  lemma {:induction false} FourMissing(s: seq<nat>, v: nat, i: int, j: int, k: int, l: int)
    requires forall x {:trigger s[x]} :: 0 <= x < |s| && s[x] != v ==> x == i || x == j || x == k || x == l
    ensures CountEq(s, v) >= |s| - (if 0 <= i < |s| then 1 else 0) - (if 0 <= j < |s| then 1 else 0)
                             - (if 0 <= k < |s| then 1 else 0) - (if 0 <= l < |s| then 1 else 0)
  {
    if s != [] {
      FourMissing(s[..|s| - 1], v, i, j, k, l);
    }
  }

  lemma TwoRunsChanges(x: byte, z: byte, m: nat)
    requires x != z && m > 0
    ensures FewChanges(TwoRuns(x, z, m)) && PairCount(TwoRuns(x, z, m), z, z) >= 2 * m - 2
  {
    hide CountEq, Keys, TwoRuns;
    var b, n := TwoRuns(x, z, m), 2 * (m + 1);
    var keys := Keys(b);
    KeysLength(b);
    forall c: nat, d: nat | c < 256 && d < 256 && c != d ensures PairCount(b, c, d) <= 2 {
      forall k | 0 <= k < n && keys[k] == PairOf(c, d)
        ensures k == (if c == x as nat then n - 1 else n - 1 - m) || k == (if c == x as nat then m else 0)
      {
        PairParts(b, n - 1 - k, c as byte, d as byte);
      }
      TwoPlaces(keys, PairOf(c, d), if c == x as nat then n - 1 else n - 1 - m, if c == x as nat then m else 0);
    }
    forall k | 0 <= k < n && keys[k] != PairOf(z, z) ensures k == 0 || k == m || k == n - 1 || k == n - 1 - m {
      PairParts(b, n - 1 - k, z, z);
    }
    FourMissing(keys, PairOf(z, z), 0, m, n - 1, n - 1 - m);
  }

  lemma TwoRunsLast(x: byte, z: byte, m: nat, q: seq<nat>, last: byte)
    requires x != z && m > 1 && 2 * (m + 1) <= |q| && Told(TwoRuns(x, z, m), q, last)
    ensures q[0] != q[m + 1]
  {
    hide CountEq, Apart;
    var b := TwoRuns(x, z, m);
    FourMissing(b, z, 0, m + 1, -1, -1);
    TwoPlaces(b, x, 0, m + 1);
    assert CountEq(b, z) <= CountEq(b, last);
    if last != z {
      TwoPlaces(b, last, 0, m + 1);
    }
    assert CountEq(b, x) <= GRADES;
    assert Apart(b, q, x);
    ApartAt(b, q, x, 0, m + 1);
  }

  lemma ApartAt(b: seq<byte>, q: seq<nat>, c: byte, p: nat, r: nat)
    requires Apart(b, q, c) && p < |b| && r < |b| && p != r && b[p] == b[r] == c
    ensures |b| <= |q| && q[p] != q[r]
  {
  }

  /** Main result: on such a block the budget that BlockSort gives, for a work
      factor of 4 or more, is enough, and equal rotations end with different
      quadrants. */
  method EqualsGraded(x: byte, z: byte, m: nat, workFactor: nat) returns (first: nat, second: nat, budget: int)
    requires x != z && BZ_N_OVERSHOOT <= 2 * m && 2 * (m + 1) <= 900000 && 4 <= workFactor <= 100
    ensures budget >= 0 && first != second
    ensures Same(TwoRuns(x, z, m), 0, m + 1)
  {
    hide IsBlockSort, Told, FewChanges, PairCount, Eq, TwoRuns;
    var n := 2 * (m + 1);
    ghost var b := TwoRuns(x, z, m);
    var sorter := new Sorter(n);
    var block := new byte[n + BZ_N_OVERSHOOT](i => if i == 0 || i == m + 1 then x else z);
    assert block[..n] == b;
    TwoRunsChanges(x, z, m);
    budget := MainSort.MainSort(sorter.ptr, block, sorter.quadrant, sorter.bhtab, n, n * ((workFactor - 1) / 3));
    EnoughBudget(n, workFactor, PairCount(b, z, z), budget);
    ghost var last: byte :| Told(b, sorter.quadrant[..], last);
    TwoRunsLast(x, z, m, sorter.quadrant[..], last);
    TwoRunsEq(x, z, m, 0, n);
    first, second := sorter.quadrant[0], sorter.quadrant[m + 1];
  }

  lemma EnoughBudget(n: nat, workFactor: nat, k: int, budget: int)
    requires n > BZ_N_OVERSHOOT && workFactor >= 4 && n - 4 <= k
    requires budget >= n * ((workFactor - 1) / 3) - Fare(n, n - k)
    ensures budget >= 0
  {
    FareMonotone(n, n - k, 4);
    assert Fare(n, 4) == 4 * CompareCost(n) <= n / 2 + 8;
    assert (workFactor - 1) / 3 >= 1;
    assert n * ((workFactor - 1) / 3) >= n * 1;
  }
}
