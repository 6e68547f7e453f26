/** The order of rotations as the main block sort compares them: by the
    character at a depth, by the cached order of rotations, and around the
    end of the block into its overshoot area. */
module MainOrder {
  import opened Words
  import opened Cyclic
  import opened Permuting

  const BZ_N_RADIX := 2
  const BZ_N_QSORT := 12
  const BZ_N_SHELL := 18
  const BZ_N_OVERSHOOT := BZ_N_RADIX + BZ_N_QSORT + BZ_N_SHELL + 2

  // ---------- ranks ----------

  ghost function Smaller(b: seq<byte>, p: nat): set<nat>
    requires p < |b|
  {
    set q: nat | q < |b| && Before(b, q, p)
  }

  /** How many rotations come before each. */
  ghost function Ranks(b: seq<byte>): (r: seq<nat>)
    ensures |r| == |b|
  {
    seq(|b|, p requires 0 <= p < |b| => |Smaller(b, p)|)
  }

  lemma SmallerStrict(b: seq<byte>, p: nat, q: nat)
    requires p < |b| && q < |b| && Before(b, p, q)
    ensures |Smaller(b, p)| < |Smaller(b, q)|
  {
    hide Lt;
    forall r: nat | r in Smaller(b, p) ensures r in Smaller(b, q) - {p} {
      LtTransitive(b, r, p, q, |b|);
      Trichotomy(b, p, p, |b|);
    }
    SubsetSize(Smaller(b, p), Smaller(b, q) - {p});
  }

  lemma SmallerWeak(b: seq<byte>, p: nat, q: nat)
    requires p < |b| && q < |b| && !Before(b, q, p)
    ensures |Smaller(b, p)| <= |Smaller(b, q)|
  {
    hide Lt, Eq;
    forall r: nat | r in Smaller(b, p) ensures r in Smaller(b, q) {
      Trichotomy(b, p, q, |b|);
      LtTransitive(b, r, p, q, |b|);
    }
    SubsetSize(Smaller(b, p), Smaller(b, q));
  }

  /** Ranks order as rotations do. */
  lemma RankOrder(b: seq<byte>, p: nat, q: nat)
    requires p < |b| && q < |b|
    ensures Before(b, p, q) <==> Ranks(b)[p] < Ranks(b)[q]
  {
    hide Lt;
    if Before(b, p, q) {
      SmallerStrict(b, p, q);
    } else {
      SmallerWeak(b, q, p);
    }
  }

  // ---------- the overshoot area ----------

  /** The position that an index into the block and its overshoot stands for. */
  function Wrap(n: nat, i: nat): (r: nat)
    requires i < 2 * n
    ensures r < n
  {
    if i < n then i else i - n
  }

  /** The array continues around the end of the block. */
  ghost predicate Extended(a: seq<nat>, n: nat) {
    n > BZ_N_OVERSHOOT && |a| >= n + BZ_N_OVERSHOOT && forall i: nat :: i < BZ_N_OVERSHOOT ==> a[n + i] == a[i]
  }

  lemma ExtendedAt(a: seq<nat>, n: nat, i: nat)
    requires Extended(a, n) && i < n + BZ_N_OVERSHOOT
    ensures i < 2 * n && a[i] == a[Wrap(n, i)]
  {
    if i >= n {
      assert a[n + (i - n)] == a[i - n];
    }
  }

  lemma WrapNext(n: nat, i: nat)
    requires i + 1 < 2 * n
    ensures Wrap(n, i + 1) == Next(n, Wrap(n, i))
  {
  }

  lemma WrapAdv(n: nat, p: nat, d: nat)
    requires p < n && d <= n && p + d < 2 * n
    ensures Wrap(n, p + d) == Adv(n, p, d)
  {
    AdvIs(n, p, d);
  }

  /** What the quadrants promise, read weakly: of two positions with the same
      character the one with the smaller quadrant does not come after. */
  ghost predicate QuadrantsOk(b: seq<byte>, quadrant: seq<nat>) {
    |quadrant| >= |b| && forall p: nat, q: nat {:trigger quadrant[p], quadrant[q]} ::
      p < |b| && q < |b| && b[p] == b[q] && quadrant[p] < quadrant[q] ==> !Before(b, q, p)
  }

  // ---------- comparing from a depth ----------

  /** Rotations that agree on k characters compare as what follows. */
  lemma {:induction false} CompareLater(b: seq<byte>, p: nat, q: nat, k: nat)
    requires p < |b| && q < |b| && Eq(b, p, q, k)
    ensures Before(b, p, q) <==> Before(b, Adv(|b|, p, k), Adv(|b|, q, k))
    decreases k
  {
    hide Lt;
    if k > 0 {
      BeforeByFirst(b, p, q);
      CompareLater(b, Next(|b|, p), Next(|b|, q), k - 1);
    }
  }

  /** A smaller character after k equal ones decides. */
  lemma SmallerLater(b: seq<byte>, p: nat, q: nat, k: nat)
    requires p < |b| && q < |b| && Eq(b, p, q, k) && b[Adv(|b|, p, k)] < b[Adv(|b|, q, k)]
    ensures Before(b, p, q) && !Before(b, q, p)
  {
    hide Lt, Adv, Eq;
    CompareLater(b, p, q, k);
    BeforeByFirst(b, Adv(|b|, p, k), Adv(|b|, q, k));
    Trichotomy(b, p, q, |b|);
  }

  /** All entries of a range agree on their first d characters. */
  ghost predicate Agree(b: seq<byte>, a: seq<nat>, lo: int, hi: int, d: nat) {
    && 0 <= lo <= hi + 1 <= |a|
    && (forall x :: lo <= x <= hi ==> a[x] < |b|)
    && (forall x, y {:trigger a[x], a[y]} :: lo <= x <= hi && lo <= y <= hi ==> Eq(b, a[x], a[y], d))
  }

  lemma AgreePart(b: seq<byte>, a: seq<nat>, lo: int, hi: int, d: nat, lo': int, hi': int)
    requires Agree(b, a, lo, hi, d) && lo <= lo' <= hi' + 1 && hi' <= hi
    ensures Agree(b, a, lo', hi', d)
  {
  }

  lemma AgreeKeyed(b: seq<byte>, a: seq<nat>, lo: int, hi: int, d: nat)
    requires Agree(b, a, lo, hi, d)
    ensures Keyed(a, Ranks(b), lo, hi)
  {
  }

  /** Rearranging a range keeps what all its entries share. */
  lemma AgreePermuted(b: seq<byte>, a: seq<nat>, c: seq<nat>, lo: int, hi: int, d: nat)
    requires Agree(b, a, lo, hi, d) && Permuted(a, c, lo, hi)
    ensures Agree(b, c, lo, hi, d)
  {
    hide Permuted, Eq;
    assert |c| == |a| by { PermutedLength(a, c, lo, hi); }
    forall x | lo <= x <= hi ensures c[x] < |b| {
      var x' := ComesFrom(a, c, lo, hi, x);
    }
    forall x, y | lo <= x <= hi && lo <= y <= hi ensures Eq(b, c[x], c[y], d) {
      var x' := ComesFrom(a, c, lo, hi, x);
      var y' := ComesFrom(a, c, lo, hi, y);
      assert Eq(b, a[x'], a[y'], d);
    }
  }

  lemma PermutedLength(a: seq<nat>, c: seq<nat>, lo: int, hi: int)
    requires Permuted(a, c, lo, hi)
    ensures |c| == |a|
  {
  }

  /** What happens away from a range does not touch it. */
  lemma AgreeElsewhere(b: seq<byte>, a: seq<nat>, c: seq<nat>, lo: int, hi: int, d: nat, lo': int, hi': int)
    requires Agree(b, a, lo, hi, d) && Permuted(a, c, lo', hi') && (hi < lo' || hi' < lo || lo > hi)
    ensures Agree(b, c, lo, hi, d)
  {
    assert forall x :: lo <= x <= hi ==> c[x] == a[x];
  }
}
