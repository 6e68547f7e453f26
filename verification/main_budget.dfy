/** What the main sort takes from its budget when no small bucket holds more
    than two rotations, but for those of one character twice, which are never
    sorted but synthesised. */
module MainBudget {
  import opened Words
  import opened Counting
  import opened MainQSort
  import opened MainBucket
  import opened MainRadix

  /** The rotations of small buckets that may have to be sorted come in ones
      and twos. */
  ghost predicate Twos(F: seq<nat>) {
    && |F| == PAIRS + 1
    && forall c: nat, d: nat {:trigger PairOf(c, d)} :: c < 256 && d < 256 && c != d ==>
         F[PairOf(c, d) + 1] <= F[PairOf(c, d)] + 2
  }

  /** What k rotations in such buckets cost at most. */
  ghost function Fare(n: nat, k: int): (r: int)
    ensures k >= 0 ==> r >= 0
  {
    CompareCost(n) * k
  }

  lemma FareAdds(n: nat, j: int, k: int)
    ensures Fare(n, j) + Fare(n, k) == Fare(n, j + k)
  {
  }

  lemma FareMonotone(n: nat, j: int, k: int)
    requires j <= k
    ensures Fare(n, j) <= Fare(n, k)
  {
    FareAdds(n, j, k - j);
  }

  /** One bucket. */
  lemma FareOfBucket(n: nat, budget: int, budget': int, k: int)
    requires 0 <= k <= 2 && budget' <= budget
        && (if k == 2 then budget' >= budget - CompareCost(n) else budget' == budget)
    ensures budget' >= budget - Fare(n, k)
  {
    if k == 2 {
      assert Fare(n, 2) == 2 * CompareCost(n);
    }
  }

  /** The rotations in the first j small buckets of ss, but for the one of ss
      twice. */
  ghost function OffUpTo(F: seq<nat>, ss: byte, j: nat): int
    requires |F| == PAIRS + 1 && j <= 256
  {
    var twice := F[PairOf(ss, ss) + 1] as int - F[PairOf(ss, ss)];
    F[PairOf(ss, j)] as int - F[PairOf(ss, 0)] - (if j > ss as nat then twice else 0)
  }

  lemma OffNext(F: seq<nat>, n: nat, ss: byte, j: nat)
    requires Starts(F, n) && j < 256
    ensures OffUpTo(F, ss, 0) == 0
    ensures OffUpTo(F, ss, j + 1) ==
            OffUpTo(F, ss, j) + (if j == ss as nat then 0 else F[PairOf(ss, j) + 1] - F[PairOf(ss, j)])
    ensures F[PairOf(ss, j)] <= F[PairOf(ss, j) + 1]
  {
    StartsAt(F, n, PairOf(ss, j));
  }

  lemma {:induction false} OffGrows(F: seq<nat>, n: nat, ss: byte, j: nat)
    requires Starts(F, n) && j <= 256
    ensures 0 <= OffUpTo(F, ss, j) <= OffUpTo(F, ss, 256)
    decreases 256 - j
  {
    hide Starts, OffUpTo;
    StartsLength(F, n);
    if j < 256 {
      OffNext(F, n, ss, j);
      OffGrows(F, n, ss, j + 1);
    }
    OffPositive(F, n, ss, j);
  }

  lemma {:induction false} OffPositive(F: seq<nat>, n: nat, ss: byte, j: nat)
    requires Starts(F, n) && j <= 256
    ensures 0 <= OffUpTo(F, ss, j)
  {
    hide Starts, OffUpTo;
    StartsLength(F, n);
    if j > 0 {
      OffPositive(F, n, ss, j - 1);
      OffNext(F, n, ss, j - 1);
    } else {
      OffNext(F, n, ss, 0);
    }
  }

  lemma StartsLength(F: seq<nat>, n: nat)
    requires Starts(F, n)
    ensures |F| == PAIRS + 1
  {
  }

  /** The same for the characters below m that are done. */
  ghost function OffSum(F: seq<nat>, done: seq<bool>, m: nat): int
    requires |F| == PAIRS + 1 && m <= 256 == |done|
  {
    if m == 0 then 0
    else OffSum(F, done, m - 1) + (if done[m - 1] then OffUpTo(F, (m - 1) as byte, 256) else 0)
  }

  lemma {:induction false} OffSumNone(F: seq<nat>, done: seq<bool>, m: nat)
    requires |F| == PAIRS + 1 && m <= 256 == |done| && forall c :: 0 <= c < 256 ==> !done[c]
    ensures OffSum(F, done, m) == 0
  {
    if m > 0 {
      OffSumNone(F, done, m - 1);
    }
  }

  /** One character more. */
  lemma {:induction false} OffSumDone(F: seq<nat>, done: seq<bool>, ss: byte, m: nat)
    requires |F| == PAIRS + 1 && m <= 256 == |done| && !done[ss]
    ensures OffSum(F, done[ss := true], m) ==
            OffSum(F, done, m) + (if ss as nat < m then OffUpTo(F, ss, 256) else 0)
  {
    if m > 0 {
      OffSumDone(F, done, ss, m - 1);
    }
  }

  /** Main result: all of them are at most the rotations that are not in the
      bucket of z twice, whatever z is. */
  lemma {:induction false} OffSumBound(F: seq<nat>, n: nat, done: seq<bool>, m: nat, z: byte)
    requires Starts(F, n) && m <= 256 == |done|
    ensures |F| == PAIRS + 1 && PairOf(m, 0) <= PAIRS
    ensures 0 <= OffSum(F, done, m)
    ensures OffSum(F, done, m) <=
            F[PairOf(m, 0)] - (if m > z as nat then F[PairOf(z, z) + 1] - F[PairOf(z, z)] else 0)
  {
    hide Starts, OffUpTo;
    StartsLength(F, n);
    if m > 0 {
      var c: byte := m - 1;
      OffSumBound(F, n, done, m - 1, z);
      OffPositive(F, n, c, 256);
      OffOf(F, n, c);
    }
  }

  lemma OffOf(F: seq<nat>, n: nat, c: byte)
    requires Starts(F, n)
    ensures |F| == PAIRS + 1 && PairOf(c as nat + 1, 0) <= PAIRS
    ensures OffUpTo(F, c, 256) ==
            F[PairOf(c as nat + 1, 0)] - F[PairOf(c, 0)] - (F[PairOf(c, c) + 1] - F[PairOf(c, c)])
    ensures 0 <= F[PairOf(c, c) + 1] - F[PairOf(c, c)] <= F[PairOf(c as nat + 1, 0)] - F[PairOf(c, 0)]
  {
    SeedBounds(F, n, c);
  }

  /** One big bucket is done, in one turn of the loop. */
  lemma FareKept(F: seq<nat>, n: nat, done: seq<bool>, ss: byte, budget: int, before: int, after: int)
    requires Starts(F, n) && |F| == PAIRS + 1 && |done| == 256 && !done[ss]
    requires before >= budget - Fare(n, OffSum(F, done, 256)) && after >= before - Fare(n, OffUpTo(F, ss, 256))
    ensures after >= budget - Fare(n, OffSum(F, done[ss := true], 256))
  {
    hide Starts, Fare, OffUpTo;
    OffSumDone(F, done, ss, 256);
    FareAdds(n, OffSum(F, done, 256), OffUpTo(F, ss, 256));
  }

  // ---------- in terms of the block ----------

  /** How often c is followed by d, around the end. */
  ghost function PairCount(b: seq<byte>, c: nat, d: nat): (k: nat)
    ensures k <= |b|
  {
    CountEq(Keys(b), PairOf(c, d))
  }

  /** Different characters follow each other at most twice. */
  ghost predicate FewChanges(b: seq<byte>) {
    forall c: nat, d: nat {:trigger PairCount(b, c, d)} :: c < 256 && d < 256 && c != d ==> PairCount(b, c, d) <= 2
  }

  lemma StartsCount(b: seq<byte>, c: nat, d: nat)
    requires c < 256 && d < 256
    ensures BucketStarts(b)[PairOf(c, d) + 1] == BucketStarts(b)[PairOf(c, d)] + PairCount(b, c, d)
  {
    hide CountEq, CountLess, Keys;
    CountLessNext(Keys(b), PairOf(c, d));
  }

  lemma FewTwos(b: seq<byte>)
    requires FewChanges(b)
    ensures Twos(BucketStarts(b))
  {
    hide PairCount, BucketStarts;
    forall c: nat, d: nat | c < 256 && d < 256 && c != d
      ensures BucketStarts(b)[PairOf(c, d) + 1] <= BucketStarts(b)[PairOf(c, d)] + 2
    {
      StartsCount(b, c, d);
      assert PairCount(b, c, d) <= 2;
    }
  }

  /** All that is spent. */
  lemma FareBound(b: seq<byte>, done: seq<bool>, budget: int, after: int)
    requires |done| == 256 && after >= budget - Fare(|b|, OffSum(BucketStarts(b), done, 256))
    ensures forall z: byte :: after >= budget - Fare(|b|, |b| - PairCount(b, z, z))
  {
    hide BucketStarts, PairCount, Fare, OffSum;
    StartsOk(b);
    forall z: byte ensures after >= budget - Fare(|b|, |b| - PairCount(b, z, z)) {
      var F := BucketStarts(b);
      OffSumBound(F, |b|, done, 256, z);
      StartsCount(b, z, z);
      LastStart(F, |b|);
      FareMonotone(|b|, OffSum(F, done, 256), |b| - PairCount(b, z, z));
    }
  }

  lemma LastStart(F: seq<nat>, n: nat)
    requires Starts(F, n)
    ensures |F| == PAIRS + 1 && PairOf(256, 0) == PAIRS && F[PAIRS] == n
  {
  }
}
