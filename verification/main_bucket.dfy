/** The small buckets of the main block sort, by the first two characters, and
    what the scans of a sorted big bucket write into them. */
module MainBucket {
  import opened Words
  import opened Cyclic
  import opened MainOrder
  import opened MainScan

  const PAIRS := 65536

  /** The first two characters. */
  function Pair(b: seq<byte>, p: nat): (r: nat)
    requires p < |b|
    ensures r < PAIRS
  {
    b[p] as nat * 256 + b[Next(|b|, p)] as nat
  }

  function PairOf(t: nat, c: nat): nat {
    t * 256 + c
  }

  lemma PairParts(b: seq<byte>, p: nat, t: byte, c: byte)
    requires p < |b|
    ensures Pair(b, p) == PairOf(t, c) <==> b[p] == t && b[Next(|b|, p)] == c
  {
  }

  /** Rotations are in the order of their pairs. */
  lemma PairOrder(b: seq<byte>, p: nat, q: nat)
    requires p < |b| && q < |b| && Pair(b, p) < Pair(b, q)
    ensures Ranks(b)[p] < Ranks(b)[q]
  {
    hide Lt, Ranks, Next;
    BeforeByFirst(b, p, q);
    BeforeByFirst(b, Next(|b|, p), Next(|b|, q));
    RankOrder(b, p, q);
  }

  /** Where the small buckets start. */
  ghost predicate Starts(F: seq<nat>, n: nat) {
    && |F| == PAIRS + 1 && F[0] == 0 && F[PAIRS] == n
    && (forall i: nat, j: nat {:trigger F[i], F[j]} :: i <= j <= PAIRS ==> F[i] <= F[j])
  }

  ghost predicate InBucket(F: seq<nat>, j: nat, x: int)
    requires j + 1 < |F|
  {
    F[j] <= x < F[j + 1]
  }

  /** Every position once, in the bucket of its pair. */
  ghost predicate Bucketed(b: seq<byte>, a: seq<nat>, F: seq<nat>) {
    && Starts(F, |b|) && IsPermutation(a, |b|)
    && (forall x {:trigger a[x]} :: 0 <= x < |b| ==> InBucket(F, Pair(b, a[x]), x))
  }

  lemma BucketPair(b: seq<byte>, a: seq<nat>, F: seq<nat>, j: nat, x: int)
    requires Bucketed(b, a, F) && j < PAIRS && InBucket(F, j, x)
    ensures 0 <= x < |b| && a[x] < |b| && Pair(b, a[x]) == j
  {
    assert F[j + 1] <= F[PAIRS] && F[0] <= F[j];
    var k := Pair(b, a[x]);
    assert InBucket(F, k, x);
    InOrderAt(F, |b|, k + 1, j);
    InOrderAt(F, |b|, j + 1, k);
  }

  lemma InOrderAt(F: seq<nat>, n: nat, i: nat, j: nat)
    requires Starts(F, n)
    ensures i <= j <= PAIRS ==> F[i] <= F[j]
  {
  }

  ghost function BucketOf(a: seq<nat>, F: seq<nat>, j: nat): seq<nat>
    requires j + 1 < |F| && F[j] <= F[j + 1] <= |a|
  {
    a[F[j]..F[j + 1]]
  }

  lemma StartsAt(F: seq<nat>, n: nat, j: nat)
    requires Starts(F, n) && j < PAIRS
    ensures F[j] <= F[j + 1] <= n
  {
    assert F[j + 1] <= F[PAIRS];
  }

  /** A bucket holds exactly the positions with its pair. */
  lemma BucketMembers(b: seq<byte>, a: seq<nat>, F: seq<nat>, t: byte, c: byte)
    requires Bucketed(b, a, F)
    ensures var j := PairOf(t, c);
            && j < PAIRS && F[j] <= F[j + 1] <= |a|
            && Distinct(BucketOf(a, F, j))
            && (forall k: nat {:trigger k in BucketOf(a, F, j)} :: k in BucketOf(a, F, j) <==> Member(b, t, c, k))
  {
    var j := PairOf(t, c);
    StartsAt(F, |b|, j);
    var s := BucketOf(a, F, j);
    forall k: nat | k in s ensures Member(b, t, c, k) {
      var i: nat :| i < |s| && s[i] == k;
      BucketPair(b, a, F, j, F[j] + i);
      PairParts(b, k, t, c);
    }
    forall k: nat | Member(b, t, c, k) ensures k in s {
      MemberIn(b, a, F, t, c, k);
    }
  }

  lemma MemberIn(b: seq<byte>, a: seq<nat>, F: seq<nat>, t: byte, c: byte, k: nat)
    requires Bucketed(b, a, F) && Member(b, t, c, k) && F[PairOf(t, c)] <= F[PairOf(t, c) + 1] <= |a|
    ensures k in BucketOf(a, F, PairOf(t, c))
  {
    hide Distinct, Pair;
    var j := PairOf(t, c);
    PermutationOnto(a, |b|, k);
    var x: nat :| x < |b| && a[x] == k;
    PairParts(b, k, t, c);
    assert InBucket(F, j, x);
    assert BucketOf(a, F, j)[x - F[j]] == k;
  }

  /** A small bucket in the order of whole rotations. */
  ghost predicate BucketSorted(b: seq<byte>, a: seq<nat>, F: seq<nat>, j: nat)
    requires j + 1 < |F|
  {
    forall x, y {:trigger a[x], a[y]} ::
        F[j] <= x < y < F[j + 1] && y < |a| && a[x] < |b| && a[y] < |b| ==> Ranks(b)[a[x]] <= Ranks(b)[a[y]]
  }

  /** Neighbouring sorted buckets are sorted together. */
  lemma BucketsSorted(b: seq<byte>, a: seq<nat>, F: seq<nat>, i: nat, k: nat, x: int, y: int)
    requires Bucketed(b, a, F) && i <= k <= PAIRS && F[i] <= x < y < F[k]
    requires forall j: nat :: i <= j < k ==> BucketSorted(b, a, F, j)
    ensures 0 <= x && y < |b| && a[x] < |b| && a[y] < |b| && Ranks(b)[a[x]] <= Ranks(b)[a[y]]
  {
    hide Ranks, Pair;
    assert F[k] <= F[PAIRS] && F[0] <= F[i];
    var p, q := Pair(b, a[x]), Pair(b, a[y]);
    assert InBucket(F, p, x) && InBucket(F, q, y);
    InOrderAt(F, |b|, q + 1, p);
    InOrderAt(F, |b|, p + 1, i);
    InOrderAt(F, |b|, k, p);
    if p < q {
      PairOrder(b, a[x], a[y]);
    } else {
      assert BucketSorted(b, a, F, p);
    }
  }

  /** With all buckets sorted the block is sorted. */
  lemma AllSorted(b: seq<byte>, a: seq<nat>, F: seq<nat>)
    requires Bucketed(b, a, F) && forall j: nat :: j < PAIRS ==> BucketSorted(b, a, F, j)
    ensures IsBlockSort(b, a)
  {
    hide Before, Ranks;
    forall x, y | 0 <= x < y < |a| ensures !Before(b, a[y], a[x]) {
      BucketsSorted(b, a, F, 0, PAIRS, x, y);
      RankOrder(b, a[y], a[x]);
    }
  }

  // ---------- the seeds of the two scans ----------

  /** The part of big bucket c below its own small bucket, or the part above
      it from the end. */
  ghost function SeedPart(a: seq<nat>, F: seq<nat>, c: byte, up: bool): seq<nat>
    requires Starts(F, |a|)
  {
    var lo, mid, hi := F[PairOf(c, 0)], F[PairOf(c, c)], F[PairOf(c, c) + 1];
    var end := F[PairOf(c as nat + 1, 0)];
    if up then a[lo..mid] else seq(end - hi, i requires 0 <= i < end - hi => a[end - 1 - i])
  }

  lemma SeedBounds(F: seq<nat>, n: nat, c: byte)
    requires Starts(F, n)
    ensures PairOf(c as nat + 1, 0) <= PAIRS
    ensures F[PairOf(c, 0)] <= F[PairOf(c, c)] <= F[PairOf(c, c) + 1] <= F[PairOf(c as nat + 1, 0)] <= n
  {
    assert F[PairOf(c as nat + 1, 0)] <= F[PAIRS];
  }

  /** Entries between two starts have their pairs between the buckets. */
  lemma RangePair(b: seq<byte>, a: seq<nat>, F: seq<nat>, i: nat, k: nat, x: int)
    requires Bucketed(b, a, F) && i <= k <= PAIRS && 0 <= x < |b|
    ensures F[i] <= x < F[k] <==> i <= Pair(b, a[x]) < k
  {
    var p := Pair(b, a[x]);
    assert InBucket(F, p, x);
    InOrderAt(F, |b|, p + 1, i);
    InOrderAt(F, |b|, k, p);
    InOrderAt(F, |b|, i, p);
    InOrderAt(F, |b|, p + 1, k);
  }

  lemma PairBetween(b: seq<byte>, p: nat, c: byte)
    requires p < |b|
    ensures PairOf(c, 0) <= Pair(b, p) < PairOf(c, c) <==> b[p] == c && Decided(b, p, c, true)
    ensures PairOf(c, c) + 1 <= Pair(b, p) < PairOf(c as nat + 1, 0) <==> b[p] == c && Decided(b, p, c, false)
  {
  }

  /** The place in the array of entry x of a seed part. */
  function SeedPlace(F: seq<nat>, c: byte, up: bool, x: nat): int
    requires |F| == PAIRS + 1
  {
    if up then F[PairOf(c, 0)] + x else F[PairOf(c as nat + 1, 0)] - 1 - x
  }

  lemma SeedPlaceIs(a: seq<nat>, F: seq<nat>, c: byte, up: bool, x: nat)
    requires Starts(F, |a|) && x < |SeedPart(a, F, c, up)|
    ensures var y := SeedPlace(F, c, up, x);
            && 0 <= y < |a| && SeedPart(a, F, c, up)[x] == a[y]
            && (if up then F[PairOf(c, 0)] <= y < F[PairOf(c, c)]
                else F[PairOf(c, c) + 1] <= y < F[PairOf(c as nat + 1, 0)])
  {
    SeedBounds(F, |a|, c);
    hide Starts;
  }

  /** Entry x of a seed part, and its place in the array. */
  lemma SeedAt(b: seq<byte>, a: seq<nat>, F: seq<nat>, c: byte, up: bool, x: nat) returns (y: int)
    requires Bucketed(b, a, F) && x < |SeedPart(a, F, c, up)|
    ensures y == SeedPlace(F, c, up, x) && 0 <= y < |b| && SeedPart(a, F, c, up)[x] == a[y] < |b|
    ensures if up then F[PairOf(c, 0)] <= y < F[PairOf(c, c)] else F[PairOf(c, c) + 1] <= y < F[PairOf(c as nat + 1, 0)]
    ensures b[a[y]] == c && Decided(b, a[y], c, up)
  {
    BucketedShape(b, a, F);
    SeedBounds(F, |b|, c);
    SeedPlaceIs(a, F, c, up, x);
    hide Pair, Decided, Bucketed, Starts, SeedPart, SeedPlace;
    y := SeedPlace(F, c, up, x);
    RangePair(b, a, F, PairOf(c, 0), PairOf(c, c), y);
    RangePair(b, a, F, PairOf(c, c) + 1, PairOf(c as nat + 1, 0), y);
    PairBetween(b, a[y], c);
  }

  lemma SeedIn(b: seq<byte>, a: seq<nat>, F: seq<nat>, c: byte, up: bool, p: nat)
    requires Bucketed(b, a, F) && p < |b| && b[p] == c && Decided(b, p, c, up)
    ensures p in SeedPart(a, F, c, up)
  {
    BucketedShape(b, a, F);
    hide Pair, Decided, Distinct, Bucketed, Starts;
    SeedBounds(F, |b|, c);
    PermutationOnto(a, |b|, p);
    var x: nat :| x < |b| && a[x] == p;
    PairBetween(b, p, c);
    if up {
      RangePair(b, a, F, PairOf(c, 0), PairOf(c, c), x);
      assert SeedPart(a, F, c, up)[x - F[PairOf(c, 0)]] == p;
    } else {
      RangePair(b, a, F, PairOf(c, c) + 1, PairOf(c as nat + 1, 0), x);
      assert SeedPart(a, F, c, up)[F[PairOf(c as nat + 1, 0)] - 1 - x] == p;
    }
  }

  /** Two seeds. */
  lemma SeedsApart(b: seq<byte>, a: seq<nat>, F: seq<nat>, c: byte, up: bool, x: nat, y: nat)
    requires Bucketed(b, a, F) && x < y < |SeedPart(a, F, c, up)|
    requires forall d: nat :: d < 256 && d != c ==> BucketSorted(b, a, F, PairOf(c, d))
    ensures var s := SeedPart(a, F, c, up);
            s[x] < |b| && s[y] < |b| && s[x] != s[y] && Leads(b, s[x], s[y], up)
  {
    hide Pair, Decided, Ranks, Before, SeedPart;
    var x' := SeedAt(b, a, F, c, up, x);
    var y' := SeedAt(b, a, F, c, up, y);
    SeedBounds(F, |b|, c);
    var s := SeedPart(a, F, c, up);
    if up {
      SortedFrom(b, a, F, c, PairOf(c, 0), PairOf(c, c));
      BucketsSorted(b, a, F, PairOf(c, 0), PairOf(c, c), x', y');
      RankOrder(b, a[y'], a[x']);
    } else {
      SortedFrom(b, a, F, c, PairOf(c, c) + 1, PairOf(c as nat + 1, 0));
      BucketsSorted(b, a, F, PairOf(c, c) + 1, PairOf(c as nat + 1, 0), y', x');
      RankOrder(b, a[x'], a[y']);
    }
  }

  lemma SortedFrom(b: seq<byte>, a: seq<nat>, F: seq<nat>, c: byte, i: nat, k: nat)
    requires |F| == PAIRS + 1 && PairOf(c, 0) <= i <= k <= PairOf(c as nat + 1, 0) <= PAIRS && !(i <= PairOf(c, c) < k)
    requires forall d: nat :: d < 256 && d != c ==> BucketSorted(b, a, F, PairOf(c, d))
    ensures forall j: nat :: i <= j < k ==> BucketSorted(b, a, F, j)
  {
    forall j: nat | i <= j < k ensures BucketSorted(b, a, F, j) {
      assert j == PairOf(c, j - PairOf(c, 0));
    }
  }

  lemma SeedsReady(b: seq<byte>, a: seq<nat>, F: seq<nat>, c: byte, up: bool)
    requires Bucketed(b, a, F) && |b| > 1
    requires forall d: nat :: d < 256 && d != c ==> BucketSorted(b, a, F, PairOf(c, d))
    ensures Seeds(b, c, SeedPart(a, F, c, up), up)
  {
    hide Pair, Decided, Leads, BucketSorted, Bucketed, SeedPart;
    BucketedShape(b, a, F);
    var s := SeedPart(a, F, c, up);
    forall x | 0 <= x < |s| ensures s[x] < |b| && b[s[x]] == c && Decided(b, s[x], c, up) {
      var y := SeedAt(b, a, F, c, up, x);
    }
    forall x, y | 0 <= x < y < |s| ensures s[x] != s[y] && Leads(b, s[x], s[y], up) {
      SeedsApart(b, a, F, c, up, x, y);
    }
    forall p: nat | p < |b| && b[p] == c && Decided(b, p, c, up) ensures p in s {
      SeedIn(b, a, F, c, up, p);
    }
  }

  lemma BucketedShape(b: seq<byte>, a: seq<nat>, F: seq<nat>)
    requires Bucketed(b, a, F)
    ensures |a| == |b| && Starts(F, |b|) && IsPermutation(a, |b|)
  {
  }

  // ---------- what the scans write ----------

  /** The big bucket of t is not done. */
  ghost predicate Open(done: seq<bool>, t: nat) {
    t < 256 == |done| && !done[t]
  }

  /** What the scan in one direction has found for the bucket of t. */
  ghost function Found(b: seq<byte>, low: seq<nat>, high: seq<nat>, t: byte, up: bool): (r: seq<nat>)
    requires Positions(low, |b|) && Positions(high, |b|)
    ensures Positions(r, |b|)
  {
    Preds(b, if up then low else high, t)
  }

  /** Find i goes to the start of the bucket or backwards to its end. */
  function Place(F: seq<nat>, c: byte, t: byte, up: bool, i: nat): int
    requires |F| == PAIRS + 1
  {
    if up then F[PairOf(t, c)] + i else F[PairOf(t, c) + 1] - 1 - i
  }

  ghost predicate Holds(a: seq<nat>, x: int, v: nat) {
    0 <= x < |a| && a[x] == v
  }

  ghost predicate FilledIn(b: seq<byte>, F: seq<nat>, c: byte, low: seq<nat>, high: seq<nat>, t: byte, x: int)
    requires |F| == PAIRS + 1 && Positions(low, |b|) && Positions(high, |b|)
  {
    || F[PairOf(t, c)] <= x < F[PairOf(t, c)] + |Found(b, low, high, t, true)|
    || F[PairOf(t, c) + 1] - |Found(b, low, high, t, false)| <= x < F[PairOf(t, c) + 1]
  }

  /** Place x was filled by a scan. */
  ghost predicate Filled(b: seq<byte>, F: seq<nat>, c: byte, done: seq<bool>, low: seq<nat>, high: seq<nat>, x: int)
    requires |F| == PAIRS + 1 && Positions(low, |b|) && Positions(high, |b|)
  {
    exists t: byte :: Open(done, t) && FilledIn(b, F, c, low, high, t, x)
  }

  /** The finds stand in the open buckets, and every other place is as it was
      before the scans. */
  ghost predicate Synth(b: seq<byte>, a0: seq<nat>, a: seq<nat>, F: seq<nat>, c: byte, done: seq<bool>, low: seq<nat>,
      high: seq<nat>) {
    && |F| == PAIRS + 1 && |a| == |a0| == |b| && Positions(low, |b|) && Positions(high, |b|)
    && (forall up: bool, t: byte, i: nat {:trigger Found(b, low, high, t, up)[i]} ::
       Open(done, t) && i < |Found(b, low, high, t, up)| ==>
          Holds(a, Place(F, c, t, up, i), Found(b, low, high, t, up)[i]))
    && (forall x {:trigger a[x]} :: 0 <= x < |b| && !Filled(b, F, c, done, low, high, x) ==> a[x] == a0[x])
  }

  lemma SynthStart(b: seq<byte>, a: seq<nat>, F: seq<nat>, c: byte, done: seq<bool>)
    requires |F| == PAIRS + 1 && |a| == |b|
    ensures Synth(b, a, a, F, c, done, [], [])
  {
  }

  /** What both scans work on. */
  ghost predicate Scanning(b: seq<byte>, a0: seq<nat>, F: seq<nat>, c: byte, done: seq<bool>, low: seq<nat>,
      high: seq<nat>) {
    && |b| > 1 && Bucketed(b, a0, F) && Open(done, c)
    && Seeds(b, c, SeedPart(a0, F, c, true), true) && Seeds(b, c, SeedPart(a0, F, c, false), false)
    && Scanned(b, c, SeedPart(a0, F, c, true), low) && Scanned(b, c, SeedPart(a0, F, c, false), high)
  }

  lemma ScanningLists(b: seq<byte>, a0: seq<nat>, F: seq<nat>, c: byte, done: seq<bool>, low: seq<nat>, high: seq<nat>)
    requires Scanning(b, a0, F, c, done, low, high)
    ensures Positions(low, |b|) && Positions(high, |b|) && ListOk(b, c, low, true) && ListOk(b, c, high, false)
    ensures Bucketed(b, a0, F) && Starts(F, |b|) && |a0| == |b|
  {
    hide Side, ListOk, Seeds;
    ScanListOk(b, c, SeedPart(a0, F, c, true), low, true);
    ScanListOk(b, c, SeedPart(a0, F, c, false), high, false);
  }

  /** The finds of both scans have room in their bucket. */
  lemma Room(b: seq<byte>, a0: seq<nat>, F: seq<nat>, c: byte, done: seq<bool>, low: seq<nat>, high: seq<nat>, t: byte)
    requires Scanning(b, a0, F, c, done, low, high) && Positions(low, |b|) && Positions(high, |b|)
    ensures PairOf(t, c) + 1 <= PAIRS && |F| == PAIRS + 1
    ensures F[PairOf(t, c)] + |Found(b, low, high, t, true)| +
        |Found(b, low, high, t, false)| <= F[PairOf(t, c) + 1] <= |b|
  {
    ScanningLists(b, a0, F, c, done, low, high);
    hide Scanning, ListOk, Bucketed, Member, Preds;
    BucketMembers(b, a0, F, t, c);
    FoundFits(b, t, c, low, high, BucketOf(a0, F, PairOf(t, c)));
    StartsAt(F, |b|, PairOf(t, c));
  }

  /** Filled places are in their buckets. */
  lemma FilledInside(b: seq<byte>, a0: seq<nat>, F: seq<nat>, c: byte, done: seq<bool>, low: seq<nat>, high: seq<nat>,
      t: byte, x: int)
    requires Scanning(b, a0, F, c, done, low, high) && Positions(low, |b|) && Positions(high, |b|) && |F| == PAIRS + 1
    requires FilledIn(b, F, c, low, high, t, x)
    ensures PairOf(t, c) + 1 <= PAIRS && InBucket(F, PairOf(t, c), x)
  {
    hide Scanning;
    Room(b, a0, F, c, done, low, high, t);
  }

  /** The next entry of the list that is scanned stands where it is read. */
  lemma ReadNext(b: seq<byte>, a0: seq<nat>, a: seq<nat>, F: seq<nat>, c: byte, done: seq<bool>, low: seq<nat>,
      high: seq<nat>, up: bool)
    requires Scanning(b, a0, F, c, done, low, high) && Synth(b, a0, a, F, c, done, low, high)
    requires var cons, seeds := if up then low else high, SeedPart(a0, F, c, up);
             |cons| < |seeds| + |Found(b, low, high, c, up)|
    ensures var cons, seeds := if up then low else high, SeedPart(a0, F, c, up);
            |cons| < |ScanList(b, c, seeds, cons)|
            && Holds(a, SeedPlace(F, c, up, |cons|), ScanList(b, c, seeds, cons)[|cons|])
  {
    hide Starts, Bucketed, ListOk, SeedPart, Scanning, Synth, Positions, Preds;
    SynthSize(b, a0, a, F, c, done, low, high);
    SeedsPlaced(b, a0, F, c, done, low, high, up);
    var cons, seeds := if up then low else high, SeedPart(a0, F, c, up);
    if |cons| < |seeds| {
      ReadSeed(b, a0, a, F, c, done, low, high, up);
    } else {
      ReadFound(b, a0, a, F, c, done, low, high, up);
    }
  }

  lemma ScanningOpen(b: seq<byte>, a0: seq<nat>, F: seq<nat>, c: byte, done: seq<bool>, low: seq<nat>, high: seq<nat>)
    requires Scanning(b, a0, F, c, done, low, high)
    ensures Open(done, c)
  {
  }

  lemma SeedsPlaced(b: seq<byte>, a0: seq<nat>, F: seq<nat>, c: byte, done: seq<bool>, low: seq<nat>, high: seq<nat>,
      up: bool)
    requires Scanning(b, a0, F, c, done, low, high)
    ensures |a0| == |b| && Starts(F, |b|) && Positions(SeedPart(a0, F, c, up), |b|)
  {
  }

  lemma ReadSeed(b: seq<byte>, a0: seq<nat>, a: seq<nat>, F: seq<nat>, c: byte, done: seq<bool>, low: seq<nat>,
      high: seq<nat>, up: bool)
    requires Scanning(b, a0, F, c, done, low, high) && Synth(b, a0, a, F, c, done, low, high)
    requires |a0| == |b| && Starts(F, |b|) && |if up then low else high| < |SeedPart(a0, F, c, up)|
    ensures var i := |if up then low else high|; Holds(a, SeedPlace(F, c, up, i), SeedPart(a0, F, c, up)[i])
  {
    ScanningLists(b, a0, F, c, done, low, high);
    hide Scanning, ListOk, Starts, SeedPart, SeedPlace, Filled, Synth;
    var y := SeedAt(b, a0, F, c, up, |if up then low else high|);
    SeedUnfilled(b, a0, F, c, done, low, high, y);
    SynthOther(b, a0, a, F, c, done, low, high, y);
    SynthSize(b, a0, a, F, c, done, low, high);
  }

  lemma SynthSize(b: seq<byte>, a0: seq<nat>, a: seq<nat>, F: seq<nat>, c: byte, done: seq<bool>, low: seq<nat>,
      high: seq<nat>)
    requires Synth(b, a0, a, F, c, done, low, high)
    ensures |F| == PAIRS + 1 && |a| == |a0| == |b| && Positions(low, |b|) && Positions(high, |b|)
  {
  }

  lemma ReadFound(b: seq<byte>, a0: seq<nat>, a: seq<nat>, F: seq<nat>, c: byte, done: seq<bool>, low: seq<nat>,
      high: seq<nat>, up: bool)
    requires Scanning(b, a0, F, c, done, low, high) && Synth(b, a0, a, F, c, done, low, high)
    requires |a0| == |b| && Starts(F, |b|)
    requires |SeedPart(a0, F, c, up)| <= |if up then low else high| < |SeedPart(a0, F, c, up)| +
        |Found(b, low, high, c, up)|
    ensures var k := |if up then low else high|;
            Holds(a, SeedPlace(F, c, up, k), Found(b, low, high, c, up)[k - |SeedPart(a0, F, c, up)|])
  {
    hide Scanning, Starts, SeedPart, Filled, Synth, Found, Positions, Open;
    var k := |if up then low else high|;
    SynthSize(b, a0, a, F, c, done, low, high);
    SeedSizes(a0, F, c, up);
    SeedBounds(F, |b|, c);
    ScanningOpen(b, a0, F, c, done, low, high);
    SynthEntry(b, a0, a, F, c, done, low, high, up, c, k - |SeedPart(a0, F, c, up)|);
  }

  lemma SeedSizes(a: seq<nat>, F: seq<nat>, c: byte, up: bool)
    requires Starts(F, |a|)
    ensures PairOf(c as nat + 1, 0) <= PAIRS
    ensures |SeedPart(a, F, c, up)| ==
        if up then F[PairOf(c, c)] - F[PairOf(c, 0)] else F[PairOf(c as nat + 1, 0)] - F[PairOf(c, c) + 1]
  {
    SeedBounds(F, |a|, c);
  }

  /** A seed's place is filled by no scan. */
  lemma SeedUnfilled(b: seq<byte>, a0: seq<nat>, F: seq<nat>, c: byte, done: seq<bool>, low: seq<nat>, high: seq<nat>,
      y: int)
    requires Scanning(b, a0, F, c, done, low, high) && Positions(low, |b|) && Positions(high, |b|) && |F| == PAIRS + 1
    requires 0 <= y < |b| && a0[y] < |b| && b[a0[y]] == c && b[Next(|b|, a0[y])] != c
    ensures !Filled(b, F, c, done, low, high, y)
  {
    ScanningLists(b, a0, F, c, done, low, high);
    forall t: byte | FilledIn(b, F, c, low, high, t, y) ensures false {
      FilledInside(b, a0, F, c, done, low, high, t, y);
      BucketPair(b, a0, F, PairOf(t, c), y);
      PairParts(b, a0[y], t, c);
    }
  }

  /** What a scan does with the rotation that it reads. */
  lemma WriteNext(b: seq<byte>, a0: seq<nat>, a: seq<nat>, F: seq<nat>, c: byte, done: seq<bool>, low: seq<nat>,
      high: seq<nat>, up: bool, p: nat,
                  low': seq<nat>, high': seq<nat>)
    requires Scanning(b, a0, F, c, done, low, high) && Synth(b, a0, a, F, c, done, low, high) && p < |b|
    requires if up then low' == low + [p] && high' == high else low' == low && high' == high + [p]
    requires Scanning(b, a0, F, c, done, low', high')
    ensures var k := Prev(|b|, p);
            var w := Place(F, c, b[k], up, |Found(b, low, high, b[k], up)|);
            if Open(done, b[k]) then 0 <= w < |a| && Synth(b, a0, a[w := k], F, c, done, low', high')
            else Synth(b, a0, a, F, c, done, low', high')
  {
    var k := Prev(|b|, p);
    var w := Place(F, c, b[k], up, |Found(b, low, high, b[k], up)|);
    ScanningLists(b, a0, F, c, done, low', high');
    FoundGrows(b, low, high, up, p, low', high');
    Room(b, a0, F, c, done, low', high', b[k]);
    hide Synth, Scanning, Filled;
    var a' := if Open(done, b[k]) then a[w := k] else a;
    WriteEntries(b, a0, a, F, c, done, low, high, up, p, low', high');
    WriteOthers(b, a0, a, F, c, done, low, high, up, p, low', high');
    SynthBy(b, a0, a', F, c, done, low', high');
  }

  lemma SynthBy(b: seq<byte>, a0: seq<nat>, a: seq<nat>, F: seq<nat>, c: byte, done: seq<bool>, low: seq<nat>,
      high: seq<nat>)
    requires |F| == PAIRS + 1 && |a| == |a0| == |b| && Positions(low, |b|) && Positions(high, |b|)
    requires forall up: bool, t: byte, i: nat {:trigger Found(b, low, high, t, up)[i]} ::
        Open(done, t) && i < |Found(b, low, high, t, up)| ==>
               Holds(a, Place(F, c, t, up, i), Found(b, low, high, t, up)[i])
    requires forall x {:trigger a[x]} :: 0 <= x < |b| && !Filled(b, F, c, done, low, high, x) ==> a[x] == a0[x]
    ensures Synth(b, a0, a, F, c, done, low, high)
  {
  }

  lemma FoundGrows(b: seq<byte>, low: seq<nat>, high: seq<nat>, up: bool, p: nat, low': seq<nat>, high': seq<nat>)
    requires Positions(low, |b|) && Positions(high, |b|) && p < |b|
    requires if up then low' == low + [p] && high' == high else low' == low && high' == high + [p]
    ensures Positions(low', |b|) && Positions(high', |b|)
    ensures forall t: byte, u: bool {:trigger Found(b, low', high', t, u)} {:trigger Found(b, low, high, t, u)} ::
              Found(b, low', high', t, u) ==
                  Found(b, low, high, t, u) + (if u == up && b[Prev(|b|, p)] == t then [Prev(|b|, p)] else [])
  {
    assert Positions(low', |b|) && Positions(high', |b|);
    forall t: byte, u: bool
      ensures Found(b, low', high', t, u) ==
          Found(b, low, high, t, u) + (if u == up && b[Prev(|b|, p)] == t then [Prev(|b|, p)] else []) {
      PredsPush(b, if u then low else high, p, t);
    }
  }

  lemma SynthEntry(b: seq<byte>, a0: seq<nat>, a: seq<nat>, F: seq<nat>, c: byte, done: seq<bool>, low: seq<nat>,
      high: seq<nat>, up: bool, t: byte, i: nat)
    requires Synth(b, a0, a, F, c, done, low, high) && Open(done, t) && i < |Found(b, low, high, t, up)|
    ensures Holds(a, Place(F, c, t, up, i), Found(b, low, high, t, up)[i])
  {
  }

  lemma SynthOther(b: seq<byte>, a0: seq<nat>, a: seq<nat>, F: seq<nat>, c: byte, done: seq<bool>, low: seq<nat>,
      high: seq<nat>, x: int)
    requires Synth(b, a0, a, F, c, done, low, high) && 0 <= x < |b| && !Filled(b, F, c, done, low, high, x)
    ensures a[x] == a0[x]
  {
  }

  lemma WriteEntries(b: seq<byte>, a0: seq<nat>, a: seq<nat>, F: seq<nat>, c: byte, done: seq<bool>, low: seq<nat>,
      high: seq<nat>, up: bool, p: nat,
                     low': seq<nat>, high': seq<nat>)
    requires Scanning(b, a0, F, c, done, low', high') && Synth(b, a0, a, F, c, done, low, high) && p < |b|
    requires if up then low' == low + [p] && high' == high else low' == low && high' == high + [p]
    requires Positions(low', |b|) && Positions(high', |b|)
    requires var k := Prev(|b|, p); 0 <= Place(F, c, b[k], up, |Found(b, low, high, b[k], up)|) < |a|
    ensures var k := Prev(|b|, p);
            var w := Place(F, c, b[k], up, |Found(b, low, high, b[k], up)|);
            var a' := if Open(done, b[k]) then a[w := k] else a;
            forall u: bool, t: byte, i: nat {:trigger Found(b, low', high', t, u)[i]} ::
                Open(done, t) && i < |Found(b, low', high', t, u)| ==>
              Holds(a', Place(F, c, t, u, i), Found(b, low', high', t, u)[i])
  {
    var k := Prev(|b|, p);
    var w := Place(F, c, b[k], up, |Found(b, low, high, b[k], up)|);
    var a' := if Open(done, b[k]) then a[w := k] else a;
    forall u: bool, t: byte, i: nat | Open(done, t) && i < |Found(b, low', high', t, u)|
      ensures Holds(a', Place(F, c, t, u, i), Found(b, low', high', t, u)[i]) {
      WriteEntry(b, a0, a, F, c, done, low, high, up, p, low', high', u, t, i);
    }
  }

  lemma WriteEntry(b: seq<byte>, a0: seq<nat>, a: seq<nat>, F: seq<nat>, c: byte, done: seq<bool>, low: seq<nat>,
      high: seq<nat>, up: bool, p: nat,
                   low': seq<nat>, high': seq<nat>, u: bool, t: byte, i: nat)
    requires Scanning(b, a0, F, c, done, low', high') && Synth(b, a0, a, F, c, done, low, high) && p < |b|
    requires if up then low' == low + [p] && high' == high else low' == low && high' == high + [p]
    requires Positions(low', |b|) && Positions(high', |b|) && Open(done, t) && i < |Found(b, low', high', t, u)|
    requires var k := Prev(|b|, p); 0 <= Place(F, c, b[k], up, |Found(b, low, high, b[k], up)|) < |a|
    ensures var k := Prev(|b|, p);
            var w := Place(F, c, b[k], up, |Found(b, low, high, b[k], up)|);
            var a' := if Open(done, b[k]) then a[w := k] else a;
            Holds(a', Place(F, c, t, u, i), Found(b, low', high', t, u)[i])
  {
    hide Synth, Scanning, Prev, Starts, Bucketed, ListOk, Positions, Found, Filled, Open;
    var k := Prev(|b|, p);
    SynthSize(b, a0, a, F, c, done, low, high);
    FoundOne(b, low, high, up, p, low', high', b[k], up);
    FoundOne(b, low, high, up, p, low', high', t, u);
    ScanningLists(b, a0, F, c, done, low', high');
    Room(b, a0, F, c, done, low', high', t);
    Room(b, a0, F, c, done, low', high', b[k]);
    if i < |Found(b, low, high, t, u)| {
      SynthEntry(b, a0, a, F, c, done, low, high, u, t, i);
    }
    WrittenAt(F, |b|, a, c, done, b[k], up, |Found(b, low, high, b[k], up)|, k, t, u, i,
        Found(b, low', high', t, u)[i]);
  }

  lemma FoundOne(b: seq<byte>, low: seq<nat>, high: seq<nat>, up: bool, p: nat, low': seq<nat>, high': seq<nat>,
      t: byte, u: bool)
    requires Positions(low, |b|) && Positions(high, |b|) && p < |b|
    requires if up then low' == low + [p] && high' == high else low' == low && high' == high + [p]
    requires Positions(low', |b|) && Positions(high', |b|)
    ensures Found(b, low', high', t, u) ==
        Found(b, low, high, t, u) + (if u == up && b[Prev(|b|, p)] == t then [Prev(|b|, p)] else [])
  {
    FoundGrows(b, low, high, up, p, low', high');
  }

  /** One place is written; another find keeps its own. */
  lemma WrittenAt(F: seq<nat>, n: nat, a: seq<nat>, c: byte, done: seq<bool>, t: byte, up: bool, l: nat, k: nat,
      t': byte, u: bool, i: nat, v: nat)
    requires Starts(F, n) && |a| == n && PairOf(t, c) < PAIRS && PairOf(t', c) < PAIRS
    requires 0 <= Place(F, c, t, up, l) < n && InBucketOf(F, t, c, Place(F, c, t, up, l))
        && InBucketOf(F, t', c, Place(F, c, t', u, i))
    requires if t' == t && u == up && i == l then v == k else Holds(a, Place(F, c, t', u, i), v)
    requires t' == t ==> (if u == up then i <= l else i + l + 1 < F[PairOf(t, c) + 1] - F[PairOf(t, c)])
    ensures Open(done, t) ==> Holds(a[Place(F, c, t, up, l) := k], Place(F, c, t', u, i), v)
    ensures !Open(done, t) && t' != t ==> Holds(a, Place(F, c, t', u, i), v)
  {
    ApartPlaces2(F, n, c, t', t, Place(F, c, t', u, i), Place(F, c, t, up, l));
    hide Starts;
  }

  lemma ApartPlaces2(F: seq<nat>, n: nat, c: byte, t: byte, t': byte, x: int, y: int)
    requires Starts(F, n) && InBucketOf(F, t, c, x) && InBucketOf(F, t', c, y)
    ensures t != t' ==> x != y
  {
    ApartPlaces(F, n, c, if t != t' then t else 0, if t != t' then t' else 1, x, y);
  }

  lemma ApartPlaces(F: seq<nat>, n: nat, c: byte, t: byte, t': byte, x: int, y: int)
    requires Starts(F, n) && t != t'
    ensures InBucketOf(F, t, c, x) && InBucketOf(F, t', c, y) ==> x != y
  {
    InOrderAt(F, n, PairOf(t, c) + 1, PairOf(t', c));
    InOrderAt(F, n, PairOf(t', c) + 1, PairOf(t, c));
  }

  predicate InBucketOf(F: seq<nat>, t: byte, c: byte, x: int)
    requires |F| == PAIRS + 1
  {
    F[PairOf(t, c)] <= x < F[PairOf(t, c) + 1]
  }

  lemma WriteOthers(b: seq<byte>, a0: seq<nat>, a: seq<nat>, F: seq<nat>, c: byte, done: seq<bool>, low: seq<nat>,
      high: seq<nat>, up: bool, p: nat,
                    low': seq<nat>, high': seq<nat>)
    requires Scanning(b, a0, F, c, done, low', high') && Synth(b, a0, a, F, c, done, low, high) && p < |b|
    requires if up then low' == low + [p] && high' == high else low' == low && high' == high + [p]
    requires Positions(low', |b|) && Positions(high', |b|)
    requires var k := Prev(|b|, p); 0 <= Place(F, c, b[k], up, |Found(b, low, high, b[k], up)|) < |a|
    ensures var k := Prev(|b|, p);
            var w := Place(F, c, b[k], up, |Found(b, low, high, b[k], up)|);
            var a' := if Open(done, b[k]) then a[w := k] else a;
            forall x {:trigger a'[x]} :: 0 <= x < |b| && !Filled(b, F, c, done, low', high', x) ==> a'[x] == a0[x]
  {
    hide Synth, Scanning, Filled, Found, Prev, Starts, Open;
    SynthSize(b, a0, a, F, c, done, low, high);
    var k := Prev(|b|, p);
    var w := Place(F, c, b[k], up, |Found(b, low, high, b[k], up)|);
    var a' := if Open(done, b[k]) then a[w := k] else a;
    FoundGrows(b, low, high, up, p, low', high');
    FoundOne(b, low, high, up, p, low', high', b[k], up);
    assert FilledIn(b, F, c, low', high', b[k], w);
    hide FilledIn, Positions;
    forall x | 0 <= x < |b| && !Filled(b, F, c, done, low', high', x) ensures a'[x] == a0[x] {
      StillUnfilled(b, F, c, done, low, high, low', high', x);
      SynthOther(b, a0, a, F, c, done, low, high, x);
      UnfilledIn(b, F, c, done, low', high', b[k], x);
    }
  }

  lemma UnfilledIn(b: seq<byte>, F: seq<nat>, c: byte, done: seq<bool>, low: seq<nat>, high: seq<nat>, t: byte, x: int)
    requires |F| == PAIRS + 1 && Positions(low, |b|) && Positions(high, |b|) && !Filled(b, F, c, done, low, high, x)
    ensures Open(done, t) ==> !FilledIn(b, F, c, low, high, t, x)
  {
  }

  lemma StillUnfilled(b: seq<byte>, F: seq<nat>, c: byte, done: seq<bool>, low: seq<nat>, high: seq<nat>,
      low': seq<nat>, high': seq<nat>, x: int)
    requires |F| == PAIRS + 1 && Positions(low, |b|) && Positions(high, |b|) && Positions(low', |b|)
        && Positions(high', |b|)
    requires forall t: byte, u: bool {:trigger Found(b, low', high', t, u)} ::
        |Found(b, low, high, t, u)| <= |Found(b, low', high', t, u)|
    requires !Filled(b, F, c, done, low', high', x)
    ensures !Filled(b, F, c, done, low, high, x)
  {
    forall t: byte | Open(done, t) ensures !FilledIn(b, F, c, low, high, t, x) {
      assert !FilledIn(b, F, c, low', high', t, x);
    }
  }

  // ---------- after both scans ----------

  /** Both scans have passed their lists. */
  ghost predicate ScansDone(b: seq<byte>, a0: seq<nat>, F: seq<nat>, c: byte, done: seq<bool>, low: seq<nat>,
      high: seq<nat>) {
    && Scanning(b, a0, F, c, done, low, high) && Positions(low, |b|) && Positions(high, |b|)
    && |low| == |SeedPart(a0, F, c, true)| + |Found(b, low, high, c, true)|
    && |high| == |SeedPart(a0, F, c, false)| + |Found(b, low, high, c, false)|
  }

  lemma ScansDoneParts(b: seq<byte>, a0: seq<nat>, F: seq<nat>, c: byte, done: seq<bool>, low: seq<nat>, high: seq<nat>)
    requires ScansDone(b, a0, F, c, done, low, high)
    ensures Scanning(b, a0, F, c, done, low, high) && Positions(low, |b|) && Positions(high, |b|)
    ensures |b| > 1 && |F| == PAIRS + 1 && |a0| == |b| && Bucketed(b, a0, F) && Starts(F, |b|)
  {
  }

  /** An open bucket is full. */
  lemma BucketFull(b: seq<byte>, a0: seq<nat>, F: seq<nat>, c: byte, done: seq<bool>, low: seq<nat>, high: seq<nat>,
      t: byte, q: nat)
    requires ScansDone(b, a0, F, c, done, low, high) && q < |b| && b[q] != c
    ensures Positions(low, |b|) && Positions(high, |b|) && PairOf(t, c) + 1 <= PAIRS && |F| == PAIRS + 1
    ensures |Found(b, low, high, t, true)| + |Found(b, low, high, t, false)| == F[PairOf(t, c) + 1] - F[PairOf(t, c)]
    ensures Distinct(Found(b, low, high, t, true) + Found(b, low, high, t, false))
  {
    hide Bucketed, ListOk, Preds, Member, Scanned, Seeds, SeedPart, Starts, Distinct;
    ScansDoneParts(b, a0, F, c, done, low, high);
    ScanningLists(b, a0, F, c, done, low, high);
    BucketMembers(b, a0, F, t, c);
    FoundFits(b, t, c, low, high, BucketOf(a0, F, PairOf(t, c)));
    FoundFills(b, t, c, SeedPart(a0, F, c, true), low, SeedPart(a0, F, c, false), high, BucketOf(a0, F, PairOf(t, c)),
        q);
  }

  /** What stands in an open bucket: a find of the low scan or one of the
      high scan. */
  lemma EntryNow(b: seq<byte>, a0: seq<nat>, a: seq<nat>, F: seq<nat>, c: byte, done: seq<bool>, low: seq<nat>,
      high: seq<nat>, t: byte, q: nat, x: int)
      returns (up: bool, i: nat)
    requires ScansDone(b, a0, F, c, done, low, high) && Synth(b, a0, a, F, c, done, low, high) && q < |b| && b[q] != c
    requires Open(done, t) && |F| == PAIRS + 1 && InBucketOf(F, t, c, x)
    ensures Positions(low, |b|) && Positions(high, |b|) && i < |Found(b, low, high, t, up)|
    ensures x == Place(F, c, t, up, i) && Holds(a, x, Found(b, low, high, t, up)[i])
    ensures up <==> x < F[PairOf(t, c)] + |Found(b, low, high, t, true)|
  {
    hide ScansDone, Synth, Found, Positions, Open;
    BucketFull(b, a0, F, c, done, low, high, t, q);
    up := x < F[PairOf(t, c)] + |Found(b, low, high, t, true)|;
    i := if up then x - F[PairOf(t, c)] else F[PairOf(t, c) + 1] - 1 - x;
    SynthEntry(b, a0, a, F, c, done, low, high, up, t, i);
  }

  /** A find is a member of its bucket, on the side of its scan. */
  lemma FoundMember(b: seq<byte>, a0: seq<nat>, F: seq<nat>, c: byte, done: seq<bool>, low: seq<nat>, high: seq<nat>,
      t: byte, up: bool, i: nat)
    requires ScansDone(b, a0, F, c, done, low, high) && Positions(low, |b|) && Positions(high, |b|)
        && i < |Found(b, low, high, t, up)|
    ensures var k := Found(b, low, high, t, up)[i];
            k < |b| && b[k] == t && b[Next(|b|, k)] == c && Pair(b, k) == PairOf(t, c) && Side(b, Next(|b|, k), c, up)
    ensures Distinct(Found(b, low, high, t, up)) && InOrder(b, Found(b, low, high, t, up), up)
  {
    hide ScansDone, Side, InOrder, Distinct, ListOk, Bucketed, Starts;
    ScansDoneParts(b, a0, F, c, done, low, high);
    ScanningLists(b, a0, F, c, done, low, high);
    FoundMembers(b, t, c, if up then low else high, up);
    assert Found(b, low, high, t, up) == Preds(b, if up then low else high, t);
    assert Member(b, t, c, Preds(b, if up then low else high, t)[i]);
    PairParts(b, Found(b, low, high, t, up)[i], t, c);
  }

  /** The bucket that place x belongs to. */
  ghost predicate OpenPlace(b: seq<byte>, a0: seq<nat>, c: byte, done: seq<bool>, x: nat)
    requires x < |a0| == |b| && a0[x] < |b|
  {
    Open(done, b[a0[x]]) && b[Next(|b|, a0[x])] == c
  }

  lemma PlaceBucket(b: seq<byte>, a0: seq<nat>, F: seq<nat>, c: byte, x: nat)
    requires Bucketed(b, a0, F) && x < |b|
    ensures |a0| == |b| && a0[x] < |b| && |F| == PAIRS + 1
    ensures Pair(b, a0[x]) < PAIRS && InBucket(F, Pair(b, a0[x]), x)
    ensures b[Next(|b|, a0[x])] == c ==> InBucketOf(F, b[a0[x]], c, x) && Pair(b, a0[x]) == PairOf(b[a0[x]], c)
  {
    PairParts(b, a0[x], b[a0[x]], c);
  }

  /** Any other place is as it was. */
  lemma ClosedPlace(b: seq<byte>, a0: seq<nat>, a: seq<nat>, F: seq<nat>, c: byte, done: seq<bool>, low: seq<nat>,
      high: seq<nat>, x: nat)
    requires ScansDone(b, a0, F, c, done, low, high) && Synth(b, a0, a, F, c, done, low, high)
    requires x < |b| == |a0| && a0[x] < |b| && !OpenPlace(b, a0, c, done, x)
    ensures x < |a| && a[x] == a0[x]
  {
    hide ScansDone, Synth, Scanning, Bucketed, Starts, Positions, FilledIn, Open;
    ScansDoneParts(b, a0, F, c, done, low, high);
    SynthSize(b, a0, a, F, c, done, low, high);
    forall t: byte | Open(done, t) ensures !FilledIn(b, F, c, low, high, t, x) {
      ClosedUnfilled(b, a0, F, c, done, low, high, t, x);
    }
    SynthOther(b, a0, a, F, c, done, low, high, x);
  }

  lemma ClosedUnfilled(b: seq<byte>, a0: seq<nat>, F: seq<nat>, c: byte, done: seq<bool>, low: seq<nat>, high: seq<nat>,
      t: byte, x: nat)
    requires Scanning(b, a0, F, c, done, low, high) && Bucketed(b, a0, F) && Positions(low, |b|) && Positions(high, |b|)
        && |F| == PAIRS + 1
    requires x < |b| == |a0| && a0[x] < |b| && !(b[a0[x]] == t && b[Next(|b|, a0[x])] == c)
    ensures !FilledIn(b, F, c, low, high, t, x)
  {
    hide Scanning, FilledIn, Positions, Pair;
    FilledNot(b, a0, F, c, done, low, high, t, x);
    NotItsBucket(b, a0, F, t, c, x);
  }

  lemma FilledNot(b: seq<byte>, a0: seq<nat>, F: seq<nat>, c: byte, done: seq<bool>, low: seq<nat>, high: seq<nat>,
      t: byte, x: int)
    requires Scanning(b, a0, F, c, done, low, high) && Positions(low, |b|) && Positions(high, |b|) && |F| == PAIRS + 1
    ensures PairOf(t, c) < PAIRS
    ensures FilledIn(b, F, c, low, high, t, x) ==> InBucket(F, PairOf(t, c), x)
  {
    if FilledIn(b, F, c, low, high, t, x) {
      FilledInside(b, a0, F, c, done, low, high, t, x);
    }
  }

  lemma NotItsBucket(b: seq<byte>, a0: seq<nat>, F: seq<nat>, t: byte, c: byte, x: nat)
    requires Bucketed(b, a0, F) && x < |b| && PairOf(t, c) < PAIRS && !(b[a0[x]] == t && b[Next(|b|, a0[x])] == c)
    ensures !InBucket(F, PairOf(t, c), x)
  {
    PairParts(b, a0[x], t, c);
    var p := Pair(b, a0[x]);
    assert InBucket(F, p, x);
    InOrderAt(F, |b|, p + 1, PairOf(t, c));
    InOrderAt(F, |b|, PairOf(t, c) + 1, p);
  }

  /** Every place still holds a position of its bucket. */
  lemma PairKept(b: seq<byte>, a0: seq<nat>, a: seq<nat>, F: seq<nat>, c: byte, done: seq<bool>, low: seq<nat>,
      high: seq<nat>, q: nat, x: nat)
    requires ScansDone(b, a0, F, c, done, low, high) && Synth(b, a0, a, F, c, done, low, high) && q < |b| && b[q] != c
        && x < |b|
    ensures |a| == |a0| == |b| && a0[x] < |b| && a[x] < |b| && Pair(b, a[x]) == Pair(b, a0[x])
  {
    hide ScansDone, Synth, Bucketed, Starts, Positions, Pair, Found, Place, Side, Distinct, MainScan.InOrder;
    ScansDoneParts(b, a0, F, c, done, low, high);
    SynthSize(b, a0, a, F, c, done, low, high);
    PlaceBucket(b, a0, F, c, x);
    if OpenPlace(b, a0, c, done, x) {
      var t := b[a0[x]];
      var up, i := EntryNow(b, a0, a, F, c, done, low, high, t, q, x);
      FoundMember(b, a0, F, c, done, low, high, t, up, i);
    } else {
      ClosedPlace(b, a0, a, F, c, done, low, high, x);
    }
  }

  /** No position stands at two places. */
  lemma ApartNow(b: seq<byte>, a0: seq<nat>, a: seq<nat>, F: seq<nat>, c: byte, done: seq<bool>, low: seq<nat>,
      high: seq<nat>, q: nat, x: nat, y: nat)
    requires ScansDone(b, a0, F, c, done, low, high) && Synth(b, a0, a, F, c, done, low, high) && q < |b| && b[q] != c
        && x < y < |b|
    ensures |a| == |b| && a[x] != a[y]
  {
    hide ScansDone, Synth, Bucketed, Starts, Positions, Pair, Found, Distinct;
    ScansDoneParts(b, a0, F, c, done, low, high);
    PairKept(b, a0, a, F, c, done, low, high, q, x);
    PairKept(b, a0, a, F, c, done, low, high, q, y);
    if Pair(b, a0[x]) == Pair(b, a0[y]) {
      SamePair(b, a0[x], a0[y]);
      PlaceBucket(b, a0, F, c, x);
      PlaceBucket(b, a0, F, c, y);
      if OpenPlace(b, a0, c, done, x) {
        ApartOpen(b, a0, a, F, c, done, low, high, b[a0[x]], q, x, y);
      } else {
        ClosedPlace(b, a0, a, F, c, done, low, high, x);
        ClosedPlace(b, a0, a, F, c, done, low, high, y);
        EntriesApart(b, a0, F, x, y);
      }
    }
  }

  lemma SamePair(b: seq<byte>, p: nat, q: nat)
    requires p < |b| && q < |b|
    ensures Pair(b, p) == Pair(b, q) <==> b[p] == b[q] && b[Next(|b|, p)] == b[Next(|b|, q)]
  {
  }

  lemma EntriesApart(b: seq<byte>, a0: seq<nat>, F: seq<nat>, x: nat, y: nat)
    requires Bucketed(b, a0, F) && x < y < |b|
    ensures |a0| == |b| && a0[x] != a0[y]
  {
  }

  lemma ApartOpen(b: seq<byte>, a0: seq<nat>, a: seq<nat>, F: seq<nat>, c: byte, done: seq<bool>, low: seq<nat>,
      high: seq<nat>, t: byte, q: nat, x: nat, y: nat)
    requires ScansDone(b, a0, F, c, done, low, high) && Synth(b, a0, a, F, c, done, low, high) && q < |b| && b[q] != c
        && x < y < |a|
    requires Open(done, t) && |F| == PAIRS + 1 && InBucketOf(F, t, c, x) && InBucketOf(F, t, c, y)
    ensures a[x] != a[y]
  {
    hide ScansDone, Synth, Positions, Found, Open;
    BucketFull(b, a0, F, c, done, low, high, t, q);
    var u, i := EntryNow(b, a0, a, F, c, done, low, high, t, q, x);
    var v, j := EntryNow(b, a0, a, F, c, done, low, high, t, q, y);
    var s := Found(b, low, high, t, true) + Found(b, low, high, t, false);
    var i', j' :=
        if u then i else |Found(b, low, high, t, true)| + i, if v then j else |Found(b, low, high, t, true)| + j;
    assert s[i'] == a[x] && s[j'] == a[y] && i' != j';
    DistinctAt(s, i', j');
  }

  lemma DistinctAt(s: seq<nat>, i: nat, j: nat)
    requires Distinct(s) && i < |s| && j < |s| && i != j
    ensures s[i] != s[j]
  {
  }

  /** An open bucket is in order. */
  lemma SortedNow(b: seq<byte>, a0: seq<nat>, a: seq<nat>, F: seq<nat>, c: byte, done: seq<bool>, low: seq<nat>,
      high: seq<nat>, t: byte, q: nat, x: nat, y: nat)
    requires ScansDone(b, a0, F, c, done, low, high) && Synth(b, a0, a, F, c, done, low, high) && q < |b| && b[q] != c
        && x < y < |a|
    requires Open(done, t) && |F| == PAIRS + 1 && InBucketOf(F, t, c, x) && InBucketOf(F, t, c, y)
    ensures a[x] < |b| && a[y] < |b| && Ranks(b)[a[x]] <= Ranks(b)[a[y]]
  {
    hide ScansDone, Synth, Positions, Found, Open, Side, Before, Ranks, MainScan.InOrder, Distinct, Pair;
    BucketFull(b, a0, F, c, done, low, high, t, q);
    var u, i := EntryNow(b, a0, a, F, c, done, low, high, t, q, x);
    var v, j := EntryNow(b, a0, a, F, c, done, low, high, t, q, y);
    FoundMember(b, a0, F, c, done, low, high, t, u, i);
    FoundMember(b, a0, F, c, done, low, high, t, v, j);
    if u == v {
      LeadsAt(b, Found(b, low, high, t, u), u, if u then i else j, if u then j else i);
    } else {
      FoundInOrder(b, t, c, a[x], a[y]);
    }
    RankOrder(b, a[y], a[x]);
  }

  lemma LeadsAt(b: seq<byte>, s: seq<nat>, up: bool, i: nat, j: nat)
    requires Positions(s, |b|) && MainScan.InOrder(b, s, up) && i < j < |s|
    ensures s[i] < |b| && s[j] < |b| && (if up then !Before(b, s[j], s[i]) else !Before(b, s[i], s[j]))
  {
    assert Leads(b, s[i], s[j], up);
  }

  /** A bucket whose places did not change stays sorted. */
  lemma SortedKept(b: seq<byte>, a0: seq<nat>, a: seq<nat>, F: seq<nat>, j: nat)
    requires |a| == |a0| && j + 1 < |F| && BucketSorted(b, a0, F, j)
    requires forall x: nat {:trigger a[x]} :: F[j] <= x < F[j + 1] && x < |a| ==> a[x] == a0[x]
    ensures BucketSorted(b, a, F, j)
  {
    hide Ranks;
    forall x, y | F[j] <= x < y < F[j + 1] && y < |a| && a[x] < |b| && a[y] < |b|
      ensures Ranks(b)[a[x]] <= Ranks(b)[a[y]]
    {
      assert a[x] == a0[x] && a[y] == a0[y];
    }
  }

  /** Main result for the scans, in a block that is not one character
      throughout. */
  lemma Synthesised(b: seq<byte>, a0: seq<nat>, a: seq<nat>, F: seq<nat>, c: byte, done: seq<bool>, low: seq<nat>,
      high: seq<nat>, q: nat)
    requires ScansDone(b, a0, F, c, done, low, high) && Synth(b, a0, a, F, c, done, low, high) && q < |b| && b[q] != c
    ensures Bucketed(b, a, F)
    ensures forall t: byte :: Open(done, t) ==> BucketSorted(b, a, F, PairOf(t, c))
    ensures forall j: nat {:trigger BucketSorted(b, a, F, j)} ::
        j < PAIRS && BucketSorted(b, a0, F, j) && !(j % 256 == c as nat && Open(done, j / 256)) ==>
          BucketSorted(b, a, F, j)
  {
    hide ScansDone, Synth, Positions, Open, Pair, BucketSorted, Starts, Distinct, Bucketed;
    ScansDoneParts(b, a0, F, c, done, low, high);
    SynthSize(b, a0, a, F, c, done, low, high);
    forall x: nat | x < |b| ensures a[x] < |b| && InBucket(F, Pair(b, a[x]), x) {
      PairKept(b, a0, a, F, c, done, low, high, q, x);
      PlaceBucket(b, a0, F, c, x);
    }
    assert Distinct(a) by { DistinctNow(b, a0, a, F, c, done, low, high, q); }
    BucketedBy(b, a, F);
    forall t: byte | Open(done, t) ensures BucketSorted(b, a, F, PairOf(t, c)) {
      OpenSorted(b, a0, a, F, c, done, low, high, t, q);
    }
    forall j: nat | j < PAIRS && BucketSorted(b, a0, F, j) && !(j % 256 == c as nat && Open(done, j / 256))
      ensures BucketSorted(b, a, F, j)
    {
      ClosedSorted(b, a0, a, F, c, done, low, high, j);
    }
  }

  lemma BucketedBy(b: seq<byte>, a: seq<nat>, F: seq<nat>)
    requires Starts(F, |b|) && |a| == |b| && Distinct(a)
    requires forall x: nat {:trigger a[x]} :: x < |b| ==> a[x] < |b| && InBucket(F, Pair(b, a[x]), x)
    ensures Bucketed(b, a, F)
  {
  }

  lemma DistinctNow(b: seq<byte>, a0: seq<nat>, a: seq<nat>, F: seq<nat>, c: byte, done: seq<bool>, low: seq<nat>,
      high: seq<nat>, q: nat)
    requires ScansDone(b, a0, F, c, done, low, high) && Synth(b, a0, a, F, c, done, low, high) && q < |b| && b[q] != c
    ensures Distinct(a)
  {
    hide ScansDone, Synth;
    SynthSize(b, a0, a, F, c, done, low, high);
    forall x: nat, y: nat | x < y < |a| ensures a[x] != a[y] {
      ApartNow(b, a0, a, F, c, done, low, high, q, x, y);
    }
  }

  lemma OpenSorted(b: seq<byte>, a0: seq<nat>, a: seq<nat>, F: seq<nat>, c: byte, done: seq<bool>, low: seq<nat>,
      high: seq<nat>, t: byte, q: nat)
    requires ScansDone(b, a0, F, c, done, low, high) && Synth(b, a0, a, F, c, done, low, high) && q < |b| && b[q] != c
    requires Open(done, t) && |F| == PAIRS + 1 && PairOf(t, c) < PAIRS
    ensures BucketSorted(b, a, F, PairOf(t, c))
  {
    hide ScansDone, Synth, Ranks, Open;
    forall x, y | F[PairOf(t, c)] <= x < y < F[PairOf(t, c) + 1] && y < |a| && a[x] < |b| && a[y] < |b|
      ensures Ranks(b)[a[x]] <= Ranks(b)[a[y]]
    {
      SortedNow(b, a0, a, F, c, done, low, high, t, q, x, y);
    }
  }

  lemma ClosedSorted(b: seq<byte>, a0: seq<nat>, a: seq<nat>, F: seq<nat>, c: byte, done: seq<bool>, low: seq<nat>,
      high: seq<nat>, j: nat)
    requires ScansDone(b, a0, F, c, done, low, high) && Synth(b, a0, a, F, c, done, low, high)
    requires |F| == PAIRS + 1 && j < PAIRS && BucketSorted(b, a0, F, j) && !(j % 256 == c as nat && Open(done, j / 256))
    ensures BucketSorted(b, a, F, j)
  {
    hide ScansDone, Synth, Ranks, BucketSorted, Bucketed;
    ScansDoneParts(b, a0, F, c, done, low, high);
    SynthSize(b, a0, a, F, c, done, low, high);
    forall x: nat | F[j] <= x < F[j + 1] && x < |a| ensures a[x] == a0[x] {
      BucketPair(b, a0, F, j, x);
      PairSplit(b, a0[x]);
      ClosedPlace(b, a0, a, F, c, done, low, high, x);
    }
    SortedKept(b, a0, a, F, j);
  }

  lemma PairSplit(b: seq<byte>, p: nat)
    requires p < |b|
    ensures Pair(b, p) % 256 == b[Next(|b|, p)] as nat && Pair(b, p) / 256 == b[p] as nat
  {
  }

  /** In a block of one character the scans find nothing, and there is nothing
      to sort. */
  lemma NothingFound(b: seq<byte>, a0: seq<nat>, a: seq<nat>, F: seq<nat>, c: byte, done: seq<bool>, low: seq<nat>,
      high: seq<nat>)
    requires ScansDone(b, a0, F, c, done, low, high) && Synth(b, a0, a, F, c, done, low, high)
    requires forall x :: 0 <= x < |b| ==> b[x] == c
    ensures a == a0 && low == high == []
    ensures forall j: nat :: j < PAIRS ==> BucketSorted(b, a, F, j)
  {
    hide Synth, Ranks, Bucketed, Starts, Pair;
    ScansDoneParts(b, a0, F, c, done, low, high);
    SynthSize(b, a0, a, F, c, done, low, high);
    NoSeeds(b, c, SeedPart(a0, F, c, true), low, true);
    NoSeeds(b, c, SeedPart(a0, F, c, false), high, false);
    hide Scanning, ScansDone, SeedPart;
    forall x | 0 <= x < |b| ensures a[x] == a0[x] {
      SynthOther(b, a0, a, F, c, done, low, high, x);
    }
    hide Before;
    forall j: nat | j < PAIRS ensures BucketSorted(b, a, F, j) {
      forall x, y | F[j] <= x < y < F[j + 1] && y < |a| && a[x] < |b| && a[y] < |b|
        ensures Ranks(b)[a[x]] <= Ranks(b)[a[y]]
      {
        ConstantEqual(b, a[y], a[x], |b|);
        NotBefore(b, a[y], a[x]);
        RankOrder(b, a[y], a[x]);
      }
    }
  }

  lemma NotBefore(b: seq<byte>, p: nat, q: nat)
    requires p < |b| && q < |b| && !Lt(b, p, q, |b|)
    ensures !Before(b, p, q)
  {
  }

  lemma NoSeeds(b: seq<byte>, c: byte, seeds: seq<nat>, cons: seq<nat>, up: bool)
    requires Seeds(b, c, seeds, up) && Scanned(b, c, seeds, cons) && forall x :: 0 <= x < |b| ==> b[x] == c
    ensures seeds == [] && cons == []
  {
    FirstIn(seeds);
    ScannedFrom(b, c, seeds, cons);
  }

  lemma FirstIn(s: seq<nat>)
    ensures |s| == 0 || s[0] in s
  {
  }

  /** A scan passes nothing without a seed. */
  lemma {:induction false} ScannedFrom(b: seq<byte>, c: byte, seeds: seq<nat>, cons: seq<nat>)
    requires Positions(seeds, |b|) && Scanned(b, c, seeds, cons)
    ensures |cons| > 0 ==> |seeds| > 0
    decreases |cons|
  {
    if |cons| > 1 {
      ScannedFrom(b, c, seeds, cons[..|cons| - 1]);
    }
  }
}
