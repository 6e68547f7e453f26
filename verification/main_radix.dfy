/** The first stages of the main block sort: the table of pair frequencies,
    the overshoot area, the radix sort on the first two characters, and the
    order in which the big buckets are taken. */
module MainRadix {
  import opened Words
  import opened Counting
  import opened Cyclic
  import opened Permuting
  import opened FallbackSort
  import opened MainOrder
  import opened MainQSort
  import opened MainBucket

  // ---------- pairs ----------

  /** The pairs of the positions, from the last to the first. */
  ghost function Keys(b: seq<byte>): (k: seq<nat>)
    ensures |k| == |b|
    ensures forall m {:trigger k[m]} :: 0 <= m < |b| ==> k[m] == Pair(b, |b| - 1 - m) < PAIRS
  {
    seq(|b|, m requires 0 <= m < |b| => Pair(b, |b| - 1 - m))
  }

  /** Shifting the next character in on top of the last one. */
  lemma PairShift(j: nat, c: nat)
    requires j < PAIRS && c < 256
    ensures BitOr(Shr(j, 8), c * 256) == c * 256 + j / 256
  {
    ShrEight(j);
    Pow2Values();
    OrIsAdd(c, 8, j / 256);
    OrCommutes(j / 256, c * 256);
  }

  lemma ShrEight(j: nat)
    ensures Shr(j, 8) == j / 256
  {
    var j1 := j / 2;
    var j2 := j1 / 2;
    var j3 := j2 / 2;
    var j4 := j3 / 2;
    var j5 := j4 / 2;
    var j6 := j5 / 2;
    var j7 := j6 / 2;
    assert Shr(j, 8) == Shr(j1, 7) == Shr(j2, 6) == Shr(j3, 5);
    assert Shr(j3, 5) == Shr(j4, 4) == Shr(j5, 3) == Shr(j6, 2);
    assert Shr(j6, 2) == Shr(j7, 1) == Shr(j7 / 2, 0) == j7 / 2;
  }

  /** The pair before: its second character is the first of the last one. */
  lemma NextPair(b: seq<byte>, i: nat, j: nat)
    requires i < |b| && j < PAIRS && j / 256 == b[Next(|b|, i)] as nat
    ensures BitOr(Shr(j, 8), b[i] as nat * 256) == Pair(b, i)
    ensures Pair(b, i) / 256 == b[i] as nat
  {
    PairShift(j, b[i]);
  }

  // ---------- the frequency table ----------

  ghost predicate CountsTo(tab: seq<nat>, keys: seq<nat>, m: nat) {
    |tab| == PAIRS + 1 && m <= |keys| && forall c: nat {:trigger tab[c]} ::
        c <= PAIRS ==> tab[c] == CountEq(keys[..m], c)
  }

  lemma CountsNone(tab: seq<nat>, keys: seq<nat>)
    requires |tab| == PAIRS + 1 && forall c: nat :: c <= PAIRS ==> tab[c] == 0
    ensures CountsTo(tab, keys, 0)
  {
    assert keys[..0] == [];
  }

  lemma CountsStep(tab: seq<nat>, keys: seq<nat>, m: nat)
    requires CountsTo(tab, keys, m) && m < |keys| && keys[m] < PAIRS
    ensures CountsTo(tab[keys[m] := tab[keys[m]] + 1], keys, m + 1)
  {
    hide CountEq;
    var tab' := tab[keys[m] := tab[keys[m]] + 1];
    forall c: nat | c <= PAIRS ensures tab'[c] == CountEq(keys[..m + 1], c) {
      CountEqPush(keys, m, c);
    }
  }

  /** Counts the pairs from the end of the block and clears the quadrants; the
      loop is unrolled four times in the program. */
  method CountPairs(ftab: array<nat>, block: array<byte>, quadrant: array<nat>, nblock: nat, ghost b: seq<byte>)
    requires ftab.Length == PAIRS + 1 && ftab != quadrant && 0 < nblock == |b| <= block.Length && block[..nblock] == b
        && nblock <= quadrant.Length
    modifies ftab, quadrant
    ensures CountsTo(ftab[..], Keys(b), nblock) && forall x :: 0 <= x < nblock ==> quadrant[x] == 0
  {
    hide CountsTo, CountEq, Pair;
    var i := PAIRS;
    while i >= 0
      invariant -1 <= i <= PAIRS && forall c: nat :: i < c <= PAIRS ==> ftab[c] == 0
      modifies ftab
    {
      ftab[i] := 0;
      i := i - 1;
    }
    ghost var keys := Keys(b);
    CountsNone(ftab[..], keys);
    assert block[0] == b[0];
    var j: nat := block[0] as nat * 256;
    i := nblock - 1;
    while i >= 0
      invariant -1 <= i <= nblock - 1 && (i >= 0 ==> j < PAIRS && j / 256 == b[Next(nblock, i)] as nat)
      invariant CountsTo(ftab[..], keys, nblock - 1 - i)
      invariant forall x :: i < x < nblock ==> quadrant[x] == 0
      modifies ftab, quadrant
    {
      quadrant[i] := 0;
      assert block[i] == b[i];
      NextPair(b, i, j);
      j := BitOr(Shr(j, 8), block[i] as nat * 256);
      ghost var was := ftab[..];
      assert keys[nblock - 1 - i] == j;
      CountsStep(was, keys, nblock - 1 - i);
      ftab[j] := ftab[j] + 1;
      assert ftab[..] == was[j := was[j] + 1];
      i := i - 1;
      if i >= 0 {
        assert Next(nblock, i) == i + 1;
      }
    }
  }

  /** The block and the quadrants continue around their end. */
  method Overshoot(block: array<byte>, quadrant: array<nat>, nblock: nat)
    requires nblock > BZ_N_OVERSHOOT && nblock + BZ_N_OVERSHOOT <= block.Length
        && nblock + BZ_N_OVERSHOOT <= quadrant.Length
    requires forall x :: 0 <= x < nblock ==> quadrant[x] == 0
    modifies block, quadrant
    ensures block[..nblock] == old(block[..nblock]) && Extended(block[..], nblock)
    ensures Extended(quadrant[..], nblock) && forall x :: 0 <= x < nblock ==> quadrant[x] == 0
  {
    ghost var b := block[..nblock];
    for i := 0 to BZ_N_OVERSHOOT
      invariant forall x :: 0 <= x < nblock ==> block[x] == b[x]
      invariant forall y :: nblock <= y < nblock + i ==> block[y] == block[y - nblock] && quadrant[y] == 0
      invariant forall x :: 0 <= x < nblock ==> quadrant[x] == 0
    {
      block[nblock + i] := block[i];
      quadrant[nblock + i] := 0;
    }
    forall i: nat | i < BZ_N_OVERSHOOT ensures block[nblock + i] == block[i] && quadrant[nblock + i] == quadrant[i] {
      assert block[nblock + i] == block[nblock + i - nblock];
    }
  }

  // ---------- the radix sort ----------

  /** The bucket starts. */
  ghost function BucketStarts(b: seq<byte>): (F: seq<nat>)
    ensures |F| == PAIRS + 1
    ensures forall c: nat {:trigger F[c]} :: c <= PAIRS ==> F[c] == CountLess(Keys(b), c)
  {
    seq(PAIRS + 1, c requires 0 <= c <= PAIRS => CountLess(Keys(b), c))
  }

  lemma StartsOk(b: seq<byte>)
    ensures Starts(BucketStarts(b), |b|)
  {
    hide CountLess;
    var F, keys := BucketStarts(b), Keys(b);
    CountLessNext(keys, 0);
    CountLessAll(keys, PAIRS);
    forall i: nat, j: nat | i <= j <= PAIRS ensures F[i] <= F[j] {
      CountMonotone(keys, i, j);
    }
  }

  method RunningTotals(ftab: array<nat>, ghost keys: seq<nat>)
    requires ftab.Length == PAIRS + 1 && CountsTo(ftab[..], keys, |keys|)
    modifies ftab
    ensures forall c: nat :: c <= PAIRS ==> ftab[c] == CountLess(keys, c + 1)
  {
    hide CountEq, CountLess;
    assert keys[..|keys|] == keys;
    assert forall c: nat :: c <= PAIRS ==> ftab[..][c] == ftab[c];
    CountLessNext(keys, 0);
    for i := 1 to PAIRS + 1
      invariant forall c: nat :: c < i ==> ftab[c] == CountLess(keys, c + 1)
      invariant forall c: nat :: i <= c <= PAIRS ==> ftab[c] == CountEq(keys, c)
    {
      CountLessNext(keys, i);
      ftab[i] := ftab[i] + ftab[i - 1];
    }
  }

  /** The last m positions are at their places. */
  ghost predicate Placed(b: seq<byte>, ptr: seq<nat>, m: nat) {
    m <= |b| <= |ptr| && forall x: nat {:trigger Slot(Keys(b), x)} ::
        x < m ==> 0 <= Slot(Keys(b), x) < |b| && ptr[Slot(Keys(b), x)] == |b| - 1 - x
  }

  ghost predicate Totals(tab: seq<nat>, keys: seq<nat>, m: nat) {
    |tab| == PAIRS + 1 && m <= |keys| && forall c: nat {:trigger tab[c]} ::
        c <= PAIRS ==> tab[c] == CountLess(keys, c + 1) - CountEq(keys[..m], c)
  }

  lemma PlacedStep(b: seq<byte>, ptr: seq<nat>, tab: seq<nat>, m: nat)
    requires Placed(b, ptr, m) && Totals(tab, Keys(b), m) && m < |b|
    ensures var j := Keys(b)[m]; j < PAIRS && 0 < tab[j] <= |b|
    ensures var j := Keys(b)[m];
            Placed(b, ptr[tab[j] - 1 := |b| - 1 - m], m + 1) && Totals(tab[j := tab[j] - 1], Keys(b), m + 1)
  {
    hide CountEq, CountLess, Pair, Slot;
    var keys := Keys(b);
    var j := keys[m];
    SlotInBucket(keys, m);
    SlotIs(keys, m);
    forall x: nat | x < m ensures Slot(keys, x) != Slot(keys, m) {
      SlotsDiffer(keys, x, m);
    }
    forall c: nat | c <= PAIRS
      ensures CountEq(keys[..m + 1], c) == CountEq(keys[..m], c) + (if keys[m] == c then 1 else 0)
    {
      CountEqPush(keys, m, c);
    }
  }

  lemma PlacedAll(b: seq<byte>, ptr: seq<nat>)
    requires Placed(b, ptr, |b|) && |ptr| == |b|
    ensures Bucketed(b, ptr, BucketStarts(b))
  {
    hide CountEq, CountLess, Pair, Slot;
    var keys, F := Keys(b), BucketStarts(b);
    StartsOk(b);
    forall y | 0 <= y < |b|
      ensures ptr[y] < |b| && InBucket(F, Pair(b, ptr[y]), y) && Slot(keys, |b| - 1 - ptr[y]) == y
    {
      PermutationOnto(Slots(keys), |b|, y);
      var x: nat :| x < |b| && Slots(keys)[x] == y;
      assert Slot(keys, x) == y;
      SlotInBucket(keys, x);
    }
    forall x, y | 0 <= x < y < |b| ensures ptr[x] != ptr[y] {
      assert Slot(keys, |b| - 1 - ptr[x]) == x && Slot(keys, |b| - 1 - ptr[y]) == y;
    }
  }

  lemma TotalsEnd(b: seq<byte>, tab: seq<nat>)
    requires Totals(tab, Keys(b), |b|)
    ensures tab == BucketStarts(b)
  {
    hide CountEq, CountLess, Pair;
    var keys := Keys(b);
    assert keys[..|b|] == keys;
    forall c: nat | c <= PAIRS ensures tab[c] == BucketStarts(b)[c] {
      CountLessNext(keys, c);
    }
  }

  /** Fills the buckets from their ends, taking the positions from the last to
      the first; ftab ends with the bucket starts. */
  method RadixPairs(ptr: array<nat>, ftab: array<nat>, block: array<byte>, nblock: nat, ghost b: seq<byte>)
    requires ftab.Length == PAIRS + 1 && ptr != ftab && 0 < nblock == |b| <= block.Length && block[..nblock] == b
        && nblock <= ptr.Length
    requires forall c: nat :: c <= PAIRS ==> ftab[c] == CountLess(Keys(b), c + 1)
    modifies ptr, ftab
    ensures Bucketed(b, ptr[..nblock], BucketStarts(b)) && ftab[..] == BucketStarts(b)
    ensures Uniform(b) ==> Alone(b, BucketStarts(b)) && forall i :: 0 <= i < nblock ==> ptr[i] == i
  {
    hide CountEq, CountLess, Pair, Slot, Placed, Totals, Bucketed, Uniform, Alone;
    ghost var keys := Keys(b);
    TotalsStart(b, ftab[..], ptr[..nblock]);
    assert block[0] == b[0];
    var s: nat := block[0] as nat * 256;
    var i := nblock - 1;
    while i >= 0
      invariant -1 <= i <= nblock - 1 && (i >= 0 ==> s < PAIRS && s / 256 == b[Next(nblock, i)] as nat)
      invariant Placed(b, ptr[..nblock], nblock - 1 - i) && Totals(ftab[..], keys, nblock - 1 - i)
    {
      assert block[i] == b[i];
      NextPair(b, i, s);
      s := BitOr(Shr(s, 8), block[i] as nat * 256);
      assert keys[nblock - 1 - i] == s;
      ghost var p, tab := ptr[..nblock], ftab[..];
      PlacedStep(b, p, tab, nblock - 1 - i);
      var j := ftab[s] - 1;
      ftab[s] := j;
      ptr[j] := i;
      assert ftab[..] == tab[s := tab[s] - 1] && ptr[..nblock] == p[j := i as nat];
      i := i - 1;
    }
    PlacedAll(b, ptr[..nblock]);
    TotalsEnd(b, ftab[..]);
    if Uniform(b) {
      UniformPairs(b);
      UniformPlaced(b, ptr[..nblock]);
      assert forall i :: 0 <= i < nblock ==> ptr[i] == ptr[..nblock][i];
    }
  }

  /** One bucket holds all rotations. */
  ghost predicate Alone(b: seq<byte>, F: seq<nat>) {
    && |b| > 0 && |F| == PAIRS + 1
    && forall j: nat {:trigger F[j]} :: j <= PAIRS ==> F[j] == if j <= PairOf(b[0], b[0]) then 0 else |b|
  }

  lemma UniformKeys(b: seq<byte>)
    requires Uniform(b) && |b| > 0
    ensures forall m {:trigger Keys(b)[m]} :: 0 <= m < |b| ==> Keys(b)[m] == PairOf(b[0], b[0])
  {
    hide Pair;
    forall m | 0 <= m < |b| ensures Keys(b)[m] == PairOf(b[0], b[0]) {
      PairParts(b, |b| - 1 - m, b[0], b[0]);
    }
  }

  lemma UniformPairs(b: seq<byte>)
    requires Uniform(b) && |b| > 0
    ensures Alone(b, BucketStarts(b))
  {
    hide Keys, BucketStarts, CountLess, Uniform;
    var k, keys := PairOf(b[0], b[0]), Keys(b);
    UniformKeys(b);
    NoneLess(keys, k);
    forall j: nat | j <= PAIRS ensures BucketStarts(b)[j] == if j <= k then 0 else |b| {
      if j <= k {
        CountMonotone(keys, j, k);
      } else {
        CountLessAll(keys, j);
      }
    }
  }

  /** The positions are taken from the last on, and the bucket is filled from
      its end: a uniform block comes out in the order of its positions. */
  lemma UniformPlaced(b: seq<byte>, ptr: seq<nat>)
    requires Uniform(b) && |b| > 0 && Placed(b, ptr, |b|) && |ptr| == |b|
    ensures forall i :: 0 <= i < |b| ==> ptr[i] == i
  {
    hide Keys, Uniform, Slot;
    UniformKeys(b);
    KeysLength(b);
    forall i | 0 <= i < |b| ensures ptr[i] == i {
      LevelSlot(Keys(b), |b| - 1 - i);
      assert ptr[Slot(Keys(b), |b| - 1 - i)] == i;
    }
  }

  lemma KeysLength(b: seq<byte>)
    ensures |Keys(b)| == |b|
  {
  }

  lemma TotalsStart(b: seq<byte>, tab: seq<nat>, ptr: seq<nat>)
    requires |tab| == PAIRS + 1 && |ptr| == |b| && forall c: nat :: c <= PAIRS ==> tab[c] == CountLess(Keys(b), c + 1)
    ensures Totals(tab, Keys(b), 0) && Placed(b, ptr, 0)
  {
    hide CountLess;
    assert Keys(b)[..0] == [];
  }

  // ---------- the running order ----------

  /** How full the big buckets are. */
  ghost function BigFreqs(F: seq<nat>, n: nat): (k: seq<nat>)
    requires Starts(F, n)
    ensures |k| == 256 && forall c: nat {:trigger k[c]} ::
        c < 256 ==> k[c] == F[(c + 1) * 256] as int - F[c * 256] as int
  {
    seq(256, c requires 0 <= c < 256 => F[(c + 1) * 256] - F[c * 256])
  }

  method BigFreq(ftab: array<nat>, c: nat) returns (f: int)
    requires ftab.Length == PAIRS + 1 && c < 256
    ensures f == ftab[(c + 1) * 256] as int - ftab[c * 256] as int
  {
    f := ftab[(c + 1) * 256] as int - ftab[c * 256] as int;
  }

  /** One big bucket sinks past fuller ones in steps of h. */
  method SinkBucket(runningOrder: array<nat>, ftab: array<nat>, i: int, h: int, ghost keys: seq<nat>)
    requires runningOrder != ftab && runningOrder.Length == 256 && ftab.Length == PAIRS + 1 && 1 <= h <= i < 256
    requires |keys| == 256 && forall c: nat {:trigger keys[c]} ::
        c < 256 ==> keys[c] == ftab[(c + 1) * 256] as int - ftab[c * 256] as int
    requires Keyed(runningOrder[..], keys, 0, 255)
    modifies runningOrder
    ensures Permuted(old(runningOrder[..]), runningOrder[..], 0, i)
    ensures Keyed(runningOrder[..], keys, 0, i) && Keyed(old(runningOrder[..]), keys, 0, i - 1)
    ensures h == 1 && SortedBy(old(runningOrder[..]), keys, 0, i - 1) ==> SortedBy(runningOrder[..], keys, 0, i)
  {
    hide Permuted, SortedBy, Sinking;
    ghost var a0, a := runningOrder[..], runningOrder[..];
    var vv := runningOrder[i];
    var j := i;
    SinkingStart(a0, keys, 0, i, h);
    while true
      invariant runningOrder[..] == a && Sinking(a0, a, keys, 0, i, h, j, vv) && h <= j <= i
      decreases j
      modifies runningOrder
    {
      SinkingKeyed(a0, a, keys, 0, i, h, j, vv);
      var f := BigFreq(ftab, runningOrder[j - h]);
      var g := BigFreq(ftab, vv);
      assert a[j - h] == runningOrder[j - h];
      assert f == keys[a[j - h]] && g == keys[vv];
      if !(f > g) {
        break;
      }
      SinkingStep(a0, a, keys, 0, i, h, j, vv);
      runningOrder[j] := runningOrder[j - h];
      a := a[j := a[j - h]];
      j := j - h;
      if j <= h - 1 {
        SinkingBounds(a0, a, keys, 0, i, h, j, vv);
        break;
      }
    }
    SinkingEnd(a0, a, keys, 0, i, h, j, vv);
    runningOrder[j] := vv;
    assert runningOrder[..] == a[j := vv];
  }

  lemma SinkingKeyed(a0: seq<nat>, a: seq<nat>, keys: seq<nat>, lo: int, i: int, h: int, j: int, v: nat)
    requires Sinking(a0, a, keys, lo, i, h, j, v) && lo + h <= j
    ensures |a| == |a0| && i < |a| && a[j - h] < |keys| && v < |keys|
  {
  }

  /** The big buckets from the least full to the fullest. */
  method RunningOrder(ftab: array<nat>, ghost keys: seq<nat>) returns (runningOrder: array<nat>)
    requires ftab.Length == PAIRS + 1
    requires |keys| == 256 && forall c: nat {:trigger keys[c]} ::
        c < 256 ==> keys[c] == ftab[(c + 1) * 256] as int - ftab[c * 256] as int
    ensures fresh(runningOrder) && runningOrder.Length == 256 && IsPermutation(runningOrder[..], 256)
    ensures Keyed(runningOrder[..], keys, 0, 255) && SortedBy(runningOrder[..], keys, 0, 255)
  {
    hide Permuted;
    runningOrder := new nat[256](c => c);
    ghost var a0 := runningOrder[..];
    assert IsPermutation(a0, 256);
    PermutedSame(a0, 0, 255);
    var h := 4;
    while h <= 256
      invariant h == 4 || h == 13 || h == 40 || h == 121 || h == 364
      decreases 256 - h
    {
      h := 3 * h + 1;
    }
    var sorted := false;
    while h != 1
      invariant h == 364 || h == 121 || h == 40 || h == 13 || h == 4 || h == 1
      invariant Permuted(a0, runningOrder[..], 0, 255) && Keyed(runningOrder[..], keys, 0, 255)
      invariant h == 1 ==> SortedBy(runningOrder[..], keys, 0, 255)
      decreases h
      modifies runningOrder
    {
      h := h / 3;
      BucketPass(runningOrder, ftab, h, keys, a0);
    }
    assert a0[..256] == a0 && runningOrder[..256] == runningOrder[..];
    StillPermutation(a0, runningOrder[..], 256, 0, 255);
  }

  method BucketPass(runningOrder: array<nat>, ftab: array<nat>, h: int, ghost keys: seq<nat>, ghost a0: seq<nat>)
    requires runningOrder != ftab && runningOrder.Length == 256 && ftab.Length == PAIRS + 1 && 1 <= h <= 255
    requires |keys| == 256 && forall c: nat {:trigger keys[c]} ::
        c < 256 ==> keys[c] == ftab[(c + 1) * 256] as int - ftab[c * 256] as int
    requires Permuted(a0, runningOrder[..], 0, 255) && Keyed(runningOrder[..], keys, 0, 255)
    modifies runningOrder
    ensures Permuted(a0, runningOrder[..], 0, 255) && Keyed(runningOrder[..], keys, 0, 255)
    ensures h == 1 ==> SortedBy(runningOrder[..], keys, 0, 255)
  {
    hide Permuted;
    for i := h to 256
      invariant Permuted(a0, runningOrder[..], 0, 255) && Keyed(runningOrder[..], keys, 0, 255)
      invariant h == 1 ==> Keyed(runningOrder[..], keys, 0, i - 1) && SortedBy(runningOrder[..], keys, 0, i - 1)
      modifies runningOrder
    {
      ghost var a := runningOrder[..];
      SinkBucket(runningOrder, ftab, i, h, keys);
      PermutedWiden(a, runningOrder[..], 0, i, 0, 255);
      PermutedThen(a0, a, runningOrder[..], 0, 255);
      StillKeyed(a, runningOrder[..], keys, 0, 255, 0, 255);
    }
  }
}
