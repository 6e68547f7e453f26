/** The main block sort: small buckets are sorted where they must be, and
    synthesised from a sorted big bucket where they can be. */
module MainSort {
  import opened Words
  import opened Cyclic
  import opened Permuting
  import opened BitTable
  import opened FallbackSort
  import opened MainOrder
  import opened MainQSort
  import opened MainScan
  import opened MainBucket
  import opened MainBudget
  import opened MainGrades
  import opened MainRadix

  // ---------- the marks in the bucket table ----------

  const SETBIT := 21

  /** The bucket starts, with a mark on the buckets that are sorted. */
  ghost predicate Marks(tab: seq<nat>, F: seq<nat>, flags: seq<bool>) {
    && |tab| == |F| == |flags| == PAIRS + 1
    && (forall j: nat {:trigger tab[j]} {:trigger F[j]} {:trigger flags[j]} ::
       j <= PAIRS ==> F[j] <= 900000 && tab[j] == Mark(F[j], flags[j]))
  }

  function Mark(f: nat, flag: bool): nat {
    if flag then SetBit(f, SETBIT) else f
  }

  lemma Pow21()
    ensures Pow2(21) == 0x20_0000
  {
    Pow2Values();
    Pow2Add(20, 1);
  }

  lemma {:induction false} NoHighBit(f: nat, k: nat)
    requires f < Pow2(k)
    ensures !HasBit(f, k)
    decreases k
  {
    if k > 0 {
      NoHighBit(f / 2, k - 1);
    }
  }

  lemma MarkBits(f: nat, flag: bool, j: nat)
    requires f <= 900000
    ensures Mark(f, flag) < WORD && (HasBit(Mark(f, flag), j) <==> HasBit(f, j) || (flag && j == SETBIT))
    ensures !HasBit(f, SETBIT)
  {
    hide HasBit, BitOr, Pow2, SetBit;
    Pow21();
    NoHighBit(f, SETBIT);
    SetIs(f, SETBIT, j);
  }

  /** Testing, removing and adding the mark. */
  lemma MarkIs(f: nat, flag: bool)
    requires f <= 900000
    ensures TestBit(Mark(f, flag), SETBIT) == flag
    ensures ClearBit(Mark(f, flag), SETBIT) == f
    ensures SetBit(Mark(f, flag), SETBIT) == Mark(f, true)
  {
    hide HasBit, BitOr, Pow2, SetBit, ClearBit, TestBit, Mark;
    var m := Mark(f, flag);
    Pow2Values();
    MarkBits(f, flag, SETBIT);
    TestIs(m, SETBIT);
    forall j: nat | j < 32
      ensures HasBit(ClearBit(m, SETBIT), j) == HasBit(f, j) && HasBit(SetBit(m, SETBIT), j) == HasBit(Mark(f, true), j)
    {
      MarkBits(f, flag, j);
      MarkBits(f, true, j);
      ClearIs(m, SETBIT, j);
      SetIs(m, SETBIT, j);
    }
    ClearIs(m, SETBIT, 0);
    SetIs(m, SETBIT, 0);
    MarkBits(f, true, 0);
    SameBits(ClearBit(m, SETBIT), f, 32);
    SameBits(SetBit(m, SETBIT), Mark(f, true), 32);
  }

  lemma MarksAt(tab: seq<nat>, F: seq<nat>, flags: seq<bool>, j: nat)
    requires Marks(tab, F, flags) && j <= PAIRS
    ensures |tab| == |F| == |flags| == PAIRS + 1
    ensures TestBit(tab[j], SETBIT) == flags[j] && ClearBit(tab[j], SETBIT) == F[j]
  {
    MarkIs(F[j], flags[j]);
  }

  lemma MarksWords(tab: seq<nat>, F: seq<nat>, flags: seq<bool>)
    requires Marks(tab, F, flags)
    ensures AreWords(tab)
  {
    hide SetBit, HasBit;
    forall j | 0 <= j < |tab| ensures tab[j] < WORD {
      MarkBits(F[j], flags[j], 0);
    }
  }

  /** |= SETMASK. */
  lemma MarksSet(tab: seq<nat>, F: seq<nat>, flags: seq<bool>, j: nat)
    requires Marks(tab, F, flags) && j <= PAIRS
    ensures |tab| == |F| == |flags| == PAIRS + 1 && Marks(tab[j := SetBit(tab[j], SETBIT)], F, flags[j := true])
  {
    MarkIs(F[j], flags[j]);
  }

  lemma MarksStart(F: seq<nat>, n: nat)
    requires Starts(F, n) && n <= 900000
    ensures Marks(F, F, seq(PAIRS + 1, _ => false))
  {
  }

  // ---------- the state of the sort ----------

  /** Marked buckets are sorted, and all buckets of a character that is done
      are marked. */
  ghost predicate Progress(b: seq<byte>, a: seq<nat>, F: seq<nat>, flags: seq<bool>, done: seq<bool>) {
    && Bucketed(b, a, F) && |flags| == PAIRS + 1 && |done| == 256
    && (forall j: nat {:trigger flags[j]} {:trigger BucketSorted(b, a, F, j)} ::
       j < PAIRS && flags[j] ==> BucketSorted(b, a, F, j))
    && (forall c: nat, d: nat {:trigger PairOf(c, d)} :: c < 256 && d < 256 && done[c] ==> flags[PairOf(c, d)])
  }

  lemma ProgressParts(b: seq<byte>, a: seq<nat>, F: seq<nat>, flags: seq<bool>, done: seq<bool>)
    requires Progress(b, a, F, flags, done)
    ensures Bucketed(b, a, F) && |flags| == PAIRS + 1 && |done| == 256 && |a| == |b| && Starts(F, |b|)
        && |F| == PAIRS + 1
  {
  }

  lemma ProgressStart(b: seq<byte>, a: seq<nat>, F: seq<nat>)
    requires Bucketed(b, a, F)
    ensures Progress(b, a, F, seq(PAIRS + 1, _ => false), seq(256, _ => false))
  {
  }

  lemma ProgressMark(b: seq<byte>, a: seq<nat>, F: seq<nat>, flags: seq<bool>, done: seq<bool>, j: nat)
    requires Progress(b, a, F, flags, done) && j < PAIRS && j + 1 < |F| && BucketSorted(b, a, F, j)
    ensures |flags| == PAIRS + 1 && Progress(b, a, F, flags[j := true], done)
  {
    hide BucketSorted;
  }

  // ---------- step 1 ----------

  /** The entries of a bucket agree on two characters. */
  lemma BucketAgrees(b: seq<byte>, a: seq<nat>, F: seq<nat>, j: nat, ptr: seq<nat>)
    requires Bucketed(b, a, F) && j < PAIRS && |a| <= |ptr| && ptr[..|a|] == a
    ensures |F| == PAIRS + 1 && F[j] <= F[j + 1] <= |b|
    ensures Agree(b, ptr, F[j], F[j + 1] as int - 1, BZ_N_RADIX)
  {
    hide Eq, Pair;
    BucketedShape(b, a, F);
    StartsAt(F, |b|, j);
    forall x | F[j] <= x <= F[j + 1] as int - 1 ensures ptr[x] < |b| {
      BucketPair(b, a, F, j, x);
      assert ptr[x] == a[x];
    }
    forall x, y | F[j] <= x <= F[j + 1] as int - 1 && F[j] <= y <= F[j + 1] as int - 1
      ensures Eq(b, ptr[x], ptr[y], BZ_N_RADIX)
    {
      BucketPair(b, a, F, j, x);
      BucketPair(b, a, F, j, y);
      assert ptr[x] == a[x] && ptr[y] == a[y];
      PairAgrees(b, a[x], a[y]);
    }
  }

  lemma PairAgrees(b: seq<byte>, p: nat, q: nat)
    requires p < |b| && q < |b| && Pair(b, p) == Pair(b, q)
    ensures Eq(b, p, q, BZ_N_RADIX)
  {
    SamePair(b, p, q);
    ComposeFirst(b, p, q, 1);
    OneStep(b, Next(|b|, p), Next(|b|, q));
  }

  /** Sorting one bucket keeps the buckets and the order of the others. */
  lemma SortedBucket(b: seq<byte>, a: seq<nat>, a': seq<nat>, F: seq<nat>, flags: seq<bool>, done: seq<bool>, j: nat)
    requires Progress(b, a, F, flags, done) && j < PAIRS && |F| == PAIRS + 1
        && Permuted(a, a', F[j], F[j + 1] as int - 1)
    requires Keyed(a', Ranks(b), F[j], F[j + 1] as int - 1) && SortedBy(a', Ranks(b), F[j], F[j + 1] as int - 1)
    ensures Progress(b, a', F, flags, done) && BucketSorted(b, a', F, j)
  {
    hide Permuted, Ranks, Pair, BucketSorted;
    ProgressParts(b, a, F, flags, done);
    BucketRearranged(b, a, a', F, j);
    assert BucketSorted(b, a', F, j) by { SortedIsBucket(b, a', F, j); }
    forall k: nat | k < PAIRS && flags[k] ensures BucketSorted(b, a', F, k) {
      if k != j {
        assert BucketSorted(b, a, F, k);
        OtherBucketKept(b, a, a', F, j, k);
      }
    }
  }

  lemma SortedIsBucket(b: seq<byte>, a: seq<nat>, F: seq<nat>, j: nat)
    requires j + 1 < |F| && Keyed(a, Ranks(b), F[j], F[j + 1] as int - 1)
        && SortedBy(a, Ranks(b), F[j], F[j + 1] as int - 1)
    ensures BucketSorted(b, a, F, j)
  {
    hide Ranks;
  }

  lemma OtherBucketKept(b: seq<byte>, a: seq<nat>, a': seq<nat>, F: seq<nat>, j: nat, k: nat)
    requires Starts(F, |b|) && j < PAIRS && k < PAIRS && j != k && Permuted(a, a', F[j], F[j + 1] as int - 1)
        && BucketSorted(b, a, F, k)
    ensures BucketSorted(b, a', F, k)
  {
    hide BucketSorted;
    InOrderAt(F, |b|, j + 1, k);
    InOrderAt(F, |b|, k + 1, j);
    SortedKept(b, a, a', F, k);
  }

  lemma BucketRearranged(b: seq<byte>, a: seq<nat>, a': seq<nat>, F: seq<nat>, j: nat)
    requires Bucketed(b, a, F) && j < PAIRS && Permuted(a, a', F[j], F[j + 1] as int - 1)
    ensures Bucketed(b, a', F)
  {
    hide Permuted, Pair, Distinct;
    BucketedShape(b, a, F);
    StartsAt(F, |b|, j);
    PermutedLength(a, a', F[j], F[j + 1] as int - 1);
    assert a[..|b|] == a && a'[..|b|] == a';
    StillPermutation(a, a', |b|, F[j], F[j + 1] as int - 1);
    forall x: nat | x < |b| ensures InBucket(F, Pair(b, a'[x]), x) {
      RearrangedPair(b, a, a', F, j, x);
    }
  }

  lemma RearrangedPair(b: seq<byte>, a: seq<nat>, a': seq<nat>, F: seq<nat>, j: nat, x: nat)
    requires Bucketed(b, a, F) && j < PAIRS && Permuted(a, a', F[j], F[j + 1] as int - 1) && x < |b| == |a'|
    ensures a'[x] < |b| && InBucket(F, Pair(b, a'[x]), x)
  {
    BucketedShape(b, a, F);
    StartsAt(F, |b|, j);
    if F[j] <= x <= F[j + 1] as int - 1 {
      var y := ComesFrom(a, a', F[j], F[j + 1] as int - 1, x);
      BucketPair(b, a, F, j, y);
    } else {
      assert a'[x] == a[x];
    }
  }

  /** Sorts the small buckets of ss, but for the one of ss twice, that are not
      marked yet. In a uniform block they are empty. */
  method SortSmall(ptr: array<nat>, block: array<byte>, quadrant: array<nat>, ftab: array<nat>, nblock: nat, ss: byte,
      budget_: int, ghost b: seq<byte>, ghost F: seq<nat>, ghost flags_: seq<bool>, ghost done: seq<bool>)
      returns (budget: int, spent: bool, ghost flags: seq<bool>)
    requires ptr != quadrant && ptr != ftab && quadrant != ftab && ftab.Length == PAIRS + 1
    requires nblock == |b| <= ptr.Length <= 900000 && Comparable(b, block[..], quadrant[..])
    requires Progress(b, ptr[..nblock], F, flags_, done) && Marks(ftab[..], F, flags_)
    modifies ptr, ftab
    ensures budget <= budget_ && (spent ==> budget < 0) && Marks(ftab[..], F, flags)
    ensures !spent ==>
              && Progress(b, ptr[..nblock], F, flags, done)
              && (forall d: nat {:trigger PairOf(ss, d)} :: d < 256 && d != ss as nat ==> flags[PairOf(ss, d)])
    ensures Alone(b, F) ==> !spent && budget == budget_ && ptr[..nblock] == old(ptr[..nblock])
    ensures Twos(F) ==> budget >= budget_ - Fare(nblock, OffUpTo(F, ss, 256))
  {
    hide Comparable, Progress, Marks, Permuted, Agree, Ranks, SortedBy, BucketSorted, SetBit, ClearBit, TestBit, Alone,
        Twos, Fare, OffUpTo, Bucketed, Starts;
    budget, flags := budget_, flags_;
    ProgressParts(b, ptr[..nblock], F, flags, done);
    OffNext(F, nblock, ss, 0);
    for j := 0 to 256
      invariant budget <= budget_
      invariant Progress(b, ptr[..nblock], F, flags, done) && Marks(ftab[..], F, flags) && |flags| == PAIRS + 1
      invariant forall d: nat {:trigger PairOf(ss, d)} :: d < j && d != ss as nat ==> flags[PairOf(ss, d)]
      invariant Alone(b, F) ==> budget == budget_ && ptr[..nblock] == old(ptr[..nblock])
      invariant Twos(F) ==> budget >= budget_ - Fare(nblock, OffUpTo(F, ss, j))
      modifies ptr, ftab
    {
      OffNext(F, nblock, ss, j);
      if j != ss as int {
        var sb := ss as nat * 256 + j;
        assert sb == PairOf(ss, j);
        AloneSmall(b, F, ss, j);
        ghost var before := budget;
        var stop;
        budget, stop := SortIfNeeded(ptr, block, quadrant, ftab, nblock, sb, budget, b, F, flags, done);
        if Twos(F) {
          TwosAt(F, ss, j);
          FareOfBucket(nblock, before, budget, F[sb + 1] as int - F[sb]);
          FareAdds(nblock, OffUpTo(F, ss, j), F[sb + 1] as int - F[sb]);
        }
        if stop {
          OffGrows(F, nblock, ss, j + 1);
          FareMonotone(nblock, OffUpTo(F, ss, j + 1), OffUpTo(F, ss, 256));
          return budget, true, flags;
        }
        ghost var tab := ftab[..];
        MarksSet(tab, F, flags, sb);
        ProgressMark(b, ptr[..nblock], F, flags, done, sb);
        ftab[sb] := SetBit(ftab[sb], SETBIT);
        assert ftab[..] == tab[sb := SetBit(tab[sb], SETBIT)];
        flags := flags[sb := true];
      }
    }
    spent := false;
  }

  /** Sorts one small bucket unless it is marked or short. */
  method SortIfNeeded(ptr: array<nat>, block: array<byte>, quadrant: array<nat>, ftab: array<nat>, nblock: nat, sb: nat,
      budget_: int, ghost b: seq<byte>, ghost F: seq<nat>, ghost flags: seq<bool>, ghost done: seq<bool>)
      returns (budget: int, spent: bool)
    requires ptr != quadrant && ptr != ftab && ftab.Length == PAIRS + 1 && sb < PAIRS
    requires nblock == |b| <= ptr.Length <= 900000 && Comparable(b, block[..], quadrant[..])
    requires Progress(b, ptr[..nblock], F, flags, done) && Marks(ftab[..], F, flags) && |F| == PAIRS + 1
    modifies ptr
    ensures budget <= budget_ && (spent ==> budget < 0)
    ensures !spent ==> Progress(b, ptr[..nblock], F, flags, done) && BucketSorted(b, ptr[..nblock], F, sb)
    ensures F[sb] == F[sb + 1] ==> !spent && budget == budget_ && ptr[..nblock] == old(ptr[..nblock])
    ensures F[sb + 1] <= F[sb] + 1 ==> budget == budget_
    ensures F[sb + 1] == F[sb] + 2 ==> budget >= budget_ - CompareCost(nblock)
  {
    hide Comparable, Progress, Marks, Permuted, Agree, Ranks, SortedBy, BucketSorted, Bucketed, SetBit, ClearBit,
        TestBit, Starts;
    budget := budget_;
    ghost var a := ptr[..nblock];
    ProgressParts(b, a, F, flags, done);
    MarksAt(ftab[..], F, flags, sb);
    MarksAt(ftab[..], F, flags, sb + 1);
    StartsAt(F, nblock, sb);
    if !TestBit(ftab[sb], SETBIT) {
      var lo := ClearBit(ftab[sb], SETBIT) as int;
      var hi := ClearBit(ftab[sb + 1], SETBIT) as int - 1;
      if hi > lo {
        ghost var p := ptr[..];
        BucketAgrees(b, a, F, sb, p);
        budget := MainQSort3(ptr, block, quadrant, nblock, lo, hi, BZ_N_RADIX, budget, b);
        if budget < 0 {
          return budget, true;
        }
        PrefixPermuted(p, ptr[..], nblock, lo, hi);
        PrefixIsPermuted(p, ptr[..], nblock, lo, hi);
        assert p[..nblock] == a && ptr[..][..nblock] == ptr[..nblock];
        SortedPrefix(ptr[..], Ranks(b), nblock, lo, hi);
        SortedBucket(b, a, ptr[..nblock], F, flags, done, sb);
      } else {
        ShortSorted(b, a, F, sb);
      }
    } else {
      MarkedSorted(b, a, F, flags, done, sb);
    }
    spent := false;
  }

  lemma TwosAt(F: seq<nat>, ss: byte, j: nat)
    requires Twos(F) && j < 256 && j != ss as nat
    ensures |F| == PAIRS + 1 && PairOf(ss, j) < PAIRS && F[PairOf(ss, j) + 1] <= F[PairOf(ss, j)] + 2
  {
  }

  lemma AloneSmall(b: seq<byte>, F: seq<nat>, ss: byte, j: nat)
    requires j < 256 && j != ss as nat && |F| == PAIRS + 1
    ensures PairOf(ss, j) < PAIRS && (Alone(b, F) ==> F[PairOf(ss, j)] == F[PairOf(ss, j) + 1])
  {
  }

  lemma ShortSorted(b: seq<byte>, a: seq<nat>, F: seq<nat>, j: nat)
    requires j + 1 < |F| && F[j + 1] <= F[j] + 1
    ensures BucketSorted(b, a, F, j)
  {
    hide Ranks;
  }

  lemma MarkedSorted(b: seq<byte>, a: seq<nat>, F: seq<nat>, flags: seq<bool>, done: seq<bool>, j: nat)
    requires Progress(b, a, F, flags, done) && j < PAIRS && |flags| == PAIRS + 1 && |F| == PAIRS + 1 && flags[j]
    ensures BucketSorted(b, a, F, j)
  {
    hide BucketSorted;
  }

  lemma SortedPrefix(p: seq<nat>, keys: seq<nat>, n: nat, lo: int, hi: int)
    requires n <= |p| && hi < n && Keyed(p, keys, lo, hi) && SortedBy(p, keys, lo, hi)
    ensures Keyed(p[..n], keys, lo, hi) && SortedBy(p[..n], keys, lo, hi)
  {
  }

  // ---------- step 2 ----------

  /** Where the scans write next, for the buckets of the characters that are
      not done. */
  ghost predicate Cursors(b: seq<byte>, F: seq<nat>, c: byte, done: seq<bool>, low: seq<nat>, high: seq<nat>,
      copyStart: seq<int>, copyEnd: seq<int>) {
    && |F| == PAIRS + 1 && |copyStart| == |copyEnd| == 256 && Positions(low, |b|) && Positions(high, |b|)
    && (forall t: byte {:trigger copyStart[t]} ::
       Open(done, t) ==> copyStart[t] == Place(F, c, t, true, |Found(b, low, high, t, true)|))
    && (forall t: byte {:trigger copyEnd[t]} ::
       Open(done, t) ==> copyEnd[t] == Place(F, c, t, false, |Found(b, low, high, t, false)|))
  }

  lemma CursorsStart(b: seq<byte>, F: seq<nat>, c: byte, done: seq<bool>, copyStart: seq<int>, copyEnd: seq<int>)
    requires |F| == PAIRS + 1 && |copyStart| == |copyEnd| == 256
    requires forall t: byte :: copyStart[t] == F[PairOf(t, c)] && copyEnd[t] == F[PairOf(t, c) + 1] as int - 1
    ensures Cursors(b, F, c, done, [], [], copyStart, copyEnd)
  {
  }

  /** Everything that the scans maintain. */
  ghost predicate Scans(b: seq<byte>, a0: seq<nat>, a: seq<nat>, F: seq<nat>, c: byte, done: seq<bool>, low: seq<nat>,
      high: seq<nat>, copyStart: seq<int>, copyEnd: seq<int>) {
    && Scanning(b, a0, F, c, done, low, high) && Synth(b, a0, a, F, c, done, low, high)
    && Cursors(b, F, c, done, low, high, copyStart, copyEnd)
  }

  lemma ScansParts(b: seq<byte>, a0: seq<nat>, a: seq<nat>, F: seq<nat>, c: byte, done: seq<bool>, low: seq<nat>,
      high: seq<nat>, copyStart: seq<int>, copyEnd: seq<int>)
    requires Scans(b, a0, a, F, c, done, low, high, copyStart, copyEnd)
    ensures Scanning(b, a0, F, c, done, low, high) && Synth(b, a0, a, F, c, done, low, high)
    ensures Positions(low, |b|) && Positions(high, |b|) && |F| == PAIRS + 1 && |a| == |a0| == |b|
    ensures |copyStart| == |copyEnd| == 256 && Starts(F, |b|) && |done| == 256 && Open(done, c)
    ensures PairOf(c as nat + 1, 0) <= PAIRS
    ensures copyStart[c] == F[PairOf(c, c)] + |Found(b, low, high, c, true)|
    ensures copyEnd[c] == F[PairOf(c, c) + 1] as int - 1 - |Found(b, low, high, c, false)|
  {
    hide Synth, Seeds, Scanned, Found, SeedPart, Bucketed, Starts;
    ScanningOpen(b, a0, F, c, done, low, high);
    ScanningLists(b, a0, F, c, done, low, high);
    SynthSize(b, a0, a, F, c, done, low, high);
    assert copyStart[c] == Place(F, c, c, true, |Found(b, low, high, c, true)|);
    assert copyEnd[c] == Place(F, c, c, false, |Found(b, low, high, c, false)|);
  }

  /** The scan reads at SeedPlace; it goes on while its list does. */
  lemma ScanReads(b: seq<byte>, a0: seq<nat>, a: seq<nat>, F: seq<nat>, c: byte, done: seq<bool>, low: seq<nat>,
      high: seq<nat>, copyStart: seq<int>, copyEnd: seq<int>, up: bool, j: int)
    requires Scans(b, a0, a, F, c, done, low, high, copyStart, copyEnd) && |F| == PAIRS + 1
    requires j == SeedPlace(F, c, up, |if up then low else high|)
    requires |copyStart| == |copyEnd| == 256 && (if up then j < copyStart[c] else j > copyEnd[c])
    ensures 0 <= j < |a| && a[j] < |b|
    ensures var low', high' := if up then low + [a[j]] else low, if up then high else high + [a[j]];
            Scanning(b, a0, F, c, done, low', high')
    ensures if up then j < F[PairOf(c, c) + 1] else F[PairOf(c, c)] <= j
  {
    hide Scans, Scanning, Synth, Found, SeedPart, Starts, Positions;
    ScansParts(b, a0, a, F, c, done, low, high, copyStart, copyEnd);
    SeedsPlaced(b, a0, F, c, done, low, high, up);
    SeedSizes(a0, F, c, up);
    SeedBounds(F, |b|, c);
    Room(b, a0, F, c, done, low, high, c);
    ReadNext(b, a0, a, F, c, done, low, high, up);
    ScanningPush(b, a0, F, c, done, low, high, up);
  }

  lemma ScanningPush(b: seq<byte>, a0: seq<nat>, F: seq<nat>, c: byte, done: seq<bool>, low: seq<nat>, high: seq<nat>,
      up: bool)
    requires Scanning(b, a0, F, c, done, low, high) && |a0| == |b| && Starts(F, |b|)
        && Positions(SeedPart(a0, F, c, up), |b|)
    requires Positions(if up then low else high, |b|)
    requires var cons, seeds := if up then low else high, SeedPart(a0, F, c, up); |cons| < |ScanList(b, c, seeds, cons)|
    ensures var cons, seeds := if up then low else high, SeedPart(a0, F, c, up);
            var p := ScanList(b, c, seeds, cons)[|cons|];
            p < |b| && Scanning(b, a0, F, c, done, if up then low + [p] else low, if up then high else high + [p])
  {
    hide Bucketed, Seeds, ScanList, SeedPart, Starts;
    var cons, seeds := if up then low else high, SeedPart(a0, F, c, up);
    ScannedPush(b, c, seeds, cons);
    ListBelow(b, ScanList(b, c, seeds, cons), |cons|);
  }

  lemma ListBelow(b: seq<byte>, s: seq<nat>, i: nat)
    requires Positions(s, |b|) && i < |s|
    ensures s[i] < |b|
  {
  }

  /** What is written for the rotation read, and how the cursor moves. */
  lemma ScanWrites(b: seq<byte>, a0: seq<nat>, a: seq<nat>, F: seq<nat>, c: byte, done: seq<bool>, low: seq<nat>,
      high: seq<nat>, copyStart: seq<int>, copyEnd: seq<int>,
                   up: bool, p: nat, low': seq<nat>, high': seq<nat>)
    requires Scans(b, a0, a, F, c, done, low, high, copyStart, copyEnd) && p < |b| && |copyStart| == |copyEnd| == 256
    requires if up then low' == low + [p] && high' == high else low' == low && high' == high + [p]
    requires Scanning(b, a0, F, c, done, low', high')
    ensures var k := Prev(|b|, p);
            var w := if up then copyStart[b[k]] else copyEnd[b[k]];
            if Open(done, b[k]) then
              && 0 <= w < |a|
              && Scans(b, a0, a[w := k], F, c, done, low', high', if up then copyStart[b[k] := w + 1] else copyStart,
                 if up then copyEnd else copyEnd[b[k] := w - 1])
            else Scans(b, a0, a, F, c, done, low', high', copyStart, copyEnd)
  {
    hide Scanning, Synth, Found, Prev, Open;
    WriteNext(b, a0, a, F, c, done, low, high, up, p, low', high');
    CursorsMove(b, F, c, done, low, high, copyStart, copyEnd, up, p, low', high');
  }

  lemma CursorsMove(b: seq<byte>, F: seq<nat>, c: byte, done: seq<bool>, low: seq<nat>, high: seq<nat>,
      copyStart: seq<int>, copyEnd: seq<int>,
                    up: bool, p: nat, low': seq<nat>, high': seq<nat>)
    requires Cursors(b, F, c, done, low, high, copyStart, copyEnd) && p < |b|
    requires if up then low' == low + [p] && high' == high else low' == low && high' == high + [p]
    ensures var k := Prev(|b|, p);
            |copyStart| == |copyEnd| == 256 &&
            var w := if up then copyStart[b[k]] else copyEnd[b[k]];
            if Open(done, b[k]) then
              && w == Place(F, c, b[k], up, |Found(b, low, high, b[k], up)|)
              && Cursors(b, F, c, done, low', high', if up then copyStart[b[k] := w + 1] else copyStart,
                 if up then copyEnd else copyEnd[b[k] := w - 1])
            else Cursors(b, F, c, done, low', high', copyStart, copyEnd)
  {
    hide Found, Prev, Open, PairOf;
    FoundGrows(b, low, high, up, p, low', high');
    var k := Prev(|b|, p);
    var w := if up then copyStart[b[k]] else copyEnd[b[k]];
    if Open(done, b[k]) {
      var starts', ends' :=
          if up then copyStart[b[k] := w + 1] else copyStart, if up then copyEnd else copyEnd[b[k] := w - 1];
      forall t: byte | Open(done, t) ensures starts'[t] == Place(F, c, t, true, |Found(b, low', high', t, true)|) {
        assert copyStart[t] == Place(F, c, t, true, |Found(b, low, high, t, true)|);
      }
      forall t: byte | Open(done, t) ensures ends'[t] == Place(F, c, t, false, |Found(b, low', high', t, false)|) {
        assert copyEnd[t] == Place(F, c, t, false, |Found(b, low, high, t, false)|);
      }
    } else {
      forall t: byte | Open(done, t) ensures copyStart[t] == Place(F, c, t, true, |Found(b, low', high', t, true)|) {
        assert copyStart[t] == Place(F, c, t, true, |Found(b, low, high, t, true)|);
      }
      forall t: byte | Open(done, t) ensures copyEnd[t] == Place(F, c, t, false, |Found(b, low', high', t, false)|) {
        assert copyEnd[t] == Place(F, c, t, false, |Found(b, low, high, t, false)|);
      }
    }
  }

  /** One scan, from either end of the sorted big bucket. */
  method Scan(ptr: array<nat>, block: array<byte>, bigDone: array<bool>, copyStart: array<int>, copyEnd: array<int>,
      nblock: nat, ss: byte, up: bool, j_: int,
              ghost b: seq<byte>, ghost a0: seq<nat>, ghost F: seq<nat>, ghost low_: seq<nat>, ghost high_: seq<nat>)
      returns (ghost low: seq<nat>, ghost high: seq<nat>)
    requires copyStart != copyEnd && nblock == |b| <= ptr.Length && nblock <= block.Length && block[..nblock] == b
    requires bigDone.Length == 256 && copyStart.Length == copyEnd.Length == 256
    requires Scans(b, a0, ptr[..nblock], F, ss, bigDone[..], low_, high_, copyStart[..], copyEnd[..])
        && |F| == PAIRS + 1
    requires j_ == SeedPlace(F, ss, up, |if up then low_ else high_|)
    modifies ptr, copyStart, copyEnd
    ensures Scans(b, a0, ptr[..nblock], F, ss, bigDone[..], low, high, copyStart[..], copyEnd[..])
    ensures if up then high == high_ else low == low_
    ensures var j := SeedPlace(F, ss, up, |if up then low else high|);
            if up then j >= copyStart[ss] else j <= copyEnd[ss]
    ensures old(if up then j_ >= copyStart[ss] else j_ <= copyEnd[ss]) ==>
              && ptr[..nblock] == old(ptr[..nblock])
              && copyStart[..] == old(copyStart[..]) && copyEnd[..] == old(copyEnd[..])
  {
    hide Scans, Scanning, Prev;
    low, high := low_, high_;
    var j := j_;
    ghost var done := bigDone[..];
    while if up then j < copyStart[ss] else j > copyEnd[ss]
      invariant Scans(b, a0, ptr[..nblock], F, ss, done, low, high, copyStart[..], copyEnd[..])
      invariant j == SeedPlace(F, ss, up, |if up then low else high|)
      invariant if up then high == high_ else low == low_
      invariant old(if up then j_ >= copyStart[ss] else j_ <= copyEnd[ss]) ==>
                  && j == j_ && ptr[..nblock] == old(ptr[..nblock])
                  && copyStart[..] == old(copyStart[..]) && copyEnd[..] == old(copyEnd[..])
      decreases if up then F[PairOf(ss, ss) + 1] as int - j else j - F[PairOf(ss, ss)] as int
      modifies ptr, copyStart, copyEnd
    {
      ghost var a, starts, ends := ptr[..nblock], copyStart[..], copyEnd[..];
      ScanReads(b, a0, a, F, ss, done, low, high, starts, ends, up, j);
      assert a[j] == ptr[j];
      var p := ptr[j];
      ghost var low', high' := if up then low + [p] else low, if up then high else high + [p];
      ScanWrites(b, a0, a, F, ss, done, low, high, starts, ends, up, p, low', high');
      var k: int := p as int - 1;
      if k < 0 {
        k := k + nblock;
      }
      PrevIs(nblock, p);
      var c1 := block[k];
      assert c1 == b[k] && done[c1] == bigDone[c1];
      if !bigDone[c1] {
        if up {
          ptr[copyStart[c1]] := k;
          assert ptr[..nblock] == a[starts[c1] := k as nat];
          copyStart[c1] := copyStart[c1] + 1;
          assert copyStart[..] == starts[c1 := starts[c1] + 1];
        } else {
          ptr[copyEnd[c1]] := k;
          assert ptr[..nblock] == a[ends[c1] := k as nat];
          copyEnd[c1] := copyEnd[c1] - 1;
          assert copyEnd[..] == ends[c1 := ends[c1] - 1];
        }
      }
      low, high := low', high';
      j := if up then j + 1 else j - 1;
    }
  }

  lemma PrevIs(n: nat, p: nat)
    requires p < n
    ensures Prev(n, p) == if p == 0 then n - 1 else p - 1
  {
  }

  /** Both scans have come to their ends. */
  lemma ScansEnd(b: seq<byte>, a0: seq<nat>, a: seq<nat>, F: seq<nat>, c: byte, done: seq<bool>, low: seq<nat>,
      high: seq<nat>, copyStart: seq<int>, copyEnd: seq<int>)
    requires Scans(b, a0, a, F, c, done, low, high, copyStart, copyEnd) && |F| == PAIRS + 1
        && |copyStart| == |copyEnd| == 256
    requires SeedPlace(F, c, true, |low|) >= copyStart[c] && SeedPlace(F, c, false, |high|) <= copyEnd[c]
    ensures ScansDone(b, a0, F, c, done, low, high) && Synth(b, a0, a, F, c, done, low, high)
  {
    hide Scans, Synth, Found, SeedPart, Starts, Bucketed, Seeds, Scanned, Positions;
    ScansParts(b, a0, a, F, c, done, low, high, copyStart, copyEnd);
    SeedSizes(a0, F, c, true);
    SeedSizes(a0, F, c, false);
    SeedBounds(F, |b|, c);
    SeedsPlaced(b, a0, F, c, done, low, high, true);
    SeedsPlaced(b, a0, F, c, done, low, high, false);
    AtMostList(b, c, SeedPart(a0, F, c, true), low, high, true, low);
    AtMostList(b, c, SeedPart(a0, F, c, false), low, high, false, high);
  }

  lemma AtMostList(b: seq<byte>, c: byte, seeds: seq<nat>, low: seq<nat>, high: seq<nat>, up: bool, cons: seq<nat>)
    requires Positions(seeds, |b|) && Scanned(b, c, seeds, cons) && Positions(low, |b|) && Positions(high, |b|)
    requires cons == if up then low else high
    ensures |cons| <= |seeds| + |Found(b, low, high, c, up)|
  {
    ScannedPrefix(b, c, seeds, cons);
  }

  /** The check that the cursors met, with its exception. */
  ghost predicate CursorsMet(copyStart: seq<int>, copyEnd: seq<int>, c: byte, n: nat) {
    |copyStart| == |copyEnd| == 256 && (copyStart[c] - 1 == copyEnd[c]
         || (copyStart[c] == 0 && copyEnd[c] == n as int - 1))
  }

  /** Main result for step 2: the buckets are kept, those of ss are in order,
      and the cursors met. */
  lemma StepTwo(b: seq<byte>, a0: seq<nat>, a: seq<nat>, F: seq<nat>, c: byte, flags: seq<bool>, done: seq<bool>,
      low: seq<nat>, high: seq<nat>, copyStart: seq<int>, copyEnd: seq<int>)
    requires ScansDone(b, a0, F, c, done, low, high) && Synth(b, a0, a, F, c, done, low, high)
        && Progress(b, a0, F, flags, done)
    requires Cursors(b, F, c, done, low, high, copyStart, copyEnd) && Open(done, c)
    ensures Progress(b, a, F, flags, done) && |F| == PAIRS + 1 && CursorsMet(copyStart, copyEnd, c, |b|)
    ensures forall t: nat {:trigger PairOf(t, c)} :: t < 256 ==> BucketSorted(b, a, F, PairOf(t, c))
  {
    hide ScansDone, Synth, Bucketed, BucketSorted, Found, Starts;
    ProgressParts(b, a0, F, flags, done);
    ScansDoneParts(b, a0, F, c, done, low, high);
    if !(forall x :: 0 <= x < |b| ==> b[x] == c) {
      var q: nat :| q < |b| && b[q] != c;
      Synthesised(b, a0, a, F, c, done, low, high, q);
      forall j: nat | j < PAIRS && flags[j] ensures BucketSorted(b, a, F, j) {
        if j % 256 == c as nat && Open(done, j / 256) {
          BucketOfByte(j, c);
        } else {
          assert BucketSorted(b, a0, F, j);
        }
      }
      forall t: nat | t < 256 ensures BucketSorted(b, a, F, PairOf(t, c)) {
        if Open(done, t) {
          assert Open(done, t as byte);
        } else {
          assert flags[PairOf(t, c)];
        }
      }
      BucketFull(b, a0, F, c, done, low, high, c, q);
      assert copyStart[c] == Place(F, c, c, true, |Found(b, low, high, c, true)|);
      assert copyEnd[c] == Place(F, c, c, false, |Found(b, low, high, c, false)|);
    } else {
      NothingFound(b, a0, a, F, c, done, low, high);
      assert Progress(b, a, F, flags, done);
      ConstantCursors(b, a0, F, c, done, low, high, copyStart, copyEnd);
    }
  }

  lemma BucketOfByte(j: nat, c: byte)
    requires j < PAIRS && j % 256 == c as nat
    ensures j == PairOf((j / 256) as byte, c)
  {
  }

  lemma ConstantCursors(b: seq<byte>, a0: seq<nat>, F: seq<nat>, c: byte, done: seq<bool>, low: seq<nat>,
      high: seq<nat>, copyStart: seq<int>, copyEnd: seq<int>)
    requires Bucketed(b, a0, F) && |b| > 0 && (forall x :: 0 <= x < |b| ==> b[x] == c) && low == high == []
    requires Cursors(b, F, c, done, low, high, copyStart, copyEnd) && Open(done, c)
    ensures CursorsMet(copyStart, copyEnd, c, |b|)
  {
    BucketedShape(b, a0, F);
    hide Starts, Pair;
    assert copyStart[c] == Place(F, c, c, true, 0);
    assert copyEnd[c] == Place(F, c, c, false, 0);
    PairParts(b, a0[0], c, c);
    PairParts(b, a0[|b| - 1], c, c);
    assert InBucket(F, Pair(b, a0[0]), 0);
    assert InBucket(F, Pair(b, a0[|b| - 1]), |b| - 1);
    StartsAt(F, |b|, PairOf(c, c));
  }

  lemma ReadyToScan(b: seq<byte>, a: seq<nat>, F: seq<nat>, c: byte, flags: seq<bool>, done: seq<bool>)
    requires Progress(b, a, F, flags, done) && |b| > 1 && Open(done, c) && |flags| == PAIRS + 1
    requires forall d: nat {:trigger PairOf(c, d)} :: d < 256 && d != c as nat ==> flags[PairOf(c, d)]
    ensures Scanning(b, a, F, c, done, [], [])
  {
    hide BucketSorted, SeedPart;
    ProgressParts(b, a, F, flags, done);
    forall d: nat | d < 256 && d != c as nat ensures BucketSorted(b, a, F, PairOf(c, d)) {
      assert flags[PairOf(c, d)];
    }
    SeedsReady(b, a, F, c, true);
    SeedsReady(b, a, F, c, false);
  }

  lemma ScansBy(b: seq<byte>, a0: seq<nat>, a: seq<nat>, F: seq<nat>, c: byte, done: seq<bool>, low: seq<nat>,
      high: seq<nat>, copyStart: seq<int>, copyEnd: seq<int>)
    requires Scanning(b, a0, F, c, done, low, high) && Synth(b, a0, a, F, c, done, low, high)
        && Cursors(b, F, c, done, low, high, copyStart, copyEnd)
    ensures Scans(b, a0, a, F, c, done, low, high, copyStart, copyEnd)
  {
  }

  lemma ScansCursors(b: seq<byte>, a0: seq<nat>, a: seq<nat>, F: seq<nat>, c: byte, done: seq<bool>, low: seq<nat>,
      high: seq<nat>, copyStart: seq<int>, copyEnd: seq<int>)
    requires Scans(b, a0, a, F, c, done, low, high, copyStart, copyEnd)
    ensures Cursors(b, F, c, done, low, high, copyStart, copyEnd)
  {
  }

  /** The cursors of the first j characters stand at the ends of their buckets. */
  ghost predicate AtEnds(F: seq<nat>, ss: byte, copyStart: seq<int>, copyEnd: seq<int>, j: nat) {
    && |F| == PAIRS + 1 && |copyStart| == |copyEnd| == 256 && j <= 256
    && (forall t: nat {:trigger copyStart[t]} :: t < j ==> copyStart[t] == F[PairOf(t, ss)])
    && (forall t: nat {:trigger copyEnd[t]} :: t < j ==> copyEnd[t] == F[PairOf(t, ss) + 1] as int - 1)
  }

  lemma AtEndsStep(F: seq<nat>, ss: byte, copyStart: seq<int>, copyEnd: seq<int>, j: nat)
    requires AtEnds(F, ss, copyStart, copyEnd, j) && j < 256
    ensures PairOf(j, ss) + 1 <= PAIRS
    ensures AtEnds(F, ss, copyStart[j := F[PairOf(j, ss)]], copyEnd[j := F[PairOf(j, ss) + 1] as int - 1], j + 1)
  {
  }

  lemma AtEndsAll(b: seq<byte>, F: seq<nat>, ss: byte, done: seq<bool>, copyStart: seq<int>, copyEnd: seq<int>)
    requires AtEnds(F, ss, copyStart, copyEnd, 256)
    ensures Cursors(b, F, ss, done, [], [], copyStart, copyEnd)
  {
    CursorsStart(b, F, ss, done, copyStart, copyEnd);
  }

  lemma AloneCursors(b: seq<byte>, F: seq<nat>, ss: byte, copyStart: seq<int>, copyEnd: seq<int>)
    requires AtEnds(F, ss, copyStart, copyEnd, 256)
    ensures |F| == PAIRS + 1 && |copyStart| == |copyEnd| == 256 && PairOf(ss as nat + 1, 0) <= PAIRS
    ensures Alone(b, F) ==> F[PairOf(ss, 0)] == copyStart[ss] && F[PairOf(ss as nat + 1, 0)] as int - 1 == copyEnd[ss]
  {
  }

  /** copyStart and copyEnd are set to the ends of the buckets of all
      characters with ss. */
  method SetCursors(ftab: array<nat>, ss: byte, copyStart: array<int>, copyEnd: array<int>, ghost F: seq<nat>,
      ghost flags: seq<bool>)
    requires ftab.Length == PAIRS + 1 && copyStart != copyEnd && copyStart.Length == copyEnd.Length == 256
        && Marks(ftab[..], F, flags)
    modifies copyStart, copyEnd
    ensures AtEnds(F, ss, copyStart[..], copyEnd[..], 256)
  {
    hide Marks, ClearBit, TestBit, SetBit, HasBit;
    MarksAt(ftab[..], F, flags, 0);
    assert AtEnds(F, ss, copyStart[..], copyEnd[..], 0);
    hide AtEnds;
    for j := 0 to 256
      invariant AtEnds(F, ss, copyStart[..], copyEnd[..], j)
      modifies copyStart, copyEnd
    {
      AtEndsStep(F, ss, copyStart[..], copyEnd[..], j);
      MarksAt(ftab[..], F, flags, PairOf(j, ss));
      MarksAt(ftab[..], F, flags, PairOf(j, ss) + 1);
      ghost var starts, ends := copyStart[..], copyEnd[..];
      copyStart[j] := ClearBit(ftab[j * 256 + ss as nat], SETBIT);
      copyEnd[j] := ClearBit(ftab[j * 256 + ss as nat + 1], SETBIT) as int - 1;
      assert copyStart[..] == starts[j := F[PairOf(j, ss)]]
          && copyEnd[..] == ends[j := F[PairOf(j, ss) + 1] as int - 1];
    }
  }

  /** Where the big bucket of ss starts, and its last place. */
  method BigBucket(ftab: array<nat>, ss: byte, ghost F: seq<nat>, ghost flags: seq<bool>)
      returns (first: int, last: int)
    requires ftab.Length == PAIRS + 1 && Marks(ftab[..], F, flags)
    ensures |F| == PAIRS + 1 && first == F[PairOf(ss, 0)] && last == F[PairOf(ss as nat + 1, 0)] as int - 1
  {
    hide Marks, ClearBit, TestBit;
    MarksAt(ftab[..], F, flags, PairOf(ss, 0));
    MarksAt(ftab[..], F, flags, PairOf(ss as nat + 1, 0));
    first := ClearBit(ftab[ss as nat * 256], SETBIT);
    last := ClearBit(ftab[(ss as nat + 1) * 256], SETBIT) as int - 1;
  }

  /** Marks the buckets of all characters with ss. */
  method MarkColumn(ftab: array<nat>, ss: byte, ghost b: seq<byte>, ghost a: seq<nat>, ghost F: seq<nat>,
      ghost flags_: seq<bool>, ghost done: seq<bool>)
      returns (ghost flags: seq<bool>)
    requires ftab.Length == PAIRS + 1 && Marks(ftab[..], F, flags_) && Progress(b, a, F, flags_, done)
        && |F| == PAIRS + 1 && |flags_| == PAIRS + 1
    requires forall t: nat {:trigger PairOf(t, ss)} :: t < 256 ==> BucketSorted(b, a, F, PairOf(t, ss))
    modifies ftab
    ensures Marks(ftab[..], F, flags) && Progress(b, a, F, flags, done) && |flags| == PAIRS + 1
    ensures forall t: nat {:trigger PairOf(t, ss)} :: t < 256 ==> flags[PairOf(t, ss)]
    ensures forall j: nat {:trigger flags[j]} :: j <= PAIRS && flags_[j] ==> flags[j]
  {
    hide Marks, Progress, BucketSorted, SetBit;
    flags := flags_;
    for j := 0 to 256
      invariant Marks(ftab[..], F, flags) && Progress(b, a, F, flags, done) && |flags| == PAIRS + 1
      invariant forall t: nat {:trigger PairOf(t, ss)} :: t < j ==> flags[PairOf(t, ss)]
      invariant forall k: nat {:trigger flags[k]} :: k <= PAIRS && flags_[k] ==> flags[k]
      modifies ftab
    {
      ghost var tab, k := ftab[..], PairOf(j, ss);
      assert BucketSorted(b, a, F, PairOf(j, ss));
      MarksSet(tab, F, flags, k);
      ProgressMark(b, a, F, flags, done, k);
      ftab[j * 256 + ss as nat] := SetBit(ftab[j * 256 + ss as nat], SETBIT);
      assert ftab[..] == tab[k := SetBit(tab[k], SETBIT)];
      flags := flags[k := true];
    }
  }

  /** Scans the sorted big bucket of ss from both ends, and marks what is
      sorted by it. In a uniform block neither scan takes a step. */
  method Synthesise(ptr: array<nat>, block: array<byte>, ftab: array<nat>, bigDone: array<bool>, nblock: nat, ss: byte,
                    ghost b: seq<byte>, ghost F: seq<nat>, ghost flags_: seq<bool>)
      returns (ghost flags: seq<bool>)
    requires ptr != ftab && ftab.Length == PAIRS + 1 && 1 < nblock == |b| <= ptr.Length && nblock <= block.Length
        && block[..nblock] == b
    requires bigDone.Length == 256 && !bigDone[ss] && Progress(b, ptr[..nblock], F, flags_, bigDone[..])
        && Marks(ftab[..], F, flags_)
    requires |flags_| == PAIRS + 1 && forall d: nat {:trigger PairOf(ss, d)} ::
        d < 256 && d != ss as nat ==> flags_[PairOf(ss, d)]
    modifies ptr, ftab
    ensures Progress(b, ptr[..nblock], F, flags, bigDone[..]) && Marks(ftab[..], F, flags) && |flags| == PAIRS + 1
    ensures forall d: nat {:trigger PairOf(ss, d)} :: d < 256 ==> flags[PairOf(ss, d)]
    ensures Alone(b, F) ==> ptr[..nblock] == old(ptr[..nblock])
  {
    hide Progress, Marks, Scans, ScansDone, Synth, Scanning, Cursors, SetBit, ClearBit, TestBit, BucketSorted, Place,
        Alone, AtEnds;
    flags := flags_;
    var copyStart, copyEnd := new int[256], new int[256];
    ghost var a0, done := ptr[..nblock], bigDone[..];
    ProgressParts(b, a0, F, flags, done);
    ReadyToScan(b, a0, F, ss, flags, done);
    SynthStart(b, a0, F, ss, done);
    SetCursors(ftab, ss, copyStart, copyEnd, F, flags);
    AtEndsAll(b, F, ss, done, copyStart[..], copyEnd[..]);
    AloneCursors(b, F, ss, copyStart[..], copyEnd[..]);
    assert Scans(b, a0, a0, F, ss, done, [], [], copyStart[..], copyEnd[..]) by {
      ScansBy(b, a0, a0, F, ss, done, [], [], copyStart[..], copyEnd[..]);
    }
    var first, last := BigBucket(ftab, ss, F, flags);
    ghost var low, high := Scan(ptr, block, bigDone, copyStart, copyEnd, nblock, ss, true, first, b, a0, F, [], []);
    ScansParts(b, a0, ptr[..nblock], F, ss, done, low, high, copyStart[..], copyEnd[..]);
    ghost var reached := F[PairOf(ss, ss)] + |Found(b, low, high, ss, true)|;
    low, high := Scan(ptr, block, bigDone, copyStart, copyEnd, nblock, ss, false, last, b, a0, F, low, high);
    ScansParts(b, a0, ptr[..nblock], F, ss, done, low, high, copyStart[..], copyEnd[..]);
    assert Found(b, low, high, ss, true) == Found(b, low, [], ss, true);
    ScansEnd(b, a0, ptr[..nblock], F, ss, done, low, high, copyStart[..], copyEnd[..]);
    ScansCursors(b, a0, ptr[..nblock], F, ss, done, low, high, copyStart[..], copyEnd[..]);
    StepTwo(b, a0, ptr[..nblock], F, ss, flags, done, low, high, copyStart[..], copyEnd[..]);
    assert CursorsMet(copyStart[..], copyEnd[..], ss, nblock);
    flags := MarkColumn(ftab, ss, b, ptr[..nblock], F, flags, done);
  }

  // ---------- step 3 ----------

  /** The order of the sorted big bucket, in as many bits as there are. */
  ghost predicate Ranked(ptr: seq<nat>, quadrant: seq<nat>, first: int, size: int, j: int, shifts: nat) {
    && 0 <= first && 0 <= j && first + size <= |ptr|
    && (forall x {:trigger ptr[x]} ::
       first + j <= x < first + size ==> ptr[x] < |quadrant| && quadrant[ptr[x]] == Shr(x - first, shifts))
  }

  /** The positions of the big bucket of ss. */
  lemma BigEntries(b: seq<byte>, a: seq<nat>, F: seq<nat>, ss: byte, x: int)
    requires Bucketed(b, a, F) && 0 <= x < |b|
    ensures |F| == PAIRS + 1 && PairOf(ss as nat + 1, 0) <= PAIRS && |a| == |b| && a[x] < |b|
    ensures F[PairOf(ss, 0)] <= x < F[PairOf(ss as nat + 1, 0)] <==> b[a[x]] == ss
  {
    RangePair(b, a, F, PairOf(ss, 0), PairOf(ss as nat + 1, 0), x);
  }

  /** Main result for step 3: the new quadrants can be trusted. */
  lemma QuadrantsUpdated(b: seq<byte>, a: seq<nat>, F: seq<nat>, flags: seq<bool>, done: seq<bool>, ss: byte,
      q0: seq<nat>, q: seq<nat>, shifts: nat)
    requires Progress(b, a, F, flags, done) && |flags| == PAIRS + 1 && |F| == PAIRS + 1 && QuadrantsOk(b, q0)
        && |q| == |q0|
    requires forall d: nat {:trigger PairOf(ss, d)} :: d < 256 ==> flags[PairOf(ss, d)]
    requires PairOf(ss as nat + 1, 0) <= PAIRS
        && Ranked(a, q, F[PairOf(ss, 0)], F[PairOf(ss as nat + 1, 0)] as int - F[PairOf(ss, 0)], 0, shifts)
    requires forall p: nat {:trigger q[p]} :: p < |b| && b[p] != ss ==> q[p] == q0[p]
    ensures QuadrantsOk(b, q)
  {
    hide Before, Ranked, BucketSorted;
    ProgressParts(b, a, F, flags, done);
    forall p: nat, r: nat | p < |b| && r < |b| && b[p] == b[r] && q[p] < q[r] ensures !Before(b, r, p) {
      if b[p] == ss {
        BigInOrder(b, a, F, flags, done, ss, q, shifts, p, r);
      } else {
        assert q0[p] < q0[r];
      }
    }
  }

  lemma BigInOrder(b: seq<byte>, a: seq<nat>, F: seq<nat>, flags: seq<bool>, done: seq<bool>, ss: byte, q: seq<nat>,
      shifts: nat, p: nat, r: nat)
    requires Progress(b, a, F, flags, done) && |flags| == PAIRS + 1 && |F| == PAIRS + 1 && |q| >= |b|
    requires forall d: nat {:trigger PairOf(ss, d)} :: d < 256 ==> flags[PairOf(ss, d)]
    requires PairOf(ss as nat + 1, 0) <= PAIRS
        && Ranked(a, q, F[PairOf(ss, 0)], F[PairOf(ss as nat + 1, 0)] as int - F[PairOf(ss, 0)], 0, shifts)
    requires p < |b| && r < |b| && b[p] == b[r] == ss && q[p] < q[r]
    ensures !Before(b, r, p)
  {
    hide Before, BucketSorted, Ranks, Pair, Starts, Distinct;
    ProgressParts(b, a, F, flags, done);
    BucketedShape(b, a, F);
    var first := F[PairOf(ss, 0)];
    var x, y := BigPlace(b, a, F, ss, p), BigPlace(b, a, F, ss, r);
    assert q[a[x]] == Shr(x - first, shifts) && q[a[y]] == Shr(y - first, shifts);
    ShrOrder(y - first, x - first, shifts);
    forall j: nat | PairOf(ss, 0) <= j < PairOf(ss as nat + 1, 0) ensures BucketSorted(b, a, F, j) {
      assert j == PairOf(ss, j - PairOf(ss, 0));
      assert flags[PairOf(ss, j - PairOf(ss, 0))];
    }
    BucketsSorted(b, a, F, PairOf(ss, 0), PairOf(ss as nat + 1, 0), x, y);
    RankOrder(b, r, p);
  }

  lemma ShrOrder(x: nat, y: nat, k: nat)
    ensures Shr(x, k) > Shr(y, k) ==> x > y
  {
    if x <= y {
      ShrMonotone(x, y, k);
    }
  }

  ghost function BigPlace(b: seq<byte>, a: seq<nat>, F: seq<nat>, ss: byte, p: nat): (x: nat)
    requires Bucketed(b, a, F) && p < |b| && b[p] == ss
    ensures x < |a| == |b| && a[x] == p && |F| == PAIRS + 1 && PairOf(ss as nat + 1, 0) <= PAIRS
    ensures F[PairOf(ss, 0)] <= x < F[PairOf(ss as nat + 1, 0)]
  {
    PermutationOnto(a, |b|, p);
    var x: nat :| x < |b| && a[x] == p;
    BigEntries(b, a, F, ss, x);
    x
  }

  /** Step 3: the quadrants of the big bucket that is done, in the overshoot
      area too. */
  method UpdateQuadrants(ptr: array<nat>, quadrant: array<nat>, ftab: array<nat>, nblock: nat, ss: byte,
                         ghost b: seq<byte>, ghost F: seq<nat>, ghost flags: seq<bool>, ghost done: seq<bool>)
    requires ptr != quadrant && ftab != quadrant && ftab.Length == PAIRS + 1 && nblock == |b| <= ptr.Length <= 900000
    requires Progress(b, ptr[..nblock], F, flags, done) && Marks(ftab[..], F, flags) && |flags| == PAIRS + 1
    requires forall d: nat {:trigger PairOf(ss, d)} :: d < 256 ==> flags[PairOf(ss, d)]
    requires Extended(quadrant[..], nblock) && QuadrantsOk(b, quadrant[..])
    modifies quadrant
    ensures Extended(quadrant[..], nblock) && QuadrantsOk(b, quadrant[..])
    ensures |F| == PAIRS + 1 && (BigSize(F, ss) <= GRADES ==> Apart(b, quadrant[..], ss))
    ensures forall p: nat {:trigger quadrant[p]} :: p < nblock && b[p] != ss ==> quadrant[p] == old(quadrant[p])
  {
    hide Progress, Marks, QuadrantsOk, Extended, Shr, Apart;
    ghost var a, q0 := ptr[..nblock], quadrant[..];
    ProgressParts(b, a, F, flags, done);
    var first, last := BigBucket(ftab, ss, F, flags);
    var bbStart, bbSize := first, last - first + 1;
    var shifts: nat := 0;
    BigBounds(F, nblock, ss);
    ExtendedSize(q0, nblock);
    ShrNone(bbSize as nat);
    while Shr(bbSize as nat, shifts) > 65534
      invariant Shr(bbSize as nat, shifts) <= 900000 && 0 <= bbSize <= nblock && (bbSize <= GRADES ==> shifts == 0)
      decreases Shr(bbSize as nat, shifts)
      modifies {}
    {
      ShrOnce(bbSize as nat, shifts);
      shifts := shifts + 1;
    }
    var j := bbSize - 1;
    assert quadrant[..] == q0;
    while j >= 0
      invariant -1 <= j <= bbSize - 1 && Extended(quadrant[..], nblock)
      invariant Ranked(a, quadrant[..], bbStart, bbSize, j + 1, shifts)
      invariant forall p: nat {:trigger quadrant[p]} :: p < nblock && b[p] != ss ==> quadrant[p] == q0[p]
      modifies quadrant
    {
      BigEntries(b, a, F, ss, bbStart + j);
      assert a[bbStart + j] == ptr[bbStart + j];
      var a2update := ptr[bbStart + j];
      ShrMonotone(j, bbSize, shifts);
      assert Shr(j as nat, shifts) <= 65535;
      var qVal := Shr(j as nat, shifts) % 65536;
      ghost var q := quadrant[..];
      QuadrantStep(b, a, F, q, bbStart, bbSize, j, shifts, nblock, a2update, qVal);
      quadrant[a2update] := qVal;
      if a2update < BZ_N_OVERSHOOT {
        quadrant[a2update + nblock] := qVal;
      }
      assert quadrant[..] == WithQuadrant(q, nblock, a2update, qVal);
      j := j - 1;
    }
    QuadrantsUpdated(b, a, F, flags, done, ss, q0, quadrant[..], shifts);
    if bbSize <= GRADES {
      RankedApart(b, a, F, ss, quadrant[..]);
    }
  }

  /** Main result: with no bits shifted out, earlier in the bucket means a
      smaller quadrant, for equal rotations too. */
  lemma RankedRises(a: seq<nat>, q: seq<nat>, first: int, size: int, x: int, y: int)
    requires Ranked(a, q, first, size, 0, 0) && first <= x < y < first + size
    ensures a[x] < |q| && a[y] < |q| && q[a[x]] < q[a[y]]
  {
    ShrNone(x - first);
    ShrNone(y - first);
  }

  lemma RankedApart(b: seq<byte>, a: seq<nat>, F: seq<nat>, ss: byte, q: seq<nat>)
    requires Bucketed(b, a, F) && |b| <= |q| && |F| == PAIRS + 1 && PairOf(ss as nat + 1, 0) <= PAIRS
    requires Ranked(a, q, F[PairOf(ss, 0)], F[PairOf(ss as nat + 1, 0)] as int - F[PairOf(ss, 0)], 0, 0)
    ensures Apart(b, q, ss)
  {
    hide Ranked, Bucketed;
    forall p: nat, r: nat | p < |b| && r < |b| && b[p] == b[r] == ss && p != r ensures q[p] != q[r] {
      var first := F[PairOf(ss, 0)];
      var x, y := BigPlace(b, a, F, ss, p), BigPlace(b, a, F, ss, r);
      var size := F[PairOf(ss as nat + 1, 0)] as int - first;
      RankedRises(a, q, first, size, if x < y then x else y, if x < y then y else x);
    }
  }

  function WithQuadrant(q: seq<nat>, n: nat, p: nat, v: nat): seq<nat>
    requires p < n && n + BZ_N_OVERSHOOT <= |q|
  {
    if p < BZ_N_OVERSHOOT then q[p := v][p + n := v] else q[p := v]
  }

  lemma QuadrantStep(b: seq<byte>, a: seq<nat>, F: seq<nat>, q: seq<nat>, first: int, size: int, j: int, shifts: nat,
      n: nat, p: nat, v: nat)
    requires Bucketed(b, a, F) && n == |b| && Extended(q, n) && Ranked(a, q, first, size, j + 1, shifts)
    requires 0 <= j < size && first + size <= n && p == a[first + j] && v == Shr(j, shifts)
    ensures p < n && n + BZ_N_OVERSHOOT <= |q| && Extended(WithQuadrant(q, n, p, v), n)
        && Ranked(a, WithQuadrant(q, n, p, v), first, size, j, shifts)
  {
    hide Shr, Pair, Starts;
    BucketedShape(b, a, F);
    var q' := WithQuadrant(q, n, p, v);
    forall x | first + j <= x < first + size ensures a[x] < |q'| && q'[a[x]] == Shr(x - first, shifts) {
      if x > first + j {
        assert a[first + j] != a[x];
      }
      assert a[x] < n;
    }
  }

  lemma BigBounds(F: seq<nat>, n: nat, ss: byte)
    requires Starts(F, n)
    ensures PairOf(ss as nat + 1, 0) <= PAIRS && F[PairOf(ss, 0)] <= F[PairOf(ss as nat + 1, 0)] <= n
  {
    SeedBounds(F, n, ss);
  }

  lemma ExtendedSize(q: seq<nat>, n: nat)
    requires Extended(q, n)
    ensures n > BZ_N_OVERSHOOT && n + BZ_N_OVERSHOOT <= |q|
  {
  }

  lemma ShrNone(x: nat)
    ensures Shr(x, 0) == x
  {
  }

  lemma {:induction false} ShrOnce(x: nat, k: nat)
    ensures Shr(x, k + 1) == Shr(x, k) / 2
    decreases k
  {
    if k > 0 {
      ShrOnce(x / 2, k - 1);
    } else {
      assert Shr(x / 2, 0) == x / 2;
    }
  }

  // ---------- mainSort ----------

  /** Everything the sort maintains between two big buckets: the first i of
      the running order are done. */
  ghost predicate Sorting(b: seq<byte>, a: seq<nat>, F: seq<nat>, flags: seq<bool>, done: seq<bool>, order: seq<nat>,
      i: nat) {
    && Progress(b, a, F, flags, done) && IsPermutation(order, 256) && i <= 256 && |done| == 256
    && (forall x: nat {:trigger order[x]} :: x < 256 ==> done[order[x]] == (x < i))
  }

  lemma SortingParts(b: seq<byte>, a: seq<nat>, F: seq<nat>, flags: seq<bool>, done: seq<bool>, order: seq<nat>, i: nat)
    requires Sorting(b, a, F, flags, done, order, i)
    ensures Progress(b, a, F, flags, done) && |order| == 256 && |done| == 256
    ensures i < 256 ==> order[i] < 256 && !done[order[i]]
  {
  }

  lemma SortingStart(b: seq<byte>, a: seq<nat>, F: seq<nat>, done: seq<bool>, order: seq<nat>)
    requires Bucketed(b, a, F) && IsPermutation(order, 256) && |done| == 256 && forall c :: 0 <= c < 256 ==> !done[c]
    ensures Sorting(b, a, F, seq(PAIRS + 1, _ => false), done, order, 0)
  {
    ProgressStart(b, a, F);
    assert done == seq(256, _ => false);
  }

  lemma SortingStep(b: seq<byte>, a: seq<nat>, F: seq<nat>, flags: seq<bool>, done: seq<bool>, order: seq<nat>, i: nat,
      a': seq<nat>, flags': seq<bool>)
    requires Sorting(b, a, F, flags, done, order, i) && i < 256 && |order| == 256 && |done| == 256 && order[i] < 256
    requires Progress(b, a', F, flags', done) && |flags'| == PAIRS + 1
    requires forall d: nat {:trigger PairOf(order[i], d)} :: d < 256 ==> flags'[PairOf(order[i], d)]
    ensures Sorting(b, a', F, flags', done[order[i] := true], order, i + 1)
  {
    hide BucketSorted, Bucketed;
    var done' := done[order[i] := true];
    forall x: nat | x < 256 ensures order[x] < 256 && done'[order[x]] == (x < i + 1) {
      if x != i {
        assert order[if x < i then x else i] != order[if x < i then i else x];
      }
    }
  }

  /** With every big bucket done the block is sorted. */
  lemma SortingEnd(b: seq<byte>, a: seq<nat>, F: seq<nat>, flags: seq<bool>, done: seq<bool>, order: seq<nat>)
    requires Sorting(b, a, F, flags, done, order, 256)
    ensures IsBlockSort(b, a)
  {
    hide BucketSorted, Bucketed, IsBlockSort;
    ProgressParts(b, a, F, flags, done);
    forall j: nat | j < PAIRS ensures BucketSorted(b, a, F, j) {
      var c, d := j / 256, j % 256;
      PermutationOnto(order, 256, c);
      var x: nat :| x < 256 && order[x] == c;
      assert done[c];
      assert j == PairOf(c, d);
      assert flags[PairOf(c, d)];
    }
    AllSorted(b, a, F);
  }

  /** One big bucket, in three steps. */
  method SortBig(ptr: array<nat>, block: array<byte>, quadrant: array<nat>, ftab: array<nat>, bigDone: array<bool>,
      runningOrder: array<nat>, nblock: nat, i: nat, budget_: int,
                 ghost b: seq<byte>, ghost F: seq<nat>, ghost flags_: seq<bool>)
      returns (budget: int, spent: bool, ghost flags: seq<bool>)
    requires ptr != quadrant && ptr != ftab && quadrant != ftab && ptr != runningOrder && quadrant != runningOrder
        && ftab != runningOrder
    requires ftab.Length == PAIRS + 1 && bigDone.Length == 256 && runningOrder.Length == 256 && i < 256
    requires nblock == |b| <= ptr.Length <= 900000 && Comparable(b, block[..], quadrant[..])
    requires Sorting(b, ptr[..nblock], F, flags_, bigDone[..], runningOrder[..], i) && Marks(ftab[..], F, flags_)
    modifies ptr, quadrant, ftab, bigDone
    ensures budget <= budget_ && (spent ==> budget < 0) && Marks(ftab[..], F, flags)
    ensures !spent ==>
        Sorting(b, ptr[..nblock], F, flags, bigDone[..], runningOrder[..], i + 1)
            && Comparable(b, block[..], quadrant[..])
    ensures Alone(b, F) ==> !spent && budget == budget_ && ptr[..nblock] == old(ptr[..nblock])
    ensures |F| == PAIRS + 1 && runningOrder[i] < 256
    ensures Twos(F) ==> budget >= budget_ - Fare(nblock, OffUpTo(F, runningOrder[i] as byte, 256))
    ensures !spent ==> bigDone[..] == old(bigDone[..])[runningOrder[i] := true]
    ensures !old(bigDone[..])[runningOrder[i]]
    ensures !spent && i < 255 && Graded(b, F, old(quadrant[..]), old(bigDone[..])) ==>
        Graded(b, F, quadrant[..], bigDone[..])
    ensures i == 255 ==> quadrant[..] == old(quadrant[..])
  {
    hide Sorting, Progress, Marks, Extended, QuadrantsOk, Alone, Twos, Fare, OffUpTo, Graded, Apart, BigSize;
    ComparableSizes(b, block[..], quadrant[..]);
    ghost var a0, done, order := ptr[..nblock], bigDone[..], runningOrder[..];
    SortingParts(b, a0, F, flags_, done, order, i);
    ProgressParts(b, a0, F, flags_, done);
    assert order[i] == runningOrder[i];
    var ss: byte := runningOrder[i];
    budget, spent, flags := SortSmall(ptr, block, quadrant, ftab, nblock, ss, budget_, b, F, flags_, done);
    if spent {
      return;
    }
    ProgressParts(b, ptr[..nblock], F, flags, done);
    assert !bigDone[ss];
    flags := Synthesise(ptr, block, ftab, bigDone, nblock, ss, b, F, flags);
    SortingStep(b, a0, F, flags_, done, order, i, ptr[..nblock], flags);
    if i < 255 {
      ghost var q0 := quadrant[..];
      UpdateQuadrants(ptr, quadrant, ftab, nblock, ss, b, F, flags, done);
      if Graded(b, F, q0, done) {
        GradedStep(b, F, q0, done, ss, quadrant[..]);
      }
    }
    bigDone[ss] := true;
    assert bigDone[..] == done[ss := true];
  }

  /** Main result: unless the budget was spent the rotations are sorted,
      periodic blocks included, and the block is as it was. The equal rotations
      of a uniform block come out in the order of their positions, and nothing
      is spent. */
  method MainSort(ptr: array<nat>, block: array<byte>, quadrant: array<nat>, ftab: array<nat>, nblock: nat,
      budget_: int) returns (budget: int)
    requires ptr != quadrant && ptr != ftab && quadrant != ftab && ftab.Length == PAIRS + 1
    requires BZ_N_OVERSHOOT < nblock <= ptr.Length <= 900000
    requires nblock + BZ_N_OVERSHOOT <= block.Length && nblock + BZ_N_OVERSHOOT <= quadrant.Length
    modifies ptr, block, quadrant, ftab
    ensures budget <= budget_ && block[..nblock] == old(block[..nblock])
    ensures budget >= 0 ==> IsBlockSort(block[..nblock], ptr[..nblock])
    ensures AreWords(ftab[..])
    ensures Uniform(block[..nblock]) ==> budget == budget_ && forall i :: 0 <= i < nblock ==> ptr[i] == i
    ensures FewChanges(block[..nblock]) ==>
              forall z: byte :: budget >= budget_ - Fare(nblock, nblock - PairCount(block[..nblock], z, z))
    ensures budget >= 0 ==> exists last: byte :: Told(block[..nblock], quadrant[..], last)
  {
    hide AreWords, Sorting, Marks, Bucketed, CountsTo, IsBlockSort, Extended, Keys, BucketStarts, Uniform, Alone, Twos,
        Fare, OffSum, OffUpTo, Graded, Told, PairCount, BigSize, FewChanges, SortedBy, Starts;
    ghost var b := block[..nblock];
    budget := budget_;
    CountPairs(ftab, block, quadrant, nblock, b);
    Overshoot(block, quadrant, nblock);
    KeysLength(b);
    RunningTotals(ftab, Keys(b));
    RadixPairs(ptr, ftab, block, nblock, b);
    ghost var F, a := BucketStarts(b), ptr[..nblock];
    StartsOk(b);
    MarksStart(F, nblock);
    ghost var flags := seq(PAIRS + 1, _ => false);
    BigFreqsAre(ftab[..], F, nblock);
    var runningOrder := RunningOrder(ftab, BigFreqs(F, nblock));
    var bigDone := new bool[256](_ => false);
    SortingStart(b, ptr[..nblock], F, bigDone[..], runningOrder[..]);
    assert Comparable(b, block[..], quadrant[..]) by { FreshQuadrants(b, block[..], quadrant[..]); }
    MostFull(F, nblock, runningOrder[..]);
    hide Comparable, Keyed;
    ghost var made, last := bigDone[..], runningOrder[255];
    GradedStart(b, F, quadrant[..], made);
    OffSumNone(F, bigDone[..], 256);
    for i := 0 to 256
      invariant budget <= budget_ && block[..nblock] == b && Comparable(b, block[..], quadrant[..])
      invariant Sorting(b, ptr[..nblock], F, flags, bigDone[..], runningOrder[..], i) && Marks(ftab[..], F, flags)
      invariant Alone(b, F) ==> budget == budget_ && ptr[..nblock] == a
      invariant Twos(F) ==> budget >= budget_ - Fare(nblock, OffSum(F, bigDone[..], 256))
      invariant |made| == 256 && Graded(b, F, quadrant[..], made) && last == runningOrder[255]
      invariant if i < 256 then made == bigDone[..] else made == bigDone[..][last := false]
      modifies ptr, quadrant, ftab, bigDone
    {
      ghost var done, before := bigDone[..], budget;
      var spent;
      budget, spent, flags := SortBig(ptr, block, quadrant, ftab, bigDone, runningOrder, nblock, i, budget, b, F,
          flags);
      if Twos(F) {
        FareKept(F, nblock, done, runningOrder[i] as byte, budget_, before, budget);
      }
      if spent {
        MarksWords(ftab[..], F, flags);
        if FewChanges(b) {
          FewTwos(b);
          FareBound(b, done[runningOrder[i] := true], budget_, budget);
        }
        return;
      }
      if i < 255 {
        made := bigDone[..];
      }
    }
    if FewChanges(b) {
      FewTwos(b);
      FareBound(b, bigDone[..], budget_, budget);
    }
    AllDone(b, ptr[..nblock], F, flags, bigDone[..], runningOrder[..]);
    GradedEnd(b, quadrant[..], made, last as byte);
    MarksWords(ftab[..], F, flags);
    SortingEnd(b, ptr[..nblock], F, flags, bigDone[..], runningOrder[..]);
    assert Uniform(b) ==> forall i :: 0 <= i < nblock ==> ptr[i] == a[i];
  }

  lemma AllDone(b: seq<byte>, a: seq<nat>, F: seq<nat>, flags: seq<bool>, done: seq<bool>, order: seq<nat>)
    requires Sorting(b, a, F, flags, done, order, 256)
    ensures |done| == 256 && forall c: nat :: c < 256 ==> done[c]
  {
    hide Progress;
    forall c: nat | c < 256 ensures done[c] {
      PermutationOnto(order, 256, c);
    }
  }

  /** The last big bucket is the fullest. */
  lemma MostFull(F: seq<nat>, n: nat, order: seq<nat>)
    requires Starts(F, n) && |F| == PAIRS + 1 && IsPermutation(order, 256)
    requires Keyed(order, BigFreqs(F, n), 0, 255) && SortedBy(order, BigFreqs(F, n), 0, 255)
    ensures order[255] < 256 && forall c: byte :: BigSize(F, c) <= BigSize(F, order[255] as byte)
  {
    hide Starts;
    forall c: byte ensures BigSize(F, c) <= BigSize(F, order[255] as byte) {
      PermutationOnto(order, 256, c);
      var x: nat :| x < 256 && order[x] == c as nat;
      assert BigFreqs(F, n)[order[x]] <= BigFreqs(F, n)[order[255]];
    }
  }

  lemma BigFreqsAre(tab: seq<nat>, F: seq<nat>, n: nat)
    requires Starts(F, n) && tab == F
    ensures |BigFreqs(F, n)| == 256
    ensures forall c: nat {:trigger BigFreqs(F, n)[c]} ::
        c < 256 ==> BigFreqs(F, n)[c] == tab[(c + 1) * 256] as int - tab[c * 256] as int
  {
  }

  lemma FreshQuadrants(b: seq<byte>, block: seq<byte>, quadrant: seq<nat>)
    requires Extended(block, |b|) && block[..|b|] == b && Extended(quadrant, |b|)
    requires forall x :: 0 <= x < |b| ==> quadrant[x] == 0
    ensures Comparable(b, block, quadrant)
  {
    hide Before;
  }
}
