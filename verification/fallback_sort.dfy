/** The fallback block sort: prefix doubling, with a table of bits for the
    bucket headers. */
module FallbackSort {
  import opened Words
  import opened Counting
  import opened Cyclic
  import opened Permuting
  import opened BitTable
  import opened FallbackOrder
  import opened FallbackQSort
  import opened InverseBwt

  /** The bits at nblock and after it stop the scans. */
  ghost predicate Sentinels(bits: seq<bool>, n: nat) {
    n + 64 <= |bits| && bits[n] && !bits[n + 1]
  }

  // ---------- one round ----------

  /** eclass for the round at depth H. */
  method SetClasses(fmap: array<nat>, eclass: array<nat>, bhtab: array<nat>, nblock: nat, H: nat, ghost b: seq<byte>)
    requires fmap != eclass && bhtab != eclass && nblock == |b| <= fmap.Length && nblock <= eclass.Length
        && nblock <= 32 * bhtab.Length
    requires IsPermutation(fmap[..nblock], nblock) && H <= nblock
    modifies eclass
    ensures Classes(b, fmap[..nblock], Bits(bhtab[..]), H, eclass[..])
  {
    hide Bits;
    ghost var f, bits := fmap[..nblock], Bits(bhtab[..]);
    var j := 0;
    for i := 0 to nblock
      invariant i == 0 ==> j == 0
      invariant i > 0 ==> j == Start(bits, i - 1)
      invariant forall x {:trigger f[x]} :: 0 <= x < i ==> eclass[Back(nblock, f[x], H)] == Start(bits, x)
    {
      if IsSetBH(bhtab, i) {
        j := i;
      }
      assert f[i] == fmap[i];
      var k: int := fmap[i] - H;
      if k < 0 {
        k := k + nblock;
      }
      forall x | 0 <= x < i ensures Back(nblock, f[x], H) != k {
        assert f[x] != f[i];
      }
      eclass[k] := j;
    }
  }

  /** Sorting one bucket. */
  method SortBucket(fmap: array<nat>, eclass: array<nat>, nblock: nat, l: int, r: int)
    requires fmap != eclass && nblock <= 900000 && nblock <= fmap.Length && nblock <= eclass.Length
        && 0 <= l <= r < nblock
    requires forall i :: 0 <= i < nblock ==> fmap[i] < nblock
    modifies fmap
    ensures Permuted(old(fmap[..nblock]), fmap[..nblock], l, r)
    ensures Keyed(fmap[..nblock], eclass[..], l, r) && SortedBy(fmap[..nblock], eclass[..], l, r)
    ensures OneClass(eclass[..], nblock) ==> fmap[..nblock] == old(fmap[..nblock])
  {
    hide Permuted;
    ghost var a := fmap[..];
    FallbackQSort3(fmap, eclass, l, r, eclass[0]);
    ghost var a' := fmap[..];
    assert OneClass(eclass[..], nblock) ==> a' == a by {
      if OneClass(eclass[..], nblock) {
        assert Level(a, eclass[..], l, r, eclass[0]);
      }
    }
    PrefixPermuted(a, a', nblock, l, r);
    PrefixIsPermuted(a, a', nblock, l, r);
    assert a'[..nblock] == fmap[..nblock];
  }

  lemma PrefixIsPermuted(a: seq<nat>, b: seq<nat>, n: nat, lo: int, hi: int)
    requires n <= |a| && hi < n && Permuted(a, b, lo, hi) && multiset(a[..n]) == multiset(b[..n])
    ensures Permuted(a[..n], b[..n], lo, hi)
  {
  }

  /** A header bit wherever the class changes. */
  method MarkHeaders(fmap: array<nat>, eclass: array<nat>, bhtab: array<nat>, nblock: nat, l: int, r: int)
    requires bhtab != fmap && bhtab != eclass && AreWords(bhtab[..]) && 0 <= l <= r < nblock <= fmap.Length
        && nblock <= 32 * bhtab.Length
    requires Keyed(fmap[..nblock], eclass[..], l, r)
    modifies bhtab
    ensures AreWords(bhtab[..]) && Headers(Bits(old(bhtab[..])), Bits(bhtab[..]), fmap[..nblock], eclass[..], l, r)
  {
    hide AreWords, Bits;
    ghost var bits0, bits, f, keys := Bits(bhtab[..]), Bits(bhtab[..]), fmap[..nblock], eclass[..];
    var cc: int := -1;
    var i := l;
    while i <= r
      invariant l <= i <= r + 1 && AreWords(bhtab[..]) && Bits(bhtab[..]) == bits && |bits| == |bits0|
      invariant i == l ==> cc == -1
      invariant i > l ==> cc == keys[f[i - 1]]
      invariant forall x {:trigger bits[x]} :: 0 <= x < |bits| && !(l <= x < i) ==> bits[x] == bits0[x]
      invariant forall x {:trigger bits[x]} ::
          l <= x < i ==> (bits[x] <==> bits0[x] || x == l || keys[f[x - 1]] != keys[f[x]])
    {
      assert f[i] == fmap[i];
      var cc1: int := eclass[fmap[i]];
      if cc != cc1 {
        SetBH(bhtab, i);
        bits := bits[i := true];
        cc := cc1;
      }
      i := i + 1;
    }
  }

  /** Several groups of one. */
  lemma {:induction false} SinglesRefined(b: seq<byte>, f0: seq<nat>, bits0: seq<bool>, f: seq<nat>, bits: seq<bool>,
      h: nat, eclass: seq<nat>, r: int, m: int)
    requires Refined(b, f0, bits0, h) && Classes(b, f0, bits0, h, eclass)
    requires Refining(b, f0, bits0, f, bits, h, r) && r <= m < |b| <= |bits| && forall x :: r < x <= m ==> bits[x]
    ensures Refining(b, f0, bits0, f, bits, h, m)
    decreases m - r
  {
    hide Refined, Classes, Refining;
    if r < m {
      RefiningAtLeast(b, f0, bits0, f, bits, h, r);
      SingleRefined(b, f0, bits0, f, bits, h, eclass, r);
      SinglesRefined(b, f0, bits0, f, bits, h, eclass, r + 1, m);
    }
  }

  lemma RefiningAtLeast(b: seq<byte>, f0: seq<nat>, bits0: seq<bool>, f: seq<nat>, bits: seq<bool>, h: nat, r: int)
    requires Refining(b, f0, bits0, f, bits, h, r)
    ensures -1 <= r < |b| <= |bits| && |f| == |b| && forall i :: 0 <= i < |b| ==> f[i] < |b|
  {
  }

  /** Sorts the bucket from l to r by class and marks the new buckets. */
  method RefineBucket(fmap: array<nat>, eclass: array<nat>, bhtab: array<nat>, nblock: nat, l: int, r: int, H: nat,
                      ghost b: seq<byte>, ghost f0: seq<nat>, ghost bits0: seq<bool>)
    requires fmap != eclass && bhtab != fmap && bhtab != eclass && AreWords(bhtab[..])
    requires nblock == |b| <= 900000 && nblock <= fmap.Length && nblock <= eclass.Length && nblock <= 32 * bhtab.Length
    requires Refined(b, f0, bits0, H) && Classes(b, f0, bits0, H, eclass[..])
    requires Refining(b, f0, bits0, fmap[..nblock], Bits(bhtab[..]), H, l - 1) && IsGroup(Bits(bhtab[..]), l, r, nblock)
    modifies fmap, bhtab
    ensures AreWords(bhtab[..]) && Refining(b, f0, bits0, fmap[..nblock], Bits(bhtab[..]), H, r)
    ensures forall x :: r < x < 32 * bhtab.Length ==> Bits(bhtab[..])[x] == Bits(old(bhtab[..]))[x]
    ensures Uniform(b) ==> fmap[..nblock] == old(fmap[..nblock])
  {
    hide AreWords, Bits, Refined, Refining, Permuted, SortedBy, Classes, Uniform, OneClass;
    UniformClass(b, f0, bits0, H, eclass[..]);
    ghost var f, bits := fmap[..nblock], Bits(bhtab[..]);
    RefiningAtLeast(b, f0, bits0, f, bits, H, l - 1);
    assert forall i :: 0 <= i < nblock ==> fmap[i] == f[i];
    SortBucket(fmap, eclass, nblock, l, r);
    MarkHeaders(fmap, eclass, bhtab, nblock, l, r);
    GroupRefined(b, f0, bits0, f, bits, fmap[..nblock], Bits(bhtab[..]), H, eclass[..], l, r);
  }

  /** Main result for one round: from depth H to depth 2H. With nothing left
      to do every rotation is a bucket of its own. The exit on r >= nblock
      cannot be taken: the sentinel at nblock stops the scan before it. The
      rotations of a uniform block stay where they are. */
  method Round(fmap: array<nat>, eclass: array<nat>, bhtab: array<nat>, nblock: nat, H: nat,
      ghost b: seq<byte>) returns (nNotDone: nat)
    requires fmap != eclass && bhtab != fmap && bhtab != eclass && AreWords(bhtab[..])
    requires 0 < nblock == |b| <= 900000 && nblock <= fmap.Length && nblock <= eclass.Length && 0 < H <= nblock
    requires Refined(b, fmap[..nblock], Bits(bhtab[..]), H) && Sentinels(Bits(bhtab[..]), nblock)
    modifies fmap, eclass, bhtab
    ensures AreWords(bhtab[..]) && Refined(b, fmap[..nblock], Bits(bhtab[..]), 2 * H)
        && Sentinels(Bits(bhtab[..]), nblock)
    ensures nNotDone == 0 ==> forall i :: 0 <= i < nblock ==> Bits(bhtab[..])[i]
    ensures Uniform(b) ==> fmap[..nblock] == old(fmap[..nblock])
  {
    hide AreWords, Bits, Refined, Refining, Classes, Uniform;
    ghost var f0, bits0 := fmap[..nblock], Bits(bhtab[..]);
    RefinedShape(b, f0, bits0, H);
    FirstBit(b, f0, bits0, H);
    SetClasses(fmap, eclass, bhtab, nblock, H, b);
    RefiningStart(b, f0, bits0, H);
    nNotDone := 0;
    var r: int := -1;
    while true
      invariant AreWords(bhtab[..]) && Classes(b, f0, bits0, H, eclass[..])
      invariant -1 <= r < nblock && Refining(b, f0, bits0, fmap[..nblock], Bits(bhtab[..]), H, r)
      invariant Sentinels(Bits(bhtab[..]), nblock) && Bits(bhtab[..])[r + 1]
      invariant r == -1 || nNotDone > 0
      invariant Uniform(b) ==> fmap[..nblock] == f0
      decreases nblock - r
    {
      ghost var bits := Bits(bhtab[..]);
      var k := NextClear(bhtab, r + 1, nblock + 1);
      var l: int := k - 1;
      SinglesRefined(b, f0, bits0, fmap[..nblock], bits, H, eclass[..], r, if l >= nblock then nblock - 1 else l - 1);
      if l >= nblock {
        break;
      }
      k := NextSet(bhtab, k, nblock);
      r := k - 1;
      if r > l {
        nNotDone := nNotDone + (r - l + 1);
        RefineBucket(fmap, eclass, bhtab, nblock, l, r, H, b, f0, bits0);
      }
    }
    RefiningEnd(b, f0, bits0, fmap[..nblock], Bits(bhtab[..]), H);
  }

  lemma FirstBit(b: seq<byte>, f: seq<nat>, bits: seq<bool>, h: nat)
    requires Refined(b, f, bits, h) && |b| > 0
    ensures bits[0]
  {
  }

  // ---------- the first character ----------

  /** Where the radix sort puts position i: its bucket is filled from the end. */
  function Slot(b: seq<nat>, i: nat): int
    requires i < |b|
  {
    CountLess(b, b[i] as int + 1) - 1 - CountEq(b[..i], b[i])
  }

  lemma SlotInBucket(b: seq<nat>, i: nat)
    requires i < |b|
    ensures 0 <= CountLess(b, b[i]) <= Slot(b, i) < CountLess(b, b[i] as int + 1) <= |b|
  {
    hide CountEq;
    CountEqPrefix(b, b[i], i);
    CountLessNext(b, b[i]);
  }

  lemma SlotsDiffer(b: seq<nat>, i: nat, j: nat)
    requires i < j < |b|
    ensures Slot(b, i) != Slot(b, j)
  {
    hide CountEq, CountLess;
    SlotInBucket(b, i);
    SlotInBucket(b, j);
    if b[i] == b[j] {
      assert b[..j][i] == b[i] && b[..j][..i] == b[..i];
      CountEqPrefix(b[..j], b[i], i);
    } else if b[i] < b[j] {
      CountMonotone(b, b[i] as int + 1, b[j]);
    } else {
      CountMonotone(b, b[j] as int + 1, b[i]);
    }
  }

  ghost predicate RadixSorted(b: seq<byte>, f: seq<nat>) {
    |f| == |b| && forall i: nat {:trigger Slot(b, i)} :: i < |b| ==> 0 <= Slot(b, i) < |b| && f[Slot(b, i)] == i
  }

  ghost function Slots(b: seq<nat>): (s: seq<nat>)
    ensures |s| == |b| && forall i :: 0 <= i < |b| ==> s[i] == Slot(b, i)
    ensures IsPermutation(s, |b|)
  {
    hide Slot;
    forall i: nat | i < |b| ensures 0 <= Slot(b, i) < |b| { SlotInBucket(b, i); }
    var s: seq<nat> := seq(|b|, i requires 0 <= i < |b| => Slot(b, i));
    assert Distinct(s) by {
      forall i, j | 0 <= i < j < |s| ensures s[i] != s[j] { SlotsDiffer(b, i, j); }
    }
    s
  }

  /** Entry k and its bucket. */
  lemma EntryInBucket(b: seq<byte>, f: seq<nat>, k: nat)
    requires RadixSorted(b, f) && k < |b|
    ensures f[k] < |b| && Slot(b, f[k]) == k && CountLess(b, b[f[k]]) <= k < CountLess(b, b[f[k]] as int + 1)
  {
    hide Slot;
    PermutationOnto(Slots(b), |b|, k);
    var i: nat :| i < |b| && Slots(b)[i] == k;
    assert Slot(b, i) == k;
    SlotInBucket(b, i);
  }

  lemma RadixIsPermutation(b: seq<byte>, f: seq<nat>)
    requires RadixSorted(b, f)
    ensures IsPermutation(f, |b|)
  {
    hide RadixSorted, Slot;
    assert |f| == |b| by { RadixLength(b, f); }
    forall k | 0 <= k < |f| ensures f[k] < |b| {
      EntryInBucket(b, f, k);
    }
    forall k, l | 0 <= k < l < |f| ensures f[k] != f[l] {
      EntryInBucket(b, f, k);
      EntryInBucket(b, f, l);
    }
  }

  lemma RadixLength(b: seq<byte>, f: seq<nat>)
    requires RadixSorted(b, f)
    ensures |f| == |b|
  {
  }

  /** A bit at the start of the bucket of some character below m. */
  ghost predicate Marked(b: seq<byte>, k: nat, m: nat) {
    exists c: nat {:trigger CountLess(b, c)} :: c < m && CountLess(b, c) == k
  }

  /** Two neighbouring entries after the radix sort. */
  lemma RadixNeighbours(b: seq<byte>, f: seq<nat>, k: nat)
    requires RadixSorted(b, f) && 0 < k < |b|
    ensures f[k] < |b| && f[k - 1] < |b| && b[f[k - 1]] <= b[f[k]]
    ensures Marked(b, k, 256) <==> b[f[k - 1]] != b[f[k]]
  {
    hide RadixSorted, CountLess;
    RadixLength(b, f);
    EntryInBucket(b, f, k);
    EntryInBucket(b, f, k - 1);
    var c, d := b[f[k - 1]], b[f[k]];
    if d < c {
      CountMonotone(b, d as int + 1, c);
    }
    if c < d {
      CountMonotone(b, c as int + 1, d);
      assert CountLess(b, d) == k;
    }
    if Marked(b, k, 256) && c == d {
      var e: nat :| e < 256 && CountLess(b, e) == k;
      if e <= c {
        CountMonotone(b, e, c);
      } else {
        CountMonotone(b, c as int + 1, e);
      }
    }
  }

  /** Main result for the radix sort: it is the round of depth one. */
  lemma RadixRefined(b: seq<byte>, f: seq<nat>, bits: seq<bool>)
    requires RadixSorted(b, f) && 0 < |b| <= |bits|
    requires forall k {:trigger bits[k]} :: 0 <= k < |b| ==> (bits[k] <==> Marked(b, k, 256))
    ensures Refined(b, f, bits, 1)
  {
    hide RadixSorted, Marked, Lt, Eq;
    RadixIsPermutation(b, f);
    FirstMarked(b, f);
    forall i | 0 < i < |b| ensures !Lt(b, f[i], f[i - 1], 1) && (bits[i] <==> !Eq(b, f[i - 1], f[i], 1)) {
      RadixNeighbours(b, f, i);
      OneStep(b, f[i], f[i - 1]);
      OneStep(b, f[i - 1], f[i]);
    }
  }

  lemma FirstMarked(b: seq<byte>, f: seq<nat>)
    requires RadixSorted(b, f) && 0 < |b|
    ensures Marked(b, 0, 256)
  {
    CountLessNext(b, 0);
    assert CountLess(b, 0) == 0;
  }

  /** The character counts, a copy of them, and their running totals. */
  method CountChars(ftab: array<int>, ftabCopy: array<int>, block: array<byte>, nblock: nat, ghost b: seq<byte>)
    requires ftab.Length == 257 && ftabCopy.Length == 256 && ftab != ftabCopy
    requires nblock == |b| <= block.Length && block[..nblock] == b
    modifies ftab, ftabCopy
    ensures forall c :: 0 <= c < 256 ==> ftabCopy[c] == CountEq(b, c) && ftab[c] == CountLess(b, c + 1)
  {
    hide CountEq, CountLess;
    for i := 0 to 257
      invariant forall c :: 0 <= c < i ==> ftab[c] == 0
      modifies ftab
    {
      ftab[i] := 0;
    }
    CountNone(b);
    for i := 0 to nblock
      invariant ftab[256] == 0 && forall c :: 0 <= c < 256 ==> ftab[c] == CountEq(b[..i], c)
      modifies ftab
    {
      var j := block[i];
      assert j == b[i];
      forall c | 0 <= c < 256 ensures CountEq(b[..i + 1], c) == CountEq(b[..i], c) + (if b[i] == c then 1 else 0) {
        CountEqPush(b, i, c);
      }
      ftab[j] := ftab[j] + 1;
    }
    assert b[..nblock] == b;
    for i := 0 to 256
      invariant forall c :: 0 <= c < i ==> ftabCopy[c] == ftab[c]
      modifies ftabCopy
    {
      ftabCopy[i] := ftab[i];
    }
    CountLessNext(b, 0);
    for i := 1 to 257
      invariant forall c :: 0 <= c < i ==> c < 256 ==> ftab[c] == CountLess(b, c + 1)
      invariant forall c :: i <= c < 256 ==> ftab[c] == CountEq(b, c)
      modifies ftab
    {
      CountLessNext(b, i);
      ftab[i] := ftab[i] + ftab[i - 1];
    }
  }

  lemma CountNone(b: seq<byte>)
    ensures forall c :: 0 <= c < 256 ==> CountEq(b[..0], c) == 0
  {
    assert b[..0] == [];
  }

  /** The radix sort on the first character; ftab ends with the starts of the
      buckets. */
  method RadixSort(fmap: array<nat>, ftab: array<int>, block: array<byte>, nblock: nat, ghost b: seq<byte>)
    requires ftab.Length == 257 && nblock == |b| <= block.Length && block[..nblock] == b && nblock <= fmap.Length
    requires forall c :: 0 <= c < 256 ==> ftab[c] == CountLess(b, c + 1)
    modifies fmap, ftab
    ensures RadixSorted(b, fmap[..nblock]) && forall c :: 0 <= c < 256 ==> ftab[c] == CountLess(b, c)
  {
    hide CountEq, CountLess, Slot;
    CountNone(b);
    for i := 0 to nblock
      invariant forall c :: 0 <= c < 256 ==> ftab[c] == CountLess(b, c + 1) - CountEq(b[..i], c)
      invariant forall x: nat {:trigger Slot(b, x)} :: x < i ==> 0 <= Slot(b, x) < nblock && fmap[Slot(b, x)] == x
    {
      SlotInBucket(b, i);
      SlotIs(b, i);
      forall x: nat | x < i ensures Slot(b, x) != Slot(b, i) {
        SlotsDiffer(b, x, i);
      }
      forall c | 0 <= c < 256 ensures CountEq(b[..i + 1], c) == CountEq(b[..i], c) + (if b[i] == c then 1 else 0) {
        CountEqPush(b, i, c);
      }
      assert block[i] == b[i];
      var j := block[i];
      var k := ftab[j] - 1;
      ftab[j] := k;
      fmap[k] := i;
    }
    assert b[..nblock] == b;
    forall c | 0 <= c < 256 ensures ftab[c] == CountLess(b, c) {
      CountLessNext(b, c);
    }
  }

  lemma SlotIs(b: seq<nat>, i: nat)
    requires i < |b|
    ensures Slot(b, i) == CountLess(b, b[i] as int + 1) - 1 - CountEq(b[..i], b[i])
  {
  }

  /** The first header bits, and the sentinels after the block. */
  method FirstBits(bhtab: array<nat>, ftab: array<int>, nblock: nat, ghost b: seq<byte>)
    requires ftab.Length == 257 && nblock == |b| && nblock + 64 <= 32 * bhtab.Length && AreWords(bhtab[..])
    requires forall c :: 0 <= c < 256 ==> ftab[c] == CountLess(b, c)
    modifies bhtab
    ensures AreWords(bhtab[..]) && Sentinels(Bits(bhtab[..]), nblock)
    ensures forall k {:trigger Bits(bhtab[..])[k]} :: 0 <= k < nblock ==> (Bits(bhtab[..])[k] <==> Marked(b, k, 256))
  {
    hide AreWords, Bits, CountLess, Marked;
    ClearTable(bhtab, nblock);
    NoneMarked(b);
    for i := 0 to 256
      invariant AreWords(bhtab[..])
      invariant forall k {:trigger Bits(bhtab[..])[k]} :: 0 <= k < nblock ==> (Bits(bhtab[..])[k] <==> Marked(b, k, i))
    {
      MarkedNext(b, i);
      SetBH(bhtab, ftab[i]);
    }
    for i := 0 to 32
      invariant AreWords(bhtab[..]) && (i > 0 ==> Bits(bhtab[..])[nblock] && !Bits(bhtab[..])[nblock + 1])
      invariant forall k {:trigger Bits(bhtab[..])[k]} ::
          0 <= k < nblock ==> (Bits(bhtab[..])[k] <==> Marked(b, k, 256))
    {
      SetBH(bhtab, nblock + 2 * i);
      ClearBH(bhtab, nblock + 2 * i + 1);
    }
  }

  lemma NoneMarked(b: seq<byte>)
    ensures forall k: nat :: !Marked(b, k, 0)
  {
  }

  lemma MarkedNext(b: seq<byte>, m: nat)
    ensures forall k: nat {:trigger Marked(b, k, m + 1)} ::
        Marked(b, k, m + 1) <==> Marked(b, k, m) || CountLess(b, m) == k
    ensures CountLess(b, m) <= |b|
  {
  }

  /** All bits of the block are cleared. Words after these may hold anything. */
  method ClearTable(bhtab: array<nat>, nblock: nat)
    requires nblock + 64 <= 32 * bhtab.Length && AreWords(bhtab[..])
    modifies bhtab
    ensures AreWords(bhtab[..]) && forall k {:trigger Bits(bhtab[..])[k]} :: 0 <= k < nblock ==> !Bits(bhtab[..])[k]
  {
    hide HasBit;
    var nBhtab := 2 + nblock / 32;
    for i := 0 to nBhtab
      invariant AreWords(bhtab[..]) && forall x :: 0 <= x < i ==> bhtab[x] == 0
    {
      bhtab[i] := 0;
    }
    forall k | 0 <= k < nblock ensures !Bits(bhtab[..])[k] {
      ZeroBit(k % 32);
    }
  }

  /** The buckets are filled from their ends: the rotations of a uniform block
      are listed backwards. */
  lemma UniformRadix(b: seq<byte>, f: seq<nat>)
    requires Uniform(b) && RadixSorted(b, f)
    ensures |f| == |b| && forall i :: 0 <= i < |b| ==> f[i] == |b| - 1 - i
  {
    forall i | 0 <= i < |b| ensures f[i] == |b| - 1 - i {
      LevelSlot(b, |b| - 1 - i);
      assert f[Slot(b, |b| - 1 - i)] == |b| - 1 - i;
    }
  }

  lemma LevelSlot(b: seq<nat>, i: nat)
    requires i < |b| && forall x {:trigger b[x]} :: 0 <= x < |b| ==> b[x] == b[0]
    ensures Slot(b, i) == |b| - 1 - i
  {
    hide CountEq, CountLess;
    assert forall x {:trigger b[x]} :: 0 <= x < |b| ==> b[x] == b[i];
    CountAll(b, b[i]);
    CountAll(b[..i], b[i]);
    CountLessNext(b, b[i]);
    NoneLess(b, b[i]);
  }

  lemma {:induction false} CountAll(s: seq<nat>, c: nat)
    requires forall x {:trigger s[x]} :: 0 <= x < |s| ==> s[x] == c
    ensures CountEq(s, c) == |s|
  {
    if s != [] {
      CountAll(s[..|s| - 1], c);
    }
  }

  lemma {:induction false} NoneLess(s: seq<nat>, c: nat)
    requires forall x {:trigger s[x]} :: 0 <= x < |s| ==> s[x] == c
    ensures CountLess(s, c) == 0
  {
    if s != [] {
      NoneLess(s[..|s| - 1], c);
    }
  }

  // ---------- rebuilding the block ----------

  /** The first characters of the rotations in order. */
  ghost function FirstColumn(b: seq<byte>, f: seq<nat>): (l: seq<byte>)
    requires IsPermutation(f, |b|)
    ensures |l| == |b| && forall i :: 0 <= i < |b| ==> l[i] == b[f[i]]
  {
    seq(|b|, i requires 0 <= i < |b| => b[f[i]])
  }

  /** Rearranging a block keeps its character counts. */
  lemma SameCounts(b: seq<byte>, f: seq<nat>, c: nat)
    requires IsPermutation(f, |b|)
    ensures CountEq(FirstColumn(b, f), c) == CountEq(b, c)
  {
    var l := FirstColumn(b, f);
    var rows, places := RowsEq(l, c), RowsEq(b, c);
    ImageExact(f, rows);
    forall p | p in places ensures p in Image(f, rows) {
      PermutationOnto(f, |b|, p);
      var i: nat :| i < |b| && f[i] == p;
      assert l[i] == c;
    }
    assert Image(f, rows) == places;
  }

  lemma {:induction false} CountEqStops(l: seq<byte>, i: nat, c: nat)
    requires i <= |l| && forall x :: i <= x < |l| ==> l[x] != c
    ensures CountEq(l, c) == CountEq(l[..i], c)
  {
    if i < |l| {
      CountEqStops(l[..|l| - 1], i, c);
      assert l[..|l| - 1][..i] == l[..i];
    } else {
      assert l[..i] == l;
    }
  }

  lemma FirstsInOrder(b: seq<byte>, f: seq<nat>, i: nat, j: nat)
    requires IsBlockSort(b, f) && i <= j < |b|
    ensures b[f[i]] <= b[f[j]]
  {
    if i < j {
      assert !Before(b, f[j], f[i]);
    }
  }

  /** The characters still to be placed: none below the next, and some equal
      to it. */
  lemma NextFirst(b: seq<byte>, f: seq<nat>, i: nat)
    requires IsBlockSort(b, f) && i < |b|
    ensures var l := FirstColumn(b, f);
            && CountEq(l[..i], l[i]) < CountEq(l, l[i])
            && forall c: nat :: c < l[i] ==> CountEq(l[..i], c) == CountEq(l, c)
  {
    hide IsBlockSort, CountEq;
    BlockSortIsPermutation(b, f);
    var l := FirstColumn(b, f);
    CountEqPrefix(l, l[i], i);
    forall c: nat | c < l[i] ensures CountEq(l[..i], c) == CountEq(l, c) {
      forall x | i <= x < |l| ensures l[x] != c {
        FirstsInOrder(b, f, i, x);
      }
      CountEqStops(l, i, c);
    }
  }

  lemma BlockSortIsPermutation(b: seq<byte>, f: seq<nat>)
    requires IsBlockSort(b, f)
    ensures IsPermutation(f, |b|)
  {
  }

  /** The block is rebuilt from the sorted order and the character counts; j
      stays below 256. */
  method Rebuild(fmap: array<nat>, block: array<byte>, ftabCopy: array<int>, nblock: nat, ghost b: seq<byte>)
    requires ftabCopy.Length == 256 && nblock == |b| <= fmap.Length && nblock <= block.Length
    requires IsBlockSort(b, fmap[..nblock]) && forall c :: 0 <= c < 256 ==> ftabCopy[c] == CountEq(b, c)
    modifies block, ftabCopy
    ensures block[..nblock] == b
  {
    hide CountEq, IsBlockSort;
    ghost var f := fmap[..nblock];
    BlockSortIsPermutation(b, f);
    ghost var l := FirstColumn(b, f);
    var j := 0;
    StartCounts(b, f);
    for i := 0 to nblock
      invariant 0 <= j < 256 && (i < nblock ==> j <= l[i])
      invariant forall c :: 0 <= c < 256 ==> ftabCopy[c] == CountEq(l, c) - CountEq(l[..i], c)
      invariant forall x {:trigger f[x]} :: 0 <= x < i ==> block[f[x]] == l[x]
    {
      NextFirst(b, f, i);
      while ftabCopy[j] == 0
        invariant 0 <= j <= l[i]
        decreases 256 - j
      {
        j := j + 1;
      }
      assert f[i] == fmap[i];
      forall c | 0 <= c < 256 ensures CountEq(l[..i + 1], c) == CountEq(l[..i], c) + (if l[i] == c then 1 else 0) {
        CountEqPush(l, i, c);
      }
      if i + 1 < nblock {
        FirstsInOrder(b, f, i, i + 1);
      }
      ftabCopy[j] := ftabCopy[j] - 1;
      block[fmap[i]] := j;
    }
    forall p | 0 <= p < nblock ensures block[p] == b[p] {
      PermutationOnto(f, nblock, p);
    }
  }

  lemma StartCounts(b: seq<byte>, f: seq<nat>)
    requires IsPermutation(f, |b|)
    ensures forall c ::
        0 <= c < 256 ==> CountEq(FirstColumn(b, f), c) == CountEq(b, c) && CountEq(FirstColumn(b, f)[..0], c) == 0
  {
    hide CountEq;
    forall c | 0 <= c < 256 ensures CountEq(FirstColumn(b, f), c) == CountEq(b, c) {
      SameCounts(b, f, c);
    }
    CountNone(FirstColumn(b, f));
  }

  // ---------- the whole sort ----------

  /** eclass and the block share their memory: writing the first class is the
      end of the block, until it is rebuilt. */
  method Overwritten(block: array<byte>)
    modifies block
  {
  }

  /** Main result: the rotations are sorted, periodic blocks included, and the
      block is there again at the end. The equal rotations of a uniform block
      come out backwards. */
  method FallbackSort(fmap: array<nat>, eclass: array<nat>, bhtab: array<nat>, block: array<byte>, nblock: nat)
    requires fmap != eclass && bhtab != fmap && bhtab != eclass && AreWords(bhtab[..])
        && nblock + 64 <= 32 * bhtab.Length
    requires 0 < nblock <= 900000 && nblock <= fmap.Length && nblock <= eclass.Length && nblock <= block.Length
    modifies fmap, eclass, bhtab, block
    ensures IsBlockSort(old(block[..nblock]), fmap[..nblock]) && block[..nblock] == old(block[..nblock])
    ensures AreWords(bhtab[..])
    ensures Uniform(old(block[..nblock])) ==> forall i :: 0 <= i < nblock ==> fmap[i] == nblock - 1 - i
  {
    hide AreWords, Bits, Refined, CountEq, CountLess, RadixSorted, Marked, IsBlockSort, Uniform;
    ghost var b := block[..nblock];
    var ftab, ftabCopy := new int[257], new int[256];
    CountChars(ftab, ftabCopy, block, nblock, b);
    RadixSort(fmap, ftab, block, nblock, b);
    FirstBits(bhtab, ftab, nblock, b);
    ghost var f := fmap[..nblock];
    RadixRefined(b, f, Bits(bhtab[..]));
    Overwritten(block);
    var H := 1;
    while true
      invariant 1 <= H <= nblock && AreWords(bhtab[..])
      invariant Refined(b, fmap[..nblock], Bits(bhtab[..]), H) && Sentinels(Bits(bhtab[..]), nblock)
      invariant Uniform(b) ==> fmap[..nblock] == f
      decreases nblock - H
      modifies fmap, eclass, bhtab
    {
      var nNotDone := Round(fmap, eclass, bhtab, nblock, H, b);
      H := H * 2;
      if H > nblock || nNotDone == 0 {
        RefinedEnough(b, fmap[..nblock], Bits(bhtab[..]), H);
        break;
      }
    }
    Rebuild(fmap, block, ftabCopy, nblock, b);
    if Uniform(b) {
      UniformRadix(b, f);
      assert forall i :: 0 <= i < nblock ==> fmap[i] == f[i];
    }
  }
}
