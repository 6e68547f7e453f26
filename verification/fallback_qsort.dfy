/** The quicksort of the fallback block sort: 3-way partitioning with random
    pivots and an explicit stack. */
module FallbackQSort {
  import opened Words
  import opened Permuting

  // ---------- fallbackSimpleSort ----------

  /** Entries i + 1 to j - 1 have moved down by one, and are smaller. */
  ghost predicate MovedDown(a: seq<nat>, b: seq<nat>, keys: seq<nat>, i: int, j: int, key: nat) {
    && 0 <= i < j <= |a| == |b|
    && forall x {:trigger b[x]} :: i <= x < j - 1 ==> b[x] == a[x + 1] && b[x] < |keys| && keys[b[x]] < key
  }

  lemma MovedDownFilled(a: seq<nat>, b: seq<nat>, keys: seq<nat>, i: int, j: int, key: nat, tmp: nat)
    requires MovedDown(a, b, keys, i, j, key)
    ensures MovedDown(a, b[j - 1 := tmp], keys, i, j, key)
  {
  }

  lemma MovedDownNext(a: seq<nat>, b: seq<nat>, keys: seq<nat>, i: int, j: int, key: nat)
    requires MovedDown(a, b, keys, i, j, key) && j < |a| && b[j] == a[j] < |keys| && keys[b[j]] < key
    ensures MovedDown(a, b[j - 1 := b[j]], keys, i, j + 1, key)
  {
  }

  /** tmp is out of the array a, and its place is free at j - step. */
  ghost predicate Shifting(a0: seq<nat>, a: seq<nat>, keys: seq<nat>, i: int, hi: int, step: int, j: int, tmp: nat) {
    && 0 <= i <= hi < |a| == |a0| && 1 <= step && i + step <= j <= hi + step && tmp < |keys|
    && Permuted(a0, a[j - step := tmp], i, hi)
    && (forall x {:trigger a[x]} :: i <= x <= hi ==> a[x] < |keys|)
    && (forall x {:trigger a[x]} :: j <= x <= hi ==> a[x] == a0[x])
    && (step == 1 ==> MovedDown(a0, a, keys, i, j, keys[tmp]))
  }

  lemma ShiftingStart(a: seq<nat>, keys: seq<nat>, i: int, hi: int, step: int)
    requires 0 <= i <= hi < |a| && 1 <= step && Keyed(a, keys, i, hi)
    ensures Shifting(a, a, keys, i, hi, step, i + step, a[i])
  {
    hide Permuted;
    assert a[i := a[i]] == a;
    PermutedSame(a, i, hi);
  }

  lemma ShiftingStep(a0: seq<nat>, a: seq<nat>, keys: seq<nat>, i: int, hi: int, step: int, j: int, tmp: nat)
    requires Shifting(a0, a, keys, i, hi, step, j, tmp) && j <= hi && keys[tmp] > keys[a[j]]
    ensures Shifting(a0, a[j - step := a[j]], keys, i, hi, step, j + step, tmp)
  {
    hide Permuted, MovedDown;
    var v := a[j - step := tmp];
    SwapPermutes(v, j - step, j, i, hi);
    PermutedThen(a0, v, Swapped(v, j - step, j), i, hi);
    assert a[j - step := a[j]][j := tmp] == Swapped(v, j - step, j);
    if step == 1 {
      MovedDownNext(a0, a, keys, i, j, keys[tmp]);
    }
  }

  lemma ShiftingEnd(a0: seq<nat>, a: seq<nat>, keys: seq<nat>, i: int, hi: int, step: int, j: int, tmp: nat)
    requires Shifting(a0, a, keys, i, hi, step, j, tmp) && (j <= hi ==> keys[tmp] <= keys[a[j]])
    requires Keyed(a0, keys, i, hi) && (step == 1 ==> SortedBy(a0, keys, i + 1, hi))
    ensures var b := a[j - step := tmp];
            Permuted(a0, b, i, hi) && Keyed(b, keys, i, hi) && (step == 1 ==> SortedBy(b, keys, i, hi))
  {
    hide Permuted, SortedBy, MovedDown;
    if step == 1 {
      MovedDownFilled(a0, a, keys, i, j, keys[tmp], tmp);
      JoinedSorted(a0, a[j - 1 := tmp], keys, i, hi, j - 1, tmp);
    }
  }

  /** Entry i is shifted towards hi in steps past every smaller entry. In
      steps of one it joins a sorted rest. */
  method ShiftIn(fmap: array<nat>, eclass: array<nat>, i: int, hi: int, step: int, ghost v: nat)
    requires fmap != eclass && 0 <= i <= hi < fmap.Length && step >= 1
    requires Keyed(fmap[..], eclass[..], i, hi)
    requires step == 1 ==> SortedBy(fmap[..], eclass[..], i + 1, hi)
    modifies fmap
    ensures Permuted(old(fmap[..]), fmap[..], i, hi) && Keyed(fmap[..], eclass[..], i, hi)
    ensures step == 1 ==> SortedBy(fmap[..], eclass[..], i, hi)
    ensures Level(old(fmap[..]), eclass[..], i, hi, v) ==> fmap[..] == old(fmap[..])
  {
    hide Permuted, SortedBy;
    ghost var a0, keys, a := fmap[..], eclass[..], fmap[..];
    var tmp := fmap[i];
    var ecTmp := eclass[tmp];
    var j := i + step;
    ShiftingStart(a0, keys, i, hi, step);
    while j <= hi && ecTmp > eclass[fmap[j]]
      invariant fmap[..] == a && Shifting(a0, a, keys, i, hi, step, j, tmp)
      invariant Level(a0, keys, i, hi, v) ==> a == a0 && j == i + step
      decreases hi - j
    {
      ShiftingStep(a0, a, keys, i, hi, step, j, tmp);
      fmap[j - step] := fmap[j];
      a := a[j - step := a[j]];
      j := j + step;
    }
    ShiftingEnd(a0, a, keys, i, hi, step, j, tmp);
    fmap[j - step] := tmp;
    assert fmap[..] == a[j - step := tmp];
  }

  lemma JoinedSorted(a: seq<nat>, b: seq<nat>, keys: seq<nat>, i: int, hi: int, j: int, tmp: nat)
    requires i <= j <= hi && Keyed(a, keys, i, hi) && Keyed(b, keys, i, hi) && SortedBy(a, keys, i + 1, hi)
    requires b[j] == tmp && (j < hi ==> keys[tmp] <= keys[a[j + 1]])
    requires MovedDown(a, b, keys, i, j + 1, keys[tmp])
    requires forall x {:trigger b[x]} :: j < x <= hi ==> b[x] == a[x]
    ensures SortedBy(b, keys, i, hi)
  {
  }

  method FallbackSimpleSort(fmap: array<nat>, eclass: array<nat>, lo: int, hi: int, ghost v: nat)
    requires fmap != eclass && hi < fmap.Length && Keyed(fmap[..], eclass[..], lo, hi)
    modifies fmap
    ensures Permuted(old(fmap[..]), fmap[..], lo, hi)
    ensures Keyed(fmap[..], eclass[..], lo, hi) && SortedBy(fmap[..], eclass[..], lo, hi)
    ensures Level(old(fmap[..]), eclass[..], lo, hi, v) ==> fmap[..] == old(fmap[..])
  {
    hide Permuted;
    ghost var a0, keys := fmap[..], eclass[..];
    PermutedSame(a0, lo, hi);
    if lo == hi {
      return;
    }
    if hi - lo > 3 {
      var i := hi - 4;
      while i >= lo
        invariant lo - 1 <= i <= hi - 4
        invariant Permuted(a0, fmap[..], lo, hi) && Keyed(fmap[..], keys, lo, hi)
        invariant Level(a0, keys, lo, hi, v) ==> fmap[..] == a0
      {
        ghost var a := fmap[..];
        ShiftIn(fmap, eclass, i, hi, 4, v);
        PermutedWiden(a, fmap[..], i, hi, lo, hi);
        PermutedThen(a0, a, fmap[..], lo, hi);
        StillKeyed(a0, fmap[..], keys, lo, hi, lo, hi);
        i := i - 1;
      }
    }
    var i := hi - 1;
    while i >= lo
      invariant i <= hi - 1 && (lo <= hi ==> lo - 1 <= i)
      invariant Permuted(a0, fmap[..], lo, hi) && Keyed(fmap[..], keys, lo, hi)
      invariant lo <= hi ==> Keyed(fmap[..], keys, i + 1, hi) && SortedBy(fmap[..], keys, i + 1, hi)
      invariant Level(a0, keys, lo, hi, v) ==> fmap[..] == a0
    {
      ghost var a := fmap[..];
      ShiftIn(fmap, eclass, i, hi, 1, v);
      PermutedWiden(a, fmap[..], i, hi, lo, hi);
      PermutedThen(a0, a, fmap[..], lo, hi);
      StillKeyed(a0, fmap[..], keys, lo, hi, lo, hi);
      i := i - 1;
    }
  }

  // ---------- partitioning ----------

  /** Equal entries are gathered at both ends, smaller and greater ones next
      to them; unLo to unHi are yet to be looked at. */
  ghost predicate Parting(a: seq<nat>, keys: seq<nat>, lo: int, ltLo: int, unLo: int, unHi: int, gtHi: int, hi: int,
      med: nat) {
    && Keyed(a, keys, lo, hi) && lo <= ltLo <= unLo <= unHi + 1 && unHi <= gtHi <= hi
    && (forall x {:trigger a[x]} :: lo <= x < ltLo ==> keys[a[x]] == med)
    && (forall x {:trigger a[x]} :: ltLo <= x < unLo ==> keys[a[x]] < med)
    && (forall x {:trigger a[x]} :: unHi < x <= gtHi ==> keys[a[x]] > med)
    && (forall x {:trigger a[x]} :: gtHi < x <= hi ==> keys[a[x]] == med)
  }

  lemma LowEqual(a: seq<nat>, keys: seq<nat>, lo: int, ltLo: int, unLo: int, unHi: int, gtHi: int, hi: int, med: nat)
    requires Parting(a, keys, lo, ltLo, unLo, unHi, gtHi, hi, med) && unLo <= unHi && keys[a[unLo]] == med
    ensures Parting(Swapped(a, unLo, ltLo), keys, lo, ltLo + 1, unLo + 1, unHi, gtHi, hi, med)
    ensures Permuted(a, Swapped(a, unLo, ltLo), lo, hi)
  {
    SwapPermutes(a, unLo, ltLo, lo, hi);
    StillKeyed(a, Swapped(a, unLo, ltLo), keys, lo, hi, lo, hi);
  }

  lemma LowSmaller(a: seq<nat>, keys: seq<nat>, lo: int, ltLo: int, unLo: int, unHi: int, gtHi: int, hi: int, med: nat)
    requires Parting(a, keys, lo, ltLo, unLo, unHi, gtHi, hi, med) && unLo <= unHi && keys[a[unLo]] < med
    ensures Parting(a, keys, lo, ltLo, unLo + 1, unHi, gtHi, hi, med)
  {
  }

  lemma HighGreater(a: seq<nat>, keys: seq<nat>, lo: int, ltLo: int, unLo: int, unHi: int, gtHi: int, hi: int, med: nat)
    requires Parting(a, keys, lo, ltLo, unLo, unHi, gtHi, hi, med) && unLo <= unHi && keys[a[unHi]] > med
    ensures Parting(a, keys, lo, ltLo, unLo, unHi - 1, gtHi, hi, med)
  {
  }

  lemma HighEqual(a: seq<nat>, keys: seq<nat>, lo: int, ltLo: int, unLo: int, unHi: int, gtHi: int, hi: int, med: nat)
    requires Parting(a, keys, lo, ltLo, unLo, unHi, gtHi, hi, med) && unLo <= unHi && keys[a[unHi]] == med
    ensures Parting(Swapped(a, unHi, gtHi), keys, lo, ltLo, unLo, unHi - 1, gtHi - 1, hi, med)
    ensures Permuted(a, Swapped(a, unHi, gtHi), lo, hi)
  {
    SwapPermutes(a, unHi, gtHi, lo, hi);
    StillKeyed(a, Swapped(a, unHi, gtHi), keys, lo, hi, lo, hi);
  }

  lemma Crossed(a: seq<nat>, keys: seq<nat>, lo: int, ltLo: int, unLo: int, unHi: int, gtHi: int, hi: int, med: nat)
    requires Parting(a, keys, lo, ltLo, unLo, unHi, gtHi, hi, med) && unLo <= unHi
    requires keys[a[unLo]] > med && keys[a[unHi]] < med
    ensures Parting(Swapped(a, unLo, unHi), keys, lo, ltLo, unLo + 1, unHi - 1, gtHi, hi, med)
    ensures Permuted(a, Swapped(a, unLo, unHi), lo, hi)
  {
    SwapPermutes(a, unLo, unHi, lo, hi);
    StillKeyed(a, Swapped(a, unLo, unHi), keys, lo, hi, lo, hi);
  }

  /** fswap. */
  method Swap(fmap: array<nat>, i: int, j: int)
    requires 0 <= i < fmap.Length && 0 <= j < fmap.Length
    modifies fmap
    ensures fmap[..] == Swapped(old(fmap[..]), i, j)
  {
    ghost var a := fmap[..];
    var tmp := fmap[i];
    fmap[i] := fmap[j];
    fmap[j] := tmp;
    assert fmap[..] == a[i := a[j]][j := a[i]];
  }

  method ScanLow(fmap: array<nat>, eclass: array<nat>, lo: int, ltLo0: int, unLo0: int, unHi: int, gtHi: int, hi: int,
      med: nat)
      returns (ltLo: int, unLo: int)
    requires fmap != eclass && Parting(fmap[..], eclass[..], lo, ltLo0, unLo0, unHi, gtHi, hi, med)
    modifies fmap
    ensures Parting(fmap[..], eclass[..], lo, ltLo, unLo, unHi, gtHi, hi, med) && unLo >= unLo0
    ensures Permuted(old(fmap[..]), fmap[..], lo, hi)
    ensures LowStopped(fmap[..], eclass[..], unLo, unHi, med)
    ensures Level(old(fmap[..]), eclass[..], lo, hi, med) && ltLo0 == unLo0 ==>
              fmap[..] == old(fmap[..]) && ltLo == unLo && unLo > unHi
  {
    hide Permuted, Parting, Level, Keyed, Swapped;
    ghost var a0, keys, a := fmap[..], eclass[..], fmap[..];
    ltLo, unLo := ltLo0, unLo0;
    PermutedSame(a0, lo, hi);
    while true
      invariant fmap[..] == a && Parting(a, keys, lo, ltLo, unLo, unHi, gtHi, hi, med) && unLo >= unLo0
      invariant Level(a0, keys, lo, hi, med) && ltLo0 == unLo0 ==> a == a0 && ltLo == unLo
      invariant Permuted(a0, a, lo, hi)
      decreases unHi - unLo
    {
      PartingBounds(a, keys, lo, ltLo, unLo, unHi, gtHi, hi, med);
      if unLo > unHi {
        break;
      }
      LevelAt(a0, keys, lo, hi, med, unLo);
      var n := eclass[fmap[unLo]] as int - med as int;
      if n == 0 {
        LowEqual(a, keys, lo, ltLo, unLo, unHi, gtHi, hi, med);
        PermutedThen(a0, a, Swapped(a, unLo, ltLo), lo, hi);
        Swap(fmap, unLo, ltLo);
        a := fmap[..];
        ltLo, unLo := ltLo + 1, unLo + 1;
        continue;
      }
      if n > 0 {
        break;
      }
      LowSmaller(a, keys, lo, ltLo, unLo, unHi, gtHi, hi, med);
      unLo := unLo + 1;
    }
  }

  lemma LevelAt(a: seq<nat>, keys: seq<nat>, lo: int, hi: int, v: nat, x: int)
    requires 0 <= lo <= x <= hi < |a|
    ensures Level(a, keys, lo, hi, v) ==> a[x] < |keys| && keys[a[x]] == v && Swapped(a, x, x) == a
  {
  }

  /** The low scan stopped at a greater entry. */
  ghost predicate LowStopped(a: seq<nat>, keys: seq<nat>, unLo: int, unHi: int, med: nat) {
    unLo <= unHi ==> 0 <= unLo < |a| && a[unLo] < |keys| && keys[a[unLo]] > med
  }

  lemma LowStaysStopped(a: seq<nat>, keys: seq<nat>, unLo: int, unHi: int, gtHi: int, med: nat)
    requires 0 <= unLo <= unHi <= gtHi < |a| && LowStopped(a, keys, unLo, unHi, med)
    ensures LowStopped(a, keys, unLo, unHi - 1, med) && LowStopped(Swapped(a, unHi, gtHi), keys, unLo, unHi - 1, med)
  {
  }

  method ScanHigh(fmap: array<nat>, eclass: array<nat>, lo: int, ltLo: int, unLo: int, unHi0: int, gtHi0: int, hi: int,
      med: nat)
      returns (unHi: int, gtHi: int)
    requires fmap != eclass && Parting(fmap[..], eclass[..], lo, ltLo, unLo, unHi0, gtHi0, hi, med)
    requires LowStopped(fmap[..], eclass[..], unLo, unHi0, med)
    modifies fmap
    ensures Parting(fmap[..], eclass[..], lo, ltLo, unLo, unHi, gtHi, hi, med) && unHi <= unHi0
    ensures Permuted(old(fmap[..]), fmap[..], lo, hi)
    ensures unLo <= unHi ==>
        LowStopped(fmap[..], eclass[..], unLo, unHi, med) && HighStopped(fmap[..], eclass[..], unHi, med)
    ensures unLo > unHi0 ==> fmap[..] == old(fmap[..]) && unHi == unHi0 && gtHi == gtHi0
  {
    hide Permuted, Parting, LowStopped, Keyed, Swapped;
    ghost var a0, keys, a := fmap[..], eclass[..], fmap[..];
    unHi, gtHi := unHi0, gtHi0;
    PermutedSame(a0, lo, hi);
    while true
      invariant fmap[..] == a && Parting(a, keys, lo, ltLo, unLo, unHi, gtHi, hi, med) && unHi <= unHi0
      invariant Permuted(a0, a, lo, hi) && LowStopped(a, keys, unLo, unHi, med)
      invariant unLo > unHi0 ==> a == a0 && unHi == unHi0 && gtHi == gtHi0
      decreases unHi - unLo
    {
      PartingBounds(a, keys, lo, ltLo, unLo, unHi, gtHi, hi, med);
      if unLo > unHi {
        break;
      }
      LowStaysStopped(a, keys, unLo, unHi, gtHi, med);
      var n := eclass[fmap[unHi]] as int - med as int;
      if n == 0 {
        HighEqual(a, keys, lo, ltLo, unLo, unHi, gtHi, hi, med);
        PermutedThen(a0, a, Swapped(a, unHi, gtHi), lo, hi);
        Swap(fmap, unHi, gtHi);
        a := fmap[..];
        unHi, gtHi := unHi - 1, gtHi - 1;
        continue;
      }
      if n < 0 {
        break;
      }
      HighGreater(a, keys, lo, ltLo, unLo, unHi, gtHi, hi, med);
      unHi := unHi - 1;
    }
  }

  ghost predicate HighStopped(a: seq<nat>, keys: seq<nat>, unHi: int, med: nat) {
    0 <= unHi < |a| && a[unHi] < |keys| && keys[a[unHi]] < med
  }

  /** One scan from each end, and the exchange of the two entries it stops at. */
  method ScanBoth(fmap: array<nat>, eclass: array<nat>, lo: int, ltLo0: int, unLo0: int, unHi0: int, gtHi0: int,
      hi: int, med: nat)
      returns (ltLo: int, unLo: int, unHi: int, gtHi: int, met: bool)
    requires fmap != eclass && Parting(fmap[..], eclass[..], lo, ltLo0, unLo0, unHi0, gtHi0, hi, med)
    modifies fmap
    ensures Parting(fmap[..], eclass[..], lo, ltLo, unLo, unHi, gtHi, hi, med)
    ensures Permuted(old(fmap[..]), fmap[..], lo, hi)
    ensures if met then unHi == unLo - 1 else unHi - unLo < unHi0 - unLo0 && unLo0 <= unHi0
    ensures Level(old(fmap[..]), eclass[..], lo, hi, med) && ltLo0 == unLo0 ==>
              fmap[..] == old(fmap[..]) && met && ltLo == unLo && gtHi == gtHi0 && unHi == unHi0
  {
    hide Permuted, Parting, Level;
    ghost var a0 := fmap[..];
    ltLo, unLo := ScanLow(fmap, eclass, lo, ltLo0, unLo0, unHi0, gtHi0, hi, med);
    ghost var a := fmap[..];
    unHi, gtHi := ScanHigh(fmap, eclass, lo, ltLo, unLo, unHi0, gtHi0, hi, med);
    PermutedThen(a0, a, fmap[..], lo, hi);
    PartingBounds(fmap[..], eclass[..], lo, ltLo, unLo, unHi, gtHi, hi, med);
    met := unLo > unHi;
    if !met {
      a := fmap[..];
      Crossed(a, eclass[..], lo, ltLo, unLo, unHi, gtHi, hi, med);
      Swap(fmap, unLo, unHi);
      PermutedThen(a0, a, fmap[..], lo, hi);
      unLo, unHi := unLo + 1, unHi - 1;
    }
  }

  /** The scans from both ends until they meet. */
  method Scan(fmap: array<nat>, eclass: array<nat>, lo: int, hi: int, med: nat)
      returns (ltLo: int, unLo: int, unHi: int, gtHi: int)
    requires fmap != eclass && lo <= hi && Keyed(fmap[..], eclass[..], lo, hi)
    modifies fmap
    ensures Parting(fmap[..], eclass[..], lo, ltLo, unLo, unHi, gtHi, hi, med) && unHi == unLo - 1
    ensures Permuted(old(fmap[..]), fmap[..], lo, hi)
    ensures Level(old(fmap[..]), eclass[..], lo, hi, med) ==> fmap[..] == old(fmap[..]) && gtHi < ltLo
  {
    hide Permuted, Parting, Level;
    ghost var a0 := fmap[..];
    unLo, ltLo, unHi, gtHi := lo, lo, hi, hi;
    PermutedSame(a0, lo, hi);
    PartingStart(a0, eclass[..], lo, hi, med);
    while true
      invariant Parting(fmap[..], eclass[..], lo, ltLo, unLo, unHi, gtHi, hi, med)
      invariant Permuted(a0, fmap[..], lo, hi)
      invariant Level(a0, eclass[..], lo, hi, med) ==> fmap[..] == a0 && ltLo == unLo == lo && gtHi == unHi == hi
      decreases unHi - unLo + 1
    {
      ghost var a := fmap[..];
      var met;
      ltLo, unLo, unHi, gtHi, met := ScanBoth(fmap, eclass, lo, ltLo, unLo, unHi, gtHi, hi, med);
      PermutedThen(a0, a, fmap[..], lo, hi);
      if met {
        break;
      }
    }
  }

  lemma PartingStart(a: seq<nat>, keys: seq<nat>, lo: int, hi: int, med: nat)
    requires lo <= hi && Keyed(a, keys, lo, hi)
    ensures Parting(a, keys, lo, lo, lo, hi, hi, hi, med)
  {
  }

  lemma PartingBounds(a: seq<nat>, keys: seq<nat>, lo: int, ltLo: int, unLo: int, unHi: int, gtHi: int, hi: int,
      med: nat)
    requires Parting(a, keys, lo, ltLo, unLo, unHi, gtHi, hi, med)
    ensures Keyed(a, keys, lo, hi) && lo <= ltLo <= unLo <= unHi + 1 && unHi <= gtHi <= hi < |a|
    ensures unLo <= unHi ==> 0 <= unLo && a[unLo] < |keys| && a[unHi] < |keys|
  {
  }

  // ---------- fvswap ----------

  /** The n entries at p and at q have changed places. */
  function Exchanged(a: seq<nat>, p: int, q: int, n: int): (b: seq<nat>)
    requires 0 <= n && 0 <= p && p + n <= q && q + n <= |a|
    ensures |b| == |a|
    ensures forall x {:trigger b[x]} :: 0 <= x < |a| ==>
              b[x] == a[if p <= x < p + n then x - p + q else if q <= x < q + n then x - q + p else x]
  {
    seq(|a|, x requires 0 <= x < |a| => a[if p <= x < p + n then x - p + q
        else if q <= x < q + n then x - q + p else x])
  }

  lemma ExchangedNext(a: seq<nat>, p: int, q: int, n: int)
    requires 0 <= n && 0 <= p && p + n < q && q + n < |a|
    ensures Exchanged(a, p, q, n + 1) == Swapped(Exchanged(a, p, q, n), p + n, q + n)
  {
  }

  method VSwap(fmap: array<nat>, zzp1: int, zzp2: int, zzn: int, ghost lo: int, ghost hi: int)
    requires 0 <= zzn && 0 <= lo <= zzp1 && zzp1 + zzn <= zzp2 && zzp2 + zzn <= hi + 1 <= fmap.Length
    modifies fmap
    ensures fmap[..] == Exchanged(old(fmap[..]), zzp1, zzp2, zzn) && Permuted(old(fmap[..]), fmap[..], lo, hi)
  {
    hide Permuted;
    ghost var a0, k := fmap[..], 0;
    var yyp1, yyp2, yyn := zzp1, zzp2, zzn;
    assert Exchanged(a0, zzp1, zzp2, 0) == a0;
    PermutedSame(a0, lo, hi);
    while yyn > 0
      invariant 0 <= k <= zzn && yyn == zzn - k && yyp1 == zzp1 + k && yyp2 == zzp2 + k
      invariant fmap[..] == Exchanged(a0, zzp1, zzp2, k) && Permuted(a0, fmap[..], lo, hi)
      decreases yyn
    {
      ghost var a := fmap[..];
      ExchangedNext(a0, zzp1, zzp2, k);
      SwapPermutes(a, yyp1, yyp2, lo, hi);
      Swap(fmap, yyp1, yyp2);
      PermutedThen(a0, a, fmap[..], lo, hi);
      yyp1, yyp2, yyn := yyp1 + 1, yyp2 + 1, yyn - 1;
      k := k + 1;
    }
  }

  /** Smaller entries up to n, greater ones from m, equal ones between. */
  ghost predicate Parted(a: seq<nat>, keys: seq<nat>, lo: int, n: int, m: int, hi: int, med: nat) {
    && Keyed(a, keys, lo, hi) && lo <= n + 1 <= m <= hi + 1
    && (forall x {:trigger a[x]} :: lo <= x <= n ==> keys[a[x]] < med)
    && (forall x {:trigger a[x]} :: n < x < m ==> keys[a[x]] == med)
    && (forall x {:trigger a[x]} :: m <= x <= hi ==> keys[a[x]] > med)
  }

  function Min(a: int, b: int): int {
    if a < b then a else b
  }

  /** After the equal entries at the low end have been exchanged. */
  ghost predicate LowGathered(a: seq<nat>, keys: seq<nat>, lo: int, n: int, unLo: int, gtHi: int, hi: int, med: nat) {
    && Keyed(a, keys, lo, hi) && lo <= n + 1 <= unLo <= gtHi + 1 <= hi + 1
    && (forall x {:trigger a[x]} :: lo <= x <= n ==> keys[a[x]] < med)
    && (forall x {:trigger a[x]} :: n < x < unLo ==> keys[a[x]] == med)
    && (forall x {:trigger a[x]} :: unLo <= x <= gtHi ==> keys[a[x]] > med)
    && (forall x {:trigger a[x]} :: gtHi < x <= hi ==> keys[a[x]] == med)
  }

  lemma GatherLow(a: seq<nat>, keys: seq<nat>, lo: int, ltLo: int, unLo: int, gtHi: int, hi: int, med: nat)
    requires Parting(a, keys, lo, ltLo, unLo, unLo - 1, gtHi, hi, med)
    ensures var n := Min(ltLo - lo, unLo - ltLo);
            0 <= n && lo + n <= unLo - n
                && LowGathered(Exchanged(a, lo, unLo - n, n), keys, lo, lo + unLo - ltLo - 1, unLo, gtHi, hi, med)
  {
  }

  lemma GatherHigh(a: seq<nat>, keys: seq<nat>, lo: int, n: int, unLo: int, gtHi: int, hi: int, med: nat)
    requires LowGathered(a, keys, lo, n, unLo, gtHi, hi, med)
    ensures var m := Min(hi - gtHi, gtHi - (unLo - 1));
            0 <= m && unLo + m <= hi - m + 1
                && Parted(Exchanged(a, unLo, hi - m + 1, m), keys, lo, n, hi - (gtHi - (unLo - 1)) + 1, hi, med)
  {
  }

  /** The equal entries are brought from both ends to the middle. */
  method Gather(fmap: array<nat>, lo: int, ltLo: int, unLo: int, unHi: int, gtHi: int, hi: int, ghost keys: seq<nat>,
      ghost med: nat)
      returns (n: int, m: int)
    requires Parting(fmap[..], keys, lo, ltLo, unLo, unHi, gtHi, hi, med) && unHi == unLo - 1
    modifies fmap
    ensures Permuted(old(fmap[..]), fmap[..], lo, hi) && Parted(fmap[..], keys, lo, n, m, hi, med)
  {
    hide Permuted, Parting, Parted, LowGathered;
    ghost var a := fmap[..];
    PartingBounds(a, keys, lo, ltLo, unLo, unHi, gtHi, hi, med);
    n := Min(ltLo - lo, unLo - ltLo);
    GatherLow(a, keys, lo, ltLo, unLo, gtHi, hi, med);
    VSwap(fmap, lo, unLo - n, n, lo, hi);
    ghost var a1 := fmap[..];
    m := Min(hi - gtHi, gtHi - unHi);
    GatherHigh(a1, keys, lo, lo + unLo - ltLo - 1, unLo, gtHi, hi, med);
    VSwap(fmap, unLo, hi - m + 1, m, lo, hi);
    PermutedThen(a, a1, fmap[..], lo, hi);
    n := lo + unLo - ltLo - 1;
    m := hi - (gtHi - unHi) + 1;
  }

  /** One partitioning: all equal, or parted into three. */
  method Partition(fmap: array<nat>, eclass: array<nat>, lo: int, hi: int, med: nat) returns (allEqual: bool, n: int,
      m: int)
    requires fmap != eclass && lo <= hi && Keyed(fmap[..], eclass[..], lo, hi)
    modifies fmap
    ensures Permuted(old(fmap[..]), fmap[..], lo, hi)
    ensures allEqual ==> Keyed(fmap[..], eclass[..], lo, hi) && SortedBy(fmap[..], eclass[..], lo, hi)
    ensures !allEqual ==> Parted(fmap[..], eclass[..], lo, n, m, hi, med)
    ensures Level(old(fmap[..]), eclass[..], lo, hi, med) ==> allEqual && fmap[..] == old(fmap[..])
  {
    hide Permuted, Parting, Parted, LowGathered, SortedBy, Level;
    ghost var a0, keys := fmap[..], eclass[..];
    var ltLo, unLo, unHi, gtHi := Scan(fmap, eclass, lo, hi, med);
    ghost var a := fmap[..];
    PartingBounds(a, keys, lo, ltLo, unLo, unHi, gtHi, hi, med);
    if gtHi < ltLo {
      AllEqual(a, keys, lo, ltLo, unLo, unHi, gtHi, hi, med);
      return true, lo, hi;
    }
    n, m := Gather(fmap, lo, ltLo, unLo, unHi, gtHi, hi, keys, med);
    PermutedThen(a0, a, fmap[..], lo, hi);
    allEqual := false;
  }

  lemma AllEqual(a: seq<nat>, keys: seq<nat>, lo: int, ltLo: int, unLo: int, unHi: int, gtHi: int, hi: int, med: nat)
    requires Parting(a, keys, lo, ltLo, unLo, unHi, gtHi, hi, med) && unHi == unLo - 1 && gtHi < ltLo
    ensures Keyed(a, keys, lo, hi) && SortedBy(a, keys, lo, hi)
  {
  }

  // ---------- the stack of ranges ----------

  datatype Span = Span(lo: int, hi: int)

  ghost predicate Within(stack: seq<Span>, lo0: int, hi0: int) {
    forall k {:trigger stack[k]} :: 0 <= k < |stack| ==>
      lo0 <= stack[k].lo <= stack[k].hi + 1 && stack[k].hi <= hi0
  }

  ghost predicate Disjoint(stack: seq<Span>) {
    forall k, l {:trigger stack[k], stack[l]} :: 0 <= k < l < |stack| ==>
      stack[k].hi < stack[l].lo || stack[l].hi < stack[k].lo
  }

  /** x and y are in the same range that is still to be sorted. */
  ghost predicate Joint(stack: seq<Span>, x: int, y: int) {
    exists k {:trigger stack[k]} :: 0 <= k < |stack| && stack[k].lo <= x && y <= stack[k].hi
  }

  /** Sorted, but for the ranges on the stack. */
  ghost predicate Sorting(a: seq<nat>, keys: seq<nat>, stack: seq<Span>, lo0: int, hi0: int) {
    && Keyed(a, keys, lo0, hi0) && Within(stack, lo0, hi0) && Disjoint(stack)
    && forall x, y {:trigger Joint(stack, x, y)} :: lo0 <= x < y <= hi0 ==>
         keys[a[x]] <= keys[a[y]] || Joint(stack, x, y)
  }

  /** The entries of a range are in order, or in ranges of the new stack. */
  ghost predicate Split(b: seq<nat>, keys: seq<nat>, stack: seq<Span>, lo: int, hi: int)
    requires Keyed(b, keys, lo, hi)
  {
    forall x, y {:trigger Joint(stack, x, y)} :: lo <= x < y <= hi ==> keys[b[x]] <= keys[b[y]] || Joint(stack, x, y)
  }

  /** Only the popped range can have held both x and y. */
  lemma PopJoint(stack: seq<Span>, top: Span, x: int, y: int)
    requires Joint(stack + [top], x, y) && !(top.lo <= x && y <= top.hi)
    ensures Joint(stack, x, y)
  {
    var k :| 0 <= k < |stack + [top]| && (stack + [top])[k].lo <= x && y <= (stack + [top])[k].hi;
    assert stack[k].lo <= x;
  }

  lemma OtherRange(stack: seq<Span>, top: Span, x: int, y: int, z: int)
    requires Disjoint(stack + [top]) && Joint(stack, x, y) && x <= z <= y
    ensures !(top.lo <= z <= top.hi)
  {
    var s := stack + [top];
    var k :| 0 <= k < |stack| && stack[k].lo <= x && y <= stack[k].hi;
    assert s[k] == stack[k] && s[|stack|] == top;
  }

  lemma MoreJoint(stack: seq<Span>, stack': seq<Span>, x: int, y: int)
    requires stack <= stack' && Joint(stack, x, y)
    ensures Joint(stack', x, y)
  {
    var k :| 0 <= k < |stack| && stack[k].lo <= x && y <= stack[k].hi;
    assert stack'[k] == stack[k];
  }

  /** Two entries of a, the second range popped: they are in order unless both
      were in it or share another range. */
  lemma OrderBefore(a: seq<nat>, keys: seq<nat>, stack: seq<Span>, top: Span, lo0: int, hi0: int, x: int, y: int)
    requires Sorting(a, keys, stack + [top], lo0, hi0) && lo0 <= x < y <= hi0 && !(top.lo <= x && y <= top.hi)
    ensures keys[a[x]] <= keys[a[y]] || Joint(stack, x, y)
  {
    if keys[a[x]] > keys[a[y]] {
      assert Joint(stack + [top], x, y);
      PopJoint(stack, top, x, y);
    }
  }

  /** Rearranging the popped range keeps the order across its ends. */
  lemma OrderAcross(a: seq<nat>, b: seq<nat>, keys: seq<nat>, stack: seq<Span>, top: Span, lo0: int, hi0: int, x: int,
      y: int)
    requires Sorting(a, keys, stack + [top], lo0, hi0) && 0 <= lo0 <= x < y <= hi0 && !(top.lo <= x && y <= top.hi)
    requires Permuted(a, b, top.lo, top.hi) && Keyed(b, keys, lo0, hi0) && lo0 <= top.lo && top.hi <= hi0
    ensures keys[b[x]] <= keys[b[y]] || Joint(stack, x, y)
  {
    hide Sorting, Joint;
    assert Disjoint(stack + [top]) && Keyed(a, keys, lo0, hi0) by { SortingParts(a, keys, stack + [top], lo0, hi0); }
    var x', y' := x, y;
    if top.lo <= x <= top.hi {
      x' := ComesFrom(a, b, top.lo, top.hi, x);
    }
    if top.lo <= y <= top.hi {
      y' := ComesFrom(a, b, top.lo, top.hi, y);
    }
    OrderBefore(a, keys, stack, top, lo0, hi0, x', y');
    if Joint(stack, x', y') {
      if x' != x {
        OtherRange(stack, top, x', y', x');
      }
      if y' != y {
        OtherRange(stack, top, x', y', y');
      }
    }
  }

  lemma SortingParts(a: seq<nat>, keys: seq<nat>, stack: seq<Span>, lo0: int, hi0: int)
    requires Sorting(a, keys, stack, lo0, hi0)
    ensures Disjoint(stack) && Keyed(a, keys, lo0, hi0) && Within(stack, lo0, hi0)
  {
  }

  /** The popped range is replaced by parts of it, pushed on the rest. */
  lemma RangeReplaced(a: seq<nat>, b: seq<nat>, keys: seq<nat>, stack: seq<Span>, top: Span, stack': seq<Span>,
      lo0: int, hi0: int)
    requires Sorting(a, keys, stack + [top], lo0, hi0) && Permuted(a, b, top.lo, top.hi)
        && Keyed(b, keys, top.lo, top.hi)
    requires lo0 <= top.lo && top.hi <= hi0 && Keyed(b, keys, lo0, hi0)
    requires stack <= stack' && Within(stack', lo0, hi0) && Disjoint(stack') && Split(b, keys, stack', top.lo, top.hi)
    ensures Sorting(b, keys, stack', lo0, hi0)
  {
    hide Joint, Permuted;
    forall x, y | lo0 <= x < y <= hi0 ensures keys[b[x]] <= keys[b[y]] || Joint(stack', x, y) {
      if !(top.lo <= x && y <= top.hi) {
        OrderAcross(a, b, keys, stack, top, lo0, hi0, x, y);
        if Joint(stack, x, y) {
          MoreJoint(stack, stack', x, y);
        }
      }
    }
  }

  /** A popped range that has been sorted. */
  lemma RangeSorted(a: seq<nat>, b: seq<nat>, keys: seq<nat>, stack: seq<Span>, top: Span, lo0: int, hi0: int)
    requires Sorting(a, keys, stack + [top], lo0, hi0) && Permuted(a, b, top.lo, top.hi)
    requires Keyed(b, keys, top.lo, top.hi) && SortedBy(b, keys, top.lo, top.hi)
    ensures Sorting(b, keys, stack, lo0, hi0)
  {
    hide Permuted, Joint;
    var s := stack + [top];
    assert s[|stack|] == top && forall k :: 0 <= k < |stack| ==> s[k] == stack[k];
    StillKeyed(a, b, keys, lo0, hi0, top.lo, top.hi);
    RangeReplaced(a, b, keys, stack, top, stack, lo0, hi0);
  }

  /** A popped range that has been parted. */
  lemma RangeParted(a: seq<nat>, b: seq<nat>, keys: seq<nat>, stack: seq<Span>, top: Span, n: int, m: int, med: nat,
                    first: Span, second: Span, lo0: int, hi0: int)
    requires Sorting(a, keys, stack + [top], lo0, hi0) && Permuted(a, b, top.lo, top.hi)
    requires Parted(b, keys, top.lo, n, m, top.hi, med)
    requires var l, r := Span(top.lo, n), Span(m, top.hi); (first == l && second == r) || (first == r && second == l)
    ensures Sorting(b, keys, stack + [first] + [second], lo0, hi0)
  {
    hide Permuted, Joint, Sorting;
    var s, t := stack + [top], stack + [first] + [second];
    SortingParts(a, keys, s, lo0, hi0);
    assert s[|stack|] == top && forall k :: 0 <= k < |stack| ==> s[k] == stack[k];
    assert t[|stack|] == first && t[|stack| + 1] == second && forall k :: 0 <= k < |stack| ==> t[k] == stack[k];
    PartsDisjoint(stack, top, n, m, first, second);
    StillKeyed(a, b, keys, lo0, hi0, top.lo, top.hi);
    forall x, y | top.lo <= x < y <= top.hi ensures keys[b[x]] <= keys[b[y]] || Joint(t, x, y) {
      if y <= n || m <= x {
        InPart(t, |stack|, x, y);
      }
    }
    RangeReplaced(a, b, keys, stack, top, t, lo0, hi0);
  }

  lemma InPart(t: seq<Span>, k: nat, x: int, y: int)
    requires k + 2 == |t|
    requires (t[k].lo <= x && y <= t[k].hi) || (t[k + 1].lo <= x && y <= t[k + 1].hi)
    ensures Joint(t, x, y)
  {
  }

  lemma PartsDisjoint(stack: seq<Span>, top: Span, n: int, m: int, first: Span, second: Span)
    requires Disjoint(stack + [top]) && top.lo <= n + 1 <= m <= top.hi + 1
    requires var l, r := Span(top.lo, n), Span(m, top.hi); (first == l && second == r) || (first == r && second == l)
    ensures Disjoint(stack + [first] + [second])
  {
    var s, t := stack + [top], stack + [first] + [second];
    forall k, l | 0 <= k < l < |t| ensures t[k].hi < t[l].lo || t[l].hi < t[k].lo {
      if k < |stack| {
        assert s[k] == t[k] && s[|stack|] == top;
        assert l < |stack| ==> s[l] == t[l];
      }
    }
  }

  // ---------- the depth of the stack ----------

  const FALLBACK_QSORT_SMALL_THRESH := 10
  const FALLBACK_QSORT_STACK_SIZE := 100

  function Size(s: Span): int {
    s.hi - s.lo + 1
  }

  /** Each range is at most half as long as the one below it could be. */
  ghost predicate Halving(stack: seq<Span>, total: int) {
    forall k {:trigger stack[k]} :: 0 <= k < |stack| ==> Size(stack[k]) * Pow2(k) <= total
  }

  /** A range long enough to be parted is near the bottom. */
  lemma PartedIsLow(stack: seq<Span>, total: int)
    requires |stack| > 0 && Halving(stack, total) && total <= 900000
    requires Size(stack[|stack| - 1]) > FALLBACK_QSORT_SMALL_THRESH
    ensures |stack| <= 17
  {
    var k := |stack| - 1;
    MulBoth(Size(stack[k]), 11, Pow2(k), Pow2(k));
    Pow2Values();
    if k >= 17 {
      Pow2Monotone(17, k);
    }
  }

  lemma MulBoth(a: int, b: nat, c: int, d: nat)
    requires a >= b && c >= d
    ensures a * c >= b * d
  {
    assert a * c == b * d + (a - b) * c + b * (c - d);
  }

  /** The larger part is pushed first. */
  lemma HalvingKept(stack: seq<Span>, top: Span, first: Span, second: Span, total: int)
    requires Halving(stack + [top], total)
    requires Size(second) <= Size(first) && 0 <= Size(second) && Size(first) + Size(second) <= Size(top)
    ensures Halving(stack + [first] + [second], total)
  {
    var s, t, n := stack + [top], stack + [first] + [second], |stack|;
    assert s[n] == top;
    MulBoth(Size(top), Size(first), Pow2(n), Pow2(n));
    MulBoth(Size(top), 2 * Size(second), Pow2(n), Pow2(n));
    assert Size(second) * Pow2(n + 1) == 2 * Size(second) * Pow2(n);
    forall k | 0 <= k < |t| ensures Size(t[k]) * Pow2(k) <= total {
      if k < n {
        assert s[k] == t[k];
      }
    }
  }

  lemma HalvingPopped(stack: seq<Span>, top: Span, total: int)
    requires Halving(stack + [top], total)
    ensures Halving(stack, total)
  {
    assert forall k :: 0 <= k < |stack| ==> (stack + [top])[k] == stack[k];
  }

  /** What is left to do: every range popped makes it less. */
  function Work(stack: seq<Span>): int {
    if |stack| == 0 then 0 else Work(stack[..|stack| - 1]) + 2 * Size(stack[|stack| - 1]) + 1
  }

  lemma WorkPush(stack: seq<Span>, top: Span)
    ensures Work(stack + [top]) == Work(stack) + 2 * Size(top) + 1
  {
    assert (stack + [top])[..|stack|] == stack;
  }

  lemma {:induction false} WorkPositive(stack: seq<Span>)
    requires forall k {:trigger stack[k]} :: 0 <= k < |stack| ==> stack[k].lo <= stack[k].hi + 1
    ensures Work(stack) >= 0
  {
    if |stack| > 0 {
      WorkPositive(stack[..|stack| - 1]);
    }
  }

  /** The pivot is among the equal entries, so both parts together are
      shorter. */
  lemma PartsShorter(a: seq<nat>, b: seq<nat>, keys: seq<nat>, lo: int, n: int, m: int, hi: int, pivot: int)
    requires 0 <= lo <= pivot <= hi < |a| && Keyed(a, keys, lo, hi) && Permuted(a, b, lo, hi)
    requires Parted(b, keys, lo, n, m, hi, keys[a[pivot]])
    ensures n + 1 < m
  {
    hide Permuted;
    PermutedBack(a, b, lo, hi);
    var x := ComesFrom(b, a, lo, hi, pivot);
  }

  /** The explicit stack, bottom first. */
  ghost predicate OnStack(stackLo: seq<int>, stackHi: seq<int>, sp: nat, stack: seq<Span>) {
    && |stackLo| == |stackHi| == FALLBACK_QSORT_STACK_SIZE && sp == |stack| <= FALLBACK_QSORT_STACK_SIZE
    && forall k {:trigger stack[k]} :: 0 <= k < sp ==> stackLo[k] == stack[k].lo && stackHi[k] == stack[k].hi
  }

  method Push(stackLo: array<int>, stackHi: array<int>, sp0: nat, lz: int, hz: int,
      ghost stack: seq<Span>) returns (sp: nat)
    requires stackLo != stackHi && OnStack(stackLo[..], stackHi[..], sp0, stack) && sp0 < FALLBACK_QSORT_STACK_SIZE
    modifies stackLo, stackHi
    ensures OnStack(stackLo[..], stackHi[..], sp, stack + [Span(lz, hz)])
  {
    stackLo[sp0] := lz;
    stackHi[sp0] := hz;
    sp := sp0 + 1;
  }

  /** One turn of the loop, for the range popped. */
  method SortTop(fmap: array<nat>, eclass: array<nat>, lo: int, hi: int, r0: nat, ghost stack: seq<Span>,
      ghost lo0: int, ghost hi0: int, ghost v: nat)
      returns (pushed: bool, first: Span, second: Span, r: nat)
    requires fmap != eclass && Sorting(fmap[..], eclass[..], stack + [Span(lo, hi)], lo0, hi0) && hi0 < fmap.Length
        && r0 < 32768
    modifies fmap
    ensures Permuted(old(fmap[..]), fmap[..], lo, hi) && r < 32768
    ensures Sorting(fmap[..], eclass[..], if pushed then stack + [first] + [second] else stack, lo0, hi0)
    ensures pushed ==> Size(Span(lo, hi)) > FALLBACK_QSORT_SMALL_THRESH
    ensures pushed ==> 0 <= Size(second) <= Size(first) && Size(first) + Size(second) < Size(Span(lo, hi))
    ensures Level(old(fmap[..]), eclass[..], lo, hi, v) ==> !pushed && fmap[..] == old(fmap[..])
  {
    hide Permuted, Sorting, Parted, SortedBy;
    ghost var a, keys, top := fmap[..], eclass[..], Span(lo, hi);
    TopKeyed(a, keys, stack, top, lo0, hi0);
    r, first, second := r0, Span(lo, hi), Span(lo, hi);
    if hi - lo < FALLBACK_QSORT_SMALL_THRESH {
      FallbackSimpleSort(fmap, eclass, lo, hi, v);
      RangeSorted(a, fmap[..], keys, stack, top, lo0, hi0);
      return false, first, second, r;
    }
    r := (r0 * 7621 + 1) % 32768;
    var r3 := r % 3;
    var pivot := if r3 == 0 then lo else if r3 == 1 then (lo + hi) / 2 else hi;
    var med := eclass[fmap[pivot]];
    var allEqual, n, m := Partition(fmap, eclass, lo, hi, med);
    if allEqual {
      RangeSorted(a, fmap[..], keys, stack, top, lo0, hi0);
      return false, first, second, r;
    }
    PartedBounds(fmap[..], keys, lo, n, m, hi, med);
    PartsShorter(a, fmap[..], keys, lo, n, m, hi, pivot);
    if n - lo > hi - m {
      first, second := Span(lo, n), Span(m, hi);
    } else {
      first, second := Span(m, hi), Span(lo, n);
    }
    RangeParted(a, fmap[..], keys, stack, top, n, m, med, first, second, lo0, hi0);
    pushed := true;
  }

  lemma TopKeyed(a: seq<nat>, keys: seq<nat>, stack: seq<Span>, top: Span, lo0: int, hi0: int)
    requires Sorting(a, keys, stack + [top], lo0, hi0)
    ensures Keyed(a, keys, top.lo, top.hi) && lo0 <= top.lo <= top.hi + 1 && top.hi <= hi0
  {
    assert (stack + [top])[|stack|] == top;
  }

  lemma PartedBounds(a: seq<nat>, keys: seq<nat>, lo: int, n: int, m: int, hi: int, med: nat)
    requires Parted(a, keys, lo, n, m, hi, med)
    ensures lo <= n + 1 <= m <= hi + 1
  {
  }

  lemma StackStart(a: seq<nat>, keys: seq<nat>, lo: int, hi: int)
    requires Keyed(a, keys, lo, hi)
    ensures Sorting(a, keys, [Span(lo, hi)], lo, hi) && Halving([Span(lo, hi)], hi - lo + 1)
  {
    var s := [Span(lo, hi)];
    forall x, y | lo <= x < y <= hi ensures Joint(s, x, y) {
      assert s[0].lo <= x;
    }
  }

  lemma StackEmpty(a: seq<nat>, keys: seq<nat>, lo: int, hi: int)
    requires Sorting(a, keys, [], lo, hi)
    ensures SortedBy(a, keys, lo, hi)
  {
    forall x, y | lo <= x < y <= hi ensures keys[a[x]] <= keys[a[y]] {
      assert !Joint([], x, y);
    }
  }

  lemma SortingWork(a: seq<nat>, keys: seq<nat>, stack: seq<Span>, lo: int, hi: int)
    requires Sorting(a, keys, stack, lo, hi)
    ensures Work(stack) >= 0
  {
    WorkPositive(stack);
  }

  /** Main result: the range is sorted by key, and the stack never reaches the
      check at 99 entries, whatever pivots are drawn. Entries that all have one
      key stay where they are. */
  method FallbackQSort3(fmap: array<nat>, eclass: array<nat>, loSt: int, hiSt: int, ghost v: nat)
    requires fmap != eclass && hiSt < fmap.Length && Keyed(fmap[..], eclass[..], loSt, hiSt) && hiSt - loSt < 900000
    modifies fmap
    ensures Permuted(old(fmap[..]), fmap[..], loSt, hiSt)
    ensures Keyed(fmap[..], eclass[..], loSt, hiSt) && SortedBy(fmap[..], eclass[..], loSt, hiSt)
    ensures Level(old(fmap[..]), eclass[..], loSt, hiSt, v) ==> fmap[..] == old(fmap[..])
  {
    hide Permuted, Sorting, Halving, Work, SortedBy, Level;
    ghost var a0, keys, total := fmap[..], eclass[..], hiSt - loSt + 1;
    var sp: nat := 0;
    var stackLo, stackHi := new int[FALLBACK_QSORT_STACK_SIZE], new int[FALLBACK_QSORT_STACK_SIZE];
    ghost var stack: seq<Span> := [];
    var r: nat := 0;
    sp := Push(stackLo, stackHi, sp, loSt, hiSt, stack);
    stack := stack + [Span(loSt, hiSt)];
    assert stack == [Span(loSt, hiSt)];
    PermutedSame(a0, loSt, hiSt);
    StackStart(a0, keys, loSt, hiSt);
    SortingWork(a0, keys, stack, loSt, hiSt);
    while sp > 0
      invariant OnStack(stackLo[..], stackHi[..], sp, stack) && sp <= 18 && r < 32768
      invariant Permuted(a0, fmap[..], loSt, hiSt)
      invariant Sorting(fmap[..], keys, stack, loSt, hiSt) && Halving(stack, total) && Work(stack) >= 0
      invariant Level(a0, keys, loSt, hiSt, v) ==> fmap[..] == a0 && (stack == [Span(loSt, hiSt)] || stack == [])
      decreases Work(stack)
    {
      assert sp < FALLBACK_QSORT_STACK_SIZE - 1;
      sp := sp - 1;
      var lo, hi := stackLo[sp], stackHi[sp];
      ghost var a, rest, top := fmap[..], stack[..sp], Span(lo, hi);
      assert stack == rest + [top];
      var pushed, first, second;
      TopKeyed(a, keys, rest, top, loSt, hiSt);
      pushed, first, second, r := SortTop(fmap, eclass, lo, hi, r, rest, loSt, hiSt, v);
      PermutedWiden(a, fmap[..], lo, hi, loSt, hiSt);
      PermutedThen(a0, a, fmap[..], loSt, hiSt);
      WorkPush(rest, top);
      if pushed {
        PartedIsLow(stack, total);
        HalvingKept(rest, top, first, second, total);
        sp := Push(stackLo, stackHi, sp, first.lo, first.hi, rest);
        sp := Push(stackLo, stackHi, sp, second.lo, second.hi, rest + [first]);
        WorkPush(rest, first);
        WorkPush(rest + [first], second);
        stack := rest + [first] + [second];
      } else {
        HalvingPopped(rest, top, total);
        stack := rest;
      }
      SortingWork(fmap[..], keys, stack, loSt, hiSt);
    }
    assert stack == [];
    SortingParts(fmap[..], keys, stack, loSt, hiSt);
    StackEmpty(fmap[..], keys, loSt, hiSt);
  }
}
