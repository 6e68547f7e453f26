/** The quicksort of the main block sort: 3-way partitioning by the character
    at a depth, a Shell sort for what is short or deep, and comparisons that
    use the cached order of rotations. */
module MainQSort {
  import opened Words
  import opened Cyclic
  import opened Permuting
  import opened FallbackQSort
  import opened MainOrder

  /** The block with its overshoot, and quadrants that can be trusted. */
  ghost predicate Comparable(b: seq<byte>, block: seq<byte>, quadrant: seq<nat>) {
    && Extended(block, |b|) && block[..|b|] == b
    && Extended(quadrant, |b|) && QuadrantsOk(b, quadrant)
  }

  // ---------- mainGtU ----------

  /** Index i is c characters after position p. */
  ghost predicate Reached(n: nat, p: nat, i: nat, c: nat)
    requires p < n
  {
    i < 2 * n && Wrap(n, i) == Adv(n, p, c)
  }

  /** So far the two rotations agree. */
  ghost predicate AgreeSoFar(b: seq<byte>, p: nat, q: nat, i1: nat, i2: nat, c: nat) {
    p < |b| && q < |b| && Eq(b, p, q, c) && Reached(|b|, p, i1, c) && Reached(|b|, q, i2, c)
  }

  lemma AgreeStart(b: seq<byte>, i1: nat, i2: nat)
    requires i1 < 2 * |b| && i2 < 2 * |b|
    ensures AgreeSoFar(b, Wrap(|b|, i1), Wrap(|b|, i2), i1, i2, 0)
  {
  }

  /** The characters, and what they decide. */
  lemma Characters(b: seq<byte>, block: seq<byte>, p: nat, q: nat, i1: nat, i2: nat, c: nat)
    requires Extended(block, |b|) && block[..|b|] == b && AgreeSoFar(b, p, q, i1, i2, c)
    requires i1 < |b| + BZ_N_OVERSHOOT && i2 < |b| + BZ_N_OVERSHOOT
    ensures block[i1] > block[i2] ==> !Before(b, p, q)
    ensures block[i1] < block[i2] ==> !Before(b, q, p)
    ensures block[i1] == block[i2] ==> AgreeSoFar(b, p, q, i1 + 1, i2 + 1, c + 1)
  {
    hide Eq, Lt, Adv;
    ExtendedAt(block, |b|, i1);
    ExtendedAt(block, |b|, i2);
    var w1, w2 := Wrap(|b|, i1), Wrap(|b|, i2);
    assert block[i1] == b[w1] && block[i2] == b[w2];
    if b[w1] > b[w2] {
      EqEquivalence(b, p, q, p, c);
      SmallerLater(b, q, p, c);
    } else if b[w1] < b[w2] {
      SmallerLater(b, p, q, c);
    } else {
      ComposeLast(b, p, q, c);
      WrapNext(|b|, i1);
      WrapNext(|b|, i2);
      AdvNext(|b|, p, c);
      AdvNext(|b|, q, c);
    }
  }

  /** The quadrants, and what they decide once the characters agree. */
  lemma Quadrants(b: seq<byte>, block: seq<byte>, quadrant: seq<nat>, p: nat, q: nat, i1: nat, i2: nat, c: nat)
    requires Comparable(b, block, quadrant) && AgreeSoFar(b, p, q, i1, i2, c)
    requires i1 < |b| + BZ_N_OVERSHOOT && i2 < |b| + BZ_N_OVERSHOOT && block[i1] == block[i2]
    ensures quadrant[i1] > quadrant[i2] ==> !Before(b, p, q)
    ensures quadrant[i1] < quadrant[i2] ==> !Before(b, q, p)
  {
    hide Eq, Lt, Adv;
    ExtendedAt(block, |b|, i1);
    ExtendedAt(block, |b|, i2);
    ExtendedAt(quadrant, |b|, i1);
    ExtendedAt(quadrant, |b|, i2);
    var w1, w2 := Wrap(|b|, i1), Wrap(|b|, i2);
    assert block[i1] == b[w1] && block[i2] == b[w2];
    CompareLater(b, p, q, c);
    EqEquivalence(b, p, q, p, c);
    CompareLater(b, q, p, c);
  }

  /** An index past the end goes back by the length of the block. */
  lemma Around(b: seq<byte>, p: nat, q: nat, i1: nat, i2: nat, c: nat)
    requires AgreeSoFar(b, p, q, i1, i2, c)
    ensures AgreeSoFar(b, p, q, if i1 >= |b| then i1 - |b| else i1, if i2 >= |b| then i2 - |b| else i2, c)
  {
  }

  lemma AgreeAround(b: seq<byte>, p: nat, q: nat, i1: nat, i2: nat, c: nat)
    requires AgreeSoFar(b, p, q, i1, i2, c) && c >= |b|
    ensures !Before(b, p, q) && !Before(b, q, p)
  {
    hide Lt, Adv;
    EqShorter(b, p, q, c, |b|);
    Trichotomy(b, p, q, |b|);
    EqEquivalence(b, p, q, p, |b|);
    Trichotomy(b, q, p, |b|);
  }

  lemma {:induction false} EqShorter(b: seq<byte>, p: nat, q: nat, c: nat, k: nat)
    requires p < |b| && q < |b| && Eq(b, p, q, c) && k <= c
    ensures Eq(b, p, q, k)
    decreases k
  {
    if k > 0 {
      EqShorter(b, Next(|b|, p), Next(|b|, q), c - 1, k - 1);
    }
  }

  /** What one comparison takes from the budget at most: one for every eight
      characters after the first twelve. */
  function CompareCost(n: nat): nat {
    n / 8 + 2
  }

  /** Whether the rotation at i1 comes after the one at i2, either answer being
      good for equal ones. No index passes nblock + 33. Twelve characters are
      compared first, and then eight at a time with the quadrants. */
  method MainGtU(i1_: nat, i2_: nat, block: array<byte>, quadrant: array<nat>, nblock: nat, budget_: int,
      ghost b: seq<byte>)
      returns (gt: bool, budget: int)
    requires nblock == |b| && Comparable(b, block[..], quadrant[..])
    requires i1_ <= nblock + 14 && i2_ <= nblock + 14
    ensures budget_ - CompareCost(nblock) <= budget <= budget_
    ensures gt ==> !Before(b, Wrap(nblock, i1_), Wrap(nblock, i2_))
    ensures !gt ==> !Before(b, Wrap(nblock, i2_), Wrap(nblock, i1_))
  {
    hide Before, Comparable, AgreeSoFar, Wrap;
    ComparableSizes(b, block[..], quadrant[..]);
    var i1: nat, i2: nat := i1_, i2_;
    budget := budget_;
    ghost var p, q := Wrap(nblock, i1), Wrap(nblock, i2);
    AgreeStart(b, i1, i2);
    for x := 0 to 12
      invariant i1 == i1_ + x && i2 == i2_ + x && AgreeSoFar(b, p, q, i1, i2, x)
    {
      Characters(b, block[..], p, q, i1, i2, x);
      var c1, c2 := block[i1], block[i2];
      if c1 != c2 {
        return c1 > c2, budget;
      }
      i1, i2 := i1 + 1, i2 + 1;
    }
    var k: int := nblock + 8;
    ghost var c: nat := 12;
    while true
      invariant 0 <= k && c == 12 + (nblock + 8 - k) && budget <= budget_ && 8 * (budget_ - budget) == nblock + 8 - k
      invariant i1 <= nblock + 26 && i2 <= nblock + 26 && AgreeSoFar(b, p, q, i1, i2, c)
      decreases k
    {
      ghost var j1, j2 := i1, i2;
      for x := 0 to 8
        invariant i1 == j1 + x && i2 == j2 + x && AgreeSoFar(b, p, q, i1, i2, c + x)
      {
        assert i1 <= nblock + 33 && i2 <= nblock + 33;
        Characters(b, block[..], p, q, i1, i2, c + x);
        var c1, c2 := block[i1], block[i2];
        if c1 != c2 {
          return c1 > c2, budget;
        }
        Quadrants(b, block[..], quadrant[..], p, q, i1, i2, c + x);
        var s1, s2 := quadrant[i1], quadrant[i2];
        if s1 != s2 {
          return s1 > s2, budget;
        }
        i1, i2 := i1 + 1, i2 + 1;
      }
      c := c + 8;
      Around(b, p, q, i1, i2, c);
      if i1 >= nblock {
        i1 := i1 - nblock;
      }
      if i2 >= nblock {
        i2 := i2 - nblock;
      }
      k := k - 8;
      budget := budget - 1;
      if !(k >= 0) {
        break;
      }
    }
    AgreeAround(b, p, q, i1, i2, c);
    gt := false;
  }

  lemma ComparableSizes(b: seq<byte>, block: seq<byte>, quadrant: seq<nat>)
    requires Comparable(b, block, quadrant)
    ensures |b| > BZ_N_OVERSHOOT && |block| >= |b| + BZ_N_OVERSHOOT && |quadrant| >= |b| + BZ_N_OVERSHOOT
    ensures Extended(block, |b|) && block[..|b|] == b
  {
  }

  // ---------- mainSimpleSort ----------

  /** v is out of the array a, and its place is free at j. */
  ghost predicate Sinking(a0: seq<nat>, a: seq<nat>, keys: seq<nat>, lo: int, i: int, h: int, j: int, v: nat) {
    && 0 <= lo <= j <= i < |a| == |a0| && 1 <= h && v < |keys|
    && Permuted(a0, a[j := v], lo, i)
    && (forall x {:trigger a[x]} :: lo <= x <= i ==> a[x] < |keys|)
    && (h == 1 ==> SunkTo(a0, a, keys, lo, i, j, v))
  }

  /** Entries j + 1 to i have moved up by one, and are no smaller. */
  ghost predicate SunkTo(a0: seq<nat>, a: seq<nat>, keys: seq<nat>, lo: int, i: int, j: int, v: nat)
    requires 0 <= lo <= j <= i < |a| == |a0| && v < |keys| && forall x {:trigger a[x]} :: lo <= x <= i ==> a[x] < |keys|
  {
    && (forall x {:trigger a[x]} :: lo <= x < j ==> a[x] == a0[x])
    && (forall x {:trigger a[x]} :: j < x <= i ==> a[x] == a0[x - 1] && keys[v] <= keys[a[x]])
  }

  lemma SinkingStart(a: seq<nat>, keys: seq<nat>, lo: int, i: int, h: int)
    requires 0 <= lo <= i < |a| && 1 <= h && Keyed(a, keys, lo, i)
    ensures Sinking(a, a, keys, lo, i, h, i, a[i])
  {
    hide Permuted;
    assert a[i := a[i]] == a;
    PermutedSame(a, lo, i);
  }

  lemma SunkStep(a0: seq<nat>, a: seq<nat>, keys: seq<nat>, lo: int, i: int, j: int, v: nat)
    requires 0 <= lo < j <= i < |a| == |a0| && v < |keys| && forall x {:trigger a[x]} :: lo <= x <= i ==> a[x] < |keys|
    requires SunkTo(a0, a, keys, lo, i, j, v) && keys[v] <= keys[a[j - 1]]
    ensures SunkTo(a0, a[j := a[j - 1]], keys, lo, i, j - 1, v)
  {
    var c := a[j := a[j - 1]];
    forall x | j - 1 < x <= i ensures c[x] == a0[x - 1] && keys[v] <= keys[c[x]] {
      if x > j {
        assert c[x] == a[x];
      }
    }
  }

  lemma SinkingStep(a0: seq<nat>, a: seq<nat>, keys: seq<nat>, lo: int, i: int, h: int, j: int, v: nat)
    requires Sinking(a0, a, keys, lo, i, h, j, v) && lo + h <= j && keys[v] <= keys[a[j - h]]
    ensures Sinking(a0, a[j := a[j - h]], keys, lo, i, h, j - h, v)
  {
    hide Permuted, SunkTo;
    if h == 1 {
      SunkStep(a0, a, keys, lo, i, j, v);
    }
    SinkPermuted(a0, a, lo, i, j - h, j, v);
  }

  lemma SinkPermuted(a0: seq<nat>, a: seq<nat>, lo: int, i: int, j': int, j: int, v: nat)
    requires 0 <= lo <= j' < j <= i < |a| && Permuted(a0, a[j := v], lo, i)
    ensures Permuted(a0, a[j := a[j']][j' := v], lo, i)
  {
    hide Permuted;
    var w := a[j := v];
    SwapPermutes(w, j', j, lo, i);
    PermutedThen(a0, w, Swapped(w, j', j), lo, i);
    assert a[j := a[j']][j' := v] == Swapped(w, j', j);
  }

  lemma SinkingEnd(a0: seq<nat>, a: seq<nat>, keys: seq<nat>, lo: int, i: int, h: int, j: int, v: nat)
    requires Sinking(a0, a, keys, lo, i, h, j, v) && Keyed(a0, keys, lo, i)
    requires h == 1 && j > lo ==> keys[a[j - 1]] <= keys[v]
    ensures Permuted(a0, a[j := v], lo, i) && Keyed(a[j := v], keys, lo, i)
    ensures h == 1 && SortedBy(a0, keys, lo, i - 1) ==> SortedBy(a[j := v], keys, lo, i)
  {
    hide Permuted;
  }

  /** What a comparison at depth d says about whole rotations. */
  lemma ComparedAt(b: seq<byte>, u: nat, v: nat, d: nat)
    requires u < |b| && v < |b| && d <= 15 && |b| > BZ_N_OVERSHOOT && Eq(b, u, v, d)
    ensures !Before(b, Wrap(|b|, u + d), Wrap(|b|, v + d)) ==> Ranks(b)[v] <= Ranks(b)[u]
    ensures !Before(b, Wrap(|b|, v + d), Wrap(|b|, u + d)) ==> Ranks(b)[u] <= Ranks(b)[v]
  {
    hide Lt, Ranks;
    WrapAdv(|b|, u, d);
    WrapAdv(|b|, v, d);
    CompareLater(b, u, v, d);
    EqEquivalence(b, u, v, u, d);
    CompareLater(b, v, u, d);
    RankOrder(b, u, v);
    RankOrder(b, v, u);
  }

  lemma SinkingAgree(b: seq<byte>, a0: seq<nat>, a: seq<nat>, keys: seq<nat>, lo: int, i: int, h: int, j: int, v: nat,
      d: nat)
    requires Sinking(a0, a, keys, lo, i, h, j, v) && Agree(b, a0, lo, i, d) && lo + h <= j
    ensures a[j - h] < |b| && v < |b| && Eq(b, a[j - h], v, d)
  {
    hide Permuted, Eq;
    AgreePermuted(b, a0, a[j := v], lo, i, d);
    var c := a[j := v];
    assert c[j - h] == a[j - h] && c[j] == v;
  }

  /** Entry i sinks towards lo in steps of h. */
  method SinkIn(ptr: array<nat>, block: array<byte>, quadrant: array<nat>, nblock: nat, lo: int, i: int, h: int, d: nat,
      budget_: int, ghost b: seq<byte>)
      returns (budget: int)
    requires ptr != quadrant && nblock == |b| && Comparable(b, block[..], quadrant[..]) && d <= 15
    requires 0 <= lo && 1 <= h && lo + h <= i < ptr.Length && Agree(b, ptr[..], lo, i, d)
    modifies ptr
    ensures budget <= budget_ && Permuted(old(ptr[..]), ptr[..], lo, i)
    ensures i == lo + h ==> budget >= budget_ - CompareCost(nblock)
    ensures Keyed(ptr[..], Ranks(b), lo, i)
    ensures Keyed(old(ptr[..]), Ranks(b), lo, i - 1)
    ensures h == 1 && SortedBy(old(ptr[..]), Ranks(b), lo, i - 1) ==> SortedBy(ptr[..], Ranks(b), lo, i)
  {
    hide Permuted, SortedBy, Comparable, Sinking, Eq, Before, Ranks, Wrap;
    ghost var a0, keys, a := ptr[..], Ranks(b), ptr[..];
    budget := budget_;
    ComparableSizes(b, block[..], quadrant[..]);
    AgreeKeyed(b, a0, lo, i, d);
    var v := ptr[i];
    var j := i;
    SinkingStart(a0, keys, lo, i, h);
    while true
      invariant ptr[..] == a && Sinking(a0, a, keys, lo, i, h, j, v) && lo + h <= j <= i && budget <= budget_
      invariant i == lo + h ==> budget == budget_
      decreases j
      modifies ptr
    {
      SinkingAgree(b, a0, a, keys, lo, i, h, j, v, d);
      ComparedAt(b, a[j - h], v, d);
      var gt;
      gt, budget := MainGtU(ptr[j - h] + d, v + d, block, quadrant, nblock, budget, b);
      if !gt {
        break;
      }
      SinkingStep(a0, a, keys, lo, i, h, j, v);
      ptr[j] := ptr[j - h];
      a := a[j := a[j - h]];
      j := j - h;
      if j <= lo + h - 1 {
        SinkingBounds(a0, a, keys, lo, i, h, j, v);
        break;
      }
    }
    SinkingEnd(a0, a, keys, lo, i, h, j, v);
    ptr[j] := v;
    assert ptr[..] == a[j := v];
  }

  lemma SinkingBounds(a0: seq<nat>, a: seq<nat>, keys: seq<nat>, lo: int, i: int, h: int, j: int, v: nat)
    requires Sinking(a0, a, keys, lo, i, h, j, v)
    ensures lo <= j <= i < |a|
  {
  }

  /** One entry of a pass in steps of h. */
  method SinkNext(ptr: array<nat>, block: array<byte>, quadrant: array<nat>, nblock: nat, lo: int, hi: int, i: int,
      h: int, d: nat, budget_: int, ghost b: seq<byte>)
      returns (budget: int)
    requires ptr != quadrant && nblock == |b| && Comparable(b, block[..], quadrant[..]) && d <= 15
    requires 0 <= lo && 1 <= h && lo + h <= i <= hi < ptr.Length && Agree(b, ptr[..], lo, hi, d)
    requires h == 1 ==> Keyed(ptr[..], Ranks(b), lo, i - 1) && SortedBy(ptr[..], Ranks(b), lo, i - 1)
    modifies ptr
    ensures budget <= budget_ && Permuted(old(ptr[..]), ptr[..], lo, hi) && Agree(b, ptr[..], lo, hi, d)
    ensures h == 1 ==> Keyed(ptr[..], Ranks(b), lo, i) && SortedBy(ptr[..], Ranks(b), lo, i)
    ensures i == lo + h ==> budget >= budget_ - CompareCost(nblock)
  {
    hide Permuted, SortedBy, Comparable, Ranks, Agree, CompareCost;
    ghost var a0 := ptr[..];
    AgreePart(b, a0, lo, hi, d, lo, i);
    budget := SinkIn(ptr, block, quadrant, nblock, lo, i, h, d, budget_, b);
    PermutedWiden(a0, ptr[..], lo, i, lo, hi);
    AgreePermuted(b, a0, ptr[..], lo, hi, d);
  }

  /** One pass over the range in steps of h, given up when the budget is
      spent. */
  method ShellPass(ptr: array<nat>, block: array<byte>, quadrant: array<nat>, nblock: nat, lo: int, hi: int, h: int,
      d: nat, budget_: int, ghost b: seq<byte>)
      returns (budget: int, spent: bool)
    requires ptr != quadrant && nblock == |b| && Comparable(b, block[..], quadrant[..]) && d <= 15
    requires 0 <= lo && 1 <= h && lo + h <= hi < ptr.Length && Agree(b, ptr[..], lo, hi, d)
    modifies ptr
    ensures budget <= budget_ && Permuted(old(ptr[..]), ptr[..], lo, hi) && Agree(b, ptr[..], lo, hi, d)
    ensures spent ==> budget < 0
    ensures h == 1 && !spent ==> Keyed(ptr[..], Ranks(b), lo, hi) && SortedBy(ptr[..], Ranks(b), lo, hi)
    ensures hi == lo + h ==> budget >= budget_ - CompareCost(nblock)
  {
    hide Permuted, Comparable, Ranks, Agree, CompareCost;
    ghost var a0, a := ptr[..], ptr[..];
    AgreeKeyed(b, a0, lo, hi, d);
    PermutedSame(a0, lo, hi);
    budget := budget_;
    var i := lo + h;
    while true
      invariant lo + h <= i <= hi + 1 && budget <= budget_ && Permuted(a0, ptr[..], lo, hi)
          && Agree(b, ptr[..], lo, hi, d)
      invariant h == 1 ==> Keyed(ptr[..], Ranks(b), lo, i - 1) && SortedBy(ptr[..], Ranks(b), lo, i - 1)
      invariant hi == lo + h ==> i == lo + h && budget == budget_
      decreases hi - i
      modifies ptr
    {
      if i > hi {
        break;
      }
      a := ptr[..];
      budget := SinkNext(ptr, block, quadrant, nblock, lo, hi, i, h, d, budget, b);
      PermutedThen(a0, a, ptr[..], lo, hi);
      i := i + 1;
      if i > hi {
        break;
      }
      a := ptr[..];
      budget := SinkNext(ptr, block, quadrant, nblock, lo, hi, i, h, d, budget, b);
      PermutedThen(a0, a, ptr[..], lo, hi);
      i := i + 1;
      if i > hi {
        break;
      }
      a := ptr[..];
      budget := SinkNext(ptr, block, quadrant, nblock, lo, hi, i, h, d, budget, b);
      PermutedThen(a0, a, ptr[..], lo, hi);
      i := i + 1;
      if budget < 0 {
        return budget, true;
      }
    }
    spent := false;
  }

  const INCS: seq<int> := [1, 4, 13, 40, 121, 364, 1093, 3280, 9841, 29524, 88573, 265720, 797161, 2391484]

  /** The Shell sort of a range whose entries agree on d characters. */
  method MainSimpleSort(ptr: array<nat>, block: array<byte>, quadrant: array<nat>, nblock: nat, lo: int, hi: int,
      d: nat, budget_: int, ghost b: seq<byte>)
      returns (budget: int)
    requires ptr != quadrant && nblock == |b| <= 900000 && Comparable(b, block[..], quadrant[..]) && d <= 15
    requires hi < ptr.Length <= 900000 && Agree(b, ptr[..], lo, hi, d)
    modifies ptr
    ensures budget <= budget_ && Permuted(old(ptr[..]), ptr[..], lo, hi) && Agree(b, ptr[..], lo, hi, d)
    ensures budget >= 0 ==> Keyed(ptr[..], Ranks(b), lo, hi) && SortedBy(ptr[..], Ranks(b), lo, hi)
    ensures hi == lo + 1 ==> budget >= budget_ - CompareCost(nblock)
  {
    hide Permuted, Comparable, Ranks, Eq, CompareCost;
    ghost var a0 := ptr[..];
    budget := budget_;
    PermutedSame(a0, lo, hi);
    AgreeKeyed(b, a0, lo, hi, d);
    var bigN := hi - lo + 1;
    if bigN < 2 {
      return;
    }
    var hp := 0;
    assert INCS[0] == 1 && INCS[1] == 4 && INCS[13] == 2391484;
    while INCS[hp] < bigN
      invariant 0 <= hp < 14 && (hp > 0 ==> INCS[hp - 1] < bigN)
      decreases 14 - hp
    {
      hp := hp + 1;
    }
    hp := hp - 1;
    while hp >= 0
      invariant -1 <= hp < 13 && budget <= budget_ && Permuted(a0, ptr[..], lo, hi) && Agree(b, ptr[..], lo, hi, d)
      invariant hp >= 0 ==> INCS[hp] < bigN
      invariant hi == lo + 1 ==>
          if hp >= 0 then hp == 0 && budget == budget_ else budget >= budget_ - CompareCost(nblock)
      invariant hp == -1 ==> Keyed(ptr[..], Ranks(b), lo, hi) && SortedBy(ptr[..], Ranks(b), lo, hi)
      decreases hp
      modifies ptr
    {
      var h := INCS[hp];
      ghost var a := ptr[..];
      var spent;
      budget, spent := ShellPass(ptr, block, quadrant, nblock, lo, hi, h, d, budget, b);
      PermutedThen(a0, a, ptr[..], lo, hi);
      if spent {
        return;
      }
      hp := hp - 1;
    }
  }

  // ---------- partitioning by one character ----------

  /** The character d places after each position. */
  ghost function CharKeys(b: seq<byte>, d: nat): (k: seq<nat>)
    ensures |k| == |b|
  {
    seq(|b|, p requires 0 <= p < |b| => b[Adv(|b|, p, d)])
  }

  lemma KeyAt(b: seq<byte>, block: seq<byte>, p: nat, d: nat)
    requires Extended(block, |b|) && block[..|b|] == b && p < |b| && d <= 15
    ensures block[p + d] == CharKeys(b, d)[p]
  {
    hide Adv;
    ExtendedAt(block, |b|, p + d);
    WrapAdv(|b|, p, d);
    assert block[p + d] == b[Wrap(|b|, p + d)];
  }

  /** The entries of a range name positions of the block, whose characters at
      depth d can be read. */
  ghost predicate Readable(b: seq<byte>, block: seq<byte>, d: nat) {
    Extended(block, |b|) && block[..|b|] == b && d <= 15
  }

  method ScanLowAt(ptr: array<nat>, block: array<byte>, lo: int, ltLo0: int, unLo0: int, unHi: int, gtHi: int, hi: int,
      d: nat, med: byte, ghost b: seq<byte>)
      returns (ltLo: int, unLo: int)
    requires Readable(b, block[..], d) && Parting(ptr[..], CharKeys(b, d), lo, ltLo0, unLo0, unHi, gtHi, hi, med)
    modifies ptr
    ensures Parting(ptr[..], CharKeys(b, d), lo, ltLo, unLo, unHi, gtHi, hi, med) && unLo >= unLo0
    ensures Permuted(old(ptr[..]), ptr[..], lo, hi)
    ensures LowStopped(ptr[..], CharKeys(b, d), unLo, unHi, med)
  {
    hide Permuted, CharKeys;
    ghost var a0, keys := ptr[..], CharKeys(b, d);
    ltLo, unLo := ltLo0, unLo0;
    PermutedSame(a0, lo, hi);
    while true
      invariant Parting(ptr[..], keys, lo, ltLo, unLo, unHi, gtHi, hi, med) && unLo >= unLo0
      invariant Permuted(a0, ptr[..], lo, hi)
      decreases unHi - unLo
    {
      if unLo > unHi {
        break;
      }
      KeyAt(b, block[..], ptr[unLo], d);
      var n := block[ptr[unLo] + d] as int - med as int;
      if n == 0 {
        ghost var a := ptr[..];
        LowEqual(a, keys, lo, ltLo, unLo, unHi, gtHi, hi, med);
        Swap(ptr, unLo, ltLo);
        PermutedThen(a0, a, ptr[..], lo, hi);
        ltLo, unLo := ltLo + 1, unLo + 1;
        continue;
      }
      if n > 0 {
        break;
      }
      unLo := unLo + 1;
    }
  }

  method ScanHighAt(ptr: array<nat>, block: array<byte>, lo: int, ltLo: int, unLo: int, unHi0: int, gtHi0: int, hi: int,
      d: nat, med: byte, ghost b: seq<byte>)
      returns (unHi: int, gtHi: int)
    requires Readable(b, block[..], d) && Parting(ptr[..], CharKeys(b, d), lo, ltLo, unLo, unHi0, gtHi0, hi, med)
    requires LowStopped(ptr[..], CharKeys(b, d), unLo, unHi0, med)
    modifies ptr
    ensures Parting(ptr[..], CharKeys(b, d), lo, ltLo, unLo, unHi, gtHi, hi, med) && unHi <= unHi0
    ensures Permuted(old(ptr[..]), ptr[..], lo, hi)
    ensures unLo <= unHi ==>
        LowStopped(ptr[..], CharKeys(b, d), unLo, unHi, med) && HighStopped(ptr[..], CharKeys(b, d), unHi, med)
  {
    hide Permuted, Parting, LowStopped, CharKeys;
    ghost var a0, keys, a := ptr[..], CharKeys(b, d), ptr[..];
    unHi, gtHi := unHi0, gtHi0;
    PermutedSame(a0, lo, hi);
    while true
      invariant ptr[..] == a && Parting(a, keys, lo, ltLo, unLo, unHi, gtHi, hi, med) && unHi <= unHi0
      invariant Permuted(a0, a, lo, hi) && LowStopped(a, keys, unLo, unHi, med)
      decreases unHi - unLo
    {
      PartingBounds(a, keys, lo, ltLo, unLo, unHi, gtHi, hi, med);
      if unLo > unHi {
        break;
      }
      LowStaysStopped(a, keys, unLo, unHi, gtHi, med);
      KeyAt(b, block[..], ptr[unHi], d);
      var n := block[ptr[unHi] + d] as int - med as int;
      if n == 0 {
        HighEqual(a, keys, lo, ltLo, unLo, unHi, gtHi, hi, med);
        PermutedThen(a0, a, Swapped(a, unHi, gtHi), lo, hi);
        Swap(ptr, unHi, gtHi);
        a := ptr[..];
        unHi, gtHi := unHi - 1, gtHi - 1;
        continue;
      }
      if n < 0 {
        break;
      }
      HighGreater(a, keys, lo, ltLo, unLo, unHi, gtHi, hi, med);
      unHi := unHi - 1;
    }
  }

  /** One scan from each end, and the exchange of the two entries it stops at. */
  method ScanBothAt(ptr: array<nat>, block: array<byte>, lo: int, ltLo0: int, unLo0: int, unHi0: int, gtHi0: int,
      hi: int, d: nat, med: byte, ghost b: seq<byte>)
      returns (ltLo: int, unLo: int, unHi: int, gtHi: int, met: bool)
    requires Readable(b, block[..], d) && Parting(ptr[..], CharKeys(b, d), lo, ltLo0, unLo0, unHi0, gtHi0, hi, med)
    modifies ptr
    ensures Parting(ptr[..], CharKeys(b, d), lo, ltLo, unLo, unHi, gtHi, hi, med)
    ensures Permuted(old(ptr[..]), ptr[..], lo, hi)
    ensures if met then unHi == unLo - 1 else unHi - unLo < unHi0 - unLo0 && unLo0 <= unHi0
  {
    hide Permuted, Parting, CharKeys;
    ghost var a0, keys := ptr[..], CharKeys(b, d);
    ltLo, unLo := ScanLowAt(ptr, block, lo, ltLo0, unLo0, unHi0, gtHi0, hi, d, med, b);
    ghost var a := ptr[..];
    unHi, gtHi := ScanHighAt(ptr, block, lo, ltLo, unLo, unHi0, gtHi0, hi, d, med, b);
    PermutedThen(a0, a, ptr[..], lo, hi);
    PartingBounds(ptr[..], keys, lo, ltLo, unLo, unHi, gtHi, hi, med);
    met := unLo > unHi;
    if !met {
      a := ptr[..];
      Crossed(a, keys, lo, ltLo, unLo, unHi, gtHi, hi, med);
      Swap(ptr, unLo, unHi);
      PermutedThen(a0, a, ptr[..], lo, hi);
      unLo, unHi := unLo + 1, unHi - 1;
    }
  }

  /** The scans from both ends until they meet. */
  method ScanAt(ptr: array<nat>, block: array<byte>, lo: int, hi: int, d: nat, med: byte, ghost b: seq<byte>)
      returns (ltLo: int, unLo: int, unHi: int, gtHi: int)
    requires Readable(b, block[..], d) && lo <= hi && Keyed(ptr[..], CharKeys(b, d), lo, hi)
    modifies ptr
    ensures Parting(ptr[..], CharKeys(b, d), lo, ltLo, unLo, unHi, gtHi, hi, med) && unHi == unLo - 1
    ensures Permuted(old(ptr[..]), ptr[..], lo, hi)
  {
    hide Permuted, Parting, CharKeys;
    ghost var a0, keys := ptr[..], CharKeys(b, d);
    unLo, ltLo, unHi, gtHi := lo, lo, hi, hi;
    PermutedSame(a0, lo, hi);
    PartingStart(a0, keys, lo, hi, med);
    while true
      invariant Parting(ptr[..], keys, lo, ltLo, unLo, unHi, gtHi, hi, med)
      invariant Permuted(a0, ptr[..], lo, hi)
      decreases unHi - unLo + 1
    {
      ghost var a := ptr[..];
      var met;
      ltLo, unLo, unHi, gtHi, met := ScanBothAt(ptr, block, lo, ltLo, unLo, unHi, gtHi, hi, d, med, b);
      PermutedThen(a0, a, ptr[..], lo, hi);
      if met {
        break;
      }
    }
  }

  /** All characters at depth d equal, or parted into three. */
  method PartitionAt(ptr: array<nat>, block: array<byte>, lo: int, hi: int, d: nat, med: byte,
      ghost b: seq<byte>) returns (allEqual: bool, n: int, m: int)
    requires Readable(b, block[..], d) && lo <= hi && Keyed(ptr[..], CharKeys(b, d), lo, hi)
    modifies ptr
    ensures Permuted(old(ptr[..]), ptr[..], lo, hi)
    ensures allEqual ==> Parted(ptr[..], CharKeys(b, d), lo, lo - 1, hi + 1, hi, med)
    ensures !allEqual ==> Parted(ptr[..], CharKeys(b, d), lo, n, m, hi, med)
  {
    hide Permuted, Parting, Parted, CharKeys;
    ghost var a0, keys := ptr[..], CharKeys(b, d);
    var ltLo, unLo, unHi, gtHi := ScanAt(ptr, block, lo, hi, d, med, b);
    ghost var a := ptr[..];
    PartingBounds(a, keys, lo, ltLo, unLo, unHi, gtHi, hi, med);
    if gtHi < ltLo {
      AllMed(a, keys, lo, ltLo, unLo, unHi, gtHi, hi, med);
      return true, lo, hi;
    }
    n, m := Gather(ptr, lo, ltLo, unLo, unHi, gtHi, hi, keys, med);
    PermutedThen(a0, a, ptr[..], lo, hi);
    allEqual := false;
  }

  lemma AllMed(a: seq<nat>, keys: seq<nat>, lo: int, ltLo: int, unLo: int, unHi: int, gtHi: int, hi: int, med: nat)
    requires Parting(a, keys, lo, ltLo, unLo, unHi, gtHi, hi, med) && unHi == unLo - 1 && gtHi < ltLo
    ensures Parted(a, keys, lo, lo - 1, hi + 1, hi, med)
  {
  }

  /** The median of three characters. */
  method Mmed3(a_: byte, b_: byte, c: byte) returns (r: byte)
    ensures r == a_ || r == b_ || r == c
    ensures (a_ <= r || b_ <= r) && (a_ <= r || c <= r) && (b_ <= r || c <= r)
    ensures (a_ >= r || b_ >= r) && (a_ >= r || c >= r) && (b_ >= r || c >= r)
  {
    var a, b := a_, b_;
    if a > b {
      a, b := b, a;
    }
    if b > c {
      b := c;
      if a > b {
        b := a;
      }
    }
    return b;
  }

  // ---------- the ranges on the stack, with their depths ----------

  datatype Task = Task(lo: int, hi: int, d: nat)

  function SpanOf(t: Task): Span {
    Span(t.lo, t.hi)
  }

  ghost function Spans(stack: seq<Task>): (s: seq<Span>)
    ensures |s| == |stack|
  {
    seq(|stack|, k requires 0 <= k < |stack| => SpanOf(stack[k]))
  }

  lemma SpansPush(stack: seq<Task>, t: Task)
    ensures Spans(stack + [t]) == Spans(stack) + [SpanOf(t)]
  {
  }

  /** The entries of every range agree to its depth. */
  ghost predicate DepthsOk(b: seq<byte>, a: seq<nat>, stack: seq<Task>) {
    forall k {:trigger stack[k]} ::
        0 <= k < |stack| ==> stack[k].d <= 15 && Agree(b, a, stack[k].lo, stack[k].hi, stack[k].d)
  }

  ghost predicate TaskOk(b: seq<byte>, a: seq<nat>, t: Task) {
    t.d <= 15 && Agree(b, a, t.lo, t.hi, t.d)
  }

  lemma DepthsPush(b: seq<byte>, a: seq<nat>, stack: seq<Task>, t: Task)
    ensures DepthsOk(b, a, stack + [t]) <==> DepthsOk(b, a, stack) && TaskOk(b, a, t)
  {
    var s := stack + [t];
    assert s[|stack|] == t && forall k :: 0 <= k < |stack| ==> s[k] == stack[k];
  }

  /** Rearranging the popped range leaves the others as they were. */
  lemma DepthsElsewhere(b: seq<byte>, a: seq<nat>, c: seq<nat>, stack: seq<Task>, top: Task)
    requires DepthsOk(b, a, stack) && Disjoint(Spans(stack) + [SpanOf(top)]) && Permuted(a, c, top.lo, top.hi)
    ensures DepthsOk(b, c, stack)
  {
    hide Permuted, Agree;
    var s := Spans(stack) + [SpanOf(top)];
    forall k | 0 <= k < |stack| ensures Agree(b, c, stack[k].lo, stack[k].hi, stack[k].d) {
      assert s[k] == SpanOf(stack[k]) && s[|stack|] == SpanOf(top);
      AgreeElsewhere(b, a, c, stack[k].lo, stack[k].hi, stack[k].d, top.lo, top.hi);
    }
  }

  /** Entries with the same character at depth d agree one further. */
  lemma AgreeDeeper(b: seq<byte>, a: seq<nat>, lo: int, hi: int, d: nat, n: int, m: int, med: nat)
    requires Agree(b, a, lo, hi, d) && lo <= n + 1 <= m <= hi + 1
    requires forall x {:trigger a[x]} :: n < x < m ==> a[x] < |b| && CharKeys(b, d)[a[x]] == med
    ensures Agree(b, a, n + 1, m - 1, d + 1)
  {
    hide Eq;
    forall x, y | n + 1 <= x <= m - 1 && n + 1 <= y <= m - 1 ensures Eq(b, a[x], a[y], d + 1) {
      ComposeLast(b, a[x], a[y], d);
    }
  }

  /** Smaller characters at depth d put rotations in order. */
  lemma PartsInOrder(b: seq<byte>, p: nat, q: nat, d: nat)
    requires p < |b| && q < |b| && Eq(b, p, q, d) && CharKeys(b, d)[p] < CharKeys(b, d)[q]
    ensures Ranks(b)[p] <= Ranks(b)[q]
  {
    hide Ranks, Lt;
    SmallerLater(b, p, q, d);
    RankOrder(b, p, q);
  }

  /** The parts of a range, in any order on the stack. */
  ghost predicate ThreeParts(t0: Span, t1: Span, t2: Span, lo: int, n: int, m: int, hi: int) {
    var l, e, g := Span(lo, n), Span(n + 1, m - 1), Span(m, hi);
    || (t0 == l && t1 == e && t2 == g) || (t0 == l && t1 == g && t2 == e)
    || (t0 == e && t1 == l && t2 == g) || (t0 == e && t1 == g && t2 == l)
    || (t0 == g && t1 == l && t2 == e) || (t0 == g && t1 == e && t2 == l)
  }

  lemma ThreeDisjoint(stack: seq<Span>, top: Span, n: int, m: int, t0: Span, t1: Span, t2: Span)
    requires Disjoint(stack + [top]) && top.lo <= n + 1 <= m <= top.hi + 1
        && ThreeParts(t0, t1, t2, top.lo, n, m, top.hi)
    ensures Disjoint(stack + [t0] + [t1] + [t2])
  {
    var s, t := stack + [top], stack + [t0] + [t1] + [t2];
    forall k, l | 0 <= k < l < |t| ensures t[k].hi < t[l].lo || t[l].hi < t[k].lo {
      if k < |stack| {
        assert s[k] == t[k] && s[|stack|] == top;
        assert l < |stack| ==> s[l] == t[l];
      }
    }
  }

  lemma JointAt(t: seq<Span>, k: nat, x: int, y: int)
    requires k < |t| && t[k].lo <= x && y <= t[k].hi
    ensures Joint(t, x, y)
  {
  }

  /** Two entries of the parted range are in order or in the same part. */
  lemma ThreeSplit(b: seq<byte>, c: seq<nat>, t: seq<Span>, j: nat, lo: int, n: int, m: int, hi: int, d: nat, med: nat,
      x: int, y: int)
    requires Agree(b, c, lo, hi, d) && Parted(c, CharKeys(b, d), lo, n, m, hi, med) && lo <= x < y <= hi
    requires j + 3 == |t| && ThreeParts(t[j], t[j + 1], t[j + 2], lo, n, m, hi)
    ensures Ranks(b)[c[x]] <= Ranks(b)[c[y]] || Joint(t, x, y)
  {
    hide Joint, Ranks, Eq, CharKeys;
    if y <= n || m <= x || (n < x && y < m) {
      var k := if t[j].lo <= x && y <= t[j].hi then j else if t[j + 1].lo <= x && y <= t[j + 1].hi then j + 1
          else j + 2;
      JointAt(t, k, x, y);
    } else {
      PartsInOrder(b, c[x], c[y], d);
    }
  }

  /** A popped range that has been parted. */
  lemma RangeInThree(b: seq<byte>, a: seq<nat>, c: seq<nat>, stack: seq<Span>, top: Span, n: int, m: int, d: nat,
      med: nat, t0: Span, t1: Span, t2: Span, lo0: int, hi0: int)
    requires Sorting(a, Ranks(b), stack + [top], lo0, hi0) && Permuted(a, c, top.lo, top.hi)
    requires Agree(b, c, top.lo, top.hi, d) && Parted(c, CharKeys(b, d), top.lo, n, m, top.hi, med)
    requires ThreeParts(t0, t1, t2, top.lo, n, m, top.hi)
    ensures Sorting(c, Ranks(b), stack + [t0] + [t1] + [t2], lo0, hi0)
  {
    hide Permuted, Joint, Sorting, Ranks, CharKeys, Agree, Parted;
    var s, t, keys := stack + [top], stack + [t0] + [t1] + [t2], Ranks(b);
    SortingParts(a, keys, s, lo0, hi0);
    assert s[|stack|] == top && forall k :: 0 <= k < |stack| ==> s[k] == stack[k];
    assert t[|stack|] == t0 && t[|stack| + 1] == t1 && t[|stack| + 2] == t2
        && forall k :: 0 <= k < |stack| ==> t[k] == stack[k];
    PartedBounds(c, CharKeys(b, d), top.lo, n, m, top.hi, med);
    ThreeDisjoint(stack, top, n, m, t0, t1, t2);
    StillKeyed(a, c, keys, lo0, hi0, top.lo, top.hi);
    AgreeKeyed(b, c, top.lo, top.hi, d);
    forall x, y | top.lo <= x < y <= top.hi ensures keys[c[x]] <= keys[c[y]] || Joint(t, x, y) {
      ThreeSplit(b, c, t, |stack|, top.lo, n, m, top.hi, d, med, x, y);
    }
    RangeReplaced(a, c, keys, stack, top, t, lo0, hi0);
  }

  /** All three parts agree to their depths. */
  lemma PartsAgree(b: seq<byte>, c: seq<nat>, top: Task, n: int, m: int, med: nat)
    requires Agree(b, c, top.lo, top.hi, top.d) && top.d <= 14
        && Parted(c, CharKeys(b, top.d), top.lo, n, m, top.hi, med)
    ensures TaskOk(b, c, Task(top.lo, n, top.d)) && TaskOk(b, c, Task(m, top.hi, top.d))
        && TaskOk(b, c, Task(n + 1, m - 1, top.d + 1))
  {
    AgreePart(b, c, top.lo, top.hi, top.d, top.lo, n);
    AgreePart(b, c, top.lo, top.hi, top.d, m, top.hi);
    AgreeDeeper(b, c, top.lo, top.hi, top.d, n, m, med);
  }

  // ---------- the depth of the stack ----------

  const MAIN_QSORT_SMALL_THRESH := 20
  const MAIN_QSORT_DEPTH_THRESH := BZ_N_RADIX + BZ_N_QSORT
  const MAIN_QSORT_STACK_SIZE := 100

  /** How much a place on the stack weighs: at most twice the place below it,
      and three times the one two below. */
  function Weight(k: nat): (w: nat)
    ensures w >= 2
  {
    if k == 0 then 2 else if k == 1 then 3 else 3 * Weight(k - 2)
  }

  lemma {:induction false} WeightStep(k: nat)
    ensures Weight(k) <= Weight(k + 1) <= 2 * Weight(k)
  {
    if k >= 2 {
      WeightStep(k - 2);
    }
  }

  lemma {:induction false} WeightMonotone(j: nat, k: nat)
    requires j <= k
    ensures Weight(j) <= Weight(k)
    decreases k - j
  {
    if j < k {
      WeightStep(k - 1);
      WeightMonotone(j, k - 1);
    }
  }

  lemma WeightTwenty()
    ensures Weight(20) == 118098
  {
    assert Weight(8) == 162;
    assert Weight(14) == 4374;
  }

  ghost predicate Thirding(stack: seq<Task>, total: int) {
    forall k {:trigger stack[k]} :: 0 <= k < |stack| ==> Size(SpanOf(stack[k])) * Weight(k) <= 2 * total
  }

  /** A range long enough to be parted is near the bottom. */
  lemma LongIsLow(stack: seq<Task>, total: int)
    requires |stack| > 0 && Thirding(stack, total) && total <= 900000
    requires Size(SpanOf(stack[|stack| - 1])) > MAIN_QSORT_SMALL_THRESH
    ensures |stack| <= 20
  {
    var k := |stack| - 1;
    MulBoth(Size(SpanOf(stack[k])), 21, Weight(k), Weight(k));
    WeightTwenty();
    if k >= 20 {
      WeightMonotone(20, k);
    }
  }

  /** The largest part is pushed first and the smallest last. */
  lemma ThirdingKept(stack: seq<Task>, top: Task, t0: Task, t1: Task, t2: Task, total: int)
    requires Thirding(stack + [top], total)
    requires var s0, s1, s2 := Size(SpanOf(t0)), Size(SpanOf(t1)), Size(SpanOf(t2));
             0 <= s2 <= s1 <= s0 && s0 + s1 + s2 <= Size(SpanOf(top))
    ensures Thirding(stack + [t0] + [t1] + [t2], total)
  {
    var s, t, n := stack + [top], stack + [t0] + [t1] + [t2], |stack|;
    var z, s0, s1, s2 := Size(SpanOf(top)), Size(SpanOf(t0)), Size(SpanOf(t1)), Size(SpanOf(t2));
    assert s[n] == top;
    WeightStep(n);
    MulBoth(z, s0, Weight(n), Weight(n));
    MulBoth(z, 2 * s1, Weight(n), Weight(n));
    MulBoth(z, 3 * s2, Weight(n), Weight(n));
    MulBoth(s1, s1, 2 * Weight(n), Weight(n + 1));
    assert s1 * (2 * Weight(n)) == 2 * s1 * Weight(n);
    assert s2 * Weight(n + 2) == 3 * s2 * Weight(n);
    forall k | 0 <= k < |t| ensures Size(SpanOf(t[k])) * Weight(k) <= 2 * total {
      if k < n {
        assert s[k] == t[k];
      }
    }
  }

  lemma ThirdingSame(stack: seq<Task>, top: Task, t: Task, total: int)
    requires Thirding(stack + [top], total) && SpanOf(t) == SpanOf(top)
    ensures Thirding(stack + [t], total)
  {
    var s, s' := stack + [top], stack + [t];
    forall k | 0 <= k < |s'| ensures Size(SpanOf(s'[k])) * Weight(k) <= 2 * total {
      assert SpanOf(s'[k]) == SpanOf(s[k]);
    }
  }

  lemma ThirdingPopped(stack: seq<Task>, top: Task, total: int)
    requires Thirding(stack + [top], total)
    ensures Thirding(stack, total)
  {
    assert forall k :: 0 <= k < |stack| ==> (stack + [top])[k] == stack[k];
  }

  // ---------- termination ----------

  function Effort(t: Task): int {
    3 * (16 - t.d) * Size(SpanOf(t)) + 1
  }

  function Toil(stack: seq<Task>): int {
    if |stack| == 0 then 0 else Toil(stack[..|stack| - 1]) + Effort(stack[|stack| - 1])
  }

  lemma ToilPush(stack: seq<Task>, t: Task)
    ensures Toil(stack + [t]) == Toil(stack) + Effort(t)
  {
    assert (stack + [t])[..|stack|] == stack;
  }

  lemma {:induction false} ToilPositive(stack: seq<Task>)
    requires forall k {:trigger stack[k]} :: 0 <= k < |stack| ==> stack[k].d <= 15 && stack[k].lo <= stack[k].hi + 1
    ensures Toil(stack) >= 0
  {
    if |stack| > 0 {
      ToilPositive(stack[..|stack| - 1]);
      var t := stack[|stack| - 1];
      MulBoth(16 - t.d, 0, Size(SpanOf(t)), 0);
    }
  }

  /** The middle part is not empty and goes deeper, so the parts are less work
      than the whole. */
  lemma PartsLessToil(lo: int, n: int, m: int, hi: int, d: nat)
    requires lo <= n + 1 < m <= hi + 1 && d <= 14
    ensures Effort(Task(lo, n, d)) + Effort(Task(m, hi, d)) +
        Effort(Task(n + 1, m - 1, d + 1)) < Effort(Task(lo, hi, d))
  {
    var k, z, e := 16 - d, hi - lo + 1, m - 1 - n;
    assert (n - lo + 1) + (hi - m + 1) == z - e;
    assert 3 * k * (n - lo + 1) + 3 * k * (hi - m + 1) == 3 * k * (z - e);
    assert 3 * (k - 1) * e == 3 * k * e - 3 * e;
    assert 3 * k * (z - e) + 3 * k * e == 3 * k * z;
  }

  lemma DeeperLessToil(lo: int, hi: int, d: nat)
    requires lo <= hi && d <= 14
    ensures Effort(Task(lo, hi, d + 1)) < Effort(Task(lo, hi, d))
  {
    var z := hi - lo + 1;
    assert 3 * (16 - d) * z == 3 * (15 - d) * z + 3 * z;
  }

  // ---------- mainQSort3 ----------

  /** What becomes of a popped range. */
  datatype Turn = Finished | Deeper(t: Task) | Three(t0: Task, t1: Task, t2: Task)

  function After(rest: seq<Task>, turn: Turn): seq<Task> {
    match turn
    case Finished => rest
    case Deeper(t) => rest + [t]
    case Three(t0, t1, t2) => rest + [t0] + [t1] + [t2]
  }

  /** Sorted by rank except for the ranges on the stack, which agree to their
      depths. */
  ghost predicate Underway(b: seq<byte>, a: seq<nat>, stack: seq<Task>, lo0: int, hi0: int) {
    Sorting(a, Ranks(b), Spans(stack), lo0, hi0) && DepthsOk(b, a, stack)
  }

  lemma UnderwayTop(b: seq<byte>, a: seq<nat>, rest: seq<Task>, top: Task, lo0: int, hi0: int)
    requires Underway(b, a, rest + [top], lo0, hi0)
    ensures Sorting(a, Ranks(b), Spans(rest) + [SpanOf(top)], lo0, hi0) && DepthsOk(b, a, rest) && TaskOk(b, a, top)
    ensures lo0 <= top.lo <= top.hi + 1 && top.hi <= hi0 && Disjoint(Spans(rest) + [SpanOf(top)])
  {
    hide Sorting, DepthsOk, TaskOk;
    SpansPush(rest, top);
    DepthsPush(b, a, rest, top);
    TopKeyed(a, Ranks(b), Spans(rest), SpanOf(top), lo0, hi0);
    SortingParts(a, Ranks(b), Spans(rest) + [SpanOf(top)], lo0, hi0);
  }

  lemma UnderwayFinished(b: seq<byte>, a: seq<nat>, c: seq<nat>, rest: seq<Task>, top: Task, lo0: int, hi0: int)
    requires Underway(b, a, rest + [top], lo0, hi0) && Permuted(a, c, top.lo, top.hi)
    requires Keyed(c, Ranks(b), top.lo, top.hi) && SortedBy(c, Ranks(b), top.lo, top.hi)
    ensures Underway(b, c, rest, lo0, hi0)
  {
    hide Sorting, DepthsOk, TaskOk, Permuted, SortedBy, Keyed, Ranks, Disjoint;
    UnderwayTop(b, a, rest, top, lo0, hi0);
    RangeSorted(a, c, Ranks(b), Spans(rest), SpanOf(top), lo0, hi0);
    DepthsElsewhere(b, a, c, rest, top);
  }

  /** The whole range has the same character at depth d. */
  lemma UnderwayDeeper(b: seq<byte>, a: seq<nat>, c: seq<nat>, rest: seq<Task>, top: Task, med: nat, lo0: int, hi0: int)
    requires Underway(b, a, rest + [top], lo0, hi0) && Permuted(a, c, top.lo, top.hi) && top.d <= 14
    requires Parted(c, CharKeys(b, top.d), top.lo, top.lo - 1, top.hi + 1, top.hi, med)
    ensures Underway(b, c, rest + [Task(top.lo, top.hi, top.d + 1)], lo0, hi0)
  {
    hide Sorting, DepthsOk, Permuted, SortedBy, Ranks, Disjoint, CharKeys, Eq, Agree;
    var t := Task(top.lo, top.hi, top.d + 1);
    UnderwayTop(b, a, rest, top, lo0, hi0);
    AgreePermuted(b, a, c, top.lo, top.hi, top.d);
    AgreeShape(b, c, top.lo, top.hi, top.d);
    AgreeDeeper(b, c, top.lo, top.hi, top.d, top.lo - 1, top.hi + 1, med);
    DepthsElsewhere(b, a, c, rest, top);
    DepthsPush(b, c, rest, t);
    SpansPush(rest, t);
    RangeKept(a, c, Ranks(b), Spans(rest), SpanOf(top), lo0, hi0);
  }

  lemma AgreeShape(b: seq<byte>, a: seq<nat>, lo: int, hi: int, d: nat)
    requires Agree(b, a, lo, hi, d)
    ensures 0 <= lo <= hi + 1 <= |a| && forall x {:trigger a[x]} :: lo <= x <= hi ==> a[x] < |b|
  {
  }

  /** A popped range that is pushed again. */
  lemma RangeKept(a: seq<nat>, c: seq<nat>, keys: seq<nat>, stack: seq<Span>, top: Span, lo0: int, hi0: int)
    requires Sorting(a, keys, stack + [top], lo0, hi0) && Permuted(a, c, top.lo, top.hi)
    ensures Sorting(c, keys, stack + [top], lo0, hi0)
  {
    hide Permuted, Joint;
    var t := stack + [top];
    SortingParts(a, keys, t, lo0, hi0);
    assert t[|stack|] == top && forall k :: 0 <= k < |stack| ==> t[k] == stack[k];
    StillKeyed(a, c, keys, lo0, hi0, top.lo, top.hi);
    forall x, y | top.lo <= x < y <= top.hi ensures Joint(t, x, y) {
      JointAt(t, |stack|, x, y);
    }
    RangeReplaced(a, c, keys, stack, top, t, lo0, hi0);
  }

  lemma UnderwayThree(b: seq<byte>, a: seq<nat>, c: seq<nat>, rest: seq<Task>, top: Task, n: int, m: int, med: nat,
                      t0: Task, t1: Task, t2: Task, lo0: int, hi0: int)
    requires Underway(b, a, rest + [top], lo0, hi0) && Permuted(a, c, top.lo, top.hi) && top.d <= 14
    requires Parted(c, CharKeys(b, top.d), top.lo, n, m, top.hi, med)
    requires ThreeParts(SpanOf(t0), SpanOf(t1), SpanOf(t2), top.lo, n, m, top.hi)
    requires TaskOk(b, c, t0) && TaskOk(b, c, t1) && TaskOk(b, c, t2)
    ensures Underway(b, c, rest + [t0] + [t1] + [t2], lo0, hi0)
  {
    hide Sorting, DepthsOk, Permuted, SortedBy, Ranks, Disjoint, CharKeys, Eq, Agree, Parted, ThreeParts;
    UnderwayTop(b, a, rest, top, lo0, hi0);
    AgreePermuted(b, a, c, top.lo, top.hi, top.d);
    RangeInThree(b, a, c, Spans(rest), SpanOf(top), n, m, top.d, med, SpanOf(t0), SpanOf(t1), SpanOf(t2), lo0, hi0);
    DepthsElsewhere(b, a, c, rest, top);
    DepthsPush(b, c, rest, t0);
    DepthsPush(b, c, rest + [t0], t1);
    DepthsPush(b, c, rest + [t0] + [t1], t2);
    SpansPush(rest, t0);
    SpansPush(rest + [t0], t1);
    SpansPush(rest + [t0] + [t1], t2);
  }

  predicate IsPart(t: Task, lo: int, n: int, m: int, hi: int, d: nat) {
    t == Task(lo, n, d) || t == Task(m, hi, d) || t == Task(n + 1, m - 1, d + 1)
  }

  /** The three parts, the longest first. */
  method InOrder(lo: int, n: int, m: int, hi: int, d: nat) returns (t0: Task, t1: Task, t2: Task)
    requires lo <= n + 1 <= m <= hi + 1
    ensures ThreeParts(SpanOf(t0), SpanOf(t1), SpanOf(t2), lo, n, m, hi)
    ensures 0 <= Size(SpanOf(t2)) <= Size(SpanOf(t1)) <= Size(SpanOf(t0))
    ensures Size(SpanOf(t0)) + Size(SpanOf(t1)) + Size(SpanOf(t2)) == hi - lo + 1
    ensures IsPart(t0, lo, n, m, hi, d) && IsPart(t1, lo, n, m, hi, d) && IsPart(t2, lo, n, m, hi, d)
    ensures Effort(t0) + Effort(t1) + Effort(t2) ==
        Effort(Task(lo, n, d)) + Effort(Task(m, hi, d)) + Effort(Task(n + 1, m - 1, d + 1))
  {
    hide Effort;
    t0, t1, t2 := Task(lo, n, d), Task(m, hi, d), Task(n + 1, m - 1, d + 1);
    if t0.hi - t0.lo < t1.hi - t1.lo {
      t0, t1 := t1, t0;
    }
    if t1.hi - t1.lo < t2.hi - t2.lo {
      t1, t2 := t2, t1;
    }
    if t0.hi - t0.lo < t1.hi - t1.lo {
      t0, t1 := t1, t0;
    }
  }

  /** The pivot, one of three characters of the range. */
  method Pivot(ptr: array<nat>, block: array<byte>, lo: int, hi: int, d: nat, ghost b: seq<byte>) returns (med: byte,
      ghost at: int)
    requires Readable(b, block[..], d) && 0 <= lo <= hi < ptr.Length && Keyed(ptr[..], CharKeys(b, d), lo, hi)
    ensures lo <= at <= hi && med == CharKeys(b, d)[ptr[at]]
  {
    hide CharKeys;
    KeyAt(b, block[..], ptr[lo], d);
    KeyAt(b, block[..], ptr[hi], d);
    KeyAt(b, block[..], ptr[(lo + hi) / 2], d);
    var c0, c1, c2 := block[ptr[lo] + d], block[ptr[hi] + d], block[ptr[(lo + hi) / 2] + d];
    med := Mmed3(c0, c1, c2);
    at := if med == c0 then lo else if med == c1 then hi else (lo + hi) / 2;
  }

  /** One turn of the loop, for the range popped. */
  method TurnTop(ptr: array<nat>, block: array<byte>, quadrant: array<nat>, nblock: nat, lo: int, hi: int, d: nat,
      budget_: int, ghost b: seq<byte>, ghost rest: seq<Task>, ghost lo0: int, ghost hi0: int)
      returns (turn: Turn, budget: int)
    requires ptr != quadrant && nblock == |b| <= 900000 && Comparable(b, block[..], quadrant[..])
    requires Underway(b, ptr[..], rest + [Task(lo, hi, d)], lo0, hi0) && hi0 < ptr.Length <= 900000
    modifies ptr
    ensures budget <= budget_ && Permuted(old(ptr[..]), ptr[..], lo, hi)
    ensures budget >= 0 || !turn.Finished? ==> Underway(b, ptr[..], After(rest, turn), lo0, hi0)
    ensures hi == lo + 1 ==> turn.Finished? && budget >= budget_ - CompareCost(nblock)
    ensures turn.Deeper? ==> SpanOf(turn.t) == Span(lo, hi) && Effort(turn.t) < Effort(Task(lo, hi, d))
    ensures turn.Three? ==>
              && Size(Span(lo, hi)) > MAIN_QSORT_SMALL_THRESH
              && 0 <= Size(SpanOf(turn.t2)) <= Size(SpanOf(turn.t1)) <= Size(SpanOf(turn.t0))
              && Size(SpanOf(turn.t0)) + Size(SpanOf(turn.t1)) + Size(SpanOf(turn.t2)) <= Size(Span(lo, hi))
              && Effort(turn.t0) + Effort(turn.t1) + Effort(turn.t2) < Effort(Task(lo, hi, d))
  {
    hide Permuted, Underway, Comparable, Agree, Parted, ThreeParts, SortedBy, CharKeys, Ranks, Effort, CompareCost;
    ghost var a, top := ptr[..], Task(lo, hi, d);
    UnderwayTop(b, a, rest, top, lo0, hi0);
    AgreeShape(b, a, lo, hi, d);
    ComparableSizes(b, block[..], quadrant[..]);
    budget := budget_;
    if hi - lo < MAIN_QSORT_SMALL_THRESH || d > MAIN_QSORT_DEPTH_THRESH {
      budget := MainSimpleSort(ptr, block, quadrant, nblock, lo, hi, d, budget, b);
      if budget >= 0 {
        UnderwayFinished(b, a, ptr[..], rest, top, lo0, hi0);
      }
      return Finished, budget;
    }
    var med;
    ghost var at;
    med, at := Pivot(ptr, block, lo, hi, d, b);
    var allEqual, n, m := PartitionAt(ptr, block, lo, hi, d, med, b);
    if allEqual {
      UnderwayDeeper(b, a, ptr[..], rest, top, med, lo0, hi0);
      DeeperLessToil(lo, hi, d);
      return Deeper(Task(lo, hi, d + 1)), budget;
    }
    PartedBounds(ptr[..], CharKeys(b, d), lo, n, m, hi, med);
    PartsShorter(a, ptr[..], CharKeys(b, d), lo, n, m, hi, at);
    PartsLessToil(lo, n, m, hi, d);
    var t0, t1, t2 := InOrder(lo, n, m, hi, d);
    AgreePermuted(b, a, ptr[..], lo, hi, d);
    PartsAgree(b, ptr[..], top, n, m, med);
    UnderwayThree(b, a, ptr[..], rest, top, n, m, med, t0, t1, t2, lo0, hi0);
    turn := Three(t0, t1, t2);
  }

  /** The explicit stack, bottom first. */
  ghost predicate Stacked(stackLo: seq<int>, stackHi: seq<int>, stackD: seq<nat>, sp: nat, stack: seq<Task>) {
    && |stackLo| == |stackHi| == |stackD| == MAIN_QSORT_STACK_SIZE && sp == |stack| <= MAIN_QSORT_STACK_SIZE
    && forall k {:trigger stack[k]} ::
       0 <= k < sp ==> stackLo[k] == stack[k].lo && stackHi[k] == stack[k].hi && stackD[k] == stack[k].d
  }

  method PushTask(stackLo: array<int>, stackHi: array<int>, stackD: array<nat>, sp0: nat, t: Task,
      ghost stack: seq<Task>) returns (sp: nat)
    requires stackLo != stackHi && Stacked(stackLo[..], stackHi[..], stackD[..], sp0, stack)
        && sp0 < MAIN_QSORT_STACK_SIZE
    modifies stackLo, stackHi, stackD
    ensures Stacked(stackLo[..], stackHi[..], stackD[..], sp, stack + [t]) && sp == sp0 + 1
  {
    stackLo[sp0] := t.lo;
    stackHi[sp0] := t.hi;
    stackD[sp0] := t.d;
    sp := sp0 + 1;
  }

  lemma UnderwayToil(b: seq<byte>, a: seq<nat>, stack: seq<Task>, lo: int, hi: int)
    requires Underway(b, a, stack, lo, hi)
    ensures Toil(stack) >= 0
  {
    hide Sorting;
    ToilPositive(stack);
  }

  lemma UnderwayStart(b: seq<byte>, a: seq<nat>, lo: int, hi: int, d: nat)
    requires Agree(b, a, lo, hi, d) && d <= 15
    ensures Underway(b, a, [Task(lo, hi, d)], lo, hi) && Thirding([Task(lo, hi, d)], hi - lo + 1)
  {
    hide Ranks, Eq;
    AgreeKeyed(b, a, lo, hi, d);
    StackStart(a, Ranks(b), lo, hi);
    assert Spans([Task(lo, hi, d)]) == [Span(lo, hi)];
  }

  lemma UnderwayEmpty(b: seq<byte>, a: seq<nat>, lo: int, hi: int)
    requires Underway(b, a, [], lo, hi)
    ensures Keyed(a, Ranks(b), lo, hi) && SortedBy(a, Ranks(b), lo, hi)
  {
    hide Sorting, Ranks, SortedBy;
    assert Spans([]) == [];
    SortingParts(a, Ranks(b), [], lo, hi);
    StackEmpty(a, Ranks(b), lo, hi);
  }

  lemma ToilAfter(rest: seq<Task>, top: Task, turn: Turn)
    requires turn.Deeper? ==> Effort(turn.t) < Effort(top)
    requires turn.Three? ==> Effort(turn.t0) + Effort(turn.t1) + Effort(turn.t2) < Effort(top)
    requires turn.Finished? ==> Effort(top) > 0
    ensures Toil(After(rest, turn)) < Toil(rest + [top])
  {
    hide Effort;
    ToilPush(rest, top);
    match turn {
      case Finished =>
      case Deeper(t) => ToilPush(rest, t);
      case Three(t0, t1, t2) =>
        ToilPush(rest, t0);
        ToilPush(rest + [t0], t1);
        ToilPush(rest + [t0] + [t1], t2);
    }
  }

  lemma EffortPositive(t: Task)
    requires t.d <= 15 && t.lo <= t.hi + 1
    ensures Effort(t) > 0
  {
    MulBoth(16 - t.d, 0, Size(SpanOf(t)), 0);
    assert 3 * (16 - t.d) * Size(SpanOf(t)) == 3 * ((16 - t.d) * Size(SpanOf(t)));
  }

  /** Main result: the range is in the order of whole rotations unless the
      budget is spent, and the stack never reaches the check at 98 entries,
      whatever the pivots are: 22 are enough. Two entries take one comparison. */
  method MainQSort3(ptr: array<nat>, block: array<byte>, quadrant: array<nat>, nblock: nat, loSt: int, hiSt: int,
      dSt: nat, budget_: int, ghost b: seq<byte>)
      returns (budget: int)
    requires ptr != quadrant && nblock == |b| <= 900000 && Comparable(b, block[..], quadrant[..]) && dSt <= 15
    requires hiSt < ptr.Length <= 900000 && Agree(b, ptr[..], loSt, hiSt, dSt)
    modifies ptr
    ensures budget <= budget_ && Permuted(old(ptr[..]), ptr[..], loSt, hiSt)
    ensures budget >= 0 ==> Keyed(ptr[..], Ranks(b), loSt, hiSt) && SortedBy(ptr[..], Ranks(b), loSt, hiSt)
    ensures hiSt == loSt + 1 ==> budget >= budget_ - CompareCost(nblock)
  {
    hide Permuted, Comparable, Agree, Underway, Thirding, Toil, SortedBy, Ranks, Effort, CompareCost;
    ghost var a0, total := ptr[..], hiSt - loSt + 1;
    budget := budget_;
    AgreeShape(b, a0, loSt, hiSt, dSt);
    var sp: nat := 0;
    var stackLo, stackHi, stackD :=
        new int[MAIN_QSORT_STACK_SIZE], new int[MAIN_QSORT_STACK_SIZE], new nat[MAIN_QSORT_STACK_SIZE];
    ghost var stack: seq<Task> := [];
    sp := PushTask(stackLo, stackHi, stackD, sp, Task(loSt, hiSt, dSt), stack);
    stack := [] + [Task(loSt, hiSt, dSt)];
    assert stack == [Task(loSt, hiSt, dSt)];
    PermutedSame(a0, loSt, hiSt);
    UnderwayStart(b, a0, loSt, hiSt, dSt);
    UnderwayToil(b, a0, stack, loSt, hiSt);
    while sp > 0
      invariant Stacked(stackLo[..], stackHi[..], stackD[..], sp, stack) && sp <= 22 && budget <= budget_
      invariant Permuted(a0, ptr[..], loSt, hiSt)
      invariant Underway(b, ptr[..], stack, loSt, hiSt) && Thirding(stack, total) && Toil(stack) >= 0
      invariant hiSt == loSt + 1 ==>
                  if stack == [] then budget >= budget_ - CompareCost(nblock)
                  else stack == [Task(loSt, hiSt, dSt)] && budget == budget_
      decreases Toil(stack)
      modifies ptr, stackLo, stackHi, stackD
    {
      assert sp < MAIN_QSORT_STACK_SIZE - 2;
      sp := sp - 1;
      var lo, hi, d := stackLo[sp], stackHi[sp], stackD[sp];
      ghost var a, rest, top := ptr[..], stack[..sp], Task(lo, hi, d);
      assert stack == rest + [top];
      UnderwayTop(b, a, rest, top, loSt, hiSt);
      EffortPositive(top);
      var turn;
      turn, budget := TurnTop(ptr, block, quadrant, nblock, lo, hi, d, budget, b, rest, loSt, hiSt);
      PermutedWiden(a, ptr[..], lo, hi, loSt, hiSt);
      PermutedThen(a0, a, ptr[..], loSt, hiSt);
      ToilAfter(rest, top, turn);
      sp := PushTurn(stackLo, stackHi, stackD, sp, turn, rest, top, total);
      if turn.Finished? && budget < 0 {
        return;
      }
      stack := After(rest, turn);
      UnderwayToil(b, ptr[..], stack, loSt, hiSt);
    }
    assert stack == [];
    UnderwayEmpty(b, ptr[..], loSt, hiSt);
  }

  /** Pushes what is left of the popped range, the largest part first. */
  method PushTurn(stackLo: array<int>, stackHi: array<int>, stackD: array<nat>, sp0: nat, turn: Turn,
      ghost rest: seq<Task>, ghost top: Task, ghost total: int)
      returns (sp: nat)
    requires stackLo != stackHi && Stacked(stackLo[..], stackHi[..], stackD[..], sp0, rest) && sp0 <= 21
        && total <= 900000
    requires Thirding(rest + [top], total)
    requires turn.Deeper? ==> SpanOf(turn.t) == SpanOf(top)
    requires turn.Three? ==>
               && Size(SpanOf(top)) > MAIN_QSORT_SMALL_THRESH
               && 0 <= Size(SpanOf(turn.t2)) <= Size(SpanOf(turn.t1)) <= Size(SpanOf(turn.t0))
               && Size(SpanOf(turn.t0)) + Size(SpanOf(turn.t1)) + Size(SpanOf(turn.t2)) <= Size(SpanOf(top))
    modifies stackLo, stackHi, stackD
    ensures Stacked(stackLo[..], stackHi[..], stackD[..], sp, After(rest, turn)) && sp <= 22
        && Thirding(After(rest, turn), total)
  {
    hide Thirding;
    sp := sp0;
    match turn {
      case Finished =>
        ThirdingPopped(rest, top, total);
      case Deeper(t) =>
        ThirdingSame(rest, top, t, total);
        sp := PushTask(stackLo, stackHi, stackD, sp, t, rest);
      case Three(t0, t1, t2) =>
        LongIsLow(rest + [top], total);
        ThirdingKept(rest, top, t0, t1, t2, total);
        sp := PushTask(stackLo, stackHi, stackD, sp, t0, rest);
        sp := PushTask(stackLo, stackHi, stackD, sp, t1, rest + [t0]);
        sp := PushTask(stackLo, stackHi, stackD, sp, t2, rest + [t0] + [t1]);
    }
  }
}
