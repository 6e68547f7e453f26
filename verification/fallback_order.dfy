/** What the rounds of the fallback sort achieve: rotations grouped and ordered
    by ever longer prefixes, with a bit at the start of every group. */
module FallbackOrder {
  import opened Words
  import opened Cyclic
  import opened Permuting

  /** Grouped and ordered by the first h characters; a bit marks exactly the
      start of every group. */
  ghost predicate Refined(b: seq<byte>, f: seq<nat>, bits: seq<bool>, h: nat) {
    && IsPermutation(f, |b|) && |bits| >= |b|
    && (forall i {:trigger f[i]} :: 0 < i < |b| ==> !Lt(b, f[i], f[i - 1], h))
    && (forall i {:trigger bits[i]} :: 0 <= i < |b| ==> (bits[i] <==> i == 0 || !Eq(b, f[i - 1], f[i], h)))
  }

  lemma RefinedAt(b: seq<byte>, f: seq<nat>, bits: seq<bool>, h: nat, i: nat)
    requires Refined(b, f, bits, h) && 0 < i < |b|
    ensures |f| == |b| && |bits| >= |b| && f[i] < |b| && f[i - 1] < |b|
    ensures !Lt(b, f[i], f[i - 1], h) && (bits[i] <==> !Eq(b, f[i - 1], f[i], h))
  {
  }

  lemma RefinedShape(b: seq<byte>, f: seq<nat>, bits: seq<bool>, h: nat)
    requires Refined(b, f, bits, h)
    ensures IsPermutation(f, |b|) && |bits| >= |b|
  {
  }

  // ---------- comparing at one depth ----------

  lemma NotAfter(b: seq<byte>, p: nat, q: nat, r: nat, h: nat)
    requires p < |b| && q < |b| && r < |b| && !Lt(b, q, p, h) && !Lt(b, r, q, h)
    ensures !Lt(b, r, p, h)
    ensures !Eq(b, p, q, h) || !Eq(b, q, r, h) ==> Lt(b, p, r, h) && !Eq(b, p, r, h)
    ensures Eq(b, p, q, h) && Eq(b, q, r, h) ==> Eq(b, p, r, h)
  {
    hide Lt, Eq;
    Trichotomy(b, p, q, h);
    Trichotomy(b, q, r, h);
    Trichotomy(b, p, r, h);
    LtTransitive(b, p, q, r, h);
    EqEquivalence(b, p, q, r, h);
  }

  /** Equal rotations compare alike. */
  lemma SameAlike(b: seq<byte>, p: nat, p': nat, q: nat, q': nat, h: nat)
    requires p < |b| && q < |b| && p' < |b| && q' < |b| && Eq(b, p, p', h) && Eq(b, q, q', h)
    ensures Lt(b, p, q, h) <==> Lt(b, p', q', h)
    ensures Eq(b, p, q, h) <==> Eq(b, p', q', h)
  {
    hide Lt, Eq;
    EqEquivalence(b, p, p', p, h);
    EqEquivalence(b, q, q', q, h);
    LtTransitive(b, p', p, q, h);
    LtTransitive(b, p', q, q', h);
    LtTransitive(b, p, p', q', h);
    LtTransitive(b, p, q', q, h);
    EqEquivalence(b, p', p, q, h);
    EqEquivalence(b, p', q, q', h);
    EqEquivalence(b, p, p', q', h);
    EqEquivalence(b, p, q', q, h);
  }

  // ---------- the classes of one round ----------

  /** The start of the group of entry i. */
  function Start(bits: seq<bool>, i: nat): (j: nat)
    requires i < |bits|
    ensures j <= i
  {
    if i == 0 || bits[i] then i else Start(bits, i - 1)
  }

  /** Starts compare as the entries do at depth h. */
  lemma {:induction false} StartsCompare(b: seq<byte>, f: seq<nat>, bits: seq<bool>, h: nat, x: nat, y: nat)
    requires Refined(b, f, bits, h) && x <= y < |b|
    ensures !Lt(b, f[y], f[x], h) && Start(bits, x) <= Start(bits, y)
    ensures Start(bits, x) == Start(bits, y) <==> Eq(b, f[x], f[y], h)
    ensures Start(bits, x) < Start(bits, y) ==> Lt(b, f[x], f[y], h)
    decreases y
  {
    hide Lt, Eq;
    Trichotomy(b, f[x], f[x], h);
    EqEquivalence(b, f[x], f[x], f[x], h);
    if x < y {
      StartsCompare(b, f, bits, h, x, y - 1);
      NotAfter(b, f[x], f[y - 1], f[y], h);
      EqEquivalence(b, f[x], f[y], f[y - 1], h);
      EqEquivalence(b, f[y], f[y - 1], f[x], h);
      assert bits[y] <==> !Eq(b, f[y - 1], f[y], h);
    }
  }

  /** The position h steps back. */
  function Back(n: nat, p: nat, h: nat): (q: nat)
    requires p < n && h <= n
    ensures q < n
  {
    if p >= h then p - h else p + n - h
  }

  lemma BackIsInverse(n: nat, p: nat, h: nat)
    requires p < n && h <= n
    ensures Adv(n, Back(n, p, h), h) == p && Back(n, Adv(n, p, h), h) == p
  {
    AdvIs(n, Back(n, p, h), h);
    AdvIs(n, p, h);
  }

  /** eclass holds, h steps before every entry, the start of its group. */
  ghost predicate Classes(b: seq<byte>, f: seq<nat>, bits: seq<bool>, h: nat, eclass: seq<nat>) {
    && IsPermutation(f, |b|) && h <= |b| <= |bits| && |b| <= |eclass|
    && forall i {:trigger f[i]} :: 0 <= i < |b| ==> eclass[Back(|b|, f[i], h)] == Start(bits, i)
  }

  /** Comparing classes compares the next h characters. */
  lemma ClassesCompare(b: seq<byte>, f: seq<nat>, bits: seq<bool>, h: nat, eclass: seq<nat>, p: nat, q: nat)
    requires Refined(b, f, bits, h) && Classes(b, f, bits, h, eclass) && p < |b| && q < |b|
    ensures var p', q' := Adv(|b|, p, h), Adv(|b|, q, h);
            && (eclass[p] == eclass[q] <==> Eq(b, p', q', h))
            && (eclass[p] <= eclass[q] ==> !Lt(b, q', p', h))
  {
    hide Refined, Lt, Eq, Adv, Start;
    var n := |b|;
    var p', q' := Adv(n, p, h), Adv(n, q, h);
    PermutationOnto(f, n, p');
    PermutationOnto(f, n, q');
    var x: nat :| x < n && f[x] == p';
    var y: nat :| y < n && f[y] == q';
    BackIsInverse(n, p, h);
    BackIsInverse(n, q, h);
    EqEquivalence(b, p', q', p', h);
    Trichotomy(b, p', q', h);
    if x <= y {
      StartsCompare(b, f, bits, h, x, y);
    } else {
      StartsCompare(b, f, bits, h, y, x);
    }
  }

  /** The positions of the block have one class. */
  ghost predicate OneClass(eclass: seq<nat>, n: nat) {
    n <= |eclass| && forall p {:trigger eclass[p]} :: 0 <= p < n ==> eclass[p] == eclass[0]
  }

  lemma UniformClass(b: seq<byte>, f: seq<nat>, bits: seq<bool>, h: nat, eclass: seq<nat>)
    requires Refined(b, f, bits, h) && Classes(b, f, bits, h, eclass)
    ensures Uniform(b) ==> OneClass(eclass, |b|)
  {
    hide Refined, Classes, Eq, Lt, Uniform;
    ClassesFit(b, f, bits, h, eclass);
    if Uniform(b) {
      forall p | 0 <= p < |b| ensures eclass[p] == eclass[0] {
        ClassesCompare(b, f, bits, h, eclass, p, 0);
        UniformEq(b, Adv(|b|, p, h), Adv(|b|, 0, h), h);
      }
    }
  }

  lemma ClassesFit(b: seq<byte>, f: seq<nat>, bits: seq<bool>, h: nat, eclass: seq<nat>)
    requires Classes(b, f, bits, h, eclass)
    ensures |b| <= |eclass|
  {
  }

  /** Doubling the depth. */
  lemma TwiceAsDeep(b: seq<byte>, f: seq<nat>, bits: seq<bool>, h: nat, eclass: seq<nat>, p: nat, q: nat)
    requires Refined(b, f, bits, h) && Classes(b, f, bits, h, eclass) && p < |b| && q < |b|
    ensures Lt(b, p, q, h) ==> Lt(b, p, q, 2 * h) && !Lt(b, q, p, 2 * h)
    ensures !Eq(b, p, q, h) ==> !Eq(b, p, q, 2 * h)
    ensures Eq(b, p, q, h) ==> (Eq(b, p, q, 2 * h) <==> eclass[p] == eclass[q])
    ensures Eq(b, p, q, h) && eclass[p] <= eclass[q] ==> !Lt(b, q, p, 2 * h)
  {
    hide Refined, Classes, Lt, Eq, Adv;
    Compose(b, p, q, h, h);
    Compose(b, q, p, h, h);
    assert h + h == 2 * h;
    ClassesCompare(b, f, bits, h, eclass, p, q);
    Trichotomy(b, p, q, h);
    Trichotomy(b, p, q, 2 * h);
    EqEquivalence(b, p, q, p, h);
  }

  // ---------- within one round ----------

  /** A round that started with f0 and bits0: the entries up to r are refined
      to twice the depth, the others untouched, and no entry has left its
      group. */
  ghost predicate Refining(b: seq<byte>, f0: seq<nat>, bits0: seq<bool>, f: seq<nat>, bits: seq<bool>, h: nat, r: int) {
    && -1 <= r < |b| && IsPermutation(f, |b|) && IsPermutation(f0, |b|) && |bits| == |bits0| >= |b|
    && (forall i {:trigger f[i]} {:trigger f0[i]} :: 0 <= i < |b| ==> Eq(b, f[i], f0[i], h))
    && (forall i {:trigger f[i]} :: r < i < |b| ==> f[i] == f0[i])
    && (forall i {:trigger bits[i]} :: r < i < |bits| ==> bits[i] == bits0[i])
    && (forall i {:trigger f[i]} :: 0 < i <= r ==> !Lt(b, f[i], f[i - 1], 2 * h))
    && (forall i {:trigger bits[i]} :: 0 <= i <= r ==> (bits[i] <==> i == 0 || !Eq(b, f[i - 1], f[i], 2 * h)))
  }

  lemma RefiningStart(b: seq<byte>, f: seq<nat>, bits: seq<bool>, h: nat)
    requires Refined(b, f, bits, h)
    ensures Refining(b, f, bits, f, bits, h, -1)
  {
    forall i | 0 <= i < |b| ensures Eq(b, f[i], f[i], h) {
      EqEquivalence(b, f[i], f[i], f[i], h);
    }
  }

  lemma RefiningEnd(b: seq<byte>, f0: seq<nat>, bits0: seq<bool>, f: seq<nat>, bits: seq<bool>, h: nat)
    requires |b| > 0 && Refining(b, f0, bits0, f, bits, h, |b| - 1)
    ensures Refined(b, f, bits, 2 * h)
  {
  }

  /** The first entry of a group comes after the entry before it. */
  lemma GroupStart(b: seq<byte>, f0: seq<nat>, bits0: seq<bool>, h: nat, eclass: seq<nat>, i: nat, p: nat, q: nat)
    requires Refined(b, f0, bits0, h) && Classes(b, f0, bits0, h, eclass) && 0 < i < |b| && bits0[i]
    requires p < |b| && q < |b| && Eq(b, p, f0[i - 1], h) && Eq(b, q, f0[i], h)
    ensures !Lt(b, q, p, 2 * h) && !Eq(b, p, q, 2 * h)
  {
    hide Lt, Eq, Classes;
    SameAlike(b, p, f0[i - 1], q, f0[i], h);
    Trichotomy(b, f0[i - 1], f0[i], h);
    assert !Lt(b, f0[i], f0[i - 1], h);
    TwiceAsDeep(b, f0, bits0, h, eclass, p, q);
  }

  /** A group of one needs nothing. */
  lemma SingleRefined(b: seq<byte>, f0: seq<nat>, bits0: seq<bool>, f: seq<nat>, bits: seq<bool>, h: nat,
      eclass: seq<nat>, r: int)
    requires Refined(b, f0, bits0, h) && Classes(b, f0, bits0, h, eclass)
    requires Refining(b, f0, bits0, f, bits, h, r) && r + 1 < |b| && bits[r + 1]
    ensures Refining(b, f0, bits0, f, bits, h, r + 1)
  {
    hide Lt, Eq, Classes, Refined;
    if r >= 0 {
      assert bits0[r + 1];
      assert Eq(b, f[r], f0[r], h) && Eq(b, f[r + 1], f0[r + 1], h);
      GroupStart(b, f0, bits0, h, eclass, r + 1, f[r], f[r + 1]);
    }
  }

  /** The bits after a group has been sorted: a bit wherever the key changes. */
  ghost predicate Headers(bits: seq<bool>, bits': seq<bool>, f: seq<nat>, keys: seq<nat>, l: int, r: int)
    requires Keyed(f, keys, l, r)
  {
    && |bits'| == |bits| && 0 <= l <= r < |bits|
    && (forall i {:trigger bits'[i]} :: 0 <= i < |bits| && !(l <= i <= r) ==> bits'[i] == bits[i])
    && (forall i {:trigger bits'[i]} ::
       l <= i <= r ==> (bits'[i] <==> bits[i] || i == l || keys[f[i - 1]] != keys[f[i]]))
  }

  /** Entries with no bit between them are in the same group. */
  lemma {:induction false} SameGroup(b: seq<byte>, f: seq<nat>, bits: seq<bool>, h: nat, x: nat, y: nat)
    requires Refined(b, f, bits, h) && x <= y < |b| && forall i :: x < i <= y ==> !bits[i]
    ensures Eq(b, f[x], f[y], h) && Eq(b, f[y], f[x], h)
    decreases y
  {
    hide Lt, Eq, Refined;
    RefinedShape(b, f, bits, h);
    EqEquivalence(b, f[x], f[x], f[x], h);
    if x < y {
      RefinedAt(b, f, bits, h, y);
      SameGroup(b, f, bits, h, x, y - 1);
      EqEquivalence(b, f[x], f[y - 1], f[y], h);
      EqEquivalence(b, f[x], f[y], f[x], h);
    }
  }

  /** The group from l to r of the start of the round. */
  ghost predicate IsGroup(bits: seq<bool>, l: int, r: int, n: nat) {
    0 <= l <= r < n <= |bits| && bits[l] && forall i {:trigger bits[i]} :: l < i <= r ==> !bits[i]
  }

  lemma StillInGroup(b: seq<byte>, f0: seq<nat>, bits0: seq<bool>, f: seq<nat>, f': seq<nat>, bits: seq<bool>, h: nat,
      l: int, r: int, i: int)
    requires Refined(b, f0, bits0, h) && Refining(b, f0, bits0, f, bits, h, l - 1) && IsGroup(bits, l, r, |b|)
    requires Permuted(f, f', l, r) && l <= i <= r && |f'| == |b|
    ensures f'[i] < |b| && Eq(b, f'[i], f0[i], h)
  {
    hide Lt, Eq, Permuted, Refined;
    var x := ComesFrom(f, f', l, r, i);
    assert f'[i] == f0[x];
    forall k | l < k <= r ensures !bits0[k] {
      assert bits[k] == bits0[k];
    }
    SameGroup(b, f0, bits0, h, if x <= i then x else i, if x <= i then i else x);
  }

  /** A group that has been sorted by class. */
  lemma GroupRefined(b: seq<byte>, f0: seq<nat>, bits0: seq<bool>, f: seq<nat>, bits: seq<bool>, f': seq<nat>,
      bits': seq<bool>, h: nat, eclass: seq<nat>, l: int, r: int)
    requires Refined(b, f0, bits0, h) && Classes(b, f0, bits0, h, eclass)
    requires Refining(b, f0, bits0, f, bits, h, l - 1) && IsGroup(bits, l, r, |b|)
    requires Permuted(f, f', l, r) && Keyed(f', eclass, l, r) && SortedBy(f', eclass, l, r)
        && Headers(bits, bits', f', eclass, l, r)
    ensures Refining(b, f0, bits0, f', bits', h, r)
  {
    hide Lt, Eq, Classes, Refined;
    assert f[..|b|] == f;
    StillPermutation(f, f', |b|, l, r);
    assert f'[..|b|] == f';
    forall i | 0 <= i < |b| ensures Eq(b, f'[i], f0[i], h) {
      if l <= i <= r {
        StillInGroup(b, f0, bits0, f, f', bits, h, l, r, i);
      } else {
        assert f'[i] == f[i];
      }
    }
    forall i | 0 < i <= r
      ensures !Lt(b, f'[i], f'[i - 1], 2 * h) && (bits'[i] <==> !Eq(b, f'[i - 1], f'[i], 2 * h))
    {
      if i < l {
        assert f'[i] == f[i] && f'[i - 1] == f[i - 1] && bits'[i] == bits[i];
      } else if i == l {
        assert bits0[l];
        GroupStart(b, f0, bits0, h, eclass, l, f'[l - 1], f'[l]);
      } else {
        assert !bits0[i] by { assert bits[i] == bits0[i]; }
        NextInGroup(b, f0, bits0, h, eclass, i, f'[i - 1], f'[i]);
      }
    }
  }

  /** Two entries next to each other in a sorted group. */
  lemma NextInGroup(b: seq<byte>, f0: seq<nat>, bits0: seq<bool>, h: nat, eclass: seq<nat>, i: nat, p: nat, q: nat)
    requires Refined(b, f0, bits0, h) && Classes(b, f0, bits0, h, eclass) && 0 < i < |b| && !bits0[i]
    requires p < |b| && q < |b| && Eq(b, p, f0[i - 1], h) && Eq(b, q, f0[i], h) && eclass[p] <= eclass[q]
    ensures !Lt(b, q, p, 2 * h) && (eclass[p] == eclass[q] <==> Eq(b, p, q, 2 * h))
  {
    hide Lt, Eq, Classes;
    SameAlike(b, p, f0[i - 1], q, f0[i], h);
    TwiceAsDeep(b, f0, bits0, h, eclass, p, q);
  }

  // ---------- the end ----------

  /** At the exit of the rounds the rotations are fully ordered. */
  lemma RefinedEnough(b: seq<byte>, f: seq<nat>, bits: seq<bool>, h: nat)
    requires Refined(b, f, bits, h) && (h > |b| || forall i :: 0 <= i < |b| ==> bits[i])
    ensures IsBlockSort(b, f)
  {
    hide Lt, Eq, Refined, Before;
    RefinedShape(b, f, bits, h);
    forall i, j | 0 <= i < j < |f| ensures !Before(b, f[j], f[i]) {
      NeverAfter(b, f, bits, h, i, j);
    }
  }

  lemma NeverAfter(b: seq<byte>, f: seq<nat>, bits: seq<bool>, h: nat, i: nat, j: nat)
    requires Refined(b, f, bits, h) && (h > |b| || forall i :: 0 <= i < |b| ==> bits[i]) && i < j < |f|
    ensures |f| == |b| && f[i] < |b| && f[j] < |b| && !Before(b, f[j], f[i])
  {
    hide Lt, Eq, Refined;
    RefinedShape(b, f, bits, h);
    StartsCompare(b, f, bits, h, i, j);
    if h > |b| {
      Compose(b, f[j], f[i], |b|, h - |b|);
    } else {
      assert bits[j];
      Compose(b, f[i], f[j], h, |b| - h);
      Trichotomy(b, f[i], f[j], |b|);
    }
  }
}
