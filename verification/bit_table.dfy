/** A table of bits in 32-bit words, as the fallback sort keeps its bucket
    headers. */
module BitTable {
  import opened Words

  const ALL_ONES := WORD - 1

  /** Bit j of a word. */
  predicate HasBit(w: nat, j: nat)
    decreases j
  {
    if j == 0 then w % 2 == 1 else HasBit(w / 2, j - 1)
  }

  lemma {:induction false} OrBit(a: nat, b: nat, j: nat)
    ensures HasBit(BitOr(a, b), j) <==> HasBit(a, j) || HasBit(b, j)
    decreases j
  {
    ZeroBit(j);
    if j > 0 && a != 0 && b != 0 {
      OrBit(a / 2, b / 2, j - 1);
    }
  }

  lemma {:induction false} AndBit(a: nat, b: nat, j: nat)
    ensures HasBit(BitAnd(a, b), j) <==> HasBit(a, j) && HasBit(b, j)
    decreases j
  {
    ZeroBit(j);
    if j > 0 && a != 0 && b != 0 {
      AndBit(a / 2, b / 2, j - 1);
    }
  }

  lemma {:induction false} ZeroBit(j: nat)
    ensures !HasBit(0, j)
    decreases j
  {
    if j > 0 {
      ZeroBit(j - 1);
    }
  }

  /** The mask 1 << k. */
  lemma {:induction false} MaskBit(k: nat, j: nat)
    ensures HasBit(Pow2(k), j) <==> j == k
    decreases j
  {
    if j > 0 {
      if k > 0 {
        assert Pow2(k) / 2 == Pow2(k - 1);
        MaskBit(k - 1, j - 1);
      } else {
        ZeroBit(j - 1);
      }
    }
  }

  /** Complementing n bits. */
  lemma {:induction false} NotBit(x: nat, n: nat, j: nat)
    requires x < Pow2(n) && j < n
    ensures HasBit(Pow2(n) - 1 - x, j) <==> !HasBit(x, j)
    decreases j
  {
    if j > 0 {
      assert (Pow2(n) - 1 - x) / 2 == Pow2(n - 1) - 1 - x / 2;
      NotBit(x / 2, n - 1, j - 1);
    }
  }

  lemma {:induction false} OrBelow(a: nat, b: nat, n: nat)
    requires a < Pow2(n) && b < Pow2(n)
    ensures BitOr(a, b) < Pow2(n)
    decreases n
  {
    if n > 0 && a != 0 && b != 0 {
      OrBelow(a / 2, b / 2, n - 1);
    }
  }

  lemma {:induction false} AndAtMost(a: nat, b: nat)
    ensures BitAnd(a, b) <= a
  {
    if a != 0 && b != 0 {
      AndAtMost(a / 2, b / 2);
    }
  }

  /** Two words below Pow2(n) with the same n bits are the same. */
  lemma {:induction false} SameBits(a: nat, b: nat, n: nat)
    requires a < Pow2(n) && b < Pow2(n) && forall j: nat :: j < n ==> HasBit(a, j) == HasBit(b, j)
    ensures a == b
    decreases n
  {
    if n > 0 {
      forall j: nat | j < n - 1 ensures HasBit(a / 2, j) == HasBit(b / 2, j) {
        assert HasBit(a, j + 1) == HasBit(b, j + 1);
      }
      SameBits(a / 2, b / 2, n - 1);
      assert HasBit(a, 0) == HasBit(b, 0);
    }
  }

  // ---------- the macros ----------

  function SetBit(w: nat, j: nat): nat {
    BitOr(w, Pow2(j))
  }

  function ClearBit(w: nat, j: nat): nat
    requires j < 32
  {
    Pow2Below(j, 32);
    Pow2Values();
    BitAnd(w, ALL_ONES - Pow2(j))
  }

  function TestBit(w: nat, j: nat): bool {
    BitAnd(w, Pow2(j)) != 0
  }

  lemma SetIs(w: nat, j: nat, i: nat)
    requires w < WORD && j < 32
    ensures SetBit(w, j) < WORD && (HasBit(SetBit(w, j), i) <==> HasBit(w, i) || i == j)
  {
    hide BitOr, HasBit, Pow2;
    Pow2Below(j, 32);
    Pow2Values();
    OrBelow(w, Pow2(j), 32);
    OrBit(w, Pow2(j), i);
    MaskBit(j, i);
  }

  lemma ClearIs(w: nat, j: nat, i: nat)
    requires w < WORD && j < 32 && i < 32
    ensures ClearBit(w, j) < WORD && (HasBit(ClearBit(w, j), i) <==> HasBit(w, i) && i != j)
  {
    hide BitAnd, HasBit, Pow2;
    Pow2Below(j, 32);
    Pow2Values();
    AndAtMost(w, ALL_ONES - Pow2(j));
    AndBit(w, ALL_ONES - Pow2(j), i);
    NotBit(Pow2(j), 32, i);
    MaskBit(j, i);
  }

  lemma TestIs(w: nat, j: nat)
    ensures TestBit(w, j) <==> HasBit(w, j)
  {
    hide BitAnd, HasBit, Pow2;
    AndBit(w, Pow2(j), j);
    MaskBit(j, j);
    ZeroBit(j);
    if BitAnd(w, Pow2(j)) != 0 {
      SomeBit(BitAnd(w, Pow2(j)));
      var i :| HasBit(BitAnd(w, Pow2(j)), i);
      AndBit(w, Pow2(j), i);
      MaskBit(j, i);
    }
  }

  lemma {:induction false} SomeBit(x: nat)
    requires x > 0
    ensures exists i: nat :: HasBit(x, i)
  {
    if x % 2 == 1 {
      assert HasBit(x, 0);
    } else {
      SomeBit(x / 2);
      var i: nat :| HasBit(x / 2, i);
      assert HasBit(x, i + 1);
    }
  }

  ghost predicate AllSet(w: nat) {
    forall j: nat {:trigger HasBit(w, j)} :: j < 32 ==> HasBit(w, j)
  }

  ghost predicate AllClear(w: nat) {
    forall j: nat {:trigger HasBit(w, j)} :: j < 32 ==> !HasBit(w, j)
  }

  /** Comparing a whole word compares its 32 bits. */
  lemma WordIs(w: nat)
    requires w < WORD
    ensures w == ALL_ONES <==> AllSet(w)
    ensures w == 0 <==> AllClear(w)
  {
    hide HasBit, Pow2;
    Pow2Values();
    forall j: nat | j < 32 ensures HasBit(ALL_ONES, j) && !HasBit(0, j) {
      ZeroBit(j);
      NotBit(0, 32, j);
    }
    if AllSet(w) {
      SameBits(w, ALL_ONES, 32);
    } else if AllClear(w) {
      SameBits(w, 0, 32);
    }
    assert AllSet(ALL_ONES) && AllClear(0);
    assert HasBit(ALL_ONES, 0) && !HasBit(0, 0);
  }

  // ---------- the table ----------

  ghost predicate AreWords(t: seq<nat>) {
    forall x {:trigger t[x]} :: 0 <= x < |t| ==> t[x] < WORD
  }

  ghost function Bits(t: seq<nat>): (s: seq<bool>)
    ensures |s| == 32 * |t|
    ensures forall k {:trigger s[k]} :: 0 <= k < |s| ==> s[k] == HasBit(t[k / 32], k % 32)
  {
    seq(32 * |t|, k requires 0 <= k < 32 * |t| => HasBit(t[k / 32], k % 32))
  }

  lemma BitsSet(t: seq<nat>, zz: nat)
    requires AreWords(t) && zz / 32 < |t|
    ensures var u := t[zz / 32 := SetBit(t[zz / 32], zz % 32)];
            AreWords(u) && Bits(u) == Bits(t)[zz := true]
  {
    hide HasBit, SetBit;
    var u := t[zz / 32 := SetBit(t[zz / 32], zz % 32)];
    SetIs(t[zz / 32], zz % 32, 0);
    forall k | 0 <= k < 32 * |t| ensures Bits(u)[k] == Bits(t)[zz := true][k] {
      SetIs(t[zz / 32], zz % 32, k % 32);
    }
  }

  lemma BitsCleared(t: seq<nat>, zz: nat)
    requires AreWords(t) && zz / 32 < |t|
    ensures var u := t[zz / 32 := ClearBit(t[zz / 32], zz % 32)];
            AreWords(u) && Bits(u) == Bits(t)[zz := false]
  {
    hide HasBit, ClearBit;
    var u := t[zz / 32 := ClearBit(t[zz / 32], zz % 32)];
    ClearIs(t[zz / 32], zz % 32, 0);
    forall k | 0 <= k < 32 * |t| ensures Bits(u)[k] == Bits(t)[zz := false][k] {
      ClearIs(t[zz / 32], zz % 32, k % 32);
    }
  }

  method SetBH(bhtab: array<nat>, zz: nat)
    requires AreWords(bhtab[..]) && zz / 32 < bhtab.Length
    modifies bhtab
    ensures AreWords(bhtab[..]) && Bits(bhtab[..]) == Bits(old(bhtab[..]))[zz := true]
  {
    hide SetBit, Bits, AreWords;
    ghost var t := bhtab[..];
    BitsSet(t, zz);
    bhtab[zz / 32] := SetBit(bhtab[zz / 32], zz % 32);
    assert bhtab[..] == t[zz / 32 := SetBit(t[zz / 32], zz % 32)];
  }

  method ClearBH(bhtab: array<nat>, zz: nat)
    requires AreWords(bhtab[..]) && zz / 32 < bhtab.Length
    modifies bhtab
    ensures AreWords(bhtab[..]) && Bits(bhtab[..]) == Bits(old(bhtab[..]))[zz := false]
  {
    hide ClearBit, Bits, AreWords;
    ghost var t := bhtab[..];
    BitsCleared(t, zz);
    bhtab[zz / 32] := ClearBit(bhtab[zz / 32], zz % 32);
    assert bhtab[..] == t[zz / 32 := ClearBit(t[zz / 32], zz % 32)];
  }

  function IsSetBH(bhtab: array<nat>, zz: nat): (s: bool)
    requires zz / 32 < bhtab.Length
    reads bhtab
    ensures s == Bits(bhtab[..])[zz]
  {
    TestIs(bhtab[zz / 32], zz % 32);
    TestBit(bhtab[zz / 32], zz % 32)
  }

  lemma WordBits(t: seq<nat>, k: nat)
    requires AreWords(t) && k % 32 == 0 && k / 32 < |t|
    ensures t[k / 32] == ALL_ONES ==> forall x :: k <= x < k + 32 ==> Bits(t)[x]
    ensures t[k / 32] == 0 ==> forall x :: k <= x < k + 32 ==> !Bits(t)[x]
  {
    hide HasBit;
    WordIs(t[k / 32]);
    forall x | k <= x < k + 32 ensures x / 32 == k / 32 && Bits(t)[x] == HasBit(t[k / 32], x % 32) {
    }
  }

  /** Main result: the scan for the next clear bit, which skips whole words,
      finds the first one. */
  method NextClear(bhtab: array<nat>, k0: nat, ghost e: nat) returns (k: nat)
    requires AreWords(bhtab[..]) && k0 <= e < 32 * bhtab.Length && !Bits(bhtab[..])[e]
    ensures k0 <= k <= e && !Bits(bhtab[..])[k] && forall x :: k0 <= x < k ==> Bits(bhtab[..])[x]
  {
    hide Bits, AreWords;
    ghost var bits := Bits(bhtab[..]);
    k := k0;
    while IsSetBH(bhtab, k) && k % 32 != 0
      invariant k0 <= k <= e && forall x :: k0 <= x < k ==> bits[x]
      decreases e - k
    {
      k := k + 1;
    }
    if IsSetBH(bhtab, k) {
      while bhtab[k / 32] == ALL_ONES
        invariant k0 <= k <= e && k % 32 == 0 && forall x :: k0 <= x < k ==> bits[x]
        decreases e - k
      {
        WordBits(bhtab[..], k);
        k := k + 32;
      }
      while IsSetBH(bhtab, k)
        invariant k0 <= k <= e && forall x :: k0 <= x < k ==> bits[x]
        decreases e - k
      {
        k := k + 1;
      }
    }
  }

  /** Main result: the same for the next set bit. */
  method NextSet(bhtab: array<nat>, k0: nat, ghost e: nat) returns (k: nat)
    requires AreWords(bhtab[..]) && k0 <= e < 32 * bhtab.Length && Bits(bhtab[..])[e]
    ensures k0 <= k <= e && Bits(bhtab[..])[k] && forall x :: k0 <= x < k ==> !Bits(bhtab[..])[x]
  {
    hide Bits, AreWords;
    ghost var bits := Bits(bhtab[..]);
    k := k0;
    while !IsSetBH(bhtab, k) && k % 32 != 0
      invariant k0 <= k <= e && forall x :: k0 <= x < k ==> !bits[x]
      decreases e - k
    {
      k := k + 1;
    }
    if !IsSetBH(bhtab, k) {
      while bhtab[k / 32] == 0
        invariant k0 <= k <= e && k % 32 == 0 && forall x :: k0 <= x < k ==> !bits[x]
        decreases e - k
      {
        WordBits(bhtab[..], k);
        k := k + 32;
      }
      while !IsSetBH(bhtab, k)
        invariant k0 <= k <= e && forall x :: k0 <= x < k ==> !bits[x]
        decreases e - k
      {
        k := k + 1;
      }
    }
  }
}
