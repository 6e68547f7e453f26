/** The SFMT generator: in-place regeneration of its state against the infinite
    recurrence it stands for, and the certification of its period. The
    recursion on four 128-bit words is any fixed function. */
module Sfmt {
  import opened Words
  import opened BitTable

  type word = n: nat | n < WORD

  /** A 128-bit word as four 32-bit lanes. */
  datatype Lanes = Lanes(w0: word, w1: word, w2: word, w3: word)

  function Lane(l: Lanes, k: nat): word
    requires k < 4
  {
    if k == 0 then l.w0 else if k == 1 then l.w1 else if k == 2 then l.w2 else l.w3
  }

  function SetLane(l: Lanes, k: nat, v: word): (r: Lanes)
    requires k < 4
    ensures forall j: nat :: j < 4 ==> Lane(r, j) == if j == k then v else Lane(l, j)
  {
    if k == 0 then l.(w0 := v) else if k == 1 then l.(w1 := v) else if k == 2 then l.(w2 := v) else l.(w3 := v)
  }

  type Recursion = (Lanes, Lanes, Lanes, Lanes) -> Lanes

  /** The sizes of one variant of the generator: the state vector and the
      position of the intermediate feedback. */
  datatype Variant = Variant(N: nat, M: nat, f: Recursion)

  ghost predicate Proper(v: Variant) {
    2 <= v.N && 0 < v.M < v.N
  }

  /** The infinite sequence that starts with the given words. */
  function X(v: Variant, init: seq<Lanes>, k: nat): Lanes
    requires Proper(v) && |init| == v.N
  {
    if k < v.N then init[k]
    else v.f(X(v, init, k - v.N), X(v, init, k - v.N + v.M), X(v, init, k - 2), X(v, init, k - 1))
  }

  /** The 32-bit words that are given out, in order: those after the initial
      ones. */
  function Word(v: Variant, init: seq<Lanes>, j: nat): word
    requires Proper(v) && |init| == v.N
  {
    Lane(X(v, init, v.N + j / 4), j % 4)
  }

  // ---------- parity ----------

  /** Whether an odd number of the n low bits is set. */
  function LowParity(x: nat, n: nat): bool
    decreases n
  {
    if n == 0 then false else (x % 2 == 1) != LowParity(x / 2, n - 1)
  }

  lemma {:induction false} XorParity(a: nat, b: nat, n: nat)
    ensures LowParity(BitXor(a, b), n) == (LowParity(a, n) != LowParity(b, n))
    decreases n
  {
    ZeroParity(n);
    if n > 0 && a != 0 && b != 0 {
      XorParity(a / 2, b / 2, n - 1);
    }
  }

  lemma {:induction false} ZeroParity(n: nat)
    ensures !LowParity(0, n)
    decreases n
  {
    if n > 0 {
      ZeroParity(n - 1);
    }
  }

  lemma {:induction false} SplitParity(x: nat, a: nat, b: nat)
    ensures LowParity(x, a + b) == (LowParity(x, a) != LowParity(Shr(x, a), b))
    decreases a
  {
    if a > 0 {
      SplitParity(x / 2, a - 1, b);
    }
  }

  /** Folding the upper half of 2k bits onto the lower keeps the parity. */
  lemma FoldParity(x: nat, k: nat)
    ensures LowParity(BitXor(x, Shr(x, k)), k) == LowParity(x, k + k)
  {
    hide LowParity, BitXor, Shr;
    XorParity(x, Shr(x, k), k);
    SplitParity(x, k, k);
  }

  lemma AndHalves(a: nat, b: nat)
    ensures BitAnd(a, b) / 2 == BitAnd(a / 2, b / 2)
    ensures BitAnd(a, b) % 2 == (if a % 2 == 1 && b % 2 == 1 then 1 else 0)
  {
  }

  lemma {:induction false} AndOverXor(p: nat, a: nat, b: nat)
    ensures BitAnd(p, BitXor(a, b)) == BitXor(BitAnd(p, a), BitAnd(p, b))
    decreases p
  {
    var l, r := BitAnd(p, BitXor(a, b)), BitXor(BitAnd(p, a), BitAnd(p, b));
    if p == 0 {
      assert BitAnd(p, a) == 0 && BitAnd(p, b) == 0 && BitXor(0, 0) == 0;
    } else {
      hide BitAnd, BitXor;
      XorHalves(a, b);
      AndHalves(p, BitXor(a, b));
      AndHalves(p, a);
      AndHalves(p, b);
      XorHalves(BitAnd(p, a), BitAnd(p, b));
      AndOverXor(p / 2, a / 2, b / 2);
      assert l / 2 == r / 2 && l % 2 == r % 2;
    }
  }

  lemma {:induction false} AndOneBit(p: nat, m: nat)
    ensures BitAnd(p, Pow2(m)) == if HasBit(p, m) then Pow2(m) else 0
    decreases m
  {
    if p == 0 {
      ZeroBit(m);
    } else if m > 0 {
      AndOneBit(p / 2, m - 1);
    } else {
      assert BitAnd(p / 2, 0) == 0;
    }
  }

  lemma {:induction false} OneBitParity(m: nat, n: nat)
    requires m < n
    ensures LowParity(Pow2(m), n)
    decreases m
  {
    if m > 0 {
      OneBitParity(m - 1, n - 1);
    } else {
      ZeroParity(n - 1);
    }
  }

  /** Flipping a bit under the mask changes the parity under the mask. */
  lemma FlipParity(p: nat, s: nat, m: nat)
    requires HasBit(p, m) && m < 32
    ensures LowParity(BitAnd(p, BitXor(s, Pow2(m))), 32) != LowParity(BitAnd(p, s), 32)
  {
    hide LowParity, BitXor, BitAnd, Pow2, HasBit;
    AndOverXor(p, s, Pow2(m));
    AndOneBit(p, m);
    XorParity(BitAnd(p, s), Pow2(m), 32);
    OneBitParity(m, 32);
  }

  /** The words that the certification folds together. */
  function Masked(parityvec: Lanes, s: Lanes, n: nat): nat
    requires n <= 4
  {
    if n == 0 then 0 else BitXor(Masked(parityvec, s, n - 1), BitAnd(Lane(parityvec, n - 1), Lane(s, n - 1)))
  }

  /** The period certification: an odd number of the bits under the
      certification vector is set. */
  predicate Certified(parityvec: Lanes, s: Lanes) {
    LowParity(Masked(parityvec, s, 4), 32)
  }

  /** A lane with bit m flipped. */
  function FlipBit(s: Lanes, i: nat, m: nat): Lanes
    requires i < 4 && m < 32
  {
    Pow2Values();
    Pow2Below(m, 32);
    XorBound(Lane(s, i), Pow2(m), 32);
    SetLane(s, i, BitXor(Lane(s, i), Pow2(m)))
  }

  lemma {:induction false} FlipChanges(parityvec: Lanes, s: Lanes, i: nat, m: nat, n: nat)
    requires i < 4 && m < 32 && HasBit(Lane(parityvec, i), m) && n <= 4
    ensures LowParity(Masked(parityvec, FlipBit(s, i, m), n), 32) == (LowParity(Masked(parityvec, s, n), 32) != (i < n))
  {
    var t := FlipBit(s, i, m);
    if n > 0 {
      assert Lane(t, n - 1) == if n - 1 == i then BitXor(Lane(s, i), Pow2(m)) else Lane(s, n - 1);
      hide LowParity, BitXor, BitAnd, Pow2, HasBit, FlipBit, Lane;
      FlipChanges(parityvec, s, i, m, n - 1);
      FlipParity(Lane(parityvec, i), Lane(s, i), m);
      XorParity(Masked(parityvec, s, n - 1), BitAnd(Lane(parityvec, n - 1), Lane(s, n - 1)), 32);
      XorParity(Masked(parityvec, t, n - 1), BitAnd(Lane(parityvec, n - 1), Lane(t, n - 1)), 32);
    }
  }

  /** Folding a word in halves down to one bit leaves its parity there. */
  lemma FoldsToParity(x: nat, a: nat, b: nat, c: nat, d: nat, e: nat)
    requires a == BitXor(x, Shr(x, 16)) && b == BitXor(a, Shr(a, 8)) && c == BitXor(b, Shr(b, 4))
    requires d == BitXor(c, Shr(c, 2)) && e == BitXor(d, Shr(d, 1))
    ensures (e % 2 == 1) == LowParity(x, 32)
  {
    assert (e % 2 == 1) == LowParity(e, 1) by { assert !LowParity(e / 2, 0); }
    hide BitXor, LowParity, Shr;
    FoldParity(x, 16);
    FoldParity(a, 8);
    FoldParity(b, 4);
    FoldParity(c, 2);
    FoldParity(d, 1);
  }

  // ---------- seeding ----------

  const FACTOR := 1812433253

  /** Word i of the state, counted in 32-bit words. */
  function SeedWord(seed: word, i: nat): word {
    if i == 0 then seed
    else
      var y := SeedWord(seed, i - 1);
      (FACTOR * BitXor(y, Shr(y, 30)) + i) % WORD
  }

  /** Undoes the multiplication by FACTOR, modulo 2^32. */
  const UNFACTOR := 2520285293

  lemma FactorInjective(a: word, b: word, i: nat)
    requires (FACTOR * a + i) % WORD == (FACTOR * b + i) % WORD
    ensures a == b
  {
    assert FACTOR * UNFACTOR == 1063535193 * WORD + 1;
    var k := (FACTOR * a + i) / WORD - (FACTOR * b + i) / WORD;
    assert FACTOR * (a - b) == k * WORD;
    assert a - b == (UNFACTOR * k - 1063535193 * (a - b)) * WORD;
  }

  /** A word is determined by it and its two upper bits folded onto the two
      lower ones. */
  lemma FoldInjective(a: word, b: word)
    requires BitXor(a, Shr(a, 30)) == BitXor(b, Shr(b, 30))
    ensures a == b
  {
    hide BitXor, Shr;
    TopTwo(a);
    TopTwo(b);
    AboveTwo(a, Shr(a, 30));
    AboveTwo(b, Shr(b, 30));
    XorInjective(a, b, Shr(a, 30));
  }

  /** Folding keeps what is above the two lower bits. */
  lemma AboveTwo(y: nat, u: nat)
    requires u < 4
    ensures BitXor(y, u) / 4 == y / 4
  {
    hide BitXor;
    XorHalves(y, u);
    XorHalves(y / 2, u / 2);
    XorZero(y / 4);
    QuarterIs(BitXor(y, u));
    QuarterIs(y);
  }

  lemma QuarterIs(y: nat)
    ensures y / 2 / 2 == y / 4
  {
  }

  lemma TopTwo(a: word)
    ensures Shr(a, 30) == a / 4 / 0x1000_0000 < 4
  {
    hide Shr;
    Pow2Values();
    Pow2Add(24, 4);
    Pow2Add(28, 2);
    ShrIs(a, 30);
    assert a / 0x4000_0000 == a / 4 / 0x1000_0000;
  }

  lemma {:induction false} ShrIs(x: nat, k: nat)
    ensures Shr(x, k) == x / Pow2(k)
    decreases k
  {
    if k > 0 {
      ShrIs(x / 2, k - 1);
      HalfDivided(x, Pow2(k - 1));
    }
  }

  lemma HalfDivided(x: nat, p: nat)
    requires p > 0
    ensures x / 2 / p == x / (2 * p)
  {
    var q, r := x / 2 / p, x / 2 % p;
    assert x / 2 == q * p + r;
    DoubleFactor(q, p);
    DivModUnique(x, 2 * p, q, 2 * r + x % 2);
  }

  /** Main result for the seeding: any word that is filled in determines the
      seed. */
  lemma {:induction false} SeedDetermined(a: word, b: word, i: nat)
    requires SeedWord(a, i) == SeedWord(b, i)
    ensures a == b
  {
    if i > 0 {
      NextSeedWord(a, i);
      NextSeedWord(b, i);
      hide SeedWord;
      var y, z := SeedWord(a, i - 1), SeedWord(b, i - 1);
      FoldBound(y);
      FoldBound(z);
      FactorInjective(BitXor(y, Shr(y, 30)), BitXor(z, Shr(z, 30)), i);
      FoldInjective(y, z);
      SeedDetermined(a, b, i - 1);
    }
  }

  lemma FoldBound(y: word)
    ensures BitXor(y, Shr(y, 30)) < WORD
  {
    hide BitXor, Shr;
    Pow2Values();
    ShrMonotone(y, y, 30);
    XorBound(y, Shr(y, 30), 32);
  }

  /** The first words for seed 1. */
  lemma FirstWords()
    ensures SeedWord(1, 0) == 1 && SeedWord(1, 1) == 1812433254
    ensures SeedWord(1, 2) == 3713160357 && SeedWord(1, 3) == 3109174145 && SeedWord(1, 4) == 64984499
  {
    hide SeedWord;
    FirstWord(1);
    NextFrom(1, 1, 1, 0, 1);
    NextFrom(1, 2, 1812433254, 1, 1812433255);
    NextFrom(1, 3, 3713160357, 3, 3713160358);
    NextFrom(1, 4, 3109174145, 2, 3109174147);
  }

  lemma FirstWord(seed: word)
    ensures SeedWord(seed, 0) == seed
  {
  }

  lemma NextFrom(seed: word, i: nat, y: word, u: nat, x: nat)
    requires i > 0 && SeedWord(seed, i - 1) == y && y / 0x4000_0000 == u < 4
    requires x / 4 == y / 4 && x % 4 == BitXor(y % 4, u)
    ensures SeedWord(seed, i) == (1812433253 * x + i) % WORD
  {
    hide SeedWord, BitXor, Shr;
    NextSeedWord(seed, i);
    TopTwo(y);
    LowTwo(y, u);
    QuarterTop(y);
  }

  lemma QuarterTop(y: nat)
    ensures y / 0x4000_0000 == y / 4 / 0x1000_0000
  {
  }

  /** Folding changes only the two lower bits. */
  lemma LowTwo(y: nat, u: nat)
    requires u < 4
    ensures BitXor(y, u) == y / 4 * 4 + BitXor(y % 4, u)
  {
    hide BitXor;
    XorHalves(y, u);
    XorHalves(y / 2, u / 2);
    XorHalves(y % 4, u);
    XorHalves(y % 4 / 2, u / 2);
    XorZero(y / 4);
    XorZero(0);
  }

  function SeedLanes(seed: word, i: nat): Lanes {
    Lanes(SeedWord(seed, 4 * i), SeedWord(seed, 4 * i + 1), SeedWord(seed, 4 * i + 2), SeedWord(seed, 4 * i + 3))
  }

  /** The state that the seed fills in, before the certification. */
  ghost predicate Seeded(seed: word, s: seq<Lanes>) {
    forall i: nat :: i < |s| ==> s[i] == SeedLanes(seed, i)
  }

  /** What the certification may do to the first word of the state: nothing
      when it is certified already, and else flip the lowest bit of the
      certification vector. */
  ghost predicate Adjusted(parityvec: Lanes, s: Lanes, t: Lanes) {
    if Certified(parityvec, s) then t == s
    else exists i: nat, m: nat :: i < 4 && m < 32 && Lowest(parityvec, i, m) && t == FlipBit(s, i, m)
  }

  ghost predicate Lowest(parityvec: Lanes, i: nat, m: nat)
    requires i < 4
  {
    && HasBit(Lane(parityvec, i), m)
    && (forall k: nat :: k < i ==> Lane(parityvec, k) == 0)
    && (forall k: nat :: k < m ==> !HasBit(Lane(parityvec, i), k))
  }

  /** States filled in from two seeds differ in every word. */
  lemma SeedsApart(a: word, b: word, s: seq<Lanes>, t: seq<Lanes>, i: nat, k: nat)
    requires Seeded(a, s) && Seeded(b, t) && a != b && i < |s| && i < |t| && k < 4
    ensures Lane(s[i], k) != Lane(t[i], k)
  {
    hide SeedWord;
    if Lane(s[i], k) == Lane(t[i], k) {
      SeedDetermined(a, b, 4 * i + k);
    }
  }

  /** The adjustment certifies the state. */
  lemma AdjustedIsCertified(parityvec: Lanes, s: Lanes, t: Lanes)
    requires Adjusted(parityvec, s, t)
    ensures Certified(parityvec, t)
  {
    if !Certified(parityvec, s) {
      var i: nat, m: nat :| i < 4 && m < 32 && Lowest(parityvec, i, m) && t == FlipBit(s, i, m);
      FlipChanges(parityvec, s, i, m, 4);
    }
  }

  /** The first n 32-bit words of the state are the seed's. */
  ghost predicate Filled(s: seq<Lanes>, seed: word, n: nat) {
    forall j: nat {:trigger SeedWord(seed, j)} :: j < n && j / 4 < |s| ==> Lane(s[j / 4], j % 4) == SeedWord(seed, j)
  }

  lemma StartFilled(s: seq<Lanes>, seed: word)
    requires |s| > 0
    ensures Filled(s[0 := SetLane(s[0], 0, seed)], seed, 1) && SeedWord(seed, 0) == seed
  {
  }

  lemma NextSeedWord(seed: word, i: nat)
    requires i > 0
    ensures SeedWord(seed, i) == (FACTOR * BitXor(SeedWord(seed, i - 1), Shr(SeedWord(seed, i - 1), 30)) + i) % WORD
  {
  }

  lemma StepFilled(s: seq<Lanes>, seed: word, i: nat)
    requires i / 4 < |s| && Filled(s, seed, i)
    ensures Filled(s[i / 4 := SetLane(s[i / 4], i % 4, SeedWord(seed, i))], seed, i + 1)
  {
    hide SeedWord;
    var t := s[i / 4 := SetLane(s[i / 4], i % 4, SeedWord(seed, i))];
    forall j: nat {:trigger SeedWord(seed, j)} | j < i + 1 && j / 4 < |t|
      ensures Lane(t[j / 4], j % 4) == SeedWord(seed, j)
    {
      if j < i && j / 4 == i / 4 {
        assert j % 4 != i % 4;
      }
    }
  }

  lemma EndFilled(s: seq<Lanes>, seed: word)
    requires Filled(s, seed, 4 * |s|)
    ensures Seeded(seed, s)
  {
    hide SeedWord, Filled;
    forall k: nat | k < |s| ensures s[k] == SeedLanes(seed, k) {
      FilledAt(s, seed, k, 0);
      FilledAt(s, seed, k, 1);
      FilledAt(s, seed, k, 2);
      FilledAt(s, seed, k, 3);
    }
  }

  lemma FilledAt(s: seq<Lanes>, seed: word, k: nat, r: nat)
    requires Filled(s, seed, 4 * |s|) && k < |s| && r < 4
    ensures Lane(s[k], r) == SeedWord(seed, 4 * k + r)
  {
    hide SeedWord;
    assert (4 * k + r) / 4 == k && (4 * k + r) % 4 == r;
  }

  lemma SomeLane(l: Lanes)
    requires l != Lanes(0, 0, 0, 0)
    ensures exists k: nat :: k < 4 && Lane(l, k) != 0
  {
    assert Lane(l, 0) != 0 || Lane(l, 1) != 0 || Lane(l, 2) != 0 || Lane(l, 3) != 0;
  }

  // ---------- the generator ----------

  class SFMTRand {
    const v: Variant
    const parityvec: Lanes
    const state: array<Lanes>
    var ix: nat
    ghost var init: seq<Lanes>
    ghost var generation: nat

    ghost predicate Shape()
      reads this`init
    {
      && Proper(v)
      && state.Length == |init| == v.N
      && parityvec != Lanes(0, 0, 0, 0)
    }

    /** The state holds the N values of the sequence that belong to a
        generation. */
    ghost predicate Holds(g: nat)
      requires Shape()
      reads this`init, state
    {
      forall k: nat :: k < v.N ==> state[k] == X(v, init, v.N * g + k)
    }

    ghost predicate Valid()
      reads this, state
    {
      && Shape()
      && generation >= 1
      && ix <= 4 * v.N
      && Holds(generation)
      && Certified(parityvec, init[0])
    }

    /** How many 32-bit words of the sequence have been given out. */
    ghost function Count(): nat
      requires Valid()
      reads this, state
    {
      4 * (v.N * (generation - 1)) + ix
    }

    constructor (v: Variant, parityvec: Lanes, seed: int)
      requires Proper(v) && parityvec != Lanes(0, 0, 0, 0)
      ensures Valid() && Count() == 0 && this.v == v && this.parityvec == parityvec && fresh(state)
    {
      this.v := v;
      this.parityvec := parityvec;
      state := new Lanes[v.N](_ => Lanes(0, 0, 0, 0));
      init := seq(v.N, _ => Lanes(0, 0, 0, 0));
      new;
      RandomInit(seed);
    }

    /** Reseeding starts the sequence of the new seed from its beginning. */
    method RandomInit(seed: int)
      requires Shape()
      modifies this, state
      ensures Valid() && Count() == 0
      ensures exists s ::
          |s| == v.N && Seeded(seed % WORD, s) && init[1..] == s[1..] && Adjusted(parityvec, s[0], init[0])
    {
      FillState(seed % WORD);
      ghost var s := state[..];
      Init2();
      assert Seeded(seed % WORD, s);
    }

    /** Fills the state, one 32-bit word at a time. */
    method FillState(seed: word)
      requires Shape()
      modifies state
      ensures Seeded(seed, state[..])
    {
      hide Filled, SetLane, Lane, SeedWord;
      var y := seed;
      StartFilled(state[..], seed);
      state[0] := SetLane(state[0], 0, y);
      var i := 1;
      while i < v.N * 4
        invariant 1 <= i <= v.N * 4
        invariant y == SeedWord(seed, i - 1)
        invariant Filled(state[..], seed, i)
        modifies state
      {
        NextSeedWord(seed, i);
        StepFilled(state[..], seed, i);
        ghost var next := state[..][i / 4 := SetLane(state[i / 4], i % 4, SeedWord(seed, i))];
        y := (FACTOR * BitXor(y, Shr(y, 30)) + i) % WORD;
        state[i / 4] := SetLane(state[i / 4], i % 4, y);
        assert state[..] == next;
        i := i + 1;
      }
      EndFilled(state[..], seed);
    }

    method Init2()
      requires Shape()
      modifies this, state
      ensures Valid() && Count() == 0
      ensures init[1..] == old(state[1..]) && Adjusted(parityvec, old(state[0]), init[0])
    {
      Certify();
      init := state[..];
      generation := 0;
      forall k: nat | k < v.N ensures state[k] == X(v, init, v.N * 0 + k) {
      }
      AdjustedIsCertified(parityvec, old(state[0]), init[0]);
      Generate();
    }

    /** The certification of the period. */
    method Certify()
      requires Shape()
      modifies state
      ensures state[1..] == old(state[1..]) && Adjusted(parityvec, old(state[0]), state[0])
    {
      var temp := 0;
      var i := 0;
      while i < 4
        invariant 0 <= i <= 4 && temp == Masked(parityvec, state[0], i)
        modifies {}
      {
        temp := BitXor(temp, BitAnd(Lane(parityvec, i), Lane(state[0], i)));
        i := i + 1;
      }
      ghost var folded := temp;
      var t16 := BitXor(temp, Shr(temp, 16));
      var t8 := BitXor(t16, Shr(t16, 8));
      var t4 := BitXor(t8, Shr(t8, 4));
      var t2 := BitXor(t4, Shr(t4, 2));
      temp := BitXor(t2, Shr(t2, 1));
      FoldsToParity(folded, t16, t8, t4, t2, temp);
      if temp % 2 == 0 {
        ChangeParity();
      }
    }

    /** The search for a bit of the certification vector. */
    method ChangeParity()
      requires Shape()
      modifies state
      ensures state[1..] == old(state[1..])
      ensures exists i: nat, m: nat ::
          i < 4 && m < 32 && Lowest(parityvec, i, m) && state[0] == FlipBit(old(state[0]), i, m)
    {
      var i, done := 0, false;
      ghost var at: nat, bit: nat := 0, 0;
      while i < 4
        invariant state[1..] == old(state[1..])
        invariant !done ==>
            0 <= i <= 4 && state[0] == old(state[0]) && forall k: nat :: k < i ==> Lane(parityvec, k) == 0
        invariant done ==>
            at < 4 && bit < 32 && Lowest(parityvec, at, bit) && state[0] == FlipBit(old(state[0]), at, bit) && i == 6
        decreases 6 - i
        modifies state
      {
        if Lane(parityvec, i) != 0 {
          var found, m := LowestBit(Lane(parityvec, i));
          FlipMask(state[0], i, m);
          state[0] := SetLane(state[0], i, BitXor(Lane(state[0], i), found));
          at, bit, done := i, m, true;
          i := 5;
        }
        i := i + 1;
      }
      SomeLane(parityvec);
    }

    /** Replaces every word of the state by its successor N places on, with
        the older words still in place behind the newer ones. */
    method Generate()
      requires Shape() && Holds(generation)
      modifies this`ix, this`generation, state
      ensures Holds(generation) && generation == old(generation) + 1 && ix == 0
    {
      hide X, Certified, Lane;
      var r1, r2 := state[v.N - 2], state[v.N - 1];
      ghost var g := generation;
      Offsets(v.N, g);
      var i := 0;
      while i < v.N - v.M
        invariant 0 <= i <= v.N - v.M
        invariant Between(g, i)
        invariant r1 == X(v, init, v.N * g + v.N + i - 2) && r2 == X(v, init, v.N * g + v.N + i - 1)
        modifies state
      {
        NextWord(v, init, v.N * g, i);
        var r := v.f(state[i], state[i + v.M], r1, r2);
        state[i] := r;
        r1, r2 := r2, r;
        i := i + 1;
      }
      while i < v.N
        invariant v.N - v.M <= i <= v.N
        invariant Between(g, i)
        invariant r1 == X(v, init, v.N * g + v.N + i - 2) && r2 == X(v, init, v.N * g + v.N + i - 1)
        modifies state
      {
        NextWord(v, init, v.N * g, i);
        var r := v.f(state[i], state[i + v.M - v.N], r1, r2);
        state[i] := r;
        r1, r2 := r2, r;
        i := i + 1;
      }
      ix := 0;
      generation := g + 1;
    }

    /** The first i words are of the next generation already. */
    ghost predicate Between(g: nat, i: nat)
      requires Shape()
      reads this`init, state
    {
      && (forall k: nat :: k < i && k < v.N ==> state[k] == X(v, init, v.N * g + v.N + k))
      && (forall k: nat :: i <= k < v.N ==> state[k] == X(v, init, v.N * g + k))
    }

    /** Gives out the next word of the sequence. */
    method BRandom() returns (y: word)
      requires Valid()
      modifies this`ix, this`generation, state
      ensures Valid() && Count() == old(Count()) + 1 && init == old(init)
      ensures y == Word(v, init, old(Count()))
    {
      hide X, Lane, Certified;
      Places(v.N, generation, ix);
      Offsets(v.N, generation - 1);
      if ix >= v.N * 4 {
        Generate();
      }
      Places(v.N, generation, ix);
      y := Lane(state[ix / 4], ix % 4);
      ix := ix + 1;
    }
  }

  lemma Offsets(n: nat, g: nat)
    ensures n * (g + 1) == n * g + n
  {
  }

  /** Where word ix of a generation stands in the sequence. */
  lemma Places(n: nat, g: nat, ix: nat)
    requires g >= 1
    ensures n + (4 * (n * (g - 1)) + ix) / 4 == n * g + ix / 4
    ensures (4 * (n * (g - 1)) + ix) % 4 == ix % 4
  {
    Offsets(n, g - 1);
  }

  /** One step of the recurrence, at word i of the generation after the one
      that starts at base. */
  lemma NextWord(v: Variant, init: seq<Lanes>, base: nat, i: nat)
    requires Proper(v) && |init| == v.N && i < v.N
    ensures X(v, init, base + v.N + i)
         == v.f(X(v, init, base + i), X(v, init, base + i + v.M), X(v, init, base + v.N + i - 2),
             X(v, init, base + v.N + i - 1))
  {
  }

  lemma FlipMask(s: Lanes, i: nat, m: nat)
    requires i < 4 && m < 32
    ensures BitXor(Lane(s, i), Pow2(m)) < WORD
  {
    Pow2Values();
    Pow2Below(m, 32);
    XorBound(Lane(s, i), Pow2(m), 32);
  }

  /** The search with a mask that is shifted until it drops out of the word. */
  method LowestBit(p: word) returns (j: word, ghost m: nat)
    requires p != 0
    ensures m < 32 && j == Pow2(m) && HasBit(p, m) && forall k: nat :: k < m ==> !HasBit(p, k)
  {
    hide HasBit, BitAnd, Pow2;
    j, m := 1, 0;
    Pow2Values();
    while j != 0
      invariant m <= 32 && j == (if m < 32 then Pow2(m) else 0)
      invariant forall k: nat :: k < m ==> !HasBit(p, k)
      decreases 32 - m
    {
      AndOneBit(p, m);
      if BitAnd(p, j) != 0 {
        return;
      }
      Pow2Add(1, m);
      if m < 31 {
        Pow2Below(m + 1, 32);
      }
      j := (2 * j) % WORD;
      m := m + 1;
    }
    NoBits(p);
  }

  lemma NoBits(p: word)
    requires forall k: nat :: k < 32 ==> !HasBit(p, k)
    ensures p == 0
  {
    Pow2Values();
    forall k: nat | k < 32 ensures HasBit(p, k) == HasBit(0, k) {
      ZeroBit(k);
    }
    SameBits(p, 0, 32);
  }
}
