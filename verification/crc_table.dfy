/** The program's CRC table, made from its polynomial, and that its low bytes
    tell its entries apart. */
module CrcTable {
  import opened Words
  import opened Crc
  import opened CrcLaw

  const POLYNOMIAL := 0x04c1_1db7

  /** One bit through the shift register. */
  function Shifted(c: nat): (r: nat)
    requires c < WORD
    ensures r < WORD
  {
    Pow2Values();
    XorBound(2 * c % WORD, POLYNOMIAL, 32);
    if c >= 0x8000_0000 then BitXor(2 * c % WORD, POLYNOMIAL) else 2 * c % WORD
  }

  function Steps(c: nat, k: nat): (r: nat)
    requires c < WORD
    ensures r < WORD
  {
    if k == 0 then c else Shifted(Steps(c, k - 1))
  }

  /** BZ2_crc32Table. */
  function Table(): (tab: seq<nat>)
    ensures IsTable(tab) && forall i :: 0 <= i < 256 ==> tab[i] == Steps(i * 0x100_0000, 8)
  {
    seq(256, i requires 0 <= i < 256 => Steps(i * 0x100_0000, 8))
  }

  // ---------- exclusive or above a bit ----------

  lemma {:induction false} XorShr(a: nat, b: nat, k: nat)
    ensures Shr(BitXor(a, b), k) == BitXor(Shr(a, k), Shr(b, k))
    decreases k
  {
    hide BitXor;
    if k > 0 {
      XorShr(a / 2, b / 2, k - 1);
      XorHalves(a, b);
    }
  }

  lemma {:induction false} ShrBelow(x: nat, k: nat)
    ensures x < Pow2(k) <==> Shr(x, k) == 0
    decreases k
  {
    if k > 0 {
      ShrBelow(x / 2, k - 1);
    }
  }

  lemma {:induction false} ShrTimes(i: nat, k: nat)
    ensures Shr(i * Pow2(k), k) == i
    decreases k
  {
    if k > 0 {
      ShrTimes(i, k - 1);
      DoubleFactor(i, Pow2(k - 1));
    }
  }

  lemma XorSelf(a: nat, b: nat)
    ensures BitXor(a, b) == 0 <==> a == b
  {
    SelfIsZero(b);
    hide BitXor;
    if BitXor(a, b) == 0 {
      XorInjective(a, b, b);
    }
  }

  lemma {:induction false} SelfIsZero(b: nat)
    ensures BitXor(b, b) == 0
  {
    if b > 0 {
      SelfIsZero(b / 2);
    }
  }

  /** Two words agree from bit k on if and only if they differ by less. */
  lemma SameAbove(a: nat, b: nat, k: nat)
    ensures BitXor(a, b) < Pow2(k) <==> Shr(a, k) == Shr(b, k)
  {
    hide BitXor, Shr;
    XorShr(a, b, k);
    XorSelf(Shr(a, k), Shr(b, k));
    ShrBelow(BitXor(a, b), k);
  }

  lemma {:induction false} XorBoth(x: nat, y: nat, m: nat)
    ensures BitXor(BitXor(x, m), BitXor(y, m)) == BitXor(x, y)
    decreases x + y + m
  {
    hide BitXor;
    XorHalves(x, m);
    XorHalves(y, m);
    XorHalves(x, y);
    XorHalves(BitXor(x, m), BitXor(y, m));
    if x + y + m > 0 {
      XorBoth(x / 2, y / 2, m / 2);
    }
  }

  lemma XorDouble(a: nat, b: nat)
    ensures BitXor(2 * a, 2 * b) == 2 * BitXor(a, b)
  {
    hide BitXor;
    XorHalves(2 * a, 2 * b);
  }

  // ---------- the register ----------

  /** With equal top bits a step doubles the difference. */
  lemma ShiftedDifference(a: nat, b: nat)
    requires a < WORD && b < WORD && BitXor(a, b) < 0x8000_0000
    ensures BitXor(Shifted(a), Shifted(b)) == 2 * BitXor(a, b)
  {
    hide BitXor;
    TopSame(a, b);
    var t := if a >= 0x8000_0000 then 0x8000_0000 else 0;
    DivModUnique(2 * a, WORD, t / 0x8000_0000, 2 * (a - t));
    DivModUnique(2 * b, WORD, t / 0x8000_0000, 2 * (b - t));
    XorDouble(a - t, b - t);
    WithoutTop(a, b, t);
    if t > 0 {
      XorBoth(2 * a % WORD, 2 * b % WORD, POLYNOMIAL);
    }
  }

  lemma TopSame(a: nat, b: nat)
    requires a < WORD && b < WORD
    ensures BitXor(a, b) < 0x8000_0000 <==> (a >= 0x8000_0000 <==> b >= 0x8000_0000)
  {
    hide BitXor, Pow2, Shr;
    Pow31();
    SameAbove(a, b, 31);
    TopBitShr(a);
    TopBitShr(b);
  }

  lemma TopBitShr(a: nat)
    requires a < WORD
    ensures Shr(a, 31) == if a >= 0x8000_0000 then 1 else 0
  {
    hide Pow2, Shr;
    Pow31();
    ShrBelow(a, 31);
    Pow2Values();
    ShrBelow(a, 32);
    ShrNext(a, 31);
    ShrBelow(a, 31);
  }

  /** One place more. */
  lemma {:induction false} ShrNext(x: nat, k: nat)
    ensures Shr(x, k + 1) == Shr(x, k) / 2
    decreases k
  {
    if k > 0 {
      ShrNext(x / 2, k - 1);
    } else {
      assert Shr(x / 2, 0) == x / 2;
    }
  }

  lemma Pow31()
    ensures Pow2(31) == 0x8000_0000
  {
    Pow2Values();
    Pow2Add(16, 15);
  }

  /** Taking the same top bit off both keeps the difference. */
  lemma WithoutTop(a: nat, b: nat, t: nat)
    requires a < WORD && b < WORD && (a >= 0x8000_0000 <==> b >= 0x8000_0000)
    requires t == if a >= 0x8000_0000 then 0x8000_0000 else 0
    ensures BitXor(a - t, b - t) == BitXor(a, b)
  {
    hide BitXor, Pow2;
    Pow31();
    XorMod(a, b, 31);
    TopSame(a, b);
    assert a % 0x8000_0000 == a - t && b % 0x8000_0000 == b - t;
  }

  /** While the top bits agree the registers differ by the shifted difference. */
  lemma {:induction false} Difference(c: nat, d: nat, j: nat)
    requires c < WORD && d < WORD && j <= 32 && BitXor(c, d) < Pow2(32 - j)
    ensures BitXor(Steps(c, j), Steps(d, j)) == BitXor(c, d) * Pow2(j)
    decreases j
  {
    hide BitXor, Shifted;
    if j > 0 {
      Pow31();
      Pow2Add(32 - j, j - 1);
      MulLess(BitXor(c, d), Pow2(32 - j), Pow2(j - 1));
      assert Pow2(33 - j) == 2 * Pow2(32 - j);
      Difference(c, d, j - 1);
      ShiftedDifference(Steps(c, j - 1), Steps(d, j - 1));
      TwiceTimes(BitXor(c, d), Pow2(j - 1));
    }
  }

  lemma TwiceTimes(x: nat, p: nat)
    ensures 2 * (x * p) == x * (2 * p)
  {
  }

  /** The lowest bit after a step is the top bit before it. */
  lemma LowBit(a: nat)
    requires a < WORD
    ensures Shifted(a) % 2 == a / 0x8000_0000
  {
    hide BitXor;
    XorHalves(2 * a % WORD, POLYNOMIAL);
    assert 2 * a % WORD % 2 == 0;
  }

  /** The k low bits after k steps tell the k top bits before. */
  lemma {:induction false} LowTellsTop(c: nat, d: nat, k: nat)
    requires c < WORD && d < WORD && k <= 32 && Steps(c, k) % Pow2(k) == Steps(d, k) % Pow2(k)
    ensures BitXor(c, d) < Pow2(32 - k)
    decreases k
  {
    hide BitXor, Shifted, Pow2;
    Pow2Values();
    if k == 0 {
      XorBound(c, d, 32);
    } else {
      var a, b := Steps(c, k - 1), Steps(d, k - 1);
      Pow2Double(k - 1);
      LowBitSame(Steps(c, k), Steps(d, k), Pow2(k - 1));
      LowBit(a);
      LowBit(b);
      LowStep(a, b, k);
      LowTellsTop(c, d, k - 1);
      Difference(c, d, k - 1);
      TopSame(a, b);
      TopGone(BitXor(c, d), k);
    }
  }

  lemma Pow2Double(k: nat)
    ensures Pow2(k + 1) == 2 * Pow2(k)
  {
  }

  lemma LowBitSame(x: nat, y: nat, p: nat)
    requires p > 0 && x % (2 * p) == y % (2 * p)
    ensures x % 2 == y % 2
  {
    ModOfMod(x, 2, p);
    ModOfMod(y, 2, p);
  }

  lemma TopGone(x: nat, k: nat)
    requires 0 < k <= 32 && x * Pow2(k - 1) < 0x8000_0000
    ensures x < Pow2(32 - k)
  {
    hide Pow2;
    Pow31();
    Pow2Add(32 - k, k - 1);
    if x >= Pow2(32 - k) {
      var e := x - Pow2(32 - k);
      Distribute3(Pow2(32 - k), e, Pow2(k - 1));
    }
  }

  /** With equal top bits, equal below bit k after a step means equal below bit
      k - 1 before it. */
  lemma LowStep(a: nat, b: nat, k: nat)
    requires a < WORD && b < WORD && 0 < k <= 32 && (a >= 0x8000_0000 <==> b >= 0x8000_0000)
    requires Shifted(a) % Pow2(k) == Shifted(b) % Pow2(k)
    ensures a % Pow2(k - 1) == b % Pow2(k - 1)
  {
    hide BitXor, Pow2;
    Pow2Values();
    XorSameBelow(2 * a % WORD, 2 * b % WORD, POLYNOMIAL, k);
    Pow2Add(k, 32 - k);
    ModOfMod(2 * a, Pow2(k), Pow2(32 - k));
    ModOfMod(2 * b, Pow2(k), Pow2(32 - k));
    Pow2Double(k - 1);
    ModTimes(a, Pow2(k - 1), 2);
    ModTimes(b, Pow2(k - 1), 2);
  }

  /** Main result: the program's table is one that detects. */
  lemma TableDetects()
    ensures LowApart(Table())
  {
    hide BitXor, Steps, Pow2;
    Pow2Values();
    forall i: nat, j: nat | i < j < 256 ensures Table()[i] % 256 != Table()[j] % 256 {
      if Table()[i] % 256 == Table()[j] % 256 {
        SameEntry(i, j);
      }
    }
  }

  lemma SameEntry(i: nat, j: nat)
    requires i < 256 && j < 256 && Table()[i] % 256 == Table()[j] % 256
    ensures i == j
  {
    hide BitXor, Steps, Pow2, Shr;
    Pow2Values();
    LowTellsTop(i * 0x100_0000, j * 0x100_0000, 8);
    SameAbove(i * 0x100_0000, j * 0x100_0000, 24);
    ShrTimes(i, 24);
    ShrTimes(j, 24);
  }

  // ---------- the entries ----------

  lemma {:induction false} XorAssociative(x: nat, y: nat, z: nat)
    ensures BitXor(BitXor(x, y), z) == BitXor(x, BitXor(y, z))
    decreases x + y + z
  {
    hide BitXor;
    XorHalves(x, y);
    XorHalves(y, z);
    XorHalves(BitXor(x, y), z);
    XorHalves(x, BitXor(y, z));
    if x + y + z > 0 {
      XorAssociative(x / 2, y / 2, z / 2);
    } else {
      XorZero(0);
    }
  }

  /** Moving the polynomial out of either side, or out of both. */
  lemma XorMoves(x: nat, y: nat, m: nat)
    ensures BitXor(BitXor(x, m), y) == BitXor(BitXor(x, y), m) == BitXor(x, BitXor(y, m))
  {
    hide BitXor;
    XorAssociative(x, m, y);
    XorCommutes(m, y);
    XorAssociative(x, y, m);
  }

  lemma DoubledXor(a: nat, b: nat)
    requires a < WORD && b < WORD
    ensures 2 * BitXor(a, b) % WORD == BitXor(2 * a % WORD, 2 * b % WORD)
  {
    hide BitXor;
    Pow2Values();
    XorDouble(a, b);
    XorMod(2 * a, 2 * b, 32);
  }

  lemma ShiftedLinear(a: nat, b: nat)
    requires a < WORD && b < WORD
    ensures BitXor(a, b) < WORD && Shifted(BitXor(a, b)) == BitXor(Shifted(a), Shifted(b))
  {
    hide BitXor;
    Pow2Values();
    XorBound(a, b, 32);
    DoubledXor(a, b);
    TopSame(a, b);
    XorMoves(2 * a % WORD, 2 * b % WORD, POLYNOMIAL);
    XorBoth(2 * a % WORD, 2 * b % WORD, POLYNOMIAL);
  }

  lemma {:induction false} StepsLinear(a: nat, b: nat, k: nat)
    requires a < WORD && b < WORD
    ensures BitXor(a, b) < WORD && Steps(BitXor(a, b), k) == BitXor(Steps(a, k), Steps(b, k))
  {
    hide BitXor, Shifted;
    Pow2Values();
    XorBound(a, b, 32);
    if k > 0 {
      StepsLinear(a, b, k - 1);
      ShiftedLinear(Steps(a, k - 1), Steps(b, k - 1));
    }
  }

  lemma {:induction false} XorTimes(i: nat, j: nat, k: nat)
    ensures BitXor(i * Pow2(k), j * Pow2(k)) == BitXor(i, j) * Pow2(k)
  {
    hide BitXor;
    if k > 0 {
      XorTimes(i, j, k - 1);
      DoubleFactor(i, Pow2(k - 1));
      DoubleFactor(j, Pow2(k - 1));
      DoubleFactor(BitXor(i, j), Pow2(k - 1));
      XorDouble(i * Pow2(k - 1), j * Pow2(k - 1));
    }
  }

  lemma {:induction false} StepsAdd(c: nat, j: nat, k: nat)
    requires c < WORD
    ensures Steps(c, j + k) == Steps(Steps(c, j), k)
  {
    hide Shifted;
    if k > 0 {
      StepsAdd(c, j, k - 1);
    }
  }

  /** Doubling until the top bit is reached. */
  lemma {:induction false} ToTheTop(c: nat, n: nat)
    requires 0 < c && c * Pow2(n) < WORD
    ensures c < WORD && Steps(c, n) == c * Pow2(n)
  {
    hide Shifted;
    if n > 0 {
      DoubleFactor(c, Pow2(n - 1));
      Pow2Bound(c, Pow2(n - 1));
      ToTheTop(c, n - 1);
      PlainShift(c * Pow2(n - 1));
    } else {
      assert c * Pow2(0) == c;
    }
  }

  lemma Pow2Bound(c: nat, p: nat)
    requires p > 0 && c > 0
    ensures c <= c * p
  {
  }

  lemma PlainShift(x: nat)
    requires 2 * x < WORD
    ensures Shifted(x) == 2 * x
  {
  }

  lemma TopShift()
    ensures Shifted(0x8000_0000) == 0x04c1_1db7
  {
    hide BitXor;
    XorZero(0x04c1_1db7);
  }

  /** The entry of one bit: n steps to the top, one that takes it out, and the
      rest. */
  lemma BitEntry(c: nat, n: nat)
    requires c < WORD && n <= 7 && c * Pow2(n) == 0x8000_0000
    ensures Steps(c, 8) == Steps(0x04c1_1db7, 7 - n)
  {
    hide Shifted, Pow2;
    ToTheTop(c, n);
    OneStepMore(0x8000_0000);
    TopShift();
    StepsAdd(c, n, 8 - n);
    StepsAdd(0x8000_0000, 1, 7 - n);
  }

  lemma OneStepMore(x: nat)
    requires x < WORD
    ensures Steps(x, 1) == Shifted(x) && Steps(x, 0) == x
  {
    hide Shifted;
    assert Steps(x, 0) == x;
  }

  lemma {:induction false} ZeroSteps(k: nat)
    ensures Steps(0, k) == 0
  {
    if k > 0 {
      ZeroSteps(k - 1);
    }
  }

  lemma StepFrom(c: nat, k: nat, x: nat)
    requires c < WORD && Steps(c, k) == x && 2 * x < WORD
    ensures Steps(c, k + 1) == 2 * x
  {
    hide Steps;
    StepsAdd(c, k, 1);
    OneStepMore(x);
    PlainShift(x);
  }

  /** The polynomial in the register. */
  lemma Register()
    ensures var p := 0x04c1_1db7;
            && Steps(p, 0) == p && Steps(p, 1) == 0x0982_3b6e && Steps(p, 2) == 0x1304_76dc
            && Steps(p, 3) == 0x2608_edb8 && Steps(p, 4) == 0x4c11_db70 && Steps(p, 5) == 0x9823_b6e0
            && Steps(p, 6) == 0x3486_7077 && Steps(p, 7) == 0x690c_e0ee
  {
    hide Steps;
    var p := 0x04c1_1db7;
    OneStepMore(p);
    StepFrom(p, 0, p);
    StepFrom(p, 1, 0x0982_3b6e);
    StepFrom(p, 2, 0x1304_76dc);
    StepFrom(p, 3, 0x2608_edb8);
    StepFrom(p, 4, 0x4c11_db70);
    StepsAdd(p, 5, 1);
    OneStepMore(0x9823_b6e0);
    TakenOut();
    StepFrom(p, 6, 0x3486_7077);
  }

  lemma TakenOut()
    ensures Shifted(0x9823_b6e0) == 0x3486_7077
  {
    hide BitXor;
    ByteXor0();
    ByteXor1();
    ByteXor2();
    ByteXor3();
    XorByte(0x3047_6dc0, 0x04c1_1db7);
    XorByte(0x30_476d, 0x04_c11d);
    XorByte(0x3047, 0x04c1);
  }

  lemma ByteXor0()
    ensures BitXor(0x30, 0x04) == 0x34
  {
    hide BitXor;
    XorHalves(0x30, 0x4);
    XorHalves(0x18, 0x2);
    XorHalves(0xc, 0x1);
    XorZero(0x6);
  }

  lemma ByteXor1()
    ensures BitXor(0x47, 0xc1) == 0x86
  {
    hide BitXor;
    XorHalves(0x47, 0xc1);
    XorHalves(0x23, 0x60);
    XorHalves(0x11, 0x30);
    XorHalves(0x8, 0x18);
    XorHalves(0x4, 0xc);
    XorHalves(0x2, 0x6);
    XorHalves(0x1, 0x3);
    XorZero(0x1);
  }

  lemma ByteXor2()
    ensures BitXor(0x6d, 0x1d) == 0x70
  {
    hide BitXor;
    XorHalves(0x6d, 0x1d);
    XorHalves(0x36, 0xe);
    XorHalves(0x1b, 0x7);
    XorHalves(0xd, 0x3);
    XorHalves(0x6, 0x1);
    XorZero(0x3);
  }

  lemma ByteXor3()
    ensures BitXor(0xc0, 0xb7) == 0x77
  {
    hide BitXor;
    XorHalves(0xc0, 0xb7);
    XorHalves(0x60, 0x5b);
    XorHalves(0x30, 0x2d);
    XorHalves(0x18, 0x16);
    XorHalves(0xc, 0xb);
    XorHalves(0x6, 0x5);
    XorHalves(0x3, 0x2);
    XorHalves(0x1, 0x1);
    XorZero(0x0);
  }

  /** One byte at a time. */
  lemma XorByte(a: nat, b: nat)
    ensures BitXor(a, b) == 256 * BitXor(a / 256, b / 256) + BitXor(a % 256, b % 256)
  {
    hide BitXor, Shr;
    Pow2Values();
    XorMod(a, b, 8);
    XorShr(a, b, 8);
    ByteShr(a);
    ByteShr(b);
    ByteShr(BitXor(a, b));
  }

  lemma ByteShr(x: nat)
    ensures Shr(x, 8) == x / 256
  {
    ShrNext(x, 0);
    ShrNext(x, 1);
    ShrNext(x, 2);
    ShrNext(x, 3);
    ShrNext(x, 4);
    ShrNext(x, 5);
    ShrNext(x, 6);
    ShrNext(x, 7);
    assert Shr(x, 0) == x;
  }

  /** Main result: the entries at the powers of two, from which all others are
      combined. */
  lemma TableEntries(i: nat, j: nat)
    requires i < 256 && j < 256
    ensures BitXor(i, j) < 256 && Table()[BitXor(i, j)] == BitXor(Table()[i], Table()[j])
    ensures Table()[0] == 0 && Table()[1] == 0x04c1_1db7 && Table()[2] == 0x0982_3b6e && Table()[4] == 0x1304_76dc
    ensures Table()[8] == 0x2608_edb8 && Table()[16] == 0x4c11_db70 && Table()[32] == 0x9823_b6e0
    ensures Table()[64] == 0x3486_7077 && Table()[128] == 0x690c_e0ee
  {
    hide BitXor, Steps, Pow2;
    Pow2Values();
    XorBound(i, j, 8);
    XorTimes(i, j, 24);
    StepsLinear(i * 0x100_0000, j * 0x100_0000, 8);
    ZeroSteps(8);
    Pow2Double(5);
    Pow2Double(6);
    BitEntry(0x100_0000, 7);
    BitEntry(0x200_0000, 6);
    BitEntry(0x400_0000, 5);
    BitEntry(0x800_0000, 4);
    BitEntry(0x1000_0000, 3);
    BitEntry(0x2000_0000, 2);
    BitEntry(0x4000_0000, 1);
    BitEntry(0x8000_0000, 0);
    Register();
  }

  // ---------- examples ----------

  lemma FirstIndex()
    ensures BitXor(0xff, 0xfe) == 0x01
  {
    hide BitXor;
    XorHalves(0xff, 0xfe);
    XorHalves(0x7f, 0x7f);
    XorHalves(0x3f, 0x3f);
    XorHalves(0x1f, 0x1f);
    XorHalves(0xf, 0xf);
    XorHalves(0x7, 0x7);
    XorHalves(0x3, 0x3);
    XorHalves(0x1, 0x1);
    XorZero(0x0);
  }

  lemma FirstXor()
    ensures BitXor(0xffff_ff00, 0x04c1_1db7) == 0xfb3e_e2b7
  {
    hide BitXor;
    XorByte(0xffff_ff00, 0x04c1_1db7);
    XorByte(0xff_ffff, 0x04_c11d);
    XorByte(0xffff, 0x04c1);
    OnesXor0();
    OnesXor1();
    OnesXor2();
    XorZero(0xb7);
  }

  lemma OnesXor0()
    ensures BitXor(0xff, 0x04) == 0xfb
  {
    hide BitXor;
    XorHalves(0xff, 0x4);
    XorHalves(0x7f, 0x2);
    XorHalves(0x3f, 0x1);
    XorZero(0x1f);
  }

  lemma OnesXor1()
    ensures BitXor(0xff, 0xc1) == 0x3e
  {
    hide BitXor;
    XorHalves(0xff, 0xc1);
    XorHalves(0x7f, 0x60);
    XorHalves(0x3f, 0x30);
    XorHalves(0x1f, 0x18);
    XorHalves(0xf, 0xc);
    XorHalves(0x7, 0x6);
    XorHalves(0x3, 0x3);
    XorHalves(0x1, 0x1);
    XorZero(0x0);
  }

  lemma OnesXor2()
    ensures BitXor(0xff, 0x1d) == 0xe2
  {
    hide BitXor;
    XorHalves(0xff, 0x1d);
    XorHalves(0x7f, 0xe);
    XorHalves(0x3f, 0x7);
    XorHalves(0x1f, 0x3);
    XorHalves(0xf, 0x1);
    XorZero(0x7);
  }

  /** The CRC of nothing and of one byte. */
  lemma FirstCrcs()
    ensures BlockCrc(Table(), []) == 0 && BlockCrc(Table(), [0xfe]) == 0x04c1_1d48
  {
    TableEntries(0, 0);
    CrcOfNone(Table(), INITIAL);
    CrcNext(Table(), INITIAL, [], 0xfe);
    assert [] + [0xfe] == [0xfe];
    FirstIndex();
    FirstXor();
    FirstStep(Table());
  }

  lemma FirstStep(tab: seq<nat>)
    requires IsTable(tab) && BitXor(0xff, 0xfe) == 1 && BitXor(0xffff_ff00, tab[1]) == 0xfb3e_e2b7
    ensures UpdateCrc(tab, 0xffff_ffff, 0xfe) == 0xfb3e_e2b7
  {
    hide BitXor;
  }
}
