/** The recursion that the program compiles in, on four 128-bit words, and why
    the generator can be run backwards. */
module SfmtStep {
  import opened Words
  import opened Sfmt

  // ---------- the vector instructions ----------

  /** The 128 bits as one number, the first lane lowest. */
  function Number(l: Lanes): nat {
    l.w0 + l.w1 * 0x1_0000_0000 + l.w2 * 0x1_0000_0000_0000_0000 + l.w3 * 0x1_0000_0000_0000_0000_0000_0000
  }

  /** A lane of a word shifted left by three bytes, with the lane below it. */
  function LaneLeft(x: word, below: word): word {
    x % 256 * 0x100_0000 + below / 256
  }

  function LaneRight(x: word, above: word): word {
    above % 0x100_0000 * 256 + x / 0x100_0000
  }

  /** All 128 bits shifted left by three bytes. */
  function BytesLeft(l: Lanes): Lanes {
    Lanes(LaneLeft(l.w0, 0), LaneLeft(l.w1, l.w0), LaneLeft(l.w2, l.w1), LaneLeft(l.w3, l.w2))
  }

  /** All 128 bits shifted right by three bytes. */
  function BytesRight(l: Lanes): Lanes {
    Lanes(LaneRight(l.w0, l.w1), LaneRight(l.w1, l.w2), LaneRight(l.w2, l.w3), LaneRight(l.w3, 0))
  }

  lemma BytesShifted(l: Lanes)
    ensures Number(BytesLeft(l)) == Number(l) * 0x100_0000 % 0x1_0000_0000_0000_0000_0000_0000_0000_0000
    ensures Number(BytesRight(l)) == Number(l) / 0x100_0000
  {
    var n, m, k := Number(l), 0x1_0000_0000_0000_0000_0000_0000_0000_0000, 0x100_0000;
    assert n * k == l.w3 / 256 * m + Number(BytesLeft(l));
    DivModUnique(n * k, m, l.w3 / 256, Number(BytesLeft(l)));
    assert n == Number(BytesRight(l)) * k + l.w0 % k;
    DivModUnique(n, k, Number(BytesRight(l)), l.w0 % k);
  }

  function Xor32(a: word, b: word): word {
    Pow2Values();
    XorBound(a, b, 32);
    BitXor(a, b)
  }

  function XorLanes(a: Lanes, b: Lanes): Lanes {
    Lanes(Xor32(a.w0, b.w0), Xor32(a.w1, b.w1), Xor32(a.w2, b.w2), Xor32(a.w3, b.w3))
  }

  lemma {:induction false} AndAtMost(a: nat, b: nat)
    ensures BitAnd(a, b) <= a
  {
    if a != 0 && b != 0 {
      AndAtMost(a / 2, b / 2);
    }
  }

  /** Every lane shifted right by 7 and masked. */
  function MaskedLane(x: word, mask: nat): word {
    AndAtMost(x / 128, mask);
    BitAnd(x / 128, mask)
  }

  function MaskedRight(l: Lanes): Lanes {
    Lanes(MaskedLane(l.w0, 0xeffff7fb), MaskedLane(l.w1, 0xffffffef), MaskedLane(l.w2, 0xdfdfbfff),
          MaskedLane(l.w3, 0x7fffdbfd))
  }

  /** Every lane shifted left by 14. */
  function LanesLeft(l: Lanes): Lanes {
    Lanes(Left14(l.w0), Left14(l.w1), Left14(l.w2), Left14(l.w3))
  }

  function Left14(x: word): word {
    x * 0x4000 % WORD
  }

  /** sfmt_recursion for the exponent 11213. */
  function Step(a: Lanes, b: Lanes, c: Lanes, d: Lanes): Lanes {
    XorLanes(XorLanes(XorLanes(a, BytesLeft(a)), BytesRight(c)), XorLanes(MaskedRight(b), LanesLeft(d)))
  }

  const SFMT11213 := Variant(88, 68, Step)
  const PARITY11213 := Lanes(1, 0, 0xe8148000, 0xd0c7afa3)

  lemma {:induction false} AndCommutes(a: nat, b: nat)
    ensures BitAnd(a, b) == BitAnd(b, a)
  {
    if a != 0 && b != 0 {
      AndCommutes(a / 2, b / 2);
    }
  }

  lemma XorZeroLanes(a: Lanes)
    ensures forall z {:trigger XorLanes(a, z)} {:trigger XorLanes(z, a)} ::
              IsZero(z) ==> XorLanes(a, z) == a && XorLanes(z, a) == a
  {
    hide BitXor;
    XorZero(a.w0);
    XorZero(a.w1);
    XorZero(a.w2);
    XorZero(a.w3);
  }

  /** All ones shifted right by 7 are 25 ones. */
  lemma OnesMasked(mask: nat, q: nat, r: nat)
    requires mask == q * 0x200_0000 + r && r < 0x200_0000
    ensures MaskedLane(0xffff_ffff, mask) == r
  {
    hide BitAnd, Pow2;
    AndCommutes(0x1ff_ffff, mask);
    Pow2Add(20, 5);
    Pow2Values();
    AndMask(mask, 25);
    DivModUnique(mask, 0x200_0000, q, r);
  }

  lemma ZeroMasked(mask: nat)
    ensures MaskedLane(0, mask) == 0
  {
    hide BitAnd;
    NothingAnd(mask);
  }

  lemma NothingAnd(mask: nat)
    ensures BitAnd(0, mask) == 0
  {
  }

  ghost predicate IsZero(z: Lanes) {
    z.w0 == 0 && z.w1 == 0 && z.w2 == 0 && z.w3 == 0
  }

  lemma ZeroLeft()
    ensures LaneLeft(0, 0) == 0
  {
  }

  lemma ZeroRight()
    ensures LaneRight(0, 0) == 0
  {
  }

  lemma Fourteen()
    ensures Left14(0) == 0 && Left14(1) == 0x4000
  {
  }

  lemma ZeroShifted(z: Lanes)
    requires IsZero(z)
    ensures IsZero(BytesLeft(z)) && IsZero(BytesRight(z)) && IsZero(MaskedRight(z)) && IsZero(LanesLeft(z))
  {
    hide MaskedLane, LaneLeft, LaneRight, Left14;
    ZeroLeft();
    ZeroRight();
    Fourteen();
    ZeroMasked(0xeffff7fb);
    ZeroMasked(0xffffffef);
    ZeroMasked(0xdfdfbfff);
    ZeroMasked(0x7fffdbfd);
  }

  /** What each argument of the step does alone. */
  lemma StepAlone(x: Lanes, z: Lanes)
    requires IsZero(z)
    ensures Step(x, z, z, z) == XorLanes(x, BytesLeft(x)) && Step(z, x, z, z) == MaskedRight(x)
    ensures Step(z, z, x, z) == BytesRight(x) && Step(z, z, z, x) == LanesLeft(x)
  {
    hide XorLanes, BytesLeft, BytesRight, MaskedRight, LanesLeft;
    ZeroShifted(z);
    XorZeroLanes(z);
    XorZeroLanes(XorLanes(x, BytesLeft(x)));
    XorZeroLanes(MaskedRight(x));
    XorZeroLanes(BytesRight(x));
    XorZeroLanes(LanesLeft(x));
  }

  /** The mask and the shift of the lanes, in figures: 25 bits of the masks are
      left when all ones go in. */
  lemma StepFigures(ones: Lanes, one: Lanes, z: Lanes)
    requires ones.w0 == 0xffff_ffff && ones.w1 == 0xffff_ffff && ones.w2 == 0xffff_ffff && ones.w3 == 0xffff_ffff
    requires one.w0 == 1 && one.w1 == 1 && one.w2 == 1 && one.w3 == 1 && IsZero(z)
    ensures Step(z, ones, z, z) == Lanes(0x1ff_f7fb, 0x1ff_ffef, 0x1df_bfff, 0x1ff_dbfd)
    ensures Step(z, z, z, one) == Lanes(0x4000, 0x4000, 0x4000, 0x4000)
  {
    hide Step, MaskedLane, XorLanes, BytesLeft, BytesRight, Left14;
    Fourteen();
    StepAlone(ones, z);
    StepAlone(one, z);
    OnesMasked(0xeffff7fb, 119, 0x1ff_f7fb);
    OnesMasked(0xffffffef, 127, 0x1ff_ffef);
    OnesMasked(0xdfdfbfff, 111, 0x1df_bfff);
    OnesMasked(0x7fffdbfd, 63, 0x1ff_dbfd);
  }

  // ---------- backwards ----------

  /** A word is determined by its exclusive or with its lowest byte moved to
      the top, above bits that are known. */
  lemma FoldedTop(x: word, y: word, low: nat)
    requires low < 0x100_0000
    requires BitXor(x, x % 256 * 0x100_0000 + low) == BitXor(y, y % 256 * 0x100_0000 + low)
    ensures x == y
  {
    hide BitXor, Pow2;
    Pow2Values();
    var s, t := x % 256 * 0x100_0000 + low, y % 256 * 0x100_0000 + low;
    XorMod(x, s, 24);
    XorMod(y, t, 24);
    XorInjective(x % 0x100_0000, y % 0x100_0000, low);
    LowByte(x);
    LowByte(y);
    XorInjective(x, y, s);
  }

  lemma LowByte(x: nat)
    ensures x % 0x100_0000 % 256 == x % 256
  {
  }

  lemma LanesXorInjective(a: Lanes, b: Lanes, x: Lanes)
    requires XorLanes(a, x) == XorLanes(b, x)
    ensures a == b
  {
    hide BitXor;
    XorInjective(a.w0, b.w0, x.w0);
    XorInjective(a.w1, b.w1, x.w1);
    XorInjective(a.w2, b.w2, x.w2);
    XorInjective(a.w3, b.w3, x.w3);
  }

  lemma FoldedLanes(a: Lanes, b: Lanes)
    requires XorLanes(a, BytesLeft(a)) == XorLanes(b, BytesLeft(b))
    ensures a == b
  {
    hide BitXor;
    FoldedTop(a.w0, b.w0, 0);
    FoldedTop(a.w1, b.w1, a.w0 / 256);
    FoldedTop(a.w2, b.w2, a.w1 / 256);
    FoldedTop(a.w3, b.w3, a.w2 / 256);
  }

  /** The oldest word that goes into a step is determined by the result. */
  lemma OldestDetermined(a: Lanes, a': Lanes, b: Lanes, c: Lanes, d: Lanes)
    requires Step(a, b, c, d) == Step(a', b, c, d)
    ensures a == a'
  {
    hide XorLanes, BytesLeft, BytesRight, MaskedRight, LanesLeft;
    var x, y := XorLanes(a, BytesLeft(a)), XorLanes(a', BytesLeft(a'));
    LanesXorInjective(XorLanes(x, BytesRight(c)), XorLanes(y, BytesRight(c)), XorLanes(MaskedRight(b), LanesLeft(d)));
    LanesXorInjective(x, y, BytesRight(c));
    FoldedLanes(a, a');
  }

  /** Main result: the generator can be run backwards. Sequences that agree on
      88 words in a row agree from the start, so no two states ever merge. */
  lemma {:induction false} NeverMerge(s: seq<Lanes>, t: seq<Lanes>, k: nat)
    requires |s| == |t| == 88
    requires forall i: nat :: k <= i < k + 88 ==> X(SFMT11213, s, i) == X(SFMT11213, t, i)
    ensures s == t
    decreases k
  {
    hide Step;
    if k == 0 {
      forall i | 0 <= i < 88 ensures s[i] == t[i] {
        assert X(SFMT11213, s, i) == X(SFMT11213, t, i);
      }
    } else {
      StepBack(s, t, k - 1);
      NeverMerge(s, t, k - 1);
    }
  }

  lemma StepBack(s: seq<Lanes>, t: seq<Lanes>, k: nat)
    requires |s| == |t| == 88
    requires forall i: nat :: k < i <= k + 88 ==> X(SFMT11213, s, i) == X(SFMT11213, t, i)
    ensures X(SFMT11213, s, k) == X(SFMT11213, t, k)
  {
    hide Step;
    var v := SFMT11213;
    assert X(v, s, k + 88) == Step(X(v, s, k), X(v, s, k + 68), X(v, s, k + 86), X(v, s, k + 87));
    assert X(v, t, k + 88) == Step(X(v, t, k), X(v, t, k + 68), X(v, t, k + 86), X(v, t, k + 87));
    assert X(v, s, k + 68) == X(v, t, k + 68);
    assert X(v, s, k + 86) == X(v, t, k + 86) && X(v, s, k + 87) == X(v, t, k + 87);
    OldestDetermined(X(v, s, k), X(v, t, k), X(v, s, k + 68), X(v, s, k + 86), X(v, s, k + 87));
  }

  /** Main result: the states of two seeds are never equal, however long each
      generator runs: their words after the first differ from the start. */
  lemma SeedsNeverMeet(a: word, b: word, s: seq<Lanes>, t: seq<Lanes>, s0: seq<Lanes>, t0: seq<Lanes>, k: nat)
    requires |s| == |t| == |s0| == |t0| == 88 && a != b
    requires Seeded(a, s0) && Seeded(b, t0) && s[1..] == s0[1..] && t[1..] == t0[1..]
    ensures exists i: nat :: k <= i < k + 88 && X(SFMT11213, s, i) != X(SFMT11213, t, i)
  {
    hide Step, X;
    SeedsApart(a, b, s0, t0, 1, 0);
    assert s[1] == s[1..][0] == s0[1] && t[1] == t[1..][0] == t0[1];
    if forall i: nat :: k <= i < k + 88 ==> X(SFMT11213, s, i) == X(SFMT11213, t, i) {
      NeverMerge(s, t, k);
    }
  }
}
