/** Machine words as naturals, with every wrap-around written out, and the
    bit strings that the codec packs into them. */
module Words {

  type byte = n: nat | n < 256

  /** One more than the largest UInt32. */
  const WORD := 0x1_0000_0000

  ghost predicate Distinct(s: seq<nat>) {
    forall i, j :: 0 <= i < j < |s| ==> s[i] != s[j]
  }

  function Pow2(n: nat): (r: nat)
    ensures r >= 1
  {
    if n == 0 then 1 else 2 * Pow2(n - 1)
  }

  lemma {:induction false} Pow2Add(a: nat, b: nat)
    ensures Pow2(a + b) == Pow2(a) * Pow2(b)
  {
    if a != 0 {
      Pow2Add(a - 1, b);
      assert Pow2(a + b) == 2 * (Pow2(a - 1) * Pow2(b));
    }
  }

  lemma {:induction false} Pow2Monotone(a: nat, b: nat)
    requires a <= b
    ensures Pow2(a) <= Pow2(b)
  {
    if a != b {
      Pow2Monotone(a, b - 1);
    }
  }

  lemma Pow2Below(a: nat, b: nat)
    requires a < b
    ensures 2 * Pow2(a) <= Pow2(b)
  {
    Pow2Monotone(a + 1, b);
  }

  lemma Pow2Values()
    ensures Pow2(0) == 1 && Pow2(1) == 2 && Pow2(2) == 4 && Pow2(3) == 8 && Pow2(4) == 16 && Pow2(5) == 32
    ensures Pow2(8) == 256 && Pow2(15) == 0x8000 && Pow2(16) == 0x10000 && Pow2(17) == 0x2_0000
    ensures Pow2(20) == 0x10_0000 && Pow2(24) == 0x100_0000 && Pow2(32) == WORD
  {
    assert Pow2(8) == 256;
    assert Pow2(16) == 0x10000 by { Pow2Add(8, 8); }
    assert Pow2(15) == 0x8000;
    assert Pow2(17) == 0x2_0000;
    assert Pow2(20) == 0x10_0000 by { Pow2Add(16, 4); }
    assert Pow2(24) == 0x100_0000 by { Pow2Add(16, 8); }
    assert Pow2(32) == WORD by { Pow2Add(16, 16); }
  }

  // ---------- multiplication and division facts, one at a time ----------

  lemma MulLess(a: nat, b: nat, m: nat)
    requires a < b
    ensures a * m + m <= b * m
  {
    var d: nat := b - a - 1;
    assert b * m == a * m + m + d * m;
  }

  /** Quotient and remainder are determined by a decomposition. */
  lemma DivModUnique(x: nat, m: nat, q: nat, r: nat)
    requires m > 0 && x == q * m + r && r < m
    ensures x / m == q && x % m == r
  {
    var q', r' := x / m, x % m;
    assert x == q' * m + r';
    if q' < q {
      MulLess(q', q, m);
    } else if q < q' {
      MulLess(q, q', m);
    }
  }

  lemma ModDouble(a: nat, m: nat)
    requires m > 0
    ensures a % (2 * m) == 2 * ((a / 2) % m) + a % 2
  {
    var q, r := (a / 2) / m, (a / 2) % m;
    assert a / 2 == q * m + r;
    assert a == q * (2 * m) + (2 * r + a % 2);
    DivModUnique(a, 2 * m, q, 2 * r + a % 2);
  }

  // ---------- bitwise operators of C on unsigned words ----------

  /** A right shift by k places. */
  function Shr(x: nat, k: nat): nat {
    if k == 0 then x else Shr(x / 2, k - 1)
  }

  lemma {:induction false} ShrMonotone(x: nat, y: nat, k: nat)
    requires x <= y
    ensures Shr(x, k) <= Shr(y, k) <= y
    decreases k
  {
    if k > 0 {
      ShrMonotone(x / 2, y / 2, k - 1);
    }
  }

  function BitOr(a: nat, b: nat): nat {
    if a == 0 then b
    else if b == 0 then a
    else 2 * BitOr(a / 2, b / 2) + (if a % 2 == 1 || b % 2 == 1 then 1 else 0)
  }

  function BitAnd(a: nat, b: nat): nat {
    if a == 0 || b == 0 then 0
    else 2 * BitAnd(a / 2, b / 2) + (if a % 2 == 1 && b % 2 == 1 then 1 else 0)
  }

  function BitXor(a: nat, b: nat): nat {
    if a == 0 then b
    else if b == 0 then a
    else 2 * BitXor(a / 2, b / 2) + (if a % 2 != b % 2 then 1 else 0)
  }

  /** Or-ing a field into the cleared low part of a word adds it. */
  lemma {:induction false} OrIsAdd(q: nat, k: nat, b: nat)
    requires b < Pow2(k)
    ensures BitOr(q * Pow2(k), b) == q * Pow2(k) + b
  {
    if k == 0 {
      assert b == 0;
    } else {
      var m := Pow2(k - 1);
      assert Pow2(k) == 2 * m;
      hide BitOr, Pow2;
      OrIsAdd(q, k - 1, b / 2);
      OrStep(q, m, b);
    }
  }

  lemma OrStep(q: nat, m: nat, b: nat)
    requires BitOr(q * m, b / 2) == q * m + b / 2
    ensures BitOr(q * (2 * m), b) == q * (2 * m) + b
  {
    hide BitOr;
    DoubleFactor(q, m);
    OrEven(q * m, b);
  }

  lemma DoubleFactor(q: nat, p: nat)
    ensures q * (2 * p) == 2 * (q * p)
  {
  }

  lemma OrEven(a: nat, b: nat)
    ensures BitOr(2 * a, b) == 2 * BitOr(a, b / 2) + b % 2
  {
  }

  lemma {:induction false} OrCommutes(a: nat, b: nat)
    ensures BitOr(a, b) == BitOr(b, a)
  {
    if a != 0 && b != 0 {
      OrCommutes(a / 2, b / 2);
    }
  }

  /** Masking with k ones keeps the low k bits. */
  lemma {:induction false} AndMask(a: nat, k: nat)
    ensures BitAnd(a, Pow2(k) - 1) == a % Pow2(k)
  {
    if k == 0 {
      assert BitAnd(a, 0) == 0;
    } else {
      var m := Pow2(k - 1);
      assert Pow2(k) == 2 * m;
      hide BitAnd, Pow2;
      AndMask(a / 2, k - 1);
      AndStep(a, m);
    }
  }

  lemma AndStep(a: nat, m: nat)
    requires m > 0 && BitAnd(a / 2, m - 1) == (a / 2) % m
    ensures BitAnd(a, 2 * m - 1) == a % (2 * m)
  {
    hide BitAnd;
    AndOnes(a, m);
    ModDouble(a, m);
  }

  lemma AndOnes(a: nat, m: nat)
    requires m > 0
    ensures BitAnd(a, 2 * m - 1) == 2 * BitAnd(a / 2, m - 1) + a % 2
  {
  }

  lemma AndConstants(a: nat)
    ensures BitAnd(a, 0xff) == a % 0x100 && BitAnd(a, 0xffff) == a % 0x10000 && BitAnd(a, 0xf) == a % 0x10
  {
    hide BitAnd;
    Pow2Values();
    AndMask(a, 4);
    AndMask(a, 8);
    AndMask(a, 16);
  }

  lemma AndEven(a: nat, b: nat)
    ensures BitAnd(a, 2 * b) == 2 * BitAnd(a / 2, b)
  {
  }

  /** Masking a byte with 0xf0 keeps its high nibble. */
  lemma AndHighNibble(w: nat)
    ensures BitAnd(w, 0xf0) == 16 * ((w / 16) % 16)
  {
    hide BitAnd;
    AndEven(w, 120);
    AndEven(w / 2, 60);
    AndEven(w / 4, 30);
    AndEven(w / 8, 15);
    Pow2Values();
    AndMask(w / 16, 4);
  }

  lemma {:induction false} XorBound(a: nat, b: nat, k: nat)
    requires a < Pow2(k) && b < Pow2(k)
    ensures BitXor(a, b) < Pow2(k)
  {
    if k != 0 && a != 0 && b != 0 {
      XorBound(a / 2, b / 2, k - 1);
    }
  }

  lemma XorHalves(a: nat, b: nat)
    ensures BitXor(a, b) / 2 == BitXor(a / 2, b / 2)
    ensures BitXor(a, b) % 2 == (if a % 2 != b % 2 then 1 else 0)
  {
  }

  lemma XorZero(a: nat)
    ensures BitXor(a, 0) == a == BitXor(0, a)
  {
  }

  lemma {:induction false} XorCommutes(a: nat, b: nat)
    ensures BitXor(a, b) == BitXor(b, a)
  {
    if a != 0 && b != 0 {
      XorCommutes(a / 2, b / 2);
    }
  }

  /** A word is determined by its exclusive or with another. */
  lemma {:induction false} XorInjective(a: nat, b: nat, x: nat)
    requires BitXor(a, x) == BitXor(b, x)
    ensures a == b
    decreases a + b + x
  {
    hide BitXor;
    XorHalves(a, x);
    XorHalves(b, x);
    if a + b + x > 0 {
      XorInjective(a / 2, b / 2, x / 2);
    }
  }

  lemma {:induction false} XorMod(a: nat, b: nat, k: nat)
    ensures BitXor(a, b) % Pow2(k) == BitXor(a % Pow2(k), b % Pow2(k))
    decreases k
  {
    if k == 0 {
      XorZero(0);
    } else {
      var m := Pow2(k - 1);
      assert Pow2(k) == 2 * m;
      hide BitXor, Pow2;
      XorMod(a / 2, b / 2, k - 1);
      XorStep(a, b, m);
    }
  }

  lemma XorStep(a: nat, b: nat, m: nat)
    requires m > 0 && BitXor(a / 2, b / 2) % m == BitXor((a / 2) % m, (b / 2) % m)
    ensures BitXor(a, b) % (2 * m) == BitXor(a % (2 * m), b % (2 * m))
  {
    hide BitXor;
    var x, y, z, r := a % (2 * m), b % (2 * m), BitXor(a, b), BitXor(a % (2 * m), b % (2 * m));
    ModHalves(a, m);
    ModHalves(b, m);
    ModHalves(z, m);
    XorHalves(a, b);
    XorHalves(x, y);
    EqualHalves(z % (2 * m), r);
  }

  lemma ModHalves(a: nat, m: nat)
    requires m > 0
    ensures a % (2 * m) / 2 == (a / 2) % m && a % (2 * m) % 2 == a % 2
  {
    ModDouble(a, m);
  }

  lemma EqualHalves(x: nat, y: nat)
    requires x / 2 == y / 2 && x % 2 == y % 2
    ensures x == y
  {
  }

  /** A remainder by a multiple keeps the remainder. */
  lemma ModOfMod(x: nat, m: nat, k: nat)
    requires m > 0 && k > 0
    ensures m * k > 0 && x % (m * k) % m == x % m
  {
    var q, r := x / (m * k), x % (m * k);
    assert x == q * (m * k) + r;
    assert q * (m * k) == (q * k) * m;
    Distribute3(q * k, r / m, m);
    DivModUnique(x, m, q * k + r / m, r % m);
  }

  lemma Distribute3(a: nat, b: nat, m: nat)
    ensures (a + b) * m == a * m + b * m
  {
  }

  lemma ModTimes(a: nat, p: nat, q: nat)
    requires p > 0 && q > 0
    ensures p * q > 0 && a * q % (p * q) == a % p * q
  {
    var k, r := a / p, a % p;
    assert a == k * p + r;
    assert a * q == k * (p * q) + r * q;
    MulLess(r, p, q);
    DivModUnique(a * q, p * q, k, r * q);
  }

  // ---------- bit strings, most significant bit first ----------

  /** The number a bit string denotes. */
  function Val(s: seq<bool>): nat {
    if |s| == 0 then 0
    else 2 * Val(s[..|s| - 1]) + (if s[|s| - 1] then 1 else 0)
  }

  /** The n low bits of v, most significant first. */
  function ToBits(v: nat, n: nat): (s: seq<bool>)
    ensures |s| == n
  {
    if n == 0 then [] else ToBits(v / 2, n - 1) + [v % 2 == 1]
  }

  lemma {:induction false} ValBound(s: seq<bool>)
    ensures Val(s) < Pow2(|s|)
  {
    if |s| != 0 {
      ValBound(s[..|s| - 1]);
    }
  }

  lemma {:induction false} ValToBits(v: nat, n: nat)
    requires v < Pow2(n)
    ensures Val(ToBits(v, n)) == v
  {
    if n != 0 {
      ValToBits(v / 2, n - 1);
      assert ToBits(v, n)[..n - 1] == ToBits(v / 2, n - 1);
    }
  }

  lemma {:induction false} ToBitsVal(s: seq<bool>)
    ensures ToBits(Val(s), |s|) == s
  {
    if |s| != 0 {
      var h := s[..|s| - 1];
      ToBitsVal(h);
      assert Val(s) / 2 == Val(h);
      assert s == h + [s[|s| - 1]];
    }
  }

  lemma {:induction false} ValConcat(a: seq<bool>, b: seq<bool>)
    ensures Val(a + b) == Val(a) * Pow2(|b|) + Val(b)
  {
    if |b| == 0 {
      assert a + b == a;
    } else {
      var h := b[..|b| - 1];
      ValConcat(a, h);
      assert (a + b)[..|a + b| - 1] == a + h;
      assert 2 * (Val(a) * Pow2(|h|)) == Val(a) * Pow2(|b|);
    }
  }

  /** Splitting off the first n bits of a string is a division. */
  lemma ValSplit(s: seq<bool>, n: nat)
    requires n <= |s|
    ensures Val(s) == Val(s[..n]) * Pow2(|s| - n) + Val(s[n..])
    ensures Val(s) / Pow2(|s| - n) == Val(s[..n])
    ensures Val(s) % Pow2(|s| - n) == Val(s[n..])
  {
    assert s == s[..n] + s[n..];
    ValConcat(s[..n], s[n..]);
    ValBound(s[n..]);
    DivModUnique(Val(s), Pow2(|s| - n), Val(s[..n]), Val(s[n..]));
  }

  /** A string is determined by its length and value. */
  lemma ValInjective(a: seq<bool>, b: seq<bool>)
    requires |a| == |b| && Val(a) == Val(b)
    ensures a == b
  {
    ToBitsVal(a);
    ToBitsVal(b);
  }

  /** The bits of a byte string. */
  function BytesToBits(bs: seq<byte>): (s: seq<bool>)
    ensures |s| == 8 * |bs|
  {
    if |bs| == 0 then [] else BytesToBits(bs[..|bs| - 1]) + ToBits(bs[|bs| - 1], 8)
  }

  lemma {:induction false} BytesToBitsConcat(a: seq<byte>, b: seq<byte>)
    ensures BytesToBits(a + b) == BytesToBits(a) + BytesToBits(b)
  {
    if |b| == 0 {
      assert a + b == a;
    } else {
      BytesToBitsConcat(a, b[..|b| - 1]);
      assert (a + b)[..|a + b| - 1] == a + b[..|b| - 1];
    }
  }
}
