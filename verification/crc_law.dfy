/** What the CRC detects: contents that differ only within four neighbouring
    bytes, and so any altered byte, and a block CRC that differs. */
module CrcLaw {
  import opened Words
  import opened Crc
  import opened DecoderMachine
  import opened Rle
  import opened StreamFuture

  /** The low bytes of the table tell its entries apart. */
  ghost predicate LowApart(tab: seq<nat>) {
    |tab| == 256 && forall i, j :: 0 <= i < j < 256 ==> tab[i] % 256 != tab[j] % 256
  }

  // ---------- exclusive or, modulo a power of two ----------

  /** Exclusive or with the same keeps what is equal below bit k equal, and
      what differs there different. */
  lemma XorSameBelow(a: nat, b: nat, t: nat, k: nat)
    ensures BitXor(a, t) % Pow2(k) == BitXor(b, t) % Pow2(k) <==> a % Pow2(k) == b % Pow2(k)
  {
    hide BitXor;
    XorMod(a, t, k);
    XorMod(b, t, k);
    if BitXor(a, t) % Pow2(k) == BitXor(b, t) % Pow2(k) {
      XorInjective(a % Pow2(k), b % Pow2(k), t % Pow2(k));
    }
  }

  // ---------- one step ----------

  function Index(crc: nat, c: byte): (i: nat)
    requires crc < WORD
    ensures i < 256
  {
    Pow2Values();
    XorBound(crc / 0x100_0000, c, 8);
    BitXor(crc / 0x100_0000, c)
  }

  lemma StepIs(tab: seq<nat>, crc: nat, c: byte)
    requires IsTable(tab) && crc < WORD
    ensures UpdateCrc(tab, crc, c) == BitXor(crc * 256 % WORD, tab[Index(crc, c)])
  {
  }

  /** The low byte after a step tells which entry was used. */
  lemma LowByteTells(tab: seq<nat>, a: nat, c: byte, b: nat, d: byte)
    requires IsTable(tab) && LowApart(tab) && a < WORD && b < WORD
    requires UpdateCrc(tab, a, c) % 256 == UpdateCrc(tab, b, d) % 256
    ensures Index(a, c) == Index(b, d)
  {
    hide BitXor, UpdateCrc, Index;
    Pow2Values();
    StepIs(tab, a, c);
    StepIs(tab, b, d);
    LowShifted(a, tab[Index(a, c)]);
    LowShifted(b, tab[Index(b, d)]);
  }

  lemma LowShifted(a: nat, t: nat)
    ensures BitXor(a * 256 % WORD, t) % 256 == t % 256
  {
    hide BitXor;
    Pow2Values();
    XorMod(a * 256 % WORD, t, 8);
    XorZero(t % 256);
    assert a * 256 % WORD % 256 == 0;
  }

  /** For a fixed byte a step is injective in the CRC. */
  lemma StepInjective(tab: seq<nat>, a: nat, b: nat, c: byte)
    requires IsTable(tab) && LowApart(tab) && a < WORD && b < WORD
    requires UpdateCrc(tab, a, c) == UpdateCrc(tab, b, c)
    ensures a == b
  {
    LowByteTells(tab, a, c, b, c);
    StepIs(tab, a, c);
    StepIs(tab, b, c);
    IndexIs(a, c);
    IndexIs(b, c);
    hide BitXor, UpdateCrc, Index;
    XorInjective(a / 0x100_0000, b / 0x100_0000, c);
    XorInjective(a * 256 % WORD, b * 256 % WORD, tab[Index(a, c)]);
    WordParts(a);
    WordParts(b);
  }

  lemma IndexIs(crc: nat, c: byte)
    requires crc < WORD
    ensures Index(crc, c) == BitXor(crc / 0x100_0000, c)
  {
  }

  lemma WordParts(a: nat)
    requires a < WORD
    ensures a * 256 % WORD == a % 0x100_0000 * 256 && a == a / 0x100_0000 * 0x100_0000 + a % 0x100_0000
  {
  }

  /** For a fixed CRC a step is injective in the byte. */
  lemma ByteInjective(tab: seq<nat>, a: nat, c: byte, d: byte)
    requires IsTable(tab) && LowApart(tab) && a < WORD && UpdateCrc(tab, a, c) == UpdateCrc(tab, a, d)
    ensures c == d
  {
    LowByteTells(tab, a, c, a, d);
    IndexIs(a, c);
    IndexIs(a, d);
    hide BitXor, UpdateCrc, Index;
    SameIndex(a, c, d);
  }

  lemma SameIndex(a: nat, c: byte, d: byte)
    requires BitXor(a / 0x100_0000, c) == BitXor(a / 0x100_0000, d)
    ensures c == d
  {
    hide BitXor;
    XorCommutes(a / 0x100_0000, c);
    XorCommutes(a / 0x100_0000, d);
    XorInjective(c, d, a / 0x100_0000);
  }

  // ---------- up to four bytes ----------

  /** The low n bytes of the CRC after n bytes tell all of them. */
  lemma {:induction false} WindowInjective(tab: seq<nat>, crc: nat, u: seq<byte>, v: seq<byte>)
    requires IsTable(tab) && LowApart(tab) && crc < WORD && |u| == |v| <= 4
    requires CrcOf(tab, crc, u) % Pow2(8 * |u|) == CrcOf(tab, crc, v) % Pow2(8 * |u|)
    ensures u == v
    decreases |u|
  {
    hide UpdateCrc, BitXor, Pow2;
    var n := |u|;
    if n > 0 {
      var u', v', c, d := u[..n - 1], v[..n - 1], u[n - 1], v[n - 1];
      var a, b := CrcOf(tab, crc, u'), CrcOf(tab, crc, v');
      SameLowByte(CrcOf(tab, crc, u), CrcOf(tab, crc, v), n);
      LowByteTells(tab, a, c, b, d);
      StepIs(tab, a, c);
      StepIs(tab, b, d);
      hide Index;
      XorSameBelow(a * 256 % WORD, b * 256 % WORD, tab[Index(a, c)], 8 * n);
      OneByteLess(a, b, n);
      WindowInjective(tab, crc, u', v');
      ByteFromIndex(a, c, d);
    }
  }

  lemma ByteFromIndex(a: nat, c: byte, d: byte)
    requires a < WORD && Index(a, c) == Index(a, d)
    ensures c == d
  {
    hide BitXor;
    SameIndex(a, c, d);
  }

  lemma SameLowByte(x: nat, y: nat, n: nat)
    requires 0 < n <= 4 && x % Pow2(8 * n) == y % Pow2(8 * n)
    ensures x % 256 == y % 256
  {
    Pow2Values();
    Pow2Add(8, 8 * n - 8);
    ModOfMod(x, 256, Pow2(8 * n - 8));
    ModOfMod(y, 256, Pow2(8 * n - 8));
  }

  lemma OneByteLess(a: nat, b: nat, n: nat)
    requires 0 < n <= 4 && a * 256 % WORD % Pow2(8 * n) == b * 256 % WORD % Pow2(8 * n)
    ensures a % Pow2(8 * (n - 1)) == b % Pow2(8 * (n - 1))
  {
    hide Pow2;
    Pow2Values();
    var p := Pow2(8 * n - 8);
    Pow2Add(8, 8 * n - 8);
    Pow2Add(8 * n, 32 - 8 * n);
    assert Pow2(8 * n) >= 1 && Pow2(32 - 8 * n) >= 1 && p >= 1;
    ModOfMod(a * 256, Pow2(8 * n), Pow2(32 - 8 * n));
    ModOfMod(b * 256, Pow2(8 * n), Pow2(32 - 8 * n));
    ModTimes(a, p, 256);
    ModTimes(b, p, 256);
  }

  lemma {:induction false} LaterBytes(tab: seq<nat>, a: nat, b: nat, z: seq<byte>)
    requires IsTable(tab) && LowApart(tab) && a < WORD && b < WORD && CrcOf(tab, a, z) == CrcOf(tab, b, z)
    ensures a == b
  {
    hide UpdateCrc;
    if |z| > 0 {
      var z' := z[..|z| - 1];
      StepInjective(tab, CrcOf(tab, a, z'), CrcOf(tab, b, z'), z[|z| - 1]);
      LaterBytes(tab, a, b, z');
    }
  }

  /** Main result: contents of one length that differ only within four
      neighbouring bytes have different CRCs. */
  lemma BurstDetected(tab: seq<nat>, a: seq<byte>, u: seq<byte>, v: seq<byte>, z: seq<byte>)
    requires IsTable(tab) && LowApart(tab) && |u| == |v| <= 4 && u != v
    ensures BlockCrc(tab, a + u + z) != BlockCrc(tab, a + v + z)
  {
    hide UpdateCrc, CrcOf;
    var c := CrcOf(tab, INITIAL, a);
    CrcConcat(tab, INITIAL, a + u, z);
    CrcConcat(tab, INITIAL, a, u);
    CrcConcat(tab, INITIAL, a + v, z);
    CrcConcat(tab, INITIAL, a, v);
    if BlockCrc(tab, a + u + z) == BlockCrc(tab, a + v + z) {
      LaterBytes(tab, CrcOf(tab, c, u), CrcOf(tab, c, v), z);
      WindowInjective(tab, c, u, v);
    }
  }

  // ---------- the streams' CRCs ----------

  /** Combining is injective in each argument. */
  lemma CombineInjective(x: nat, y: nat, c: nat, d: nat)
    requires x < WORD && y < WORD && c < WORD && d < WORD && Combine(x, c) == Combine(y, d)
    ensures x == y <==> c == d
  {
    hide BitXor;
    var r, q := 2 * x % WORD + x / 0x8000_0000, 2 * y % WORD + y / 0x8000_0000;
    if x == y {
      XorCommutes(r, c);
      XorCommutes(r, d);
      XorInjective(c, d, r);
    }
    if c == d {
      XorInjective(r, q, c);
      Rotated(x, y);
    }
  }

  lemma Rotated(x: nat, y: nat)
    requires x < WORD && y < WORD && 2 * x % WORD + x / 0x8000_0000 == 2 * y % WORD + y / 0x8000_0000
    ensures x == y
  {
    TopBit(x);
    TopBit(y);
  }

  lemma TopBit(x: nat)
    requires x < WORD
    ensures x / 0x8000_0000 < 2 && 2 * x % WORD == 2 * (x - x / 0x8000_0000 * 0x8000_0000)
  {
    DivModUnique(2 * x, WORD, x / 0x8000_0000, 2 * (x - x / 0x8000_0000 * 0x8000_0000));
  }

  // ---------- the decoder ----------

  /** Main result: a block whose content was altered within four neighbouring
      bytes, so that its CRC is that of another content, is found corrupt after
      it has been written. */
  lemma AlteredIsCorrupt(tab: seq<nat>, h: Header, col: seq<byte>, combined: nat, rest: seq<bool>,
      a: seq<byte>, u: seq<byte>, v: seq<byte>, z: seq<byte>)
    requires IsTable(tab) && LowApart(tab) && combined < WORD && h.origPtr < |col| && |u| == |v| <= 4 && u != v
    requires var src := Walk(col, h.origPtr);
             EndsWell(src, |col|, 1) && Remaining(src, |col|, 1) == a + u + z
    requires h.crc == BlockCrc(tab, a + v + z)
    ensures var src := Walk(col, h.origPtr);
            FutureOutput(tab, h, Remaining(src, |col|, 1), EndsWell(src, |col|, 1), INITIAL, combined, rest)
            == (a + u + z, Corrupt)
  {
    hide EndsWell, Remaining, CrcOf, LowApart;
    BurstDetected(tab, a, u, v, z);
  }
}
