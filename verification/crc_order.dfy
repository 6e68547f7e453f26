/** What the combined CRC says of the order of the blocks. */
module CrcOrder {
  import opened Words
  import opened Crc
  import opened CrcLaw
  import opened CrcTable
  import opened DecoderMachine
  import opened BlockFormat
  import opened StreamFuture
  import opened StreamGrammar
  import opened StreamExactly
  import GrammarRead

  // ---------- rotation ----------

  function RotateLeft(x: nat): (r: nat)
    requires x < WORD
    ensures r < WORD
  {
    2 * x % WORD + x / 0x8000_0000
  }

  lemma RotatedParts(x: nat)
    requires x < WORD
    ensures RotateLeft(x) / 2 == x % 0x8000_0000
    ensures RotateLeft(x) % 2 == if x < 0x8000_0000 then 0 else 1
  {
    TopBit(x);
  }

  /** Rotation goes through the exclusive or. */
  lemma RotateXor(a: nat, b: nat)
    requires a < WORD && b < WORD
    ensures BitXor(a, b) < WORD && RotateLeft(BitXor(a, b)) == BitXor(RotateLeft(a), RotateLeft(b))
  {
    hide BitXor, RotateLeft;
    Pow2Values();
    Pow31();
    XorBound(a, b, 32);
    RotatedParts(a);
    RotatedParts(b);
    RotatedParts(BitXor(a, b));
    TopSame(a, b);
    XorMod(a, b, 31);
    XorHalves(RotateLeft(a), RotateLeft(b));
    EqualHalves(RotateLeft(BitXor(a, b)), BitXor(RotateLeft(a), RotateLeft(b)));
  }

  /** Only two words are their own rotation. */
  lemma RotatesToItself(x: nat)
    requires x < WORD
    ensures RotateLeft(x) == x <==> x == 0 || x == WORD - 1
  {
    TopBit(x);
  }

  lemma {:induction false} XorOnes(c: nat, d: nat, k: nat)
    requires c < Pow2(k) && d < Pow2(k)
    ensures BitXor(c, d) == Pow2(k) - 1 <==> c + d == Pow2(k) - 1
    decreases k
  {
    if k == 0 {
      XorZero(0);
    } else {
      var m := Pow2(k - 1);
      assert Pow2(k) == 2 * m;
      hide BitXor, Pow2;
      XorOnes(c / 2, d / 2, k - 1);
      XorHalves(c, d);
    }
  }

  /** p ^ d and q ^ c are equal if and only if p ^ q and c ^ d are. */
  lemma XorAcross(p: nat, q: nat, c: nat, d: nat)
    ensures BitXor(p, d) == BitXor(q, c) <==> BitXor(p, q) == BitXor(c, d)
  {
    hide BitXor;
    XorBoth(p, q, d);
    XorBoth(c, d, q);
    XorCommutes(c, q);
    XorCommutes(d, q);
    if BitXor(p, q) == BitXor(c, d) {
      XorInjective(BitXor(p, d), BitXor(q, c), BitXor(q, d));
    }
  }

  // ---------- two blocks ----------

  lemma CombineTwice(x: nat, c: nat, d: nat)
    requires x < WORD && c < WORD && d < WORD
    ensures Combine(Combine(x, c), d) == BitXor(RotateLeft(RotateLeft(x)), BitXor(RotateLeft(c), d))
  {
    hide BitXor, RotateLeft;
    assert Combine(x, c) == BitXor(RotateLeft(x), c) by { CombineIs(x, c); }
    CombineIs(Combine(x, c), d);
    RotateXor(RotateLeft(x), c);
    XorAssociative(RotateLeft(RotateLeft(x)), RotateLeft(c), d);
  }

  lemma CombineIs(x: nat, c: nat)
    requires x < WORD && c < WORD
    ensures Combine(x, c) == BitXor(RotateLeft(x), c)
  {
    hide BitXor;
  }

  /** Main result: two CRCs combine to the same in either order if and only if
      they are equal or complements of each other. */
  lemma OrderTold(x: nat, c: nat, d: nat)
    requires x < WORD && c < WORD && d < WORD
    ensures Combine(Combine(x, c), d) == Combine(Combine(x, d), c) <==> c == d || c + d == WORD - 1
  {
    hide BitXor, Combine, RotateLeft;
    var r, p, q := RotateLeft(RotateLeft(x)), RotateLeft(c), RotateLeft(d);
    CombineTwice(x, c, d);
    CombineTwice(x, d, c);
    XorCommutes(r, BitXor(p, d));
    XorCommutes(r, BitXor(q, c));
    if BitXor(r, BitXor(p, d)) == BitXor(r, BitXor(q, c)) {
      XorInjective(BitXor(p, d), BitXor(q, c), r);
    }
    XorAcross(p, q, c, d);
    RotateXor(c, d);
    RotatesToItself(BitXor(c, d));
    XorSelf(c, d);
    Pow2Values();
    XorOnes(c, d, 32);
  }

  // ---------- streams ----------

  lemma {:induction false} CrcOfBoth(tab: seq<nat>, a: seq<BlockText>, b: seq<BlockText>, level: nat, x: nat)
    requires IsTable(tab) && SoundBlocks(tab, a, level) && SoundBlocks(tab, b, level) && x < WORD
    ensures SoundBlocks(tab, a + b, level)
    ensures BlocksCrc(tab, a + b, level, x) == BlocksCrc(tab, b, level, BlocksCrc(tab, a, level, x))
    decreases |a|
  {
    hide Combine, SoundBlock;
    if a == [] {
      assert a + b == b;
    } else {
      CrcKnown(tab, a, level);
      CrcOfBoth(tab, a[1..], b, level, Combine(x, a[0].crc));
      assert (a + b)[1..] == a[1..] + b;
    }
  }

  lemma CrcKnown(tab: seq<nat>, a: seq<BlockText>, level: nat)
    requires IsTable(tab) && SoundBlocks(tab, a, level) && a != []
    ensures a[0].crc < WORD && SoundBlocks(tab, a[1..], level)
  {
    hide Coded, SymbolsOk, Marked, TablesTextOk, BlockColumn, BlockContent;
    assert SoundBlock(tab, a[0], level);
  }

  lemma {:induction false} LaterBlocks(tab: seq<nat>, z: seq<BlockText>, level: nat, x: nat, y: nat)
    requires IsTable(tab) && SoundBlocks(tab, z, level) && x < WORD && y < WORD
    ensures BlocksCrc(tab, z, level, x) == BlocksCrc(tab, z, level, y) <==> x == y
    decreases |z|
  {
    hide Combine, SoundBlock;
    if z != [] {
      CrcKnown(tab, z, level);
      LaterBlocks(tab, z[1..], level, Combine(x, z[0].crc), Combine(y, z[0].crc));
      if Combine(x, z[0].crc) == Combine(y, z[0].crc) {
        CombineInjective(x, y, z[0].crc, z[0].crc);
      }
    }
  }

  lemma CrcOfTwo(tab: seq<nat>, t: BlockText, u: BlockText, level: nat, x: nat)
    requires IsTable(tab) && SoundBlocks(tab, [t, u], level) && x < WORD
    ensures t.crc < WORD && u.crc < WORD
    ensures BlocksCrc(tab, [t, u], level, x) == Combine(Combine(x, t.crc), u.crc)
  {
    hide Combine, SoundBlock;
    CrcKnown(tab, [t, u], level);
    assert [t, u][1..] == [u] && [u][1..] == [];
    CrcKnown(tab, [u], level);
    assert BlocksCrc(tab, [u], level, Combine(x, t.crc)) == Combine(Combine(x, t.crc), u.crc);
  }

  /** The combined CRCs of two orders. */
  lemma CrcOfSwapped(tab: seq<nat>, a: seq<BlockText>, t: BlockText, u: BlockText, z: seq<BlockText>, level: nat)
    requires IsTable(tab) && SoundBlocks(tab, a, level) && SoundBlocks(tab, [t, u], level) && SoundBlocks(tab, z, level)
    ensures SoundBlocks(tab, a + [t, u] + z, level) && SoundBlocks(tab, a + [u, t] + z, level)
    ensures BlocksCrc(tab, a + [t, u] + z, level, 0) == BlocksCrc(tab, a + [u, t] + z, level, 0)
        <==> t.crc == u.crc || t.crc + u.crc == WORD - 1
  {
    hide Combine, SoundBlock, BlocksCrc;
    var x := BlocksCrc(tab, a, level, 0);
    TwoSound(tab, t, u, level);
    CrcOfTwo(tab, t, u, level, x);
    CrcOfTwo(tab, u, t, level, x);
    CrcOfBoth(tab, a, [t, u], level, 0);
    CrcOfBoth(tab, a, [u, t], level, 0);
    CrcOfBoth(tab, a + [t, u], z, level, 0);
    CrcOfBoth(tab, a + [u, t], z, level, 0);
    LaterBlocks(tab, z, level, BlocksCrc(tab, [t, u], level, x), BlocksCrc(tab, [u, t], level, x));
    OrderTold(x, t.crc, u.crc);
  }

  lemma TwoSound(tab: seq<nat>, t: BlockText, u: BlockText, level: nat)
    requires IsTable(tab) && SoundBlocks(tab, [t, u], level)
    ensures SoundBlocks(tab, [u, t], level)
  {
    hide SoundBlock;
    assert [t, u][0] == t && [t, u][1] == u;
  }

  /** Main result: a stream in which two neighbouring blocks have been
      interchanged is found corrupt, after all its blocks have been written, if
      and only if their CRCs are neither equal nor complements. */
  lemma Interchanged(tab: seq<nat>, a: seq<BlockText>, t: BlockText, u: BlockText, z: seq<BlockText>, level: nat,
      pad: seq<bool>)
    requires IsTable(tab) && SoundBlocks(tab, a, level) && SoundBlocks(tab, [t, u], level) && SoundBlocks(tab, z, level)
    requires 1 <= level <= 9
    ensures SoundBlocks(tab, a + [t, u] + z, level) && SoundBlocks(tab, a + [u, t] + z, level)
    ensures Future(tab, Magic(0), 0,
                   ByteFields([0x42, 0x5a, 0x68, 0x30 + level])
                   + (BlocksTextBits(tab, a + [u, t] + z, level)
                      + (EndBits(BlocksCrc(tab, a + [t, u] + z, level, 0)) + pad)))
         == (BlocksContent(tab, a + [u, t] + z, level),
             if t.crc == u.crc || t.crc + u.crc == WORD - 1 then End else Corrupt)
  {
    hide Future, SoundBlocks, BlocksTextBits, BlocksContent, BlocksCrc, EndBits, ByteFields;
    CrcOfSwapped(tab, a, t, u, z, level);
    var ts := a + [u, t] + z;
    var good, own := BlocksCrc(tab, a + [t, u] + z, level, 0), BlocksCrc(tab, ts, level, 0);
    if own == good {
      GrammarRead.StreamRead(tab, ts, level, pad);
      assert STREAM_START + [0x30 + level] == [0x42, 0x5a, 0x68, 0x30 + level];
      StreamBitsAre(tab, ts, level, pad);
    } else {
      OtherCombined(tab, level, own, good, pad);
      AfterBlocks(tab, ts, level, EndBits(good) + pad, []);
      assert BlocksContent(tab, ts, level) + [] == BlocksContent(tab, ts, level);
    }
  }

  lemma StreamBitsAre(tab: seq<nat>, ts: seq<BlockText>, level: nat, pad: seq<bool>)
    requires IsTable(tab) && SoundBlocks(tab, ts, level)
    ensures StreamBits(tab, ts, level) + pad
         == ByteFields(STREAM_START + [0x30 + level])
            + (BlocksTextBits(tab, ts, level) + (EndBits(BlocksCrc(tab, ts, level, 0)) + pad))
  {
    hide SoundBlocks, BlocksTextBits, BlocksCrc, EndBits, ByteFields;
  }
}
