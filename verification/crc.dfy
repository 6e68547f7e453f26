/** The CRC macros. The table is any fixed 256 words: both sides use the same. */
module Crc {
  import opened Words

  ghost predicate IsTable(tab: seq<nat>) {
    |tab| == 256 && forall i :: 0 <= i < 256 ==> tab[i] < WORD
  }

  const INITIAL := WORD - 1

  function UpdateCrc(tab: seq<nat>, crc: nat, c: byte): (r: nat)
    requires IsTable(tab) && crc < WORD
    ensures r < WORD
  {
    Pow2Values();
    XorBound(crc / 0x100_0000, c, 8);
    var t := tab[BitXor(crc / 0x100_0000, c)];
    XorBound(crc * 256 % WORD, t, 32);
    BitXor(crc * 256 % WORD, t)
  }

  function CrcOf(tab: seq<nat>, crc: nat, s: seq<byte>): (r: nat)
    requires IsTable(tab) && crc < WORD
    ensures r < WORD
  {
    if |s| == 0 then crc else UpdateCrc(tab, CrcOf(tab, crc, s[..|s| - 1]), s[|s| - 1])
  }

  lemma CrcOfNone(tab: seq<nat>, crc: nat)
    requires IsTable(tab) && crc < WORD
    ensures CrcOf(tab, crc, []) == crc
  {
  }

  lemma CrcNext(tab: seq<nat>, crc: nat, s: seq<byte>, c: byte)
    requires IsTable(tab) && crc < WORD
    ensures CrcOf(tab, crc, s + [c]) == UpdateCrc(tab, CrcOf(tab, crc, s), c)
  {
    hide UpdateCrc;
    assert (s + [c])[..|s|] == s;
  }

  lemma {:induction false} CrcConcat(tab: seq<nat>, crc: nat, a: seq<byte>, b: seq<byte>)
    requires IsTable(tab) && crc < WORD
    ensures CrcOf(tab, crc, a + b) == CrcOf(tab, CrcOf(tab, crc, a), b)
  {
    hide UpdateCrc;
    if |b| == 0 {
      assert a + b == a;
    } else {
      CrcConcat(tab, crc, a, b[..|b| - 1]);
      assert (a + b)[..|a + b| - 1] == a + b[..|b| - 1];
    }
  }

  function Finalise(crc: nat): (r: nat)
    requires crc < WORD
    ensures r < WORD
  {
    WORD - 1 - crc
  }

  /** The CRC of a block's content. */
  function BlockCrc(tab: seq<nat>, s: seq<byte>): (r: nat)
    requires IsTable(tab)
    ensures r < WORD
  {
    Finalise(CrcOf(tab, INITIAL, s))
  }

  /** Rotate left and mix in a block. */
  function Combine(combined: nat, crc: nat): (r: nat)
    requires combined < WORD && crc < WORD
    ensures r < WORD
  {
    Pow2Values();
    XorBound(2 * combined % WORD + combined / 0x8000_0000, crc, 32);
    BitXor(2 * combined % WORD + combined / 0x8000_0000, crc)
  }
}
