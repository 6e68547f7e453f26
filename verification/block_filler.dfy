/** The input side of EState: bytes collected into a block, with the run in
    hand kept back. */
module BlockFiller {
  import opened Words
  import opened Mtf
  import opened Rle
  import opened Crc
  import opened MainOrder

  /** The block is cut off this much before 100000 bytes per level. */
  const BLOCK_MARGIN := 19

  class Filler {
    const tab: seq<nat>
    const nblockMAX: nat
    const block: array<byte>
    const inUse: array<bool>
    var nblock: nat
    var stateInCh: nat
    var stateInLen: nat
    var blockCRC: nat

    ghost predicate Shape() {
      IsTable(tab) && inUse.Length == 256 && block.Length == Capacity() + BZ_N_OVERSHOOT
    }

    /** The bytes that a block may have; the sort needs room behind them. */
    function Capacity(): nat {
      nblockMAX + BLOCK_MARGIN
    }

    /** The block and the run in hand stand for this input; blockCRC and inUse
        belong to the block. */
    ghost predicate Loaded(input: seq<byte>)
      reads this, block, inUse
    {
      && Shape() && nblock <= nblockMAX + 9 && Charged(block[..nblock], stateInCh, stateInLen, input)
      && blockCRC < WORD && blockCRC == CrcOf(tab, INITIAL, Expand(block[..nblock], FRESH))
      && forall c {:trigger inUse[c]} :: 0 <= c < 256 ==> inUse[c] == (c in block[..nblock])
    }

    /** While input is taken, an empty run in hand means an empty block. */
    ghost predicate Filling(input: seq<byte>)
      reads this, block, inUse
    {
      Loaded(input) && nblock < nblockMAX + 5 && (stateInCh == NO_CHAR ==> nblock == 0)
    }

    /** What the block stands for. */
    ghost function Bytes(): seq<byte>
      reads this, block
    {
      if nblock <= block.Length then Expand(block[..nblock], FRESH) else []
    }

    constructor (tab: seq<nat>, level: nat)
      requires IsTable(tab) && 1 <= level <= 9
      ensures Filling([]) && nblockMAX == 100000 * level - BLOCK_MARGIN && nblock == 0 && stateInCh == NO_CHAR
      ensures this.tab == tab && Shape() && fresh(block) && fresh(inUse)
    {
      this.tab, nblockMAX := tab, 100000 * level - BLOCK_MARGIN;
      block, inUse := new byte[100000 * level + BZ_N_OVERSHOOT], new bool[256](_ => false);
      nblock, stateInCh, stateInLen, blockCRC := 0, NO_CHAR, 0, INITIAL;
      new;
      EmptyBlock(tab, block[..0]);
    }

    /** Stores one byte of the block. */
    method Store(ch: byte)
      requires nblock < block.Length
      modifies this`nblock, block
      ensures nblock == old(nblock) + 1 && block[..nblock] == old(block[..nblock]) + [ch]
    {
      block[nblock] := ch;
      nblock := nblock + 1;
    }

    /** add_pair_to_block: a run of up to three bytes as it is, a longer one as
        four bytes and a count. */
    method AddPair()
      requires Shape() && stateInCh < 256 && 1 <= stateInLen <= 255 && blockCRC < WORD && nblock + 5 <= Capacity()
      modifies this`nblock, this`blockCRC, block, inUse
      ensures nblock <= old(nblock) + 5
      ensures block[..nblock] == old(block[..nblock]) + Pair(stateInCh, stateInLen)
      ensures blockCRC < WORD && blockCRC == CrcOf(tab, old(blockCRC), Repeat(stateInCh as byte, stateInLen))
      ensures inUse[..] == (if stateInLen < 4 then old(inUse[..])[stateInCh := true]
                            else old(inUse[..])[stateInCh := true][stateInLen - 4 := true])
    {
      hide UpdateCrc, CrcOf;
      var ch: byte := stateInCh;
      ghost var u := inUse[..];
      UpdateRun(ch);
      inUse[stateInCh] := true;
      assert inUse[..] == u[stateInCh := true];
      if stateInLen > 3 {
        inUse[stateInLen - 4] := true;
        assert inUse[..] == u[stateInCh := true][stateInLen - 4 := true];
      }
      StorePair(ch, stateInLen);
    }

    /** Storing the run in hand keeps the block loaded, with no run in hand. */
    method AddRun(ghost input: seq<byte>)
      requires Loaded(input) && stateInCh < 256 && nblock + 5 <= Capacity()
      modifies this`nblock, this`blockCRC, block, inUse
      ensures nblock <= old(nblock) + 5
      ensures block[..nblock] == old(block[..nblock]) + Pair(stateInCh, stateInLen)
      ensures blockCRC < WORD && blockCRC == CrcOf(tab, INITIAL, Expand(block[..nblock], FRESH))
      ensures forall c {:trigger inUse[c]} :: 0 <= c < 256 ==> inUse[c] == (c in block[..nblock])
      ensures Charged(block[..nblock], NO_CHAR, 0, input)
    {
      hide Expand, StateAfter, CrcOf, Pair;
      ghost var b, u := block[..nblock], inUse[..];
      FlushKeepsCharge(b, stateInCh, stateInLen, input);
      ExpandsBy(b, stateInCh, stateInLen, input);
      CrcConcat(tab, INITIAL, Expand(b, FRESH), Repeat(stateInCh as byte, stateInLen));
      PairMembers(stateInCh, stateInLen);
      AddPair();
      forall c | 0 <= c < 256 ensures inUse[c] == (c in block[..nblock]) {
        assert inUse[c] == inUse[..][c] && u[c] == (c in b);
      }
    }

    /** Main result: ADD_CHAR_TO_BLOCK charges exactly this byte to the block. */
    method AddChar(c: byte, ghost input: seq<byte>)
      requires Filling(input) && nblock < nblockMAX
      modifies this`nblock, this`blockCRC, this`stateInCh, this`stateInLen, block, inUse
      ensures Filling(input + [c]) && stateInCh == c as nat
      ensures stateInLen == AddCharLen(old(stateInCh), old(stateInLen), c)
      ensures block[..nblock] == AddCharBlock(old(block[..nblock]), old(stateInCh), old(stateInLen), c)
    {
      hide Expand, StateAfter, CrcOf, Pair, Charged;
      ghost var b, ch, len := block[..nblock], stateInCh, stateInLen;
      ChargedRun(b, ch, len, input);
      assert b == [] ==> nblock == 0;
      AddCharKeepsCharge(b, ch, len, input, c);
      if c != stateInCh && stateInLen == 1 {
        AddRun(input);
        stateInCh := c;
      } else if c != stateInCh || stateInLen == 255 {
        if stateInCh < 256 {
          AddRun(input);
        }
        stateInCh := c;
        stateInLen := 1;
      } else {
        stateInLen := stateInLen + 1;
      }
    }

    /** flush_RL. */
    method FlushRL(ghost input: seq<byte>)
      requires Filling(input)
      modifies this`nblock, this`blockCRC, this`stateInCh, this`stateInLen, block, inUse
      ensures Loaded(input) && stateInCh == NO_CHAR && nblock <= nblockMAX + 9
    {
      hide Expand, StateAfter, CrcOf, Pair;
      if stateInCh < 256 {
        AddRun(input);
      }
      stateInCh, stateInLen := NO_CHAR, 0;
    }

    /** The input still to be written once the block has been: the run in
        hand. */
    ghost function RunInHand(): seq<byte>
      reads this
    {
      if stateInCh < 256 then Repeat(stateInCh as byte, stateInLen) else []
    }

    /** prepare_new_block: only the run in hand is carried over. */
    method NewBlock()
      requires Shape() && stateInCh <= NO_CHAR && stateInLen <= 255 && (stateInCh == NO_CHAR <==> stateInLen == 0)
      modifies this`nblock, this`blockCRC, inUse
      ensures Filling(RunInHand()) && nblock == 0
    {
      nblock, blockCRC := 0, INITIAL;
      for i := 0 to 256
        invariant forall c :: 0 <= c < i ==> !inUse[c]
        modifies inUse
      {
        inUse[i] := false;
      }
      EmptyBlock(tab, block[..0]);
    }

    method StorePair(ch: byte, len: nat)
      requires 1 <= len <= 255 && nblock + 5 <= block.Length
      modifies this`nblock, block
      ensures nblock <= old(nblock) + 5
      ensures block[..nblock] == old(block[..nblock]) + Pair(ch, len)
    {
      ghost var b := block[..nblock];
      match len
      case 1 =>
        Store(ch);
        assert Pair(ch, 1) == [ch];
      case 2 =>
        Store(ch);
        Store(ch);
        assert Pair(ch, 2) == [ch, ch];
      case 3 =>
        Store(ch);
        Store(ch);
        Store(ch);
        assert Pair(ch, 3) == [ch, ch, ch];
      case _ =>
        Store(ch);
        Store(ch);
        Store(ch);
        Store(ch);
        Store(len - 4);
        assert Pair(ch, len) == [ch, ch, ch, ch, len - 4];
    }

    method UpdateRun(ch: byte)
      requires IsTable(tab) && blockCRC < WORD
      modifies this`blockCRC
      ensures blockCRC < WORD && blockCRC == CrcOf(tab, old(blockCRC), Repeat(ch, stateInLen))
    {
      hide UpdateCrc, CrcOf;
      CrcOfNone(tab, blockCRC);
      assert Repeat(ch, 0) == [];
      for i := 0 to stateInLen
        invariant blockCRC < WORD && blockCRC == CrcOf(tab, old(blockCRC), Repeat(ch, i))
      {
        CrcNext(tab, old(blockCRC), Repeat(ch, i), ch);
        assert Repeat(ch, i) + [ch] == Repeat(ch, i + 1);
        blockCRC := UpdateCrc(tab, blockCRC, ch);
      }
    }
  }

  lemma ChargedRun(b: seq<byte>, ch: nat, len: nat, input: seq<byte>)
    requires Charged(b, ch, len, input)
    ensures ch <= NO_CHAR && len <= 255 && (ch == NO_CHAR <==> len == 0)
  {
  }

  /** What storing the run adds to the expansion. */
  lemma ExpandsBy(b: seq<byte>, ch: byte, len: nat, input: seq<byte>)
    requires Charged(b, ch, len, input)
    ensures Expand(b + Pair(ch, len), FRESH) == Expand(b, FRESH) + Repeat(ch, len)
  {
    hide Expand, StateAfter, Pair;
    ExpandConcat(b, Pair(ch, len), FRESH);
    PairExpands(ch, len, StateAfter(b, FRESH));
  }

  lemma PairMembers(ch: byte, len: nat)
    requires 1 <= len <= 255
    ensures forall c: nat :: c in Pair(ch, len) <==> c == ch || (len > 3 && c == len - 4)
  {
    assert Pair(ch, len)[0] == ch;
    assert len > 3 ==> Pair(ch, len)[4] == len - 4;
  }

  lemma EmptyBlock(tab: seq<nat>, s: seq<byte>)
    requires IsTable(tab) && s == []
    ensures Charged(s, NO_CHAR, 0, []) && CrcOf(tab, INITIAL, Expand(s, FRESH)) == INITIAL
  {
  }
}
