/** The whole decoder as one function of its state and the bits still to come,
    and the round trip of a whole stream. */
module StreamFuture {
  import opened Words
  import opened InverseBwt
  import opened Rle
  import opened Crc
  import opened DecoderMachine
  import opened BlockFormat
  import opened BlockRoundTrip

  /** CutShort: the last run of a block goes on past its end. */
  datatype Verdict = NeedMore | End | Corrupt | CutShort | NotBzip | Unsupported

  /** The characters read by walking the table of a last column. */
  ghost function Walk(col: seq<byte>, origPtr: nat): Source
    requires origPtr < |col|
  {
    k => WalkChar(col, origPtr, k)
  }

  /** All the output to come and the verdict, when the machine is in state p
      and exactly these bits are still to be read. */
  ghost function Future(tab: seq<nat>, p: Parse, combined: nat, bits: seq<bool>): (seq<byte>, Verdict)
    requires IsTable(tab) && combined < WORD
    decreases |bits|, 0
  {
    var (q, rest) := Run(p, bits);
    match q
    case Output(h, col) =>
      if |rest| < |bits| && h.origPtr < |col| then
        var src := Walk(col, h.origPtr);
        FutureOutput(tab, h, Remaining(src, |col|, 1), EndsWell(src, |col|, 1), INITIAL, combined, rest)
      else ([], NeedMore)
    case Idle(crc) => ([], if crc == combined then End else Corrupt)
    case Failed(e) => ([], if e == BadMagic then NotBzip else if e == BadData then Corrupt else Unsupported)
    case _ => ([], NeedMore)
  }

  /** The same while a block is being written: rem is what it has left, ending
      well or not, and crc covers what has been written. */
  ghost function FutureOutput(tab: seq<nat>, h: Header, rem: seq<byte>, well: bool, crc: nat, combined: nat,
      bits: seq<bool>)
      : (seq<byte>, Verdict)
    requires IsTable(tab) && combined < WORD && crc < WORD
    decreases |bits|, 1
  {
    if !well then (rem, CutShort)
    else if Finalise(CrcOf(tab, crc, rem)) != h.crc then (rem, Corrupt)
    else
      var f := Future(tab, BlkHdr(h.level, 0), Combine(combined, Finalise(CrcOf(tab, crc, rem))), bits);
      (rem + f.0, f.1)
  }

  /** Main result: however much of the input has been read, the outcome still
      to come is the one the unread rest gives. */
  lemma FutureAfterReading(tab: seq<nat>, p: Parse, combined: nat, a: seq<bool>, b: seq<bool>)
    requires IsTable(tab) && combined < WORD && !Stopped(Run(p, a).0)
    ensures Future(tab, p, combined, a + b) == Future(tab, Run(p, a).0, combined, Run(p, a).1 + b)
  {
    RunSplit(p, a, b);
    var q, r := Run(p, a).0, Run(p, a).1;
    assert |Run(q, r + b).1| < |r + b| || Run(q, r + b).0 == q;
  }

  /** Writing out part of a block leaves the rest. */
  lemma FutureAfterWriting(tab: seq<nat>, h: Header, a: seq<byte>, b: seq<byte>, well: bool, crc: nat, combined: nat,
      bits: seq<bool>)
    requires IsTable(tab) && combined < WORD && crc < WORD
    ensures var f, g := FutureOutput(tab, h, a + b, well, crc, combined, bits),
                        FutureOutput(tab, h, b, well, CrcOf(tab, crc, a), combined, bits);
            f.0 == a + g.0 && f.1 == g.1
  {
    hide CrcOf, Future, Finalise, Combine;
    CrcConcat(tab, crc, a, b);
  }

  // ---------- round trip ----------

  /** A block whose bytes expand and whose CRC is that of the expansion. */
  ghost predicate GoodBlock(tab: seq<nat>, e: EncBlock, level: nat) {
    IsTable(tab) && ValidBlock(e, level) && WellFormed(e.bytes) && e.crc == BlockCrc(tab, Expand(e.bytes, FRESH))
  }

  ghost predicate GoodBlocks(tab: seq<nat>, blocks: seq<EncBlock>, level: nat) {
    forall i {:trigger blocks[i]} :: 0 <= i < |blocks| ==>
      GoodBlock(tab, blocks[i], level) && ValidBlock(blocks[i], level) && blocks[i].crc < WORD
  }

  /** What a list of blocks stands for. */
  function Content(blocks: seq<EncBlock>): seq<byte> {
    if |blocks| == 0 then [] else Content(blocks[..|blocks| - 1]) + Expand(blocks[|blocks| - 1].bytes, FRESH)
  }

  function CombinedCrc(combined: nat, blocks: seq<EncBlock>): (r: nat)
    requires combined < WORD && forall i :: 0 <= i < |blocks| ==> blocks[i].crc < WORD
    ensures r < WORD
  {
    if |blocks| == 0 then combined
    else Combine(CombinedCrc(combined, blocks[..|blocks| - 1]), blocks[|blocks| - 1].crc)
  }

  lemma {:induction false} ContentCons(blocks: seq<EncBlock>)
    requires |blocks| > 0
    ensures Content(blocks) == Expand(blocks[0].bytes, FRESH) + Content(blocks[1..])
  {
    hide Expand;
    var n := |blocks| - 1;
    if n == 0 {
      assert blocks[..0] == [] && blocks[1..] == [];
    } else {
      ContentCons(blocks[..n]);
      assert blocks[..n][1..] == blocks[1..][..n - 1];
    }
  }

  lemma {:induction false} CombinedCrcCons(combined: nat, blocks: seq<EncBlock>)
    requires combined < WORD && |blocks| > 0 && forall i :: 0 <= i < |blocks| ==> blocks[i].crc < WORD
    ensures CombinedCrc(combined, blocks) == CombinedCrc(Combine(combined, blocks[0].crc), blocks[1..])
  {
    hide Combine;
    var n := |blocks| - 1;
    if n == 0 {
      assert blocks[..0] == [] && blocks[1..] == [];
    } else {
      CombinedCrcCons(combined, blocks[..n]);
      assert blocks[..n][1..] == blocks[1..][..n - 1];
    }
  }

  /** The walk over a block's last column reads the block. */
  lemma BlockWalk(e: EncBlock, level: nat)
    requires ValidBlock(e, level) && WellFormed(e.bytes)
    ensures var l := LastColumn(e.bytes, e.ptr);
            && EndsWell(Walk(l, e.origPtr), |l|, 1)
            && Remaining(Walk(l, e.origPtr), |l|, 1) == Expand(e.bytes, FRESH)
  {
    hide Expand, StateAfter, WalkChar, LastColumn;
    var l := LastColumn(e.bytes, e.ptr);
    var src := Walk(l, e.origPtr);
    forall k | 0 <= k < |l| ensures src(k) == e.bytes[k] {
      InverseTransform(e.bytes, e.ptr, e.origPtr, k);
    }
    assert Chars(src, |l|, 0) == e.bytes;
    RunsAreExpansion(src, |l|, 1);
  }

  /** One block of a stream decodes to its content. */
  lemma BlockFuture(tab: seq<nat>, e: EncBlock, level: nat, combined: nat, rest: seq<bool>)
    requires GoodBlock(tab, e, level) && combined < WORD
    ensures var f := Future(tab, BlkHdr(level, 0), Combine(combined, e.crc), rest);
            Future(tab, BlkHdr(level, 0), combined, BlockBits(e, level) + rest)
              == (Expand(e.bytes, FRESH) + f.0, f.1)
  {
    hide Expand, StateAfter, BlockBits, LastColumn, Run, Remaining, EndsWell, CrcOf;
    BlockRead(e, level, rest);
    BlockWalk(e, level);
    BlockBitsLong(e, level);
  }

  lemma BlockBitsLong(e: EncBlock, level: nat)
    requires ValidBlock(e, level)
    ensures |BlockBits(e, level)| > 0
  {
    hide BodyBits, Word32Bytes;
    assert |ByteFields(BLOCK_MAGIC)| >= 8;
  }

  /** The trailer ends the stream when the combined CRCs agree; bits after it
      are not read. */
  lemma TrailerFuture(tab: seq<nat>, level: nat, combined: nat, pad: seq<bool>)
    requires IsTable(tab) && combined < WORD
    ensures Future(tab, BlkHdr(level, 0), combined, TrailerBits(combined) + pad) == ([], End)
  {
    hide Run, ByteFields, Word32Bytes;
    assert END_MAGIC[0..] == END_MAGIC;
    assert TrailerBits(combined) + pad == ByteFields(END_MAGIC) + (ByteFields(Word32Bytes(combined)) + pad);
    ParseBlock.EndMagicRead(level, 0, ByteFields(Word32Bytes(combined)) + pad);
    ParseBlock.CombinedCrcRead(level, combined, pad);
  }

  lemma {:induction false} BlocksFuture(tab: seq<nat>, blocks: seq<EncBlock>, level: nat, combined: nat, pad: seq<bool>)
    requires IsTable(tab) && combined < WORD && GoodBlocks(tab, blocks, level)
    ensures Future(tab, BlkHdr(level, 0), combined,
                   BlocksBits(blocks, level) + (TrailerBits(CombinedCrc(combined, blocks)) + pad))
         == (Content(blocks), End)
    decreases |blocks|
  {
    hide Future, BlockBits, TrailerBits, Expand, StateAfter, ValidBlock;
    var trailer := TrailerBits(CombinedCrc(combined, blocks)) + pad;
    if |blocks| == 0 {
      assert BlocksBits(blocks, level) + trailer == trailer;
      TrailerFuture(tab, level, combined, pad);
    } else {
      var rest := BlocksBits(blocks[1..], level) + trailer;
      assert BlocksBits(blocks, level) + trailer == BlockBits(blocks[0], level) + rest;
      BlockFuture(tab, blocks[0], level, combined, rest);
      CombinedCrcCons(combined, blocks);
      ContentCons(blocks);
      BlocksFuture(tab, blocks[1..], level, Combine(combined, blocks[0].crc), pad);
    }
  }

  /** Main result: header, blocks and trailer decode to the content of the
      blocks, and the stream ends properly. */
  lemma StreamRoundTrip(tab: seq<nat>, blocks: seq<EncBlock>, level: nat, pad: seq<bool>)
    requires IsTable(tab) && 1 <= level <= 9 && GoodBlocks(tab, blocks, level)
    ensures Future(tab, Magic(0), 0,
                   HeaderBits(level) + (BlocksBits(blocks, level) + (TrailerBits(CombinedCrc(0, blocks)) + pad)))
         == (Content(blocks), End)
  {
    hide Run, BlocksBits, TrailerBits, Expand, StateAfter, ValidBlock;
    var rest := BlocksBits(blocks, level) + (TrailerBits(CombinedCrc(0, blocks)) + pad);
    ParseBlock.HeaderRead(level, rest);
    BlocksFuture(tab, blocks, level, 0, pad);
    RunSame(tab, Magic(0), BlkHdr(level, 0), 0, HeaderBits(level) + rest, rest);
  }

  lemma RunSame(tab: seq<nat>, p: Parse, q: Parse, combined: nat, bits: seq<bool>, rest: seq<bool>)
    requires IsTable(tab) && combined < WORD && !Stopped(p) && !Stopped(q) && |rest| <= |bits|
    requires Run(p, bits) == Run(q, rest)
    ensures Future(tab, p, combined, bits) == Future(tab, q, combined, rest)
  {
  }
}
