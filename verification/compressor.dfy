/** EState: the compressor with its modes, from bzCompress down to the bits. */
module Compressor {
  import opened Words
  import opened Counting
  import opened Cyclic
  import opened InverseBwt
  import opened Mtf
  import opened MtfEncoder
  import opened HuffmanForest
  import opened BzStream
  import opened BitIO
  import opened Rle
  import opened Crc
  import opened DecoderMachine
  import opened BlockFormat
  import opened BitTable
  import opened FallbackSort
  import opened MainOrder
  import opened MainSort
  import opened TableChoice
  import opened BlockWriter
  import opened BlockSize
  import opened BlockFiller
  import opened StreamFuture
  import opened Outcome

  // ---------- sorting and symbols ----------

  /** The arrays of one block's sort and symbols. The symbols are stored over
      ptr. In the program the block, the classes, the quadrants and the output
      share the memory of arr2, and bhtab is ftab. */
  class Sorter {
    const ptr: array<nat>
    const eclass: array<nat>
    const quadrant: array<nat>
    const bhtab: array<nat>
    const mtfFreq: array<nat>
    const unseqToSeq: array<nat>

    ghost function Repr(): set<object> {
      {ptr, eclass, quadrant, bhtab, mtfFreq, unseqToSeq}
    }

    ghost predicate Shape(capacity: nat) {
      && capacity <= 900000 && ptr.Length == eclass.Length == capacity && bhtab.Length == 65537
      && quadrant.Length == capacity + BZ_N_OVERSHOOT && quadrant !in {ptr, eclass, bhtab, mtfFreq, unseqToSeq}
      && mtfFreq.Length == BZ_MAX_ALPHA_SIZE && unseqToSeq.Length == 256
      && ptr != eclass && bhtab != ptr && bhtab != eclass && bhtab != mtfFreq && bhtab != unseqToSeq
      && mtfFreq != ptr && mtfFreq != unseqToSeq && unseqToSeq != ptr
    }

    ghost predicate Tidy()
      reads bhtab
    {
      AreWords(bhtab[..])
    }

    constructor (capacity: nat)
      requires capacity <= 900000
      ensures Shape(capacity) && Tidy() && fresh(Repr())
    {
      ptr, eclass, quadrant := new nat[capacity], new nat[capacity], new nat[capacity + BZ_N_OVERSHOOT];
      bhtab := new nat[65537](_ => 0);
      mtfFreq, unseqToSeq := new nat[BZ_MAX_ALPHA_SIZE], new nat[256];
    }

    /** BZ2_blockSort: short blocks go to the fallback sort at once, and others
        when the budget of the main sort is spent. Either way the rotations
        are sorted, and the position of the original one is found. In a
        uniform block it is the last for one sort and the first for the
        other. */
    method BlockSort(block: array<byte>, nblock: nat, workFactor: int) returns (origPtr: nat)
      requires Shape(ptr.Length) && Tidy() && 0 < nblock <= ptr.Length && ptr.Length + BZ_N_OVERSHOOT <= block.Length
      modifies ptr, eclass, quadrant, bhtab, block
      ensures Tidy() && block[..nblock] == old(block[..nblock])
      ensures IsBlockSort(block[..nblock], ptr[..nblock]) && origPtr < nblock && ptr[origPtr] == 0
      ensures Uniform(block[..nblock]) ==> origPtr == if nblock < 10000 then nblock - 1 else 0
    {
      hide IsBlockSort, AreWords, Uniform;
      if nblock < 10000 {
        FallbackSort.FallbackSort(ptr, eclass, bhtab, block, nblock);
      } else {
        var wfact := workFactor;
        if wfact < 1 {
          wfact := 1;
        }
        if wfact > 100 {
          wfact := 100;
        }
        var budgetInit := nblock * ((wfact - 1) / 3);
        var budget := MainSort.MainSort(ptr, block, quadrant, bhtab, nblock, budgetInit);
        if budget < 0 {
          FallbackSort.FallbackSort(ptr, eclass, bhtab, block, nblock);
        }
      }
      origPtr := FindOrigin(block, nblock);
    }

    /** The place of the rotation that starts the block. */
    method FindOrigin(block: array<byte>, nblock: nat) returns (origPtr: nat)
      requires 0 < nblock <= block.Length && nblock <= ptr.Length && IsBlockSort(block[..nblock], ptr[..nblock])
      ensures origPtr < nblock && ptr[origPtr] == 0
      ensures forall i :: 0 <= i < nblock && ptr[i] == 0 ==> i == origPtr
    {
      hide IsBlockSort;
      BlockSortIsPermutation(block[..nblock], ptr[..nblock]);
      PermutationOnto(ptr[..nblock], nblock, 0);
      origPtr := 0;
      while ptr[origPtr] != 0
        invariant origPtr < nblock && forall i :: 0 <= i < origPtr ==> ptr[i] != 0
        decreases nblock - origPtr
      {
        assert exists i :: 0 <= i < nblock && ptr[..nblock][i] == 0;
        origPtr := origPtr + 1;
      }
      forall i | 0 <= i < nblock && ptr[i] == 0 ensures i == origPtr {
        assert ptr[..nblock][i] == ptr[..nblock][origPtr];
      }
    }

    /** generateMTFValues, from the mapping to the symbols and their counts. */
    method Symbols(block: array<byte>, nblock: nat, inUse: array<bool>, ghost e: EncBlock)
        returns (syms: seq<nat>, freq: seq<nat>)
      requires Shape(ptr.Length) && 0 < nblock <= ptr.Length <= block.Length && inUse.Length == 256
      requires e.bytes == block[..nblock] && e.ptr == ptr[..nblock] && IsPermutation(e.ptr, nblock)
      requires forall c {:trigger inUse[c]} :: 0 <= c < 256 ==> inUse[c] == (c in e.bytes)
      modifies ptr, mtfFreq, unseqToSeq
      ensures syms == BlockSymbols(e) && |freq| == |BytesUsed(e.bytes)| + 2 && Sum(freq) == |syms|
      ensures forall v :: 0 <= v < |freq| ==> freq[v] == CountEq(syms, v)
      ensures block[..nblock] == e.bytes
    {
      hide UsedBytes, MtfSymbols, SumCounts, Sum;
      assert inUse[..] == InUse(e.bytes);
      var nInUse := MakeMapsE(inUse, unseqToSeq);
      MappedBelow(e.bytes, e.ptr);
      ghost var s := MappedBlock(e.bytes, e.ptr);
      ColumnsAgree(e.bytes, e.ptr, unseqToSeq[..]);
      assert forall i :: 0 <= i < nblock ==> ptr[i] == e.ptr[i];
      var nMTF := GenerateMtfValues(ptr, block, unseqToSeq, nblock, nInUse, mtfFreq, s);
      syms, freq := Halves(ptr[..])[..nMTF], mtfFreq[..nInUse + 2];
      MtfSymbolsShape(nInUse, s);
      SumOfCounts(freq, syms, nInUse + 2);
    }
  }

  /** The mapped column that the encoder reads is the mapped block. */
  lemma ColumnsAgree(bytes: seq<byte>, ptr: seq<nat>, unseqToSeq: seq<nat>)
    requires IsPermutation(ptr, |bytes|) && IsMapping(InUse(bytes), unseqToSeq)
    ensures MappedColumn(ptr, bytes, unseqToSeq) == MappedBlock(bytes, ptr)
  {
    hide UsedBytes;
    var l := LastColumn(bytes, ptr);
    forall i | 0 <= i < |bytes| ensures unseqToSeq[l[i]] == |UsedBytes(InUse(bytes), l[i])| {
      assert l[i] in bytes;
    }
  }

  lemma {:induction false} SumOfCounts(freq: seq<nat>, syms: seq<nat>, n: nat)
    requires |freq| == n && forall v :: 0 <= v < n ==> freq[v] == CountEq(syms, v)
    ensures Sum(freq) == SumCounts(syms, n)
  {
    if n > 0 {
      SumOfCounts(freq[..n - 1], syms, n - 1);
    }
  }

  // ---------- the blocks written ----------

  lemma GoodBlocksPush(tab: seq<nat>, blocks: seq<EncBlock>, e: EncBlock, level: nat)
    requires GoodBlocks(tab, blocks, level) && GoodBlock(tab, e, level)
    ensures GoodBlocks(tab, blocks + [e], level)
  {
    hide GoodBlock, ValidBlock;
    GoodIsValid(tab, e, level);
  }

  ghost predicate AllValid(blocks: seq<EncBlock>, level: nat) {
    forall i :: 0 <= i < |blocks| ==> ValidBlock(blocks[i], level)
  }

  lemma {:induction false} BlocksBitsPush(blocks: seq<EncBlock>, e: EncBlock, level: nat)
    requires AllValid(blocks, level) && ValidBlock(e, level)
    ensures AllValid(blocks + [e], level)
    ensures BlocksBits(blocks + [e], level) == BlocksBits(blocks, level) + BlockBits(e, level)
    decreases |blocks|
  {
    hide BlockBits, ValidBlock;
    if |blocks| > 0 {
      BlocksBitsPush(blocks[1..], e, level);
      assert (blocks + [e])[1..] == blocks[1..] + [e];
      assert BlockBits(blocks[0], level) + (BlocksBits(blocks[1..], level) + BlockBits(e, level))
          == BlocksBits(blocks, level) + BlockBits(e, level);
    } else {
      assert blocks + [e] == [e] && [e][1..] == [];
      assert BlockBits(e, level) + [] == BlockBits(e, level);
    }
  }

  lemma ContentPush(blocks: seq<EncBlock>, e: EncBlock)
    ensures Content(blocks + [e]) == Content(blocks) + Expand(e.bytes, FRESH)
  {
    hide Expand;
    assert (blocks + [e])[..|blocks|] == blocks;
  }

  lemma NoBlocks(tab: seq<nat>, level: nat)
    ensures GoodBlocks(tab, [], level) && AllValid([], level) && BlocksBits([], level) == [] && CombinedCrc(0, []) == 0
        && Content([]) == []
  {
  }

  lemma GoodIsValid(tab: seq<nat>, e: EncBlock, level: nat)
    requires GoodBlock(tab, e, level)
    ensures ValidBlock(e, level) && e.crc < WORD
  {
  }

  lemma CombinedPush(tab: seq<nat>, blocks: seq<EncBlock>, e: EncBlock, level: nat)
    requires GoodBlocks(tab, blocks, level) && e.crc < WORD
    ensures forall i :: 0 <= i < |blocks + [e]| ==> (blocks + [e])[i].crc < WORD
    ensures CombinedCrc(0, blocks + [e]) == Combine(CombinedCrc(0, blocks), e.crc)
  {
    assert (blocks + [e])[..|blocks|] == blocks;
  }

  /** The bits of a block, in the order they are written. */
  lemma BlockBitsAre(e: EncBlock, level: nat, start: seq<bool>)
    requires ValidBlock(e, level)
    ensures start + ByteFields(BLOCK_MAGIC) + ByteFields(Word32Bytes(e.crc)) + [false] + ToBits(e.origPtr, 24) +
        BodyBits(e, level)
         == start + BlockBits(e, level)
  {
    hide ByteFields, Word32Bytes, ToBits, BodyBits;
  }

  /** Writes the block that has been sorted. */
  method PutBlock(w: BitWriter, sorter: Sorter, block: array<byte>, nblock: nat, inUse: array<bool>, origPtr: nat,
      blockCRC: nat, ghost level: nat)
      returns (ghost e: EncBlock)
    requires w.Valid() && sorter.Shape(sorter.ptr.Length) && 0 < nblock <= sorter.ptr.Length <= block.Length
        && inUse.Length == 256
    requires IsBlockSort(block[..nblock], sorter.ptr[..nblock]) && origPtr < nblock && sorter.ptr[origPtr] == 0
    requires forall c {:trigger inUse[c]} :: 0 <= c < 256 ==> inUse[c] == (c in block[..nblock])
    requires blockCRC < WORD && 1 <= level <= 9 && nblock <= BLOCK_UNIT * level
    modifies w, sorter.ptr, sorter.mtfFreq, sorter.unseqToSeq
    ensures ValidBlock(e, level) && e.bytes == old(block[..nblock]) && e.crc == blockCRC && ShortCodes(e.lens)
    ensures IsPermutation(e.ptr, |e.bytes|) && |e.bytes| > 0
    ensures Chosen(BlockSymbols(e), |BytesUsed(e.bytes)| + 2, e.lens, e.selector)
    ensures w.Valid() && w.sent == old(w.sent) && old(w.zbits) <= w.zbits && w.bits == old(w.bits) + BlockBits(e, level)
  {
    hide BitWriter.Valid, IsBlockSort, ValidBlock, BlockSymbols, Sum, ByteFields, ToBits, BodyBits, BlockBits, CountEq,
        Chosen;
    ghost var e0 := EncBlock(block[..nblock], sorter.ptr[..nblock], origPtr, blockCRC, [], []);
    BlockSortIsPermutation(e0.bytes, e0.ptr);
    SmallFields();
    ghost var start := w.bits;
    PutUChars(w, BLOCK_MAGIC);
    PutUInt32(w, blockCRC);
    PutBit(w, false);
    w.BsW(24, origPtr);
    var syms, freq := sorter.Symbols(block, nblock, inUse, e0);
    assert inUse[..] == InUse(e0.bytes);
    e := SendMtfValues(w, syms, inUse[..], freq, e0, level);
    BlockBitsAre(e, level, start);
  }

  /** Writes the trailer and the last bits. */
  method FinishStream(w: BitWriter, combinedCRC: nat) returns (ghost pad: seq<bool>)
    requires w.Valid() && combinedCRC < WORD
    modifies w
    ensures w.Finished() && w.sent == old(w.sent) && old(w.zbits) <= w.zbits
    ensures w.bits == old(w.bits) + (TrailerBits(combinedCRC) + pad)
    ensures |old(w.bits)| + 80 <= |w.bits| <= |old(w.bits)| + 87
  {
    hide BitWriter.Valid, BitWriter.Finished, ByteFields, Word32Bytes;
    ghost var bits, a, b := w.bits, ByteFields(END_MAGIC), ByteFields(Word32Bytes(combinedCRC));
    ThreeLengths(combinedCRC);
    PutUChars(w, END_MAGIC);
    PutUInt32(w, combinedCRC);
    pad := w.FinishWrite();
    assert bits + a + b + pad == bits + ((a + b) + pad);
  }

  // ---------- the compressor ----------

  datatype Mode = IDLE | RUNNING | FLUSHING | FINISHING
  datatype Side = INPUT | OUTPUT
  datatype Action = RUN | FLUSH | FINISH | OTHER
  datatype Code = RUN_OK | FLUSH_OK | FINISH_OK | STREAM_END | SEQUENCE_ERROR | PARAM_ERROR

  class EState {
    const strm: Stream
    const writer: BitWriter
    const filler: Filler
    const sorter: Sorter
    const tab: seq<nat>
    const blockSize100k: nat
    const workFactor: int
    var mode: Mode
    var state: Side
    var stateOutPos: nat
    var blockNo: nat
    var combinedCRC: nat
    var availInExpect: nat
    /** The blocks written, the input that is in none of them, and whether the
        trailer has been written, with how many padding bits. */
    ghost var blocks: seq<EncBlock>
    ghost var rest: seq<byte>
    ghost var finished: bool
    ghost var pad: seq<bool>
    /** How much input will have been taken when a flush or finish is done. */
    ghost var goal: nat

    ghost function Repr(): set<object> {
      {this, strm, writer, filler, filler.block, filler.inUse} + sorter.Repr()
    }

    ghost predicate Shape() {
      && IsTable(tab) && filler.tab == tab && filler.Shape() && 1 <= blockSize100k <= 9
      && filler.nblockMAX == BLOCK_UNIT * blockSize100k - BLOCK_MARGIN && sorter.Shape(filler.Capacity())
    }

    constructor (strm: Stream, tab: seq<nat>, level: nat, workFactor: int)
      requires strm.Valid() && IsTable(tab) && 1 <= level <= 9 && 0 <= workFactor <= 250 && strm.taken == []
          && strm.nextOut == []
      ensures Resting() && this.strm == strm && mode == RUNNING
      ensures fresh(sorter.Repr()) && fresh(writer) && fresh(filler) && fresh(filler.block) && fresh(filler.inUse)
    {
      this.strm, this.tab, blockSize100k := strm, tab, level;
      this.workFactor := if workFactor == 0 then 30 else workFactor;
      var w := new BitWriter();
      var f := new Filler(tab, level);
      var s := new Sorter(BLOCK_UNIT * level);
      writer, filler, sorter := w, f, s;
      mode, state, stateOutPos, blockNo, combinedCRC, availInExpect := RUNNING, INPUT, 0, 1, 0, 0;
      blocks, rest, finished, pad, goal := [], [], false, [], 0;
      new;
      hide GoodBlocks, AllValid, BlocksBits, CombinedCrc, Content, HeaderBits, Filler.Filling, BitWriter.Valid,
          AreWords,
          IsTable;
      NoBlocks(tab, level);
      assert [] + [] == writer.bits;
    }

    // ---------- BZ2_compressBlock ----------

    /** The output so far is the header and the blocks. */
    ghost predicate Laid(header: bool)
      reads this`blocks, writer
    {
      && Shape() && GoodBlocks(tab, blocks, blockSize100k) && AllValid(blocks, blockSize100k)
      && (header || blocks == [])
      && writer.Valid()
      && writer.bits == (if header then HeaderBits(blockSize100k) else []) + BlocksBits(blocks, blockSize100k)
    }

    ghost predicate Summed()
      reads this`blocks, this`combinedCRC
    {
      GoodBlocks(tab, blocks, blockSize100k) && combinedCRC == CombinedCrc(0, blocks)
    }

    /** The block is in the filler and sorted, its CRC finalised. */
    ghost predicate Ready(origPtr: nat)
      reads filler, filler.block, filler.inUse, sorter.ptr
    {
      && Shape() && 0 < filler.nblock <= filler.Capacity() && WellFormed(filler.block[..filler.nblock])
      && filler.blockCRC == BlockCrc(tab, Expand(filler.block[..filler.nblock], FRESH))
      && (forall c {:trigger filler.inUse[c]} ::
         0 <= c < 256 ==> filler.inUse[c] == (c in filler.block[..filler.nblock]))
      && IsBlockSort(filler.block[..filler.nblock], sorter.ptr[..filler.nblock])
      && origPtr < filler.nblock && sorter.ptr[origPtr] == 0
    }

    method SortBlock() returns (origPtr: nat)
      requires Shape() && filler.Loaded(rest) && sorter.Tidy() && filler.nblock > 0 && combinedCRC < WORD
      modifies this`combinedCRC, filler`blockCRC, filler.block, sorter.ptr, sorter.eclass, sorter.quadrant, sorter.bhtab
      ensures Ready(origPtr) && sorter.Tidy() && filler.block[..filler.nblock] == old(filler.block[..filler.nblock])
      ensures filler.blockCRC < WORD && combinedCRC == Combine(old(combinedCRC), filler.blockCRC)
    {
      hide IsBlockSort, CrcOf, Expand, StateAfter, Combine;
      filler.blockCRC := Finalise(filler.blockCRC);
      combinedCRC := Combine(combinedCRC, filler.blockCRC);
      origPtr := sorter.BlockSort(filler.block, filler.nblock, workFactor);
    }

    method PutHeader()
      requires Laid(false)
      modifies writer
      ensures Laid(true) && writer.sent == old(writer.sent) && old(writer.zbits) <= writer.zbits
      ensures |writer.bits| == |old(writer.bits)| + 32
    {
      hide BitWriter.Valid, ByteFields, GoodBlocks;
      FieldsLength(MAGIC + [0x30 + blockSize100k]);
      PutUChars(writer, MAGIC + [0x30 + blockSize100k]);
      assert [] + ByteFields(MAGIC + [0x30 + blockSize100k]) == HeaderBits(blockSize100k) + [];
    }

    method AddBlock(origPtr: nat)
      requires Laid(true) && Ready(origPtr) && GoodBlocks(tab, blocks, blockSize100k)
      requires combinedCRC == Combine(CombinedCrc(0, blocks), filler.blockCRC)
      modifies this`blocks, writer, sorter.ptr, sorter.mtfFreq, sorter.unseqToSeq
      ensures Laid(true) && writer.sent == old(writer.sent) && old(writer.zbits) <= writer.zbits
      ensures Summed() && |writer.bits| <= |old(writer.bits)| + Longest(filler.nblock)
      ensures Content(blocks) == old(Content(blocks)) + filler.Bytes()
    {
      hide BitWriter.Valid, HeaderBits, BlockBits, IsBlockSort, ValidBlock, Expand, StateAfter, CrcOf, Combine,
          GoodBlocks;
      ghost var bits := writer.bits;
      ghost var e := PutBlock(writer, sorter, filler.block, filler.nblock, filler.inUse, origPtr, filler.blockCRC,
          blockSize100k);
      BlockLength(e, blockSize100k);
      GoodBlocksPush(tab, blocks, e, blockSize100k);
      BlocksBitsPush(blocks, e, blockSize100k);
      ContentPush(blocks, e);
      GoodIsValid(tab, e, blockSize100k);
      CombinedPush(tab, blocks, e, blockSize100k);
      assert HeaderBits(blockSize100k) + BlocksBits(blocks, blockSize100k) + BlockBits(e, blockSize100k)
          == HeaderBits(blockSize100k) + (BlocksBits(blocks, blockSize100k) + BlockBits(e, blockSize100k));
      blocks := blocks + [e];
    }

    /** The output is the whole stream. */
    ghost predicate Complete()
      reads this`blocks, this`pad, writer
    {
      && Shape() && GoodBlocks(tab, blocks, blockSize100k) && AllValid(blocks, blockSize100k) && writer.Finished()
      && writer.bits ==
         HeaderBits(blockSize100k) + (BlocksBits(blocks, blockSize100k) + (TrailerBits(CombinedCrc(0, blocks)) + pad))
    }

    method PutTrailer()
      requires Laid(true) && Summed()
      modifies this`pad, writer
      ensures Complete() && writer.sent == old(writer.sent) && old(writer.zbits) <= writer.zbits
      ensures |writer.bits| <= |old(writer.bits)| + 87 && |writer.zbits| > 0
    {
      hide BitWriter.Valid, BitWriter.Finished, ByteFields, HeaderBits, BlocksBits, GoodBlocks, Word32Bytes,
          TrailerBits;
      writer.Size();
      CombinedFits(tab, blocks, blockSize100k);
      ghost var bits := writer.bits;
      pad := FinishStream(writer, combinedCRC);
      writer.FinishedSize();
      LengthOf(writer.sent, writer.zbits);
      TrailerAppended(bits, HeaderBits(blockSize100k), BlocksBits(blocks, blockSize100k),
          TrailerBits(combinedCRC) + pad);
    }

    /** Every byte taken is in a block or still held, and every byte given is a
        byte of the stream. */
    ghost predicate Conserved()
      reads this`blocks, this`rest, this`stateOutPos, strm`taken, strm`nextOut, writer`sent, writer`zbits
    {
      && strm.taken == Content(blocks) + rest
      && stateOutPos <= |writer.zbits| && strm.nextOut == writer.sent + writer.zbits[..stateOutPos]
    }

    /** The header if this is the first block, and the block if there is one. */
    method PutData()
      requires Shape() && Laid(blockNo > 1) && Summed() && filler.Loaded(rest) && sorter.Tidy() && blockNo >= 1
      modifies this`combinedCRC, this`blocks
      modifies writer, filler`blockCRC, filler.block, sorter.ptr, sorter.eclass, sorter.quadrant, sorter.bhtab,
          sorter.mtfFreq, sorter.unseqToSeq
      ensures sorter.Tidy() && Laid(true) && Summed()
      ensures writer.sent == old(writer.sent) && old(writer.zbits) <= writer.zbits
      ensures |writer.bits| <= |old(writer.bits)| + 32 + Longest(filler.nblock)
      ensures Content(blocks) == old(Content(blocks)) + old(filler.Bytes())
    {
      hide Sorter.Tidy, BitWriter.Valid, Laid, Ready, Longest, Combine, CombinedCrc, GoodBlocks, Content, Charged,
          Expand, StateAfter, IsTable;
      var origPtr: nat := 0;
      CombinedFits(tab, blocks, blockSize100k);
      NoBytes(filler.block[..filler.nblock]);
      if filler.nblock > 0 {
        origPtr := SortBlock();
      }
      if blockNo == 1 {
        PutHeader();
      }
      if filler.nblock > 0 {
        AddBlock(origPtr);
      }
    }

    /** Main result: BZ2_compressBlock writes the block if there is one, after
        the header if it is the first, and the trailer after the last; what it
        writes stands for exactly the input charged to the block, and fits
        behind the block. */
    method CompressBlock(isLastBlock: bool)
      requires Shape() && Laid(blockNo > 1) && Summed() && filler.Loaded(rest) && sorter.Tidy() && blockNo >= 1
      requires Conserved() && writer.zbits == []
      modifies this`combinedCRC, this`blocks, this`rest, this`finished, this`pad
      modifies writer, filler`blockCRC, filler.block, sorter.ptr, sorter.eclass, sorter.quadrant, sorter.bhtab,
          sorter.mtfFreq, sorter.unseqToSeq
      ensures sorter.Tidy() && finished == isLastBlock && (if isLastBlock then Complete() else Laid(true) && Summed())
      ensures Conserved() && rest == filler.RunInHand()
      ensures |writer.zbits| <= RoomBehind(filler.nblock, filler.Capacity())
      ensures isLastBlock ==> |writer.zbits| > 0
    {
      hide Longest, RoomBehind, Shape, Sorter.Tidy, Laid, Summed, Complete, Content, Expand, StateAfter, CrcOf,
          GoodBlocks, BitWriter.Valid, Sorter.Shape;
      Charge(filler.block[..filler.nblock], filler.stateInCh, filler.stateInLen, rest);
      WriterSize();
      ghost var n := |writer.bits|;
      PutData();
      rest := filler.RunInHand();
      finished := isLastBlock;
      if isLastBlock {
        PutTrailer();
      }
      WriterSize();
      LengthOf(writer.sent, writer.zbits);
      BlockFits();
      FitsBehind(filler.nblock, blockSize100k, |writer.bits| - n + 32, |writer.zbits|);
    }

    /** Every bit is in a byte, up to 32 of them, or none when finished. */
    lemma WriterSize()
      requires Laid(true) || Laid(false) || Complete()
      ensures 8 * |writer.sent + writer.zbits| <= |writer.bits| <= 8 * |writer.sent + writer.zbits| + 32
    {
      hide GoodBlocks, BlocksBits, BitWriter.Valid, BitWriter.Finished;
      if Complete() {
        writer.FinishedSize();
      } else {
        writer.Size();
      }
    }

    lemma BlockFits()
      requires Shape() && filler.nblock <= filler.Capacity()
      ensures filler.nblock <= BLOCK_UNIT * blockSize100k == filler.Capacity() && 1 <= blockSize100k
    {
    }

    // ---------- the modes ----------

    ghost predicate RunOk()
      reads filler`stateInCh, filler`stateInLen
    {
      filler.stateInCh <= NO_CHAR && filler.stateInLen <= 255
          && (filler.stateInCh == NO_CHAR <==> filler.stateInLen == 0)
    }

    /** What has been written, by side: while input is taken all output has been
        given; while output is given the block has been written. */
    ghost predicate Sides()
      reads this`state, this`finished, this`rest, this`blockNo, this`stateOutPos, this`blocks, this`combinedCRC,
          this`pad
      reads filler, filler.block, filler.inUse, writer
    {
      if state == INPUT then
        !finished && filler.Filling(rest) && Laid(blockNo > 1) && Summed() && writer.zbits == [] && stateOutPos == 0
      else
        && stateOutPos <= |writer.zbits| && RunOk() && rest == filler.RunInHand()
        && (if finished then Complete() else Laid(true) && Summed())
    }

    /** Which combinations of mode and state occur. */
    ghost predicate Modes()
      reads this, filler`stateInCh, writer`zbits, strm`taken
    {
      && (finished ==>
         state == OUTPUT && mode in {FINISHING, IDLE} && filler.stateInCh == NO_CHAR && availInExpect == 0)
      && (finished ==> |writer.zbits| > 0)
      && (mode == IDLE ==> finished && stateOutPos == |writer.zbits|)
      && (state == OUTPUT && mode == RUNNING ==> filler.stateInCh < NO_CHAR)
      && (state == OUTPUT && filler.stateInCh == NO_CHAR ==> availInExpect == 0 && (mode == FINISHING ==> finished))
      && (mode in {FLUSHING, FINISHING} ==> |strm.taken| + availInExpect == goal)
    }

    ghost predicate Valid()
      reads this, strm, writer, filler, filler.block, filler.inUse, sorter.bhtab
    {
      Shape() && strm.Valid() && sorter.Tidy() && blockNo >= 1 && Sides() && Modes() && Conserved()
    }

    /** Between two calls: what is to be given out is there. */
    ghost predicate Resting()
      reads this, strm, writer, filler, filler.block, filler.inUse, sorter.bhtab
    {
      Valid() && (state == OUTPUT && mode != IDLE ==> stateOutPos < |writer.zbits|)
    }

    /** There are bytes to be given out, and no room for them. */
    ghost predicate Full()
      reads this`state, this`stateOutPos, writer`zbits, strm`availOut
    {
      state == OUTPUT && stateOutPos < |writer.zbits| && strm.availOut == 0
    }

    /** How many bytes of the block written are still to be given out. */
    ghost function Owed(): int
      reads this`stateOutPos, writer`zbits
    {
      |writer.zbits| - stateOutPos
    }

    predicate IsEmptyRL()
      reads filler`stateInCh, filler`stateInLen
    {
      !(filler.stateInCh < NO_CHAR && filler.stateInLen > 0)
    }

    method TakeOne()
      requires Shape() && strm.Valid() && filler.Filling(rest) && filler.nblock < filler.nblockMAX && |strm.nextIn| > 0
      requires Conserved() && (mode != RUNNING ==> availInExpect == |strm.nextIn|)
      modifies this`rest, this`availInExpect, strm`nextIn, strm`totalInLo32, strm`totalInHi32, strm`taken
      modifies filler`nblock, filler`blockCRC, filler`stateInCh, filler`stateInLen, filler.block, filler.inUse
      ensures strm.Valid() && filler.Filling(rest) && Conserved()
          && strm.taken + strm.nextIn == old(strm.taken + strm.nextIn)
      ensures |strm.nextIn| == |old(strm.nextIn)| - 1 && |strm.taken| == |old(strm.taken)| + 1
      ensures availInExpect == if mode == RUNNING then old(availInExpect) else |strm.nextIn|
    {
      hide Filler.Filling, Content;
      var c := strm.TakeByte();
      filler.AddChar(c, rest);
      rest := rest + [c];
      if mode != RUNNING {
        availInExpect := availInExpect - 1;
      }
      assert old(strm.taken) + ([c] + strm.nextIn) == strm.taken + strm.nextIn;
    }

    /** copy_input_until_stop: only as far as the block has room and, when
        flushing or finishing, as the input recorded goes. */
    method CopyInput() returns (progress: bool)
      requires Shape() && strm.Valid() && filler.Filling(rest) && Conserved()
      requires mode != RUNNING ==> availInExpect == |strm.nextIn|
      modifies this`rest, this`availInExpect, strm`nextIn, strm`totalInLo32, strm`totalInHi32, strm`taken
      modifies filler`nblock, filler`blockCRC, filler`stateInCh, filler`stateInLen, filler.block, filler.inUse
      ensures strm.Valid() && filler.Filling(rest) && Conserved()
          && strm.taken + strm.nextIn == old(strm.taken + strm.nextIn)
      ensures |strm.nextIn| <= |old(strm.nextIn)| && (progress <==> |strm.nextIn| < |old(strm.nextIn)|)
      ensures |strm.taken| + |strm.nextIn| == |old(strm.taken)| + |old(strm.nextIn)|
      ensures availInExpect == if mode == RUNNING then old(availInExpect) else |strm.nextIn|
      ensures |strm.nextIn| == 0 || filler.nblock >= filler.nblockMAX
      ensures !progress ==> filler.nblock == old(filler.nblock)
    {
      hide Filler.Filling, Conserved;
      progress := false;
      while true
        invariant strm.Valid() && filler.Filling(rest) && Conserved()
            && strm.taken + strm.nextIn == old(strm.taken + strm.nextIn)
        invariant |strm.nextIn| <= |old(strm.nextIn)| && (progress <==> |strm.nextIn| < |old(strm.nextIn)|)
        invariant |strm.taken| + |strm.nextIn| == |old(strm.taken)| + |old(strm.nextIn)|
        invariant availInExpect == if mode == RUNNING then old(availInExpect) else |strm.nextIn|
        invariant !progress ==> filler.nblock == old(filler.nblock)
        decreases |strm.nextIn|
      {
        if filler.nblock >= filler.nblockMAX || |strm.nextIn| == 0 || (mode != RUNNING && availInExpect == 0) {
          break;
        }
        progress := true;
        TakeOne();
      }
    }

    /** copy_output_until_stop. */
    method CopyOutput() returns (progress: bool)
      requires strm.Valid() && Conserved()
      modifies this`stateOutPos, strm`nextOut, strm`availOut, strm`totalOutLo32, strm`totalOutHi32
      ensures strm.Valid() && Conserved() && old(strm.nextOut) <= strm.nextOut
      ensures progress <==> |strm.nextOut| > |old(strm.nextOut)|
      ensures |strm.nextOut| - |old(strm.nextOut)| == stateOutPos - old(stateOutPos)
      ensures stateOutPos - old(stateOutPos) == old(strm.availOut) - strm.availOut
      ensures stateOutPos == |writer.zbits| || strm.availOut == 0
    {
      hide Content;
      progress := false;
      while true
        invariant strm.Valid() && Conserved() && old(strm.nextOut) <= strm.nextOut
        invariant progress <==> |strm.nextOut| > |old(strm.nextOut)|
        invariant |strm.nextOut| - |old(strm.nextOut)| == stateOutPos - old(stateOutPos)
        invariant old(strm.availOut) - strm.availOut == stateOutPos - old(stateOutPos)
        decreases |writer.zbits| - stateOutPos
      {
        if strm.availOut == 0 || stateOutPos >= |writer.zbits| {
          break;
        }
        progress := true;
        strm.PutByte(writer.zbits[stateOutPos]);
        stateOutPos := stateOutPos + 1;
      }
    }

    /** prepare_new_block. */
    method PrepareNewBlock()
      requires Shape() && filler.Shape() && RunOk() && rest == filler.RunInHand() && !finished && blockNo >= 1
      requires Laid(true) && Summed() && Conserved() && stateOutPos == |writer.zbits|
      modifies this`stateOutPos, this`blockNo, this`state, filler`nblock, filler`blockCRC, filler.inUse, writer`zbits,
          writer`sent
      ensures Sides() && Conserved() && state == INPUT && blockNo == old(blockNo) + 1 && filler.nblock == 0
    {
      hide Summed, GoodBlocks, AllValid, BlocksBits, HeaderBits, Content, BitWriter.Valid;
      filler.NewBlock();
      writer.Restart();
      stateOutPos := 0;
      blockNo := blockNo + 1;
      state := INPUT;
    }

    /** What handle_compress relies on between its steps. */
    ghost predicate Working()
      reads this, strm, writer, filler, filler.block, filler.inUse, sorter.bhtab
    {
      Valid() && mode != IDLE && (mode != RUNNING ==> availInExpect == |strm.nextIn|)
    }

    /** The room left tells how much has been given. */
    ghost predicate Given(nextOut: seq<byte>, availOut: nat)
      reads strm`nextOut, strm`availOut
    {
      nextOut <= strm.nextOut && |strm.nextOut| + strm.availOut == |nextOut| + availOut
    }

    /** The output half of a turn. */
    method OutputStep() returns (progress: bool, stop: bool)
      requires Working() && state == OUTPUT
      modifies this`stateOutPos, this`blockNo, this`state, filler`nblock, filler`blockCRC, filler.inUse, writer`zbits,
          writer`sent
      modifies strm`nextOut, strm`availOut, strm`totalOutLo32, strm`totalOutHi32
      ensures Working() && old(strm.nextOut) <= strm.nextOut && (progress <==> |strm.nextOut| > |old(strm.nextOut)|)
      ensures !stop ==> state == INPUT && filler.nblock == 0 && !(old(filler.stateInCh) == NO_CHAR)
      ensures stop ==> Settled()
      ensures Given(old(strm.nextOut), old(strm.availOut))
      ensures state == INPUT ==> stateOutPos == 0
      ensures state == OUTPUT ==>
          writer.zbits == old(writer.zbits) && stateOutPos - old(stateOutPos) == |strm.nextOut| - |old(strm.nextOut)|
      ensures state == INPUT && stop ==> mode == FLUSHING
    {
      hide Laid, Complete, Summed, Content, Shape, Filler.Filling, Filler.RunInHand, RunOk;
      progress := CopyOutput();
      stop := true;
      if stateOutPos < |writer.zbits| {
        return;
      }
      EmptyIs();
      if mode == FINISHING && availInExpect == 0 && IsEmptyRL() {
        return;
      }
      ShapeOfFiller();
      PrepareNewBlock();
      stop := mode == FLUSHING && availInExpect == 0 && IsEmptyRL();
    }

    lemma EmptyIs()
      requires RunOk()
      ensures IsEmptyRL() <==> filler.stateInCh == NO_CHAR
    {
    }

    lemma ShapeOfFiller()
      requires Shape()
      ensures filler.Shape()
    {
    }

    /** Why handle_compress returns: no more room, all done, or no more input. */
    ghost predicate Settled()
      reads this, strm, writer, filler
    {
      || (state == OUTPUT && stateOutPos < |writer.zbits| && strm.availOut == 0)
      || (mode == FINISHING && finished && stateOutPos == |writer.zbits|)
      || (mode == FLUSHING && state == INPUT && availInExpect == 0 && filler.stateInCh == NO_CHAR && filler.nblock == 0)
      || (mode == RUNNING && state == INPUT && |strm.nextIn| == 0 && filler.nblock < filler.nblockMAX)
    }

    /** Everything is flushed into a block, which ends the stream when
        finishing. */
    method CloseInput()
      requires Shape() && strm.Valid() && sorter.Tidy() && blockNo >= 1 && Conserved() && stateOutPos == 0
      requires filler.Filling(rest) && Laid(blockNo > 1) && Summed() && !finished && writer.zbits == []
      requires mode in {FLUSHING, FINISHING} && availInExpect == 0 && |strm.taken| == goal && |strm.nextIn| == 0
      modifies this`rest, this`state, this`combinedCRC, this`blocks, this`finished, this`pad
      modifies filler`nblock, filler`blockCRC, filler`stateInCh, filler`stateInLen, filler.block, filler.inUse
      modifies writer, sorter.ptr, sorter.eclass, sorter.quadrant, sorter.bhtab, sorter.mtfFreq, sorter.unseqToSeq
      ensures Working() && state == OUTPUT && filler.stateInCh == NO_CHAR && stateOutPos == 0
    {
      hide Shape, Laid, Complete, Summed, Conserved, Filler.Filling, Sorter.Tidy, Charged, BitWriter.Valid;
      filler.FlushRL(rest);
      ChargedRun(filler.block[..filler.nblock], filler.stateInCh, filler.stateInLen, rest);
      CompressBlock(mode == FINISHING);
      state := OUTPUT;
    }

    /** A full block is written; the run in hand stays. The literal bounds are
        on the bytes of a block that is closed because it is full. */
    method CloseFullBlock()
      requires Shape() && strm.Valid() && sorter.Tidy() && blockNo >= 1 && Conserved() && stateOutPos == 0
      requires filler.Filling(rest) && Laid(blockNo > 1) && Summed() && !finished && filler.nblock >= filler.nblockMAX
      requires writer.zbits == []
      requires mode != IDLE
          && (mode != RUNNING ==> availInExpect == |strm.nextIn| && |strm.taken| + availInExpect == goal)
      modifies this`rest, this`state, this`combinedCRC, this`blocks, this`finished, this`pad
      modifies filler`blockCRC, filler.block
      modifies writer, sorter.ptr, sorter.eclass, sorter.quadrant, sorter.bhtab, sorter.mtfFreq, sorter.unseqToSeq
      ensures Working() && state == OUTPUT && filler.stateInCh < NO_CHAR && stateOutPos == 0
      ensures 100000 * blockSize100k - 19 <= filler.nblock <= 100000 * blockSize100k - 10
    {
      hide Laid, Complete, Summed, Conserved, Sorter.Tidy, Charged, BitWriter.Valid;
      ChargedRun(filler.block[..filler.nblock], filler.stateInCh, filler.stateInLen, rest);
      CompressBlock(false);
      state := OUTPUT;
    }

    /** The input half of a turn. */
    method InputStep() returns (progress: bool, stop: bool)
      requires Working() && state == INPUT
      modifies this`rest, this`availInExpect, this`state, this`combinedCRC, this`blocks, this`finished, this`pad
      modifies strm`nextIn, strm`totalInLo32, strm`totalInHi32, strm`taken
      modifies filler`nblock, filler`blockCRC, filler`stateInCh, filler`stateInLen, filler.block, filler.inUse
      modifies writer, sorter.ptr, sorter.eclass, sorter.quadrant, sorter.bhtab, sorter.mtfFreq, sorter.unseqToSeq
      ensures Working() && strm.taken + strm.nextIn == old(strm.taken + strm.nextIn)
      ensures |strm.nextIn| <= |old(strm.nextIn)| && (progress <==> |strm.nextIn| < |old(strm.nextIn)|)
      ensures stop ==> Settled() && mode == RUNNING
      ensures stateOutPos == 0
      ensures !stop ==>
          state == OUTPUT && (filler.stateInCh == NO_CHAR || progress || old(filler.nblock) >= filler.nblockMAX)
    {
      hide Laid, Complete, Summed, Conserved, Shape, Settled, Filler.Filling, Sorter.Tidy;
      progress := CopyInput();
      stop := false;
      if mode != RUNNING && availInExpect == 0 {
        CloseInput();
      } else if filler.nblock >= filler.nblockMAX {
        CloseFullBlock();
      } else if |strm.nextIn| == 0 {
        Starved();
        stop := true;
      }
    }

    lemma Starved()
      requires mode == RUNNING && state == INPUT && |strm.nextIn| == 0 && filler.nblock < filler.nblockMAX
      ensures Settled()
    {
    }

    /** What handle_compress still has to do before it must take input or
        stop. */
    ghost function Rank(): nat
      reads this`state, filler`stateInCh, filler`nblock
    {
      if state == OUTPUT then (if filler.stateInCh == NO_CHAR then 0 else 2)
      else if filler.nblock >= filler.nblockMAX then 3 else 1
    }

    /** Less input, or less to do before more is taken, or less to give out. */
    ghost predicate Nearer(input: nat, rank: nat, owed: int, strict: bool)
      reads this, strm`nextIn, writer`zbits, filler`stateInCh, filler`nblock
    {
      || |strm.nextIn| < input
      || (|strm.nextIn| == input && Rank() < rank)
      || (|strm.nextIn| == input && Rank() == rank && Owed() <= owed && (strict ==> Owed() < owed))
    }

    /** One turn of the loop of handle_compress. */
    method Turn() returns (progressIn: bool, progressOut: bool, stop: bool)
      requires Working()
      modifies Repr()
      ensures Working() && mode == old(mode) && goal == old(goal) && (stop ==> Settled())
      ensures strm.taken + strm.nextIn == old(strm.taken + strm.nextIn) && old(strm.nextOut) <= strm.nextOut
      ensures |strm.nextIn| <= |old(strm.nextIn)| && (progressIn <==> |strm.nextIn| < |old(strm.nextIn)|)
      ensures progressOut <==> |strm.nextOut| > |old(strm.nextOut)|
      ensures !stop ==> progressIn || Rank() < old(Rank())
      ensures Given(old(strm.nextOut), old(strm.availOut))
      ensures !progressOut ==>
          stateOutPos == 0 || (old(state) == OUTPUT && stateOutPos == old(stateOutPos) && Owed() == old(Owed()))
      ensures mode == FINISHING && stop ==>
          Rank() == old(Rank()) && Owed() <= old(Owed()) && (progressOut ==> Owed() < old(Owed()))
    {
      hide Valid, Settled;
      RoomInBlock();
      progressIn, progressOut, stop := false, false, false;
      if state == OUTPUT {
        progressOut, stop := OutputStep();
        if stop {
          return;
        }
      }
      progressIn, stop := InputStep();
    }

    lemma RoomInBlock()
      requires Valid()
      ensures filler.nblockMAX > 0
    {
    }

    /** Main result: turns of output and input until one of them stops; this
        always ends, with all conserved. */
    method HandleCompress() returns (progress: bool)
      requires Working()
      modifies Repr()
      ensures Working() && Settled() && mode == old(mode) && goal == old(goal)
      ensures strm.taken + strm.nextIn == old(strm.taken + strm.nextIn) && old(strm.nextOut) <= strm.nextOut
      ensures |strm.nextIn| <= |old(strm.nextIn)|
      ensures progress <==> |strm.nextIn| < |old(strm.nextIn)| || |strm.nextOut| > |old(strm.nextOut)|
      ensures Given(old(strm.nextOut), old(strm.availOut))
      ensures |strm.nextOut| == |old(strm.nextOut)| ==>
        stateOutPos == 0 || (old(state) == OUTPUT && Owed() == old(Owed()))
      ensures mode == FINISHING ==> Nearer(|old(strm.nextIn)|, old(Rank()), old(Owed()), progress)
    {
      hide Working, Settled, Rank, Owed;
      FinishedFacts();
      var progressIn, progressOut := false, false;
      while true
        invariant Working() && mode == old(mode) && goal == old(goal)
        invariant strm.taken + strm.nextIn == old(strm.taken + strm.nextIn) && old(strm.nextOut) <= strm.nextOut
        invariant |strm.nextIn| <= |old(strm.nextIn)| && (progressIn <==> |strm.nextIn| < |old(strm.nextIn)|)
        invariant progressOut <==> |strm.nextOut| > |old(strm.nextOut)|
        invariant Given(old(strm.nextOut), old(strm.availOut))
        invariant !progressOut ==> stateOutPos == 0 || (old(state) == OUTPUT && Owed() == old(Owed()))
        invariant |strm.nextIn| < |old(strm.nextIn)| || Rank() < old(Rank())
            || (|strm.nextIn| == |old(strm.nextIn)| && Rank() == old(Rank()) && Owed() == old(Owed())
                && !progressIn && !progressOut)
        decreases |strm.nextIn|, Rank()
      {
        var pIn, pOut, stop := Turn();
        progressIn, progressOut := progressIn || pIn, progressOut || pOut;
        if stop {
          break;
        }
      }
      progress := progressIn || progressOut;
    }

    /** All input recorded for the flush has been written and given. */
    ghost predicate Flushed()
      reads this, strm, writer
    {
      rest == [] && strm.taken == Content(blocks) && |strm.taken| == goal && strm.nextOut == writer.sent + writer.zbits
    }

    /** BZ_M_RUNNING with action BZ_FLUSH or BZ_FINISH: the input there is now
        is what will be consumed. */
    method Begin(next: Mode)
      requires Valid() && mode == RUNNING && next in {FLUSHING, FINISHING}
      modifies this`mode, this`availInExpect, this`goal
      ensures Working() && mode == next && goal == |strm.taken| + |strm.nextIn|
    {
      hide Sides, Conserved, Shape;
      availInExpect := |strm.nextIn|;
      mode := next;
      goal := |strm.taken| + |strm.nextIn|;
    }

    method Flush() returns (code: Code)
      requires Working() && mode == FLUSHING
      modifies Repr()
      ensures Resting() && goal == old(goal) && code == if Full() then FLUSH_OK else RUN_OK
      ensures strm.taken + strm.nextIn == old(strm.taken + strm.nextIn) && old(strm.nextOut) <= strm.nextOut
      ensures code == RUN_OK ==> mode == RUNNING && Flushed()
      ensures code == FLUSH_OK ==> mode == FLUSHING && availInExpect == |strm.nextIn|
    {
      hide Valid, Working, Settled, Flushed, Full, Owed, Rank;
      var progress := HandleCompress();
      WorkingFacts();
      SettledCases();
      FinishedFacts();
      if availInExpect > 0 || !IsEmptyRL() || stateOutPos < |writer.zbits| {
        return FLUSH_OK;
      }
      AllFlushed();
      BackToRunning();
      code := RUN_OK;
    }

    /** The four reasons to stop, by mode. */
    lemma SettledCases()
      requires Settled()
      ensures mode == FLUSHING ==> Full() || (state == INPUT && availInExpect == 0 && filler.stateInCh == NO_CHAR)
      ensures mode == FINISHING ==> Full() || (finished && stateOutPos == |writer.zbits|)
      ensures mode == RUNNING ==> Full() || (state == INPUT && strm.nextIn == [])
      ensures Full() ==> state == OUTPUT && stateOutPos < |writer.zbits| && strm.availOut == 0
    {
    }

    /** While the trailer is not written nothing is given beyond it. */
    lemma FinishedFacts()
      requires Working()
      ensures finished ==>
          |writer.zbits| > 0 && availInExpect == 0 && filler.stateInCh == NO_CHAR && mode == FINISHING
      ensures state == INPUT ==> stateOutPos == 0 && writer.zbits == []
    {
      hide Laid, Complete, Summed, Conserved, Shape, Filler.Filling;
    }

    lemma WorkingFacts()
      requires Working()
      ensures Valid() && RunOk() && (IsEmptyRL() <==> filler.stateInCh == NO_CHAR) && stateOutPos <= |writer.zbits|
      ensures mode != RUNNING ==> availInExpect == |strm.nextIn|
    {
      hide Laid, Complete, Summed, Conserved, Shape;
    }

    lemma AllFlushed()
      requires Working() && Settled() && mode == FLUSHING && availInExpect == 0
      requires filler.stateInCh == NO_CHAR && stateOutPos == |writer.zbits|
      ensures Flushed() && state == INPUT
    {
      hide Laid, Complete, Summed, Shape, Content, Expand, StateAfter;
      assert filler.block[..filler.nblock] == [];
      NoBytes([]);
      assert writer.zbits[..stateOutPos] == writer.zbits;
    }

    method BackToRunning()
      requires Working() && mode == FLUSHING && state == INPUT && Flushed()
      modifies this`mode
      ensures Valid() && mode == RUNNING && Flushed()
    {
      hide Sides, Conserved, Shape, Content;
      mode := RUNNING;
    }

    /** The stream is complete: header, blocks and trailer have been given, and
        the blocks stand for all the input taken. */
    ghost predicate Ended()
      reads this, strm, writer
    {
      && Complete() && strm.taken == Content(blocks) && |strm.taken| == goal
      && BytesToBits(strm.nextOut) == writer.bits
    }

    method Finish() returns (code: Code)
      requires Working() && mode == FINISHING && (state == OUTPUT ==> stateOutPos < |writer.zbits|)
      modifies Repr()
      ensures Resting() && code in {FINISH_OK, STREAM_END, SEQUENCE_ERROR} && goal == old(goal)
      ensures code == STREAM_END <==> !Full()
      ensures code == SEQUENCE_ERROR ==> old(strm.availOut) == 0
      ensures code == FINISH_OK ==> Nearer(|old(strm.nextIn)|, old(Rank()), old(Owed()), true)
      ensures Given(old(strm.nextOut), old(strm.availOut))
      ensures strm.taken + strm.nextIn == old(strm.taken + strm.nextIn) && old(strm.nextOut) <= strm.nextOut
      ensures code == STREAM_END ==> mode == IDLE && Ended()
      ensures code != STREAM_END ==> mode == FINISHING && availInExpect == |strm.nextIn|
      ensures code == SEQUENCE_ERROR <==> |strm.nextIn| == |old(strm.nextIn)| && |strm.nextOut| == |old(strm.nextOut)|
    {
      hide Valid, Working, Settled, Ended, Full, Rank;
      ghost var in0, out0 := strm.nextIn, strm.nextOut;
      WorkingFacts();
      FinishedFacts();
      var progress := HandleCompress();
      WorkingFacts();
      SettledCases();
      FinishedFacts();
      if !progress {
        return SEQUENCE_ERROR;
      }
      if availInExpect > 0 || !IsEmptyRL() || stateOutPos < |writer.zbits| {
        return FINISH_OK;
      }
      AllFinished();
      BecomeIdle();
      code := STREAM_END;
    }

    lemma AllFinished()
      requires Working() && Settled() && mode == FINISHING && availInExpect == 0
      requires filler.stateInCh == NO_CHAR && stateOutPos == |writer.zbits|
      ensures finished && Ended()
    {
      hide Laid, Summed, Shape, Content, Filler.Filling;
      assert writer.zbits[..stateOutPos] == writer.zbits;
    }

    method BecomeIdle()
      requires Working() && mode == FINISHING && finished && stateOutPos == |writer.zbits| && Ended()
      modifies this`mode
      ensures Valid() && mode == IDLE && Ended()
    {
      hide Sides, Conserved, Shape, Complete, Content;
      mode := IDLE;
    }

    /** BZ_M_RUNNING with action BZ_RUN. */
    method RunOn() returns (code: Code)
      requires Valid() && mode == RUNNING
      modifies Repr()
      ensures Resting() && mode == RUNNING && code in {RUN_OK, PARAM_ERROR}
      ensures Full() || (state == INPUT && strm.nextIn == [])
      ensures strm.taken + strm.nextIn == old(strm.taken + strm.nextIn) && old(strm.nextOut) <= strm.nextOut
      ensures code == PARAM_ERROR <==> |strm.nextIn| == |old(strm.nextIn)| && |strm.nextOut| == |old(strm.nextOut)|
    {
      hide Valid, Settled, Full, Owed, Rank;
      var progress := HandleCompress();
      SettledCases();
      code := if progress then RUN_OK else PARAM_ERROR;
    }

    /** The calls that fail at once: a finished stream, an action that does not
        go on with what was begun, input added or taken away since, and an
        unknown action. */
    predicate Refused(action: Action)
      reads this`mode, this`availInExpect, strm`nextIn
    {
      match mode
      case IDLE => true
      case RUNNING => action == OTHER
      case FLUSHING => action != FLUSH || availInExpect != |strm.nextIn|
      case FINISHING => action != FINISH || availInExpect != |strm.nextIn|
    }

    /** Main result: bzCompress keeps its invariant over all calls. A flush or
        finish takes exactly the input there was when it began: it is done, with
        RUN_OK or STREAM_END, only when that has been taken, written and given.
        A call that is refused changes nothing: every call after STREAM_END,
        and another action or other input while a flush or finish goes on. A
        call that is not refused goes on until there are bytes to give out and
        no room for them, or all there was to do is done. */
    method BzCompress(action: Action) returns (code: Code)
      requires Resting()
      modifies Repr()
      ensures Resting()
      ensures strm.taken + strm.nextIn == old(strm.taken + strm.nextIn) && old(strm.nextOut) <= strm.nextOut
      ensures !old(Refused(action)) && action == RUN ==>
          && mode == RUNNING && (Full() || (state == INPUT && strm.nextIn == []))
          && code == if strm.nextIn == old(strm.nextIn) && strm.nextOut == old(strm.nextOut) then PARAM_ERROR
                     else RUN_OK
      ensures !old(Refused(action)) && action == FLUSH ==> code == if Full() then FLUSH_OK else RUN_OK
      ensures !old(Refused(action)) && action == FINISH ==>
          && (if !Full() then code == STREAM_END
              else code == FINISH_OK || (code == SEQUENCE_ERROR && old(strm.availOut) == 0))
      ensures code == FINISH_OK ==> Nearer(|old(strm.nextIn)|, old(Rank()), old(Owed()), true)
      ensures old(Refused(action)) ==> unchanged(this, strm, writer, filler)
      ensures old(Refused(action)) ==> code == if old(mode) == RUNNING then PARAM_ERROR else SEQUENCE_ERROR
      ensures code == SEQUENCE_ERROR || code == PARAM_ERROR ==>
          strm.nextIn == old(strm.nextIn) && strm.nextOut == old(strm.nextOut)
      ensures action in {FLUSH, FINISH} && old(mode) == RUNNING ==> goal == |old(strm.taken)| + |old(strm.nextIn)|
      ensures old(mode) in {FLUSHING, FINISHING} ==> goal == old(goal)
      ensures code == RUN_OK && action == FLUSH ==> mode == RUNNING && Flushed()
      ensures code == FLUSH_OK ==> mode == FLUSHING && availInExpect == |strm.nextIn|
      ensures code == FINISH_OK ==> mode == FINISHING && availInExpect == |strm.nextIn|
      ensures code == STREAM_END ==> action == FINISH && mode == IDLE && Ended()
    {
      hide Valid, Working, Flushed, Ended, Full, Rank;
      ghost var taken, nextIn, nextOut := strm.taken, strm.nextIn, strm.nextOut;
      match mode {
        case IDLE =>
          code := SEQUENCE_ERROR;
        case RUNNING =>
          match action {
            case RUN =>
              code := RunOn();
            case FLUSH =>
              Begin(FLUSHING);
              code := Flush();
            case FINISH =>
              Begin(FINISHING);
              code := Finish();
            case OTHER =>
              code := PARAM_ERROR;
          }
        case FLUSHING =>
          if action != FLUSH || availInExpect != |strm.nextIn| {
            return SEQUENCE_ERROR;
          }
          Resumed();
          code := Flush();
        case FINISHING =>
          if action != FINISH || availInExpect != |strm.nextIn| {
            return SEQUENCE_ERROR;
          }
          Resumed();
          code := Finish();
      }
      SameHalves(taken, nextIn, strm.taken, strm.nextIn);
    }

    /** Main result, end to end: a decompressor given the whole output, in any
        pieces, writes exactly the input the compressor took, and ends with
        STREAM_END. */
    lemma EndDecodes()
      requires Valid() && mode == IDLE && Ended()
      ensures Proper(tab, Between(Magic(0), 0, []))
      ensures OutcomeOf(tab, Between(Magic(0), 0, []), BytesToBits(strm.nextOut)) == (strm.taken, End)
    {
      hide Valid, Future, HeaderBits, BlocksBits, TrailerBits, Content, GoodBlocks;
      StreamRoundTrip(tab, blocks, blockSize100k, pad);
      assert [] + BytesToBits(strm.nextOut) == BytesToBits(strm.nextOut);
    }

    lemma Resumed()
      requires Valid() && mode in {FLUSHING, FINISHING} && availInExpect == |strm.nextIn|
      ensures Working()
    {
    }
  }

  lemma SameHalves(a: seq<byte>, b: seq<byte>, c: seq<byte>, d: seq<byte>)
    requires a + b == c + d
    ensures |b| == |d| ==> b == d
  {
    assert b == (a + b)[|a|..] && d == (c + d)[|c|..];
  }

  lemma LengthOf(a: seq<byte>, b: seq<byte>)
    ensures |a + b| == |a| + |b|
  {
  }

  lemma NoBytes(block: seq<byte>)
    ensures block == [] ==> Expand(block, FRESH) == []
  {
  }

  lemma Charge(block: seq<byte>, ch: nat, len: nat, input: seq<byte>)
    requires Charged(block, ch, len, input)
    ensures ch <= NO_CHAR && len <= 255
        && input == Expand(block, FRESH) + (if ch < NO_CHAR then Repeat(ch as byte, len) else [])
  {
  }

  lemma CombinedFits(tab: seq<nat>, blocks: seq<EncBlock>, level: nat)
    requires GoodBlocks(tab, blocks, level)
    ensures (forall i :: 0 <= i < |blocks| ==> blocks[i].crc < WORD) && CombinedCrc(0, blocks) < WORD
  {
  }

  lemma TrailerAppended(bits: seq<bool>, h: seq<bool>, b: seq<bool>, trailer: seq<bool>)
    requires bits == h + b
    ensures bits + trailer == h + (b + trailer)
  {
  }
}
