/** Exactly the streams of the format are decoded to the end: the converse of
    the round trip, on the bits of the input, and what any other byte at a
    fixed place does. */
module StreamExactly {
  import opened Words
  import opened Mtf
  import opened MtfEncoder
  import opened HuffmanCodes
  import opened DecoderMachine
  import opened MachineInvariant
  import opened BlockFormat
  import opened ParseBlock
  import opened ParseTables
  import opened Rle
  import opened Crc
  import opened StreamFuture
  import opened StreamGrammar
  import opened GrammarRead
  import opened GrammarFound

  // ---------- one block ----------

  /** The sections of a block after its magic, before the symbols. */
  lemma HeadFound(level: nat, bits: seq<bool>) returns (t: BlockText, rest: seq<bool>)
    requires 1 <= level <= 9 && Ends(BCrc(level, 0, 0), bits)
    ensures HeadOk(t, level)
    ensures bits == ByteFields(Word32Bytes(t.crc)) + ([false] + (ToBits(t.origPtr, 24) + (t.inUse16
        + (MarkedRows(t.inUse16, t.inUse, 0) + (ToBits(|t.tables|, 3) + (ToBits(|t.selectorMtf|, 15)
        + (UnaryAll(t.selectorMtf) + (TablesTextBits(t.tables) + rest))))))))
    ensures var q := StartSymbols(HeaderFor(t, level), t.inUse, Selector(t),
                                  TableLengths(t.tables, |Alphabet(t)| + 2));
            Run(BCrc(level, 0, 0), bits) == Run(q, rest) && Ends(q, rest)
  {
    hide Run, Ends, SeekMapping, StartSymbols, UndoSelectors, ToBits, ByteFields, Word32Bytes, UnaryAll, MarkedRows,
         TablesTextBits, TablesTextOk, Marked, UsedBytes, TableLengths;
    var r1, r2, r3, r4, r5, r6, crc, ptr, marks, inUse, g, n, s, ts;
    crc, r1 := CrcFound(level, bits);
    ptr, r2 := OrigPtrFound(level, crc, r1);
    var h := Header(level, crc, ptr);
    marks, r3 := MarksFound(h, [], r2);
    assert marks[0..] == marks;
    inUse, r4 := RowsFound(h, marks, [], 0, r3);
    g, n, r5 := CountsFound(h, inUse, r4);
    s, r6 := SelectorsFound(h, inUse, g, n, [], r5);
    assert [] + s == s;
    var f := Frame(h, inUse, g, UndoSelectors(Identity(g), s), []);
    ts, rest := TablesTextFound(f, r6);
    assert [] + TableLengths(ts, AlphaSize(inUse)) == TableLengths(ts, AlphaSize(inUse));
    t := BlockText(crc, ptr, marks, inUse, s, ts, [], []);
  }

  /** The first body of a block's symbols lies between two symbols. */
  lemma StartBetween(t: BlockText, level: nat)
    requires HeadOk(t, level)
    ensures Between(StartBody(t, level), 0)
    ensures StartSymbols(HeaderFor(t, level), t.inUse, Selector(t), TableLengths(t.tables, |Alphabet(t)| + 2))
         == BeginSymbol(StartBody(t, level))
  {
    hide UsedBytes, Marked, UndoSelectors, BeginSymbol, TablesTextOk;
    TextTablesOk(t, level);
    UndoSelectorsBelow(Identity(|t.tables|), t.selectorMtf, |t.tables|);
  }

  lemma TextTablesOk(t: BlockText, level: nat)
    requires HeadOk(t, level)
    ensures TablesOk(TableLengths(t.tables, |Alphabet(t)| + 2), |Alphabet(t)| + 2)
  {
    hide UsedBytes, Marked, UndoSelectors, AllInRange;
    assert forall i :: 0 <= i < |t.tables| ==> TableTextOk(t.tables[i], |Alphabet(t)| + 2);
  }

  /** A block that the machine reads to its end is one of the format. */
  lemma BlockFound(level: nat, bits: seq<bool>) returns (t: BlockText, rest: seq<bool>)
    requires 1 <= level <= 9 && Ends(BCrc(level, 0, 0), bits)
    ensures BlockTextOk(t, level) && ByteFields(BLOCK_START) + bits == BlockTextBits(t) + rest
    ensures Run(BCrc(level, 0, 0), bits) == (Output(HeaderFor(t, level), BlockColumn(Alphabet(t), t.syms)), rest)
  {
    hide Run, Ends, StartSymbols, BeginSymbol, HeadOk, Coded, Sequence, FinalColumn, UnaryAll, MarkedRows,
         TablesTextBits, ToBits, ByteFields, Word32Bytes, Join, SymbolsOk, BlockColumn, UsedBytes;
    var u, r := HeadFound(level, bits);
    StartBetween(u, level);
    var b := StartBody(u, level);
    var codes, syms;
    codes, syms, rest := CodesFound(b, 0, r);
    t := u.(codes := codes, syms := syms);
    SameHead(u, t, level);
    ColumnIs(t, level);
  }

  lemma SameHead(u: BlockText, t: BlockText, level: nat)
    requires HeadOk(u, level) && t == u.(codes := t.codes, syms := t.syms)
    ensures HeadOk(t, level) && StartBody(t, level) == StartBody(u, level)
  {
    hide UsedBytes, Marked, UndoSelectors;
  }

  lemma ColumnIs(t: BlockText, level: nat)
    requires HeadOk(t, level) && Sequence(StartBody(t, level), t.syms)
    ensures SymbolsOk(|Alphabet(t)|, t.syms)
    ensures FinalColumn(StartBody(t, level), t.syms, 0) == BlockColumn(Alphabet(t), t.syms)
  {
    hide UsedBytes, Marked, UndoSelectors, Decode, TablesTextOk;
    assert t.syms[0..|t.syms| - 1] == t.syms[..|t.syms| - 1];
  }

  // ---------- the whole stream ----------

  lemma EndMeansEnds(tab: seq<nat>, p: Parse, combined: nat, bits: seq<bool>)
    requires IsTable(tab) && combined < WORD && Future(tab, p, combined, bits).1 == End
    ensures Ends(p, bits)
  {
    hide Run, FutureOutput;
  }

  /** From a block boundary to the end of the stream. */
  lemma {:induction false} BlocksFound(tab: seq<nat>, level: nat, combined: nat, bits: seq<bool>)
      returns (ts: seq<BlockText>, pad: seq<bool>)
    requires IsTable(tab) && 1 <= level <= 9 && combined < WORD
    requires Future(tab, BlkHdr(level, 0), combined, bits).1 == End
    ensures SoundBlocks(tab, ts, level)
    ensures bits == BlocksTextBits(tab, ts, level) + (EndBits(BlocksCrc(tab, ts, level, combined)) + pad)
    decreases |bits|
  {
    hide Run, Future, FutureOutput, ByteFields, Word32Bytes, BlockTextBits, BlockTextOk, Combine, Ends, SoundBlock;
    EndMeansEnds(tab, BlkHdr(level, 0), combined, bits);
    var isEnd, r := SectionFound(level, bits);
    if isEnd {
      var crc;
      crc, pad := CombinedFound(level, r);
      IdleAgrees(tab, level, combined, bits, crc, pad);
      ts := [];
      assert EndBits(crc) + pad == ByteFields(STREAM_END) + r;
    } else {
      var t, rest := BlockFound(level, r);
      BlockAgrees(tab, t, level, combined, bits, rest);
      ts, pad := BlocksFound(tab, level, Combine(combined, t.crc), rest);
      BlocksCons(tab, t, ts, level, combined, EndBits(BlocksCrc(tab, ts, level, Combine(combined, t.crc))) + pad);
      ts := [t] + ts;
    }
  }

  lemma IdleAgrees(tab: seq<nat>, level: nat, combined: nat, bits: seq<bool>, crc: nat, pad: seq<bool>)
    requires IsTable(tab) && combined < WORD && Run(BlkHdr(level, 0), bits) == (Idle(crc), pad)
    requires Future(tab, BlkHdr(level, 0), combined, bits).1 == End
    ensures crc == combined && Future(tab, BlkHdr(level, 0), combined, bits).0 == []
  {
    hide Run;
  }

  lemma BlockAgrees(tab: seq<nat>, t: BlockText, level: nat, combined: nat, bits: seq<bool>, rest: seq<bool>)
    requires IsTable(tab) && combined < WORD && BlockTextOk(t, level) && bits == BlockTextBits(t) + rest
    requires Run(BlkHdr(level, 0), bits) == (Output(HeaderFor(t, level), BlockColumn(Alphabet(t), t.syms)), rest)
    requires Future(tab, BlkHdr(level, 0), combined, bits).1 == End
    ensures SoundBlock(tab, t, level) && t.crc < WORD && |rest| < |bits|
    ensures Future(tab, BlkHdr(level, 0), Combine(combined, t.crc), rest).1 == End
  {
    hide Run, BlockTextBits, BlockColumn, HeadOk, Coded, SymbolsOk, EndsWell, Remaining, CrcOf, Combine, Finalise;
    BlockTextLong(t, level);
  }

  lemma BlocksCons(tab: seq<nat>, t: BlockText, ts: seq<BlockText>, level: nat, combined: nat, tail: seq<bool>)
    requires IsTable(tab) && combined < WORD && SoundBlock(tab, t, level) && SoundBlocks(tab, ts, level)
    ensures SoundBlocks(tab, [t] + ts, level)
    ensures BlocksCrc(tab, [t] + ts, level, combined) == BlocksCrc(tab, ts, level, Combine(combined, t.crc))
    ensures BlocksTextBits(tab, [t] + ts, level) + tail == BlockTextBits(t) + (BlocksTextBits(tab, ts, level) + tail)
  {
    hide BlockTextBits, Combine, EndsWell, Coded, SymbolsOk, BlockColumn, Marked, TablesTextOk, UsedBytes, BlockCrc;
    assert ([t] + ts)[1..] == ts;
  }

  /** The input is such a stream, with some bits behind it. */
  ghost predicate IsStream(tab: seq<nat>, bits: seq<bool>, ts: seq<BlockText>, level: nat, pad: seq<bool>)
    requires IsTable(tab)
  {
    1 <= level <= 9 && SoundBlocks(tab, ts, level) && bits == StreamBits(tab, ts, level) + pad
  }

  /** Main result, the other direction: what is decoded to the end is a stream
      of the format. */
  lemma StreamFound(tab: seq<nat>, bits: seq<bool>) returns (ts: seq<BlockText>, level: nat, pad: seq<bool>)
    requires IsTable(tab) && Future(tab, Magic(0), 0, bits).1 == End
    ensures IsStream(tab, bits, ts, level, pad)
  {
    hide Run, Future, BlocksTextBits, EndBits, BlocksCrc, SoundBlocks, ByteFields, Ends;
    EndMeansEnds(tab, Magic(0), 0, bits);
    var rest;
    level, rest := MagicFound(bits);
    RunSame(tab, Magic(0), BlkHdr(level, 0), 0, bits, rest);
    ts, pad := BlocksFound(tab, level, 0, rest);
  }

  /** Main result: the input is decoded to the end if and only if it is a stream
      of the format, and then the output is what its blocks stand for. */
  lemma EndsExactly(tab: seq<nat>, bits: seq<bool>)
    requires IsTable(tab)
    ensures Future(tab, Magic(0), 0, bits).1 == End <==> exists ts, level, pad :: IsStream(tab, bits, ts, level, pad)
    ensures forall ts, level, pad :: IsStream(tab, bits, ts, level, pad) ==>
              Future(tab, Magic(0), 0, bits) == (BlocksContent(tab, ts, level), End)
  {
    hide Future, StreamBits, SoundBlocks, BlocksContent;
    if Future(tab, Magic(0), 0, bits).1 == End {
      var ts, level, pad := StreamFound(tab, bits);
    }
    forall ts, level, pad | IsStream(tab, bits, ts, level, pad)
      ensures Future(tab, Magic(0), 0, bits) == (BlocksContent(tab, ts, level), End)
    {
      StreamRead(tab, ts, level, pad);
    }
  }

  // ---------- any other byte ----------

  lemma RunFailed(e: Error, bits: seq<bool>)
    ensures Run(Failed(e), bits) == (Failed(e), bits)
  {
  }

  /** Another byte in the first four: not a stream at all. */
  lemma OtherHeader(tab: seq<nat>, k: nat, x: nat, rest: seq<bool>)
    requires IsTable(tab) && k < 4 && x < 256
    requires if k == 0 then x != 0x42 else if k == 1 then x != 0x5a else if k == 2 then x != 0x68
             else !(0x31 <= x <= 0x39)
    ensures Future(tab, Magic(0), 0, ByteFields([0x42, 0x5a, 0x68][..k]) + (ToBits(x, 8) + rest)) == ([], NotBzip)
  {
    hide Run, ToBits, ByteFields;
    var tail := ToBits(x, 8) + rest;
    HeaderPrefix(k, tail);
    RunByte(Magic(k), x, rest);
    RunFailed(BadMagic, rest);
  }

  lemma HeaderPrefix(k: nat, tail: seq<bool>)
    requires k < 4
    ensures Run(Magic(0), ByteFields([0x42, 0x5a, 0x68][..k]) + tail) == Run(Magic(k), tail)
  {
    hide Run, ToBits;
    var m: seq<nat> := [0x42, 0x5a, 0x68];
    if k == 0 {
      NoFields(tail);
    } else {
      var j := k - 1;
      HeaderPrefix(j, ToBits(m[j], 8) + tail);
      FieldsSnoc(m[..j], m[j], tail);
      assert m[..k] == m[..j] + [m[j]];
      RunByte(Magic(j), m[j], tail);
    }
  }

  lemma {:induction false} FieldsSnoc(xs: seq<nat>, x: nat, rest: seq<bool>)
    ensures ByteFields(xs + [x]) + rest == ByteFields(xs) + (ToBits(x, 8) + rest)
    decreases |xs|
  {
    hide ToBits, ByteFields;
    if xs == [] {
      FieldsCons(x, [], rest);
      NoFields(rest);
      NoFields(ToBits(x, 8) + rest);
      assert xs + [x] == [x] + [];
    } else {
      FieldsSnoc(xs[1..], x, rest);
      FieldsCons(xs[0], xs[1..] + [x], rest);
      FieldsCons(xs[0], xs[1..], ToBits(x, 8) + rest);
      assert xs + [x] == [xs[0]] + (xs[1..] + [x]) && xs == [xs[0]] + xs[1..];
    }
  }

  /** The first k bytes of a block's or the trailer's magic have been read. */
  function AtMagic(level: nat, isEnd: bool, k: nat): Parse {
    if isEnd && k > 0 then EndHdr(level, k) else BlkHdr(level, k)
  }

  lemma {:induction false} MagicPrefix(level: nat, isEnd: bool, k: nat, tail: seq<bool>)
    requires k < 6
    ensures var m := if isEnd then STREAM_END else BLOCK_START;
            Run(BlkHdr(level, 0), ByteFields(m[..k]) + tail) == Run(AtMagic(level, isEnd, k), tail)
  {
    hide Run, ToBits;
    var m := if isEnd then STREAM_END else BLOCK_START;
    if k == 0 {
      NoFields(tail);
    } else {
      var j := k - 1;
      MagicPrefix(level, isEnd, j, ToBits(m[j], 8) + tail);
      FieldsSnoc(m[..j], m[j], tail);
      assert m[..k] == m[..j] + [m[j]];
      RunByte(AtMagic(level, isEnd, j), m[j], tail);
    }
  }

  /** Another byte in the magic of a block or of the trailer: corrupt data. */
  lemma OtherMagic(tab: seq<nat>, level: nat, combined: nat, isEnd: bool, k: nat, x: nat, rest: seq<bool>)
    requires IsTable(tab) && combined < WORD && k < 6 && x < 256
    requires k == 0 ==> x != 0x31 && x != 0x17
    requires var m := if isEnd then [0x17, 0x72, 0x45, 0x38, 0x50, 0x90] else [0x31, 0x41, 0x59, 0x26, 0x53, 0x59];
             x != m[k]
    ensures var m := if isEnd then [0x17, 0x72, 0x45, 0x38, 0x50, 0x90] else [0x31, 0x41, 0x59, 0x26, 0x53, 0x59];
            Future(tab, BlkHdr(level, 0), combined, ByteFields(m[..k]) + (ToBits(x, 8) + rest)) == ([], Corrupt)
  {
    hide Run, ToBits, ByteFields;
    MagicPrefix(level, isEnd, k, ToBits(x, 8) + rest);
    RunByte(AtMagic(level, isEnd, k), x, rest);
    RunFailed(BadData, rest);
  }

  /** Another block CRC: corrupt data, after the block has been written. */
  lemma OtherCrc(tab: seq<nat>, t: BlockText, level: nat, combined: nat, rest: seq<bool>)
    requires IsTable(tab) && combined < WORD && BlockTextOk(t, level) && t.crc != BlockCrc(tab, BlockContent(t, level))
    requires EndsWell(Walk(BlockColumn(Alphabet(t), t.syms), t.origPtr), |BlockColumn(Alphabet(t), t.syms)|, 1)
    ensures Future(tab, BlkHdr(level, 0), combined, BlockTextBits(t) + rest) == (BlockContent(t, level), Corrupt)
  {
    hide Run, BlockTextBits, BlockColumn, Coded, Remaining, EndsWell, CrcOf, Combine, HeadOk, SymbolsOk;
    BlockTextRead(t, level, rest);
    BlockTextLong(t, level);
  }

  /** Another combined CRC: corrupt data. */
  lemma OtherCombined(tab: seq<nat>, level: nat, combined: nat, u: nat, pad: seq<bool>)
    requires IsTable(tab) && combined < WORD && u < WORD && u != combined
    ensures Future(tab, BlkHdr(level, 0), combined, EndBits(u) + pad) == ([], Corrupt)
  {
    hide Run, ByteFields, Word32Bytes;
    assert END_MAGIC[0..] == END_MAGIC == STREAM_END;
    assert EndBits(u) + pad == ByteFields(STREAM_END) + (ByteFields(Word32Bytes(u)) + pad);
    EndMagicRead(level, 0, ByteFields(Word32Bytes(u)) + pad);
    CombinedCrcRead(level, u, pad);
  }

  /** Main result: after the header and any sound blocks, what goes wrong next
      decides the outcome, and the blocks before have been given out. */
  lemma AfterBlocks(tab: seq<nat>, ts: seq<BlockText>, level: nat, bad: seq<bool>, out: seq<byte>)
    requires IsTable(tab) && 1 <= level <= 9 && SoundBlocks(tab, ts, level)
    requires Future(tab, BlkHdr(level, 0), BlocksCrc(tab, ts, level, 0), bad) == (out, Corrupt)
    ensures Future(tab, Magic(0), 0,
                   ByteFields([0x42, 0x5a, 0x68, 0x30 + level]) + (BlocksTextBits(tab, ts, level) + bad))
         == (BlocksContent(tab, ts, level) + out, Corrupt)
  {
    hide Run, Future, BlocksTextBits, SoundBlocks, ByteFields, BlocksContent, BlocksCrc;
    var rest := BlocksTextBits(tab, ts, level) + bad;
    assert MAGIC + [0x30 + level] == [0x42, 0x5a, 0x68, 0x30 + level];
    HeaderRead(level, rest);
    RunSame(tab, Magic(0), BlkHdr(level, 0), 0, HeaderBits(level) + rest, rest);
    BlocksTextFuture(tab, ts, level, 0, bad);
  }
}
