/** Whole blocks: the machine, fed the bits of a block, ends with the last
    column of the block. */
module BlockRoundTrip {
  import opened Words
  import opened Cyclic
  import opened InverseBwt
  import opened Mtf
  import opened MtfEncoder
  import opened HuffmanCodes
  import opened DecoderMachine
  import opened BlockFormat
  import opened ParseBlock
  import opened ParseTables

  // ---------- the effect of one symbol ----------

  lemma MapRun(used: seq<byte>, c: nat, w: nat)
    ensures MapBytes(used, Repeat(c, w)) == Repeat(ByteOf(used, c), w)
  {
  }

  lemma MapConcat(used: seq<byte>, a: seq<nat>, b: seq<nat>)
    ensures MapBytes(used, a + b) == MapBytes(used, a) + MapBytes(used, b)
  {
  }

  lemma EndSymbol(b: Body, syms: seq<nat>, k: nat)
    requires Sequence(b, syms) && k == |syms| - 1 && |FinalColumn(b, syms, k)| <= BLOCK_UNIT * b.h.level
    ensures GotSymbol(b, syms[k]) == FinishBlock(b.h, FinalColumn(b, syms, k))
  {
    hide FinishBlock, ByteOf;
    assert syms[k..|syms| - 1] == [];
    assert Decode(b.list, b.w, b.n, []) == Repeat(b.list[0], b.w);
    MapRun(b.used, b.list[0], b.w);
  }

  /** A run digit leaves the column that all symbols decode to. */
  lemma RunColumn(b: Body, syms: seq<nat>, k: nat)
    requires Sequence(b, syms) && k < |syms| - 1 && syms[k] < 2
    ensures var c := b.(w := b.w + (syms[k] + 1) * b.n, n := 2 * b.n);
            Sequence(c, syms) && FinalColumn(c, syms, k + 1) == FinalColumn(b, syms, k)
  {
    hide ByteOf, Decode;
    var last := |syms| - 1;
    assert syms[k..last] == [syms[k]] + syms[k + 1..last];
    DecodeDigit(b.list, b.w, b.n, syms[k], syms[k + 1..last]);
    assert syms[k] == 0 || syms[k] == 1;
  }

  lemma RunSymbol(b: Body, syms: seq<nat>, k: nat)
    requires Sequence(b, syms) && k < |syms| - 1 && syms[k] < 2
    requires |FinalColumn(b, syms, k)| <= BLOCK_UNIT * b.h.level
    ensures var c := b.(w := b.w + (syms[k] + 1) * b.n, n := 2 * b.n);
            && GotSymbol(b, syms[k]) == BeginSymbol(c)
            && Sequence(c, syms) && FinalColumn(c, syms, k + 1) == FinalColumn(b, syms, k)
  {
    hide BeginSymbol, ByteOf, Decode;
    RunColumn(b, syms, k);
    PendingRunDecoded(b.list, b.w, b.n, syms[k..|syms| - 1]);
  }

  /** What is decoded is at least as long as the run already collected. */
  lemma {:induction false} PendingRunDecoded(list: seq<nat>, w: nat, n: nat, syms: seq<nat>)
    requires |list| > 0 && Mtf.Symbols(syms, |list|)
    ensures |Decode(list, w, n, syms)| >= w
    decreases |syms|
  {
    hide MoveToFront;
    if |syms| > 0 && syms[0] < 2 {
      PendingRunDecoded(list, w + (syms[0] + 1) * n, 2 * n, syms[1..]);
    }
  }

  /** The body after a symbol that moves a list entry to the front. */
  function Moved(b: Body, s: nat): Body
    requires 1 <= s <= |b.list|
  {
    b.(list := MoveToFront(b.list, s - 1), col := RunFlushed(b) + [ByteOf(b.used, b.list[s - 1])], w := 0, n := 1)
  }

  lemma MoveColumn(b: Body, syms: seq<nat>, k: nat)
    requires Sequence(b, syms) && k < |syms| - 1 && syms[k] >= 2
    ensures var c := Moved(b, syms[k]); Sequence(c, syms) && FinalColumn(c, syms, k + 1) == FinalColumn(b, syms, k)
  {
    hide ByteOf, Decode, MoveToFront;
    var s, last := syms[k], |syms| - 1;
    var tail := Decode(MoveToFront(b.list, s - 1), 0, 1, syms[k + 1..last]);
    assert syms[k..last] == [s] + syms[k + 1..last];
    DecodeMove(b.list, b.w, b.n, s, syms[k + 1..last]);
    MapRun(b.used, b.list[0], b.w);
    MapConcat(b.used, Repeat(b.list[0], b.w), [b.list[s - 1]] + tail);
    MapConcat(b.used, [b.list[s - 1]], tail);
    assert MapBytes(b.used, [b.list[s - 1]]) == [ByteOf(b.used, b.list[s - 1])];
    var x, y, z := RunFlushed(b), [ByteOf(b.used, b.list[s - 1])], MapBytes(b.used, tail);
    assert FinalColumn(b, syms, k) == x + (y + z);
    assert x + (y + z) == (x + y) + z;
  }

  lemma MoveSymbol(b: Body, syms: seq<nat>, k: nat)
    requires Sequence(b, syms) && k < |syms| - 1 && syms[k] >= 2
    requires |FinalColumn(b, syms, k)| <= BLOCK_UNIT * b.h.level
    ensures var c := Moved(b, syms[k]);
            && GotSymbol(b, syms[k]) == BeginSymbol(c)
            && Sequence(c, syms) && FinalColumn(c, syms, k + 1) == FinalColumn(b, syms, k)
  {
    hide BeginSymbol, ByteOf, Decode, MoveToFront;
    MoveColumn(b, syms, k);
    assert |RunFlushed(b)| < |FinalColumn(Moved(b, syms[k]), syms, k + 1)|;
  }

  /** All the symbols of a block decode to its last column. */
  lemma {:induction false} SymbolsRead(b: Body, syms: seq<nat>, k: nat, rest: seq<bool>)
    requires EndsOnce(b, syms) && GroupAt(b, k) && k < |syms|
    requires |FinalColumn(b, syms, k)| <= BLOCK_UNIT * b.h.level
    ensures Run(BeginSymbol(b), SymbolBits(b.lens, b.selector, syms, k) + rest)
         == Run(FinishBlock(b.h, FinalColumn(b, syms, k)), rest)
    decreases |syms| - k
  {
    hide Run, GotSymbol, FinishBlock, BeginSymbol, SymbolBits, FinalColumn, Sequence, CodesKnown, Fits, Waiting,
         MoveToFront, RunFlushed, ByteOf;
    SymbolRead(b, syms, k, rest);
    WaitingKeeps(b, syms, k);
    var c := Waiting(b, k);
    if k == |syms| - 1 {
      EndSymbol(c, syms, k);
      NoMoreSymbols(b, syms, rest);
    } else if syms[k] < 2 {
      RunSymbol(c, syms, k);
      SymbolsRead(c.(w := c.w + (syms[k] + 1) * c.n, n := 2 * c.n), syms, k + 1, rest);
    } else {
      SymbolsNext(b, c, syms, k, rest);
    }
  }

  lemma SymbolsNext(b: Body, c: Body, syms: seq<nat>, k: nat, rest: seq<bool>)
    requires EndsOnce(c, syms) && GroupAt(c, k + 1) && k < |syms| - 1 && syms[k] >= 2
    requires c.lens == b.lens && c.selector == b.selector && c.h == b.h
    requires |FinalColumn(c, syms, k)| <= BLOCK_UNIT * c.h.level
    ensures CodesKnown(b.lens, b.selector, syms)
    ensures Run(GotSymbol(c, syms[k]), SymbolBits(b.lens, b.selector, syms, k + 1) + rest)
         == Run(FinishBlock(c.h, FinalColumn(c, syms, k)), rest)
    decreases |syms| - k, 0
  {
    hide Run, GotSymbol, FinishBlock, BeginSymbol, SymbolBits, FinalColumn, MoveToFront, RunFlushed, ByteOf;
    MoveSymbol(c, syms, k);
    SymbolsRead(Moved(c, syms[k]), syms, k + 1, rest);
  }

  lemma NoMoreSymbols(b: Body, syms: seq<nat>, rest: seq<bool>)
    requires CodesKnown(b.lens, b.selector, syms)
    ensures SymbolBits(b.lens, b.selector, syms, |syms|) + rest == rest
  {
  }

  lemma WaitingKeeps(b: Body, syms: seq<nat>, k: nat)
    requires EndsOnce(b, syms) && GroupAt(b, k) && k < |syms|
    ensures var c := Waiting(b, k);
            && c.h == b.h && c.lens == b.lens && c.selector == b.selector
            && EndsOnce(c, syms) && GroupAt(c, k + 1) && FinalColumn(c, syms, k) == FinalColumn(b, syms, k)
            && CodesKnown(b.lens, b.selector, syms)
  {
    hide BeginSymbol, MinLen, Fits, Decode;
    BeginAt(b, k);
  }

  // ---------- what the symbols mean ----------

  /** A longer list decodes the same as long as only its start is used. */
  lemma {:induction false} DecodeLonger(list: seq<nat>, extra: seq<nat>, w: nat, n: nat, syms: seq<nat>)
    requires |list| > 0 && Mtf.Symbols(syms, |list|)
    ensures Decode(list + extra, w, n, syms) == Decode(list, w, n, syms)
    decreases |syms|
  {
    hide MoveToFront, Repeat;
    if |syms| == 0 {
    } else if syms[0] < 2 {
      DecodeLonger(list, extra, w + (syms[0] + 1) * n, 2 * n, syms[1..]);
    } else {
      MoveInPrefix(list, extra, syms[0] - 1);
      DecodeLonger(MoveToFront(list, syms[0] - 1), extra, 0, 1, syms[1..]);
    }
  }

  lemma MoveInPrefix(list: seq<nat>, extra: seq<nat>, j: nat)
    requires j < |list|
    ensures MoveToFront(list + extra, j) == MoveToFront(list, j) + extra
  {
    assert (list + extra)[..j] == list[..j];
    assert (list + extra)[j + 1..] == list[j + 1..] + extra;
  }

  /** The symbols of a block, decoded with the full list, give its last column. */
  lemma SymbolsMeanColumn(e: EncBlock)
    requires IsPermutation(e.ptr, |e.bytes|) && |e.bytes| > 0
    ensures var syms, used := BlockSymbols(e), BytesUsed(e.bytes);
            && |syms| > 0 && Mtf.Symbols(syms[..|syms| - 1], 256)
            && MapBytes(used, Decode(Identity(256), 0, 1, syms[..|syms| - 1])) == LastColumn(e.bytes, e.ptr)
  {
    hide Encode, Decode;
    var syms, used, s := BlockSymbols(e), BytesUsed(e.bytes), MappedBlock(e.bytes, e.ptr);
    MappedBelow(e.bytes, e.ptr);
    var m := |used|;
    assert forall i :: 0 <= i < |s| ==> s[i] == Identity(m)[s[i]];
    var body := Encode(Identity(m), 0, s);
    RoundTrip(Identity(m), 0, s);
    assert syms == body + [m + 1] && syms[..|syms| - 1] == body;
    var extra := Identity(256)[m..];
    assert Identity(256) == Identity(m) + extra;
    DecodeLonger(Identity(m), extra, 0, 1, body);
    assert Repeat(Identity(m)[0], 0) + s == s;
    assert MapBytes(used, s) == LastColumn(e.bytes, e.ptr);
  }

  // ---------- the block ----------

  function HeaderOf(e: EncBlock, level: nat): Header {
    Header(level, e.crc, e.origPtr)
  }

  ghost function FirstBody(e: EncBlock, level: nat): Body {
    Body(HeaderOf(e, level), BytesUsed(e.bytes), e.selector, e.lens, -1, 0, 0, 0, Identity(256), [], 0, 1)
  }

  lemma BodyStart(e: EncBlock, level: nat)
    requires ValidBlock(e, level)
    ensures StartSymbols(HeaderOf(e, level), InUse(e.bytes), e.selector, e.lens) == BeginSymbol(FirstBody(e, level))
    ensures EndsOnce(FirstBody(e, level), BlockSymbols(e)) && GroupAt(FirstBody(e, level), 0)
  {
    hide BeginSymbol, Fits, MtfSymbols, UsedBytes, BlockSymbols;
    ValidCodesKnown(e, level);
    BlockSymbolsEnd(e);
  }

  lemma BlockSymbolsEnd(e: EncBlock)
    requires IsPermutation(e.ptr, |e.bytes|) && |e.bytes| > 0
    ensures var syms, m := BlockSymbols(e), |BytesUsed(e.bytes)|;
            && 0 < m <= 256 && 1 <= |syms| <= |e.bytes| + 1 && syms[|syms| - 1] == m + 1
            && forall i :: 0 <= i < |syms| - 1 ==> syms[i] <= m
  {
    hide MtfSymbols;
    MappedBelow(e.bytes, e.ptr);
    MtfSymbolsShape(|BytesUsed(e.bytes)|, MappedBlock(e.bytes, e.ptr));
  }

  lemma FirstColumn(e: EncBlock, level: nat)
    requires ValidBlock(e, level) && EndsOnce(FirstBody(e, level), BlockSymbols(e))
    ensures FinalColumn(FirstBody(e, level), BlockSymbols(e), 0) == LastColumn(e.bytes, e.ptr)
  {
    hide Decode, BlockSymbols, BytesUsed, EndsOnce, LastColumn;
    var syms := BlockSymbols(e);
    SymbolsMeanColumn(e);
    BlockSymbolsEnd(e);
    assert syms[0..|syms| - 1] == syms[..|syms| - 1];
    assert [] + LastColumn(e.bytes, e.ptr) == LastColumn(e.bytes, e.ptr);
  }

  lemma BodyRead(e: EncBlock, level: nat, rest: seq<bool>)
    requires ValidBlock(e, level)
    ensures Run(Mapping1(HeaderOf(e, level), []), BodyBits(e, level) + rest)
         == (Output(HeaderOf(e, level), LastColumn(e.bytes, e.ptr)), rest)
  {
    hide Run, MappingBits, UnaryAll, SelectorMtf, TablesBits, SymbolBits, StartSymbols, BeginSymbol, FinalColumn,
         BlockSymbols, EndsOnce, UsedBytes, ToBits, UndoSelectors, HeaderOf, Fits;
    var h, inUse, g := HeaderOf(e, level), InUse(e.bytes), |e.lens|;
    ValidCodesKnown(e, level);
    SelectorsOver(e);
    MappedBelow(e.bytes, e.ptr);
    var t := SelectorMtf(Identity(g), e.selector);
    var f5 := SymbolBits(e.lens, e.selector, BlockSymbols(e), 0) + rest;
    var f4 := TablesBits(e.lens) + f5;
    var f3 := UnaryAll(t) + f4;
    var f2 := ToBits(|e.selector|, 15) + f3;
    var f1 := ToBits(g, 3) + f2;
    BodyShape(e, level, rest);
    SelectorCount(e, level);
    MappingRead(h, inUse, f1);
    SelectorCounts(h, inUse, g, |e.selector|, f3);
    SelectorsRoundTrip(Identity(g), e.selector);
    SelectorsRead(h, inUse, g, |e.selector|, [], t, f4);
    assert [] + t == t;
    TablesReady(e, level);
    TablesRead(Frame(h, inUse, g, e.selector, []), e.lens, f5);
    assert [] + e.lens == e.lens;
    SymbolPart(e, level, rest);
  }

  lemma SymbolPart(e: EncBlock, level: nat, rest: seq<bool>)
    requires ValidBlock(e, level) && CodesKnown(e.lens, e.selector, BlockSymbols(e))
    ensures Run(StartSymbols(HeaderOf(e, level), InUse(e.bytes), e.selector, e.lens),
                SymbolBits(e.lens, e.selector, BlockSymbols(e), 0) + rest)
         == (Output(HeaderOf(e, level), LastColumn(e.bytes, e.ptr)), rest)
  {
    hide Run, SymbolBits, StartSymbols, BeginSymbol, FinalColumn, BlockSymbols, EndsOnce, UsedBytes, Fits, LastColumn;
    BodyStart(e, level);
    FirstColumn(e, level);
    FinishRead(e, level, rest);
    BlockSymbolsEnd(e);
    SymbolsRead(FirstBody(e, level), BlockSymbols(e), 0, rest);
  }

  lemma BodyShape(e: EncBlock, level: nat, rest: seq<bool>)
    requires ValidBlock(e, level)
    ensures CodesKnown(e.lens, e.selector, BlockSymbols(e)) && Over(e.selector, Identity(|e.lens|))
    ensures BodyBits(e, level) + rest
         == MappingBits(InUse(e.bytes)) + (ToBits(|e.lens|, 3) + (ToBits(|e.selector|, 15)
            + (UnaryAll(SelectorMtf(Identity(|e.lens|), e.selector)) + (TablesBits(e.lens)
            + (SymbolBits(e.lens, e.selector, BlockSymbols(e), 0) + rest)))))
  {
    hide MappingBits, UnaryAll, SelectorMtf, TablesBits, SymbolBits, BlockSymbols, ToBits, Fits;
    ValidCodesKnown(e, level);
    SelectorsOver(e);
  }

  lemma SelectorCounts(h: Header, inUse: seq<bool>, g: nat, n: nat, rest: seq<bool>)
    requires 2 <= g <= 6 && 1 <= n <= BZ_MAX_SELECTORS
    ensures Run(Selector1(h, inUse), ToBits(g, 3) + (ToBits(n, 15) + rest)) ==
        Run(Selector3(h, inUse, g, n, [], 0), rest)
  {
    hide Run;
    Pow2Values();
    RunField(Selector1(h, inUse), g, ToBits(n, 15) + rest);
    RunField(Selector2(h, inUse, g), n, rest);
  }

  /** Any block has room for its selectors. */
  lemma SelectorCount(e: EncBlock, level: nat)
    requires ValidBlock(e, level)
    ensures 1 <= |e.selector| <= BZ_MAX_SELECTORS
  {
    BlockSymbolsEnd(e);
  }

  lemma TablesReady(e: EncBlock, level: nat)
    requires ValidBlock(e, level)
    ensures forall t :: 0 <= t < |e.lens| ==> 0 < |e.lens[t]| == AlphaSize(InUse(e.bytes)) && ValidLengths(e.lens[t])
  {
  }

  lemma FinishRead(e: EncBlock, level: nat, rest: seq<bool>)
    requires ValidBlock(e, level)
    ensures |LastColumn(e.bytes, e.ptr)| <= BLOCK_UNIT * level
    ensures Run(FinishBlock(HeaderOf(e, level), LastColumn(e.bytes, e.ptr)), rest)
         == (Output(HeaderOf(e, level), LastColumn(e.bytes, e.ptr)), rest)
  {
  }

  /** Main result for one block: the machine fed its bits stops with the last
      column and the header of the block, every other bit unread. */
  lemma BlockRead(e: EncBlock, level: nat, rest: seq<bool>)
    requires ValidBlock(e, level)
    ensures Run(BlkHdr(level, 0), BlockBits(e, level) + rest)
         == (Output(HeaderOf(e, level), LastColumn(e.bytes, e.ptr)), rest)
  {
    hide Run, BodyBits, ByteFields, ToBits, LastColumn, Word32Bytes;
    var tail := BodyBits(e, level) + rest;
    var f3 := Bit(false) + (ToBits(e.origPtr, 24) + tail);
    var f2 := ByteFields(Word32Bytes(e.crc)) + f3;
    assert BLOCK_MAGIC[0..] == BLOCK_MAGIC;
    assert BlockBits(e, level) + rest == ByteFields(BLOCK_MAGIC) + f2;
    BlockMagicRead(level, 0, f2);
    CrcRead(level, e.crc, f3);
    OrigPtrRead(level, e.crc, e.origPtr, tail);
    BodyRead(e, level, rest);
  }
}
