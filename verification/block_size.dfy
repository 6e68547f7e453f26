/** How long a compressed block can be, and that it fits in what the block
    leaves of the memory that they share. */
module BlockSize {
  import opened Words
  import opened Cyclic
  import opened Mtf
  import opened MtfEncoder
  import opened HuffmanForest
  import opened HuffmanCodes
  import opened DecoderMachine
  import opened BlockFormat
  import opened ParseTables
  import opened MainOrder
  import opened TableChoice
  import opened BlockWriter

  lemma {:induction false} UnaryLength(j: nat)
    ensures |Unary(j)| == j + 1
  {
    if j != 0 {
      UnaryLength(j - 1);
    }
  }

  lemma {:induction false} UnaryAllLength(t: seq<nat>)
    requires forall i :: 0 <= i < |t| ==> t[i] < 6
    ensures |UnaryAll(t)| <= 6 * |t|
  {
    if |t| != 0 {
      UnaryLength(t[0]);
      UnaryAllLength(t[1..]);
    }
  }

  lemma {:induction false} DeltaLength(a: nat, b: nat)
    ensures |Delta(a, b)| == 1 + 2 * (if a < b then b - a else a - b)
    decreases if a < b then b - a else a - b
  {
    if a < b {
      DeltaLength(a + 1, b);
    } else if a > b {
      DeltaLength(a - 1, b);
    }
  }

  ghost predicate ShortRow(row: seq<nat>) {
    forall i :: 0 <= i < |row| ==> 1 <= row[i] <= MAX_CODE_LEN
  }

  lemma {:induction false} DeltasLength(curr: nat, row: seq<nat>)
    requires 1 <= curr <= MAX_CODE_LEN && ShortRow(row)
    ensures |Deltas(curr, row)| <= 33 * |row|
    decreases |row|
  {
    if |row| != 0 {
      DeltaLength(curr, row[0]);
      DeltasLength(row[0], row[1..]);
    }
  }

  lemma {:induction false} TablesLength(lens: seq<seq<nat>>)
    requires forall t {:trigger lens[t]} :: 0 <= t < |lens| ==> 0 < |lens[t]| <= BZ_MAX_ALPHA_SIZE && ShortRow(lens[t])
    ensures |TablesBits(lens)| <= 8519 * |lens|
  {
    hide Deltas, ToBits, ShortRow;
    if |lens| != 0 {
      FirstShort(lens[0]);
      DeltasLength(lens[0][0], lens[0]);
      TablesLength(lens[1..]);
    }
  }

  lemma FirstShort(row: seq<nat>)
    requires 0 < |row| && ShortRow(row)
    ensures 1 <= row[0] <= MAX_CODE_LEN
  {
  }

  lemma {:induction false} SymbolsLength(lens: seq<seq<nat>>, selector: seq<nat>, syms: seq<nat>, k: nat)
    requires CodesKnown(lens, selector, syms) && k <= |syms| && ShortCodes(lens)
    ensures |SymbolBits(lens, selector, syms, k)| <= MAX_CODE_LEN * (|syms| - k)
    decreases |syms| - k
  {
    if k < |syms| {
      assert lens[selector[k / BZ_G_SIZE]][syms[k]] <= MAX_CODE_LEN;
      SymbolsLength(lens, selector, syms, k + 1);
    }
  }

  lemma {:induction false} RowsLength(inUse: seq<bool>, i: nat)
    requires |inUse| == 256 && i <= 16
    ensures |RowBits(inUse, i)| <= 16 * (16 - i)
    decreases 16 - i
  {
    if i < 16 {
      RowsLength(inUse, i + 1);
    }
  }

  /** No block of n characters takes more bits. */
  function Longest(n: nat): nat {
    MAX_CODE_LEN * (n + 1) + 6 * ((n + BZ_G_SIZE) / BZ_G_SIZE) + 51509
  }

  lemma BodyLength(e: EncBlock, level: nat)
    requires ValidBlock(e, level) && ShortCodes(e.lens)
    ensures |BodyBits(e, level)| <= Longest(|e.bytes|) - 105
  {
    hide RowBits, UnaryAll, SelectorMtf, TablesBits, SymbolBits, BlockSymbols, ToBits, Fits, Row16, BytesUsed,
        IsBlockSort;
    ValidCodesKnown(e, level);
    SelectorsOver(e);
    ShortTables(e, level);
    SymbolCount(e, level);
    var t := SelectorMtf(Identity(|e.lens|), e.selector);
    SelectorsRoundTrip(Identity(|e.lens|), e.selector);
    UnaryAllLength(t);
    RowsLength(InUse(e.bytes), 0);
    TablesLength(e.lens);
    SymbolsLength(e.lens, e.selector, BlockSymbols(e), 0);
  }

  lemma ShortTables(e: EncBlock, level: nat)
    requires ValidBlock(e, level) && ShortCodes(e.lens)
    ensures |e.lens| <= 6
    ensures forall t {:trigger e.lens[t]} ::
        0 <= t < |e.lens| ==> 0 < |e.lens[t]| <= BZ_MAX_ALPHA_SIZE && ShortRow(e.lens[t])
  {
    hide IsBlockSort, BlockSymbols, UsedBytes;
  }

  lemma SymbolCount(e: EncBlock, level: nat)
    requires ValidBlock(e, level)
    ensures IsPermutation(e.ptr, |e.bytes|) && |e.bytes| > 0
    ensures |BlockSymbols(e)| <= |e.bytes| + 1 && |e.selector| <= (|e.bytes| + BZ_G_SIZE) / BZ_G_SIZE
  {
    hide Fits, MtfSymbols;
    MappedBelow(e.bytes, e.ptr);
    MtfSymbolsShape(|BytesUsed(e.bytes)|, MappedBlock(e.bytes, e.ptr));
  }

  /** Main result: with codes of at most 17 bits, as the encoder makes them, a
      block of n characters takes at most 17 bits for each, a selector of at
      most 6 bits for every 50, and its header, mapping and tables. */
  lemma BlockLength(e: EncBlock, level: nat)
    requires ValidBlock(e, level) && ShortCodes(e.lens)
    ensures |BlockBits(e, level)| <= Longest(|e.bytes|)
  {
    hide BodyBits, ToBits, IsBlockSort, Fits, BlockSymbols, Longest;
    BodyLength(e, level);
    ThreeLengths(e.crc);
  }

  lemma ThreeLengths(crc: nat)
    ensures |ByteFields(BLOCK_MAGIC)| == 48 && |ByteFields(Word32Bytes(crc))| == 32
    ensures |ByteFields(END_MAGIC)| == 48
  {
    FieldsLength(BLOCK_MAGIC);
    FieldsLength(END_MAGIC);
    FieldsLength(Word32Bytes(crc));
  }

  lemma {:induction false} FieldsLength(xs: seq<nat>)
    ensures |ByteFields(xs)| == 8 * |xs|
  {
    if |xs| != 0 {
      FieldsLength(xs[1..]);
    }
  }

  /** The bytes of arr2 behind a block of n characters. */
  function RoomBehind(n: nat, capacity: nat): int {
    4 * (capacity + BZ_N_OVERSHOOT) - n
  }

  /** What is written for one block: 32 bits may be left from the block before,
      the stream's header is 32 bits, and the trailer with its padding at most
      87. All of it fits behind the block. */
  lemma FitsBehind(n: nat, level: nat, bits: nat, bytes: nat)
    requires n <= BLOCK_UNIT * level && 1 <= level && bits <= 32 + 32 + Longest(n) + 87 && 8 * bytes <= bits
    ensures bytes <= RoomBehind(n, BLOCK_UNIT * level)
  {
    assert (n + BZ_G_SIZE) / BZ_G_SIZE <= n / 50 + 1;
  }

  /** The quadrants of the main sort, two bytes each, start at an even address
      behind the block and its overshoot, and end within arr2. */
  lemma QuadrantsFit(nblock: nat, capacity: nat)
    requires nblock <= capacity
    ensures var i := nblock + BZ_N_OVERSHOOT;
            var start := if i % 2 == 1 then i + 1 else i;
            start % 2 == 0 && start + 2 * (nblock + BZ_N_OVERSHOOT) <= 4 * (capacity + BZ_N_OVERSHOOT)
  {
  }
}
