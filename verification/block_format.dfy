/** The bits of a compressed block and of the whole stream, as functions of
    what the encoder decided: the sorted order, the code lengths of each table
    and the table chosen for each group of 50 symbols. */
module BlockFormat {
  import opened Words
  import opened Cyclic
  import opened InverseBwt
  import opened Mtf
  import opened MtfEncoder
  import opened HuffmanCodes
  import opened DecoderMachine

  /** Everything about one block that its bits depend on. */
  datatype EncBlock = EncBlock(bytes: seq<byte>, ptr: seq<nat>, origPtr: nat, crc: nat,
                               lens: seq<seq<nat>>, selector: seq<nat>)

  function InUse(bytes: seq<byte>): (s: seq<bool>)
    ensures |s| == 256 && forall c :: 0 <= c < 256 ==> s[c] == (c in bytes)
  {
    seq(256, c => c in bytes)
  }

  function BytesUsed(bytes: seq<byte>): seq<byte> {
    UsedBytes(InUse(bytes), 256)
  }

  /** The last column, as numbers of bytes in use. */
  ghost function MappedBlock(bytes: seq<byte>, ptr: seq<nat>): (s: seq<nat>)
    requires IsPermutation(ptr, |bytes|)
    ensures |s| == |bytes|
    ensures forall i :: 0 <= i < |s| ==> s[i] == |UsedBytes(InUse(bytes), LastColumn(bytes, ptr)[i])|
  {
    var l := LastColumn(bytes, ptr);
    seq(|l|, i requires 0 <= i < |l| => |UsedBytes(InUse(bytes), l[i])|)
  }

  lemma MappedBelow(bytes: seq<byte>, ptr: seq<nat>)
    requires IsPermutation(ptr, |bytes|)
    ensures Below(MappedBlock(bytes, ptr), |BytesUsed(bytes)|)
    ensures forall i :: 0 <= i < |bytes| ==> var c := MappedBlock(bytes, ptr)[i];
              c < |BytesUsed(bytes)| && BytesUsed(bytes)[c] == LastColumn(bytes, ptr)[i]
    ensures |bytes| > 0 ==> |BytesUsed(bytes)| > 0
  {
    var s, l := MappedBlock(bytes, ptr), LastColumn(bytes, ptr);
    forall i | 0 <= i < |s| ensures s[i] < |BytesUsed(bytes)| && BytesUsed(bytes)[s[i]] == l[i] {
      assert l[i] in bytes;
      UsedByteAt(InUse(bytes), l[i]);
    }
    if |bytes| > 0 {
      UsedByteAt(InUse(bytes), bytes[0]);
    }
  }

  /** The symbols of the block, end-of-block included. */
  ghost function BlockSymbols(e: EncBlock): seq<nat>
    requires IsPermutation(e.ptr, |e.bytes|) && |e.bytes| > 0
  {
    MappedBelow(e.bytes, e.ptr);
    MtfSymbols(|BytesUsed(e.bytes)|, MappedBlock(e.bytes, e.ptr))
  }

  /** A block the encoder may write. */
  ghost predicate ValidBlock(e: EncBlock, level: nat) {
    && 1 <= level <= 9 && 0 < |e.bytes| <= BLOCK_UNIT * level && e.crc < WORD
    && IsBlockSort(e.bytes, e.ptr) && e.origPtr < |e.bytes| && e.ptr[e.origPtr] == 0
    && 2 <= |e.lens| <= 6
    && (forall t :: 0 <= t < |e.lens| ==> |e.lens[t]| == |BytesUsed(e.bytes)| + 2 && Fits(e.lens[t]))
    && (forall g :: 0 <= g < |e.selector| ==> e.selector[g] < |e.lens|)
    && |e.selector| == (|BlockSymbols(e)| + BZ_G_SIZE - 1) / BZ_G_SIZE
  }

  // ---------- bit fields ----------

  function ByteFields(xs: seq<nat>): seq<bool> {
    if |xs| == 0 then [] else ToBits(xs[0], 8) + ByteFields(xs[1..])
  }

  /** The four bytes of bsPutUInt32. */
  function Word32Bytes(u: nat): seq<nat> {
    [u / 0x100_0000 % 256, u / 0x1_0000 % 256, u / 256 % 256, u % 256]
  }

  function Bit(x: bool): seq<bool> { [x] }

  function Row16(inUse: seq<bool>, i: nat): bool
    requires |inUse| == 256 && i < 16
  {
    true in inUse[16 * i..16 * i + 16]
  }

  function InUse16(inUse: seq<bool>): (s: seq<bool>)
    requires |inUse| == 256
    ensures |s| == 16 && forall i :: 0 <= i < 16 ==> s[i] == Row16(inUse, i)
  {
    seq(16, i requires 0 <= i < 16 => Row16(inUse, i))
  }

  /** The rows of the mapping from row i on that have a byte in use. */
  function RowBits(inUse: seq<bool>, i: nat): seq<bool>
    requires |inUse| == 256 && i <= 16
    decreases 16 - i
  {
    if i == 16 then []
    else (if Row16(inUse, i) then inUse[16 * i..16 * i + 16] else []) + RowBits(inUse, i + 1)
  }

  function MappingBits(inUse: seq<bool>): seq<bool>
    requires |inUse| == 256
  {
    InUse16(inUse) + RowBits(inUse, 0)
  }

  /** Move-to-front of the selectors. */
  function SelectorMtf(pos: seq<nat>, selector: seq<nat>): (s: seq<nat>)
    requires Over(selector, pos)
    ensures |s| == |selector|
    decreases |selector|
  {
    if |selector| == 0 then []
    else
      var j := IndexOf(pos, selector[0]);
      assert Over(selector[1..], MoveToFront(pos, j)) by { MoveToFrontMembers(pos, j); }
      [j] + SelectorMtf(MoveToFront(pos, j), selector[1..])
  }

  lemma MoveToFrontMembers(list: seq<nat>, j: nat)
    requires j < |list|
    ensures forall c :: c in list ==> c in MoveToFront(list, j)
  {
    var r := MoveToFront(list, j);
    forall c | c in list ensures c in r {
      var i :| 0 <= i < |list| && list[i] == c;
      assert r[if i < j then i + 1 else if i == j then 0 else i] == c;
    }
  }

  function Unary(j: nat): seq<bool> {
    if j == 0 then [false] else [true] + Unary(j - 1)
  }

  function UnaryAll(s: seq<nat>): seq<bool> {
    if |s| == 0 then [] else Unary(s[0]) + UnaryAll(s[1..])
  }

  /** From one code length to the next, two bits a step. */
  function Delta(curr: nat, target: nat): seq<bool>
    decreases if curr < target then target - curr else curr - target
  {
    if curr < target then [true, false] + Delta(curr + 1, target)
    else if curr > target then [true, true] + Delta(curr - 1, target)
    else [false]
  }

  function Deltas(curr: nat, row: seq<nat>): seq<bool>
    decreases |row|
  {
    if |row| == 0 then [] else Delta(curr, row[0]) + Deltas(row[0], row[1..])
  }

  function TableBits(row: seq<nat>): seq<bool>
    requires |row| > 0
  {
    ToBits(row[0], 5) + Deltas(row[0], row)
  }

  function TablesBits(lens: seq<seq<nat>>): seq<bool>
    requires forall t :: 0 <= t < |lens| ==> |lens[t]| > 0
  {
    if |lens| == 0 then [] else TableBits(lens[0]) + TablesBits(lens[1..])
  }

  /** The codes of the symbols from number k on. */
  function SymbolBits(lens: seq<seq<nat>>, selector: seq<nat>, syms: seq<nat>, k: nat): seq<bool>
    requires CodesKnown(lens, selector, syms) && k <= |syms|
    decreases |syms| - k
  {
    if k == |syms| then []
    else CodeBits(lens[selector[k / BZ_G_SIZE]], syms[k]) + SymbolBits(lens, selector, syms, k + 1)
  }

  ghost predicate CodesKnown(lens: seq<seq<nat>>, selector: seq<nat>, syms: seq<nat>) {
    && (forall g :: 0 <= g < |selector| ==> selector[g] < |lens|)
    && (forall t, k :: 0 <= t < |lens| && 0 <= k < |syms| ==> syms[k] < |lens[t]|)
    && |syms| <= BZ_G_SIZE * |selector|
  }

  lemma ValidCodesKnown(e: EncBlock, level: nat)
    requires ValidBlock(e, level)
    ensures CodesKnown(e.lens, e.selector, BlockSymbols(e))
  {
    MappedBelow(e.bytes, e.ptr);
    MtfSymbolsShape(|BytesUsed(e.bytes)|, MappedBlock(e.bytes, e.ptr));
  }

  /** What sendMTFValues writes. */
  ghost function BodyBits(e: EncBlock, level: nat): seq<bool>
    requires ValidBlock(e, level)
  {
    ValidCodesKnown(e, level);
    SelectorsOver(e);
    MappingBits(InUse(e.bytes)) + (ToBits(|e.lens|, 3) + (ToBits(|e.selector|, 15)
    + (UnaryAll(SelectorMtf(Identity(|e.lens|), e.selector)) + (TablesBits(e.lens)
    + SymbolBits(e.lens, e.selector, BlockSymbols(e), 0)))))
  }

  lemma SelectorsOver(e: EncBlock)
    requires forall g :: 0 <= g < |e.selector| ==> e.selector[g] < |e.lens|
    ensures Over(e.selector, Identity(|e.lens|))
  {
    forall g | 0 <= g < |e.selector| ensures e.selector[g] in Identity(|e.lens|) {
      assert Identity(|e.lens|)[e.selector[g]] == e.selector[g];
    }
  }

  /** The bits of one block. */
  ghost function BlockBits(e: EncBlock, level: nat): seq<bool>
    requires ValidBlock(e, level)
  {
    ByteFields(BLOCK_MAGIC) +
        (ByteFields(Word32Bytes(e.crc)) + (Bit(false) + (ToBits(e.origPtr, 24) + BodyBits(e, level))))
  }

  ghost function BlocksBits(blocks: seq<EncBlock>, level: nat): seq<bool>
    requires forall i :: 0 <= i < |blocks| ==> ValidBlock(blocks[i], level)
  {
    if |blocks| == 0 then [] else BlockBits(blocks[0], level) + BlocksBits(blocks[1..], level)
  }

  function HeaderBits(level: nat): seq<bool> {
    ByteFields(MAGIC + [0x30 + level])
  }

  function TrailerBits(combined: nat): seq<bool> {
    ByteFields(END_MAGIC) + ByteFields(Word32Bytes(combined))
  }
}
