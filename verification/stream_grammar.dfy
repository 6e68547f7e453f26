/** The format, as text: what a stream is made of, written without reference to
    the machine that reads it. Unlike the encoder's blocks these may spell a
    code length by any detour, mark a row of the mapping that has no byte in
    use, and hold tables that do not fit the code space. */
module StreamGrammar {
  import opened Words
  import opened Mtf
  import opened MtfEncoder
  import opened HuffmanCodes
  import opened DecoderMachine
  import opened BlockFormat
  import opened ParseTables
  import opened Rle
  import opened Crc
  import opened StreamFuture

  const STREAM_START: seq<nat> := [0x42, 0x5a, 0x68]
  const BLOCK_START: seq<nat> := [0x31, 0x41, 0x59, 0x26, 0x53, 0x59]
  const STREAM_END: seq<nat> := [0x17, 0x72, 0x45, 0x38, 0x50, 0x90]

  /** A coding table: the first length, and the steps up (true) or down that
      are taken before each symbol's length is read off. */
  datatype TableText = TableText(start: nat, steps: seq<seq<bool>>)

  datatype BlockText = BlockText(crc: nat, origPtr: nat, inUse16: seq<bool>, inUse: seq<bool>,
                                 selectorMtf: seq<nat>, tables: seq<TableText>, codes: seq<seq<bool>>, syms: seq<nat>)

  // ---------- tables ----------

  function After(curr: int, ups: seq<bool>): int
    decreases |ups|
  {
    if ups == [] then curr else After(if ups[0] then curr + 1 else curr - 1, ups[1..])
  }

  /** The length stays between 1 and 20 all the way. */
  ghost predicate InRange(curr: int, ups: seq<bool>)
    decreases |ups|
  {
    1 <= curr <= 20 && (ups != [] ==> InRange(if ups[0] then curr + 1 else curr - 1, ups[1..]))
  }

  lemma {:induction false} AfterInRange(curr: int, ups: seq<bool>)
    requires InRange(curr, ups)
    ensures 1 <= After(curr, ups) <= 20
    decreases |ups|
  {
    if ups != [] {
      AfterInRange(if ups[0] then curr + 1 else curr - 1, ups[1..]);
    }
  }

  ghost predicate AllInRange(curr: int, steps: seq<seq<bool>>)
    decreases |steps|
  {
    steps != [] ==> InRange(curr, steps[0]) && AllInRange(After(curr, steps[0]), steps[1..])
  }

  /** The lengths that the steps spell. */
  ghost function Lengths(curr: int, steps: seq<seq<bool>>): (s: seq<nat>)
    requires AllInRange(curr, steps)
    ensures |s| == |steps| && forall i :: 0 <= i < |s| ==> 1 <= s[i] <= 20
    decreases |steps|
  {
    if steps == [] then []
    else
      AfterInRange(curr, steps[0]);
      [After(curr, steps[0])] + Lengths(After(curr, steps[0]), steps[1..])
  }

  function StepsBits(ups: seq<bool>): seq<bool>
    decreases |ups|
  {
    if ups == [] then [false] else [true, !ups[0]] + StepsBits(ups[1..])
  }

  function AllStepsBits(steps: seq<seq<bool>>): seq<bool>
    decreases |steps|
  {
    if steps == [] then [] else StepsBits(steps[0]) + AllStepsBits(steps[1..])
  }

  function TableTextBits(t: TableText): seq<bool> {
    ToBits(t.start, 5) + AllStepsBits(t.steps)
  }

  function TablesTextBits(ts: seq<TableText>): seq<bool>
    decreases |ts|
  {
    if ts == [] then [] else TableTextBits(ts[0]) + TablesTextBits(ts[1..])
  }

  ghost predicate TableTextOk(t: TableText, alphaSize: nat) {
    t.start < 32 && |t.steps| == alphaSize && AllInRange(t.start, t.steps)
  }

  ghost predicate TablesTextOk(ts: seq<TableText>, alphaSize: nat) {
    forall i :: 0 <= i < |ts| ==> TableTextOk(ts[i], alphaSize)
  }

  ghost function TableLengths(ts: seq<TableText>, alphaSize: nat): (s: seq<seq<nat>>)
    requires TablesTextOk(ts, alphaSize)
    ensures |s| == |ts| && forall i :: 0 <= i < |s| ==> s[i] == Lengths(ts[i].start, ts[i].steps)
  {
    seq(|ts|, i requires 0 <= i < |ts| => Lengths(ts[i].start, ts[i].steps))
  }

  // ---------- mapping ----------

  /** The rows of 16 that are marked. */
  function MarkedRows(marks: seq<bool>, inUse: seq<bool>, i: nat): seq<bool>
    requires |marks| == 16 && |inUse| == 256 && i <= 16
    decreases 16 - i
  {
    if i == 16 then [] else (if marks[i] then inUse[16 * i..16 * i + 16] else []) + MarkedRows(marks, inUse, i + 1)
  }

  /** Rows from i on that are not marked have no byte in use. */
  ghost predicate Marked(marks: seq<bool>, inUse: seq<bool>, i: nat)
    requires |marks| == 16 && |inUse| == 256
  {
    forall c :: 16 * i <= c < 256 && inUse[c] ==> marks[c / 16]
  }

  // ---------- codes ----------

  /** The table has no decision for any shorter part of the code, and takes the
      whole for the symbol. */
  ghost predicate CodeFor(lens: seq<nat>, code: seq<bool>, s: nat) {
    && MinLen(lens) <= |code| && LookLens(lens, |code|, Val(code)) == Symbol(s)
    && forall n {:trigger code[..n]} :: MinLen(lens) <= n < |code| ==> LookLens(lens, n, Val(code[..n])) == More
  }

  /** Codes for the symbols from number k on, with a table for each 50. */
  ghost predicate Coded(lens: seq<seq<nat>>, selector: seq<nat>, k: nat, codes: seq<seq<bool>>, syms: seq<nat>) {
    && |codes| == |syms| && k + |syms| <= 50 * |selector| && (forall g :: 0 <= g < |selector| ==> selector[g] < |lens|)
    && forall i :: 0 <= i < |syms| ==> CodeFor(lens[selector[(k + i) / 50]], codes[i], syms[i])
  }

  function Join(codes: seq<seq<bool>>): seq<bool>
    decreases |codes|
  {
    if codes == [] then [] else codes[0] + Join(codes[1..])
  }

  // ---------- blocks ----------

  function Alphabet(t: BlockText): (s: seq<byte>)
    requires |t.inUse| == 256
    ensures |s| <= 256
  {
    UsedBytes(t.inUse, 256)
  }

  function Selector(t: BlockText): seq<nat> {
    UndoSelectors(Identity(|t.tables|), t.selectorMtf)
  }

  /** End-of-block comes last and only there. */
  ghost predicate SymbolsOk(m: nat, syms: seq<nat>) {
    |syms| >= 1 && syms[|syms| - 1] == m + 1 && forall i :: 0 <= i < |syms| - 1 ==> syms[i] <= m
  }

  /** The last column that the symbols stand for. */
  ghost function BlockColumn(used: seq<byte>, syms: seq<nat>): seq<byte>
    requires |used| <= 256 && SymbolsOk(|used|, syms)
  {
    MapBytes(used, Decode(Identity(256), 0, 1, syms[..|syms| - 1]))
  }

  ghost predicate HeadOk(t: BlockText, level: nat) {
    && 1 <= level <= 9 && t.crc < 0x1_0000_0000 && t.origPtr <= 10 + 100000 * level
    && |t.inUse16| == 16 && |t.inUse| == 256 && Marked(t.inUse16, t.inUse, 0) && 0 < |Alphabet(t)|
    && 2 <= |t.tables| <= 6 && 1 <= |t.selectorMtf| <= 18002
    && (forall i :: 0 <= i < |t.selectorMtf| ==> t.selectorMtf[i] < |t.tables|)
    && TablesTextOk(t.tables, |Alphabet(t)| + 2)
  }

  ghost predicate BlockTextOk(t: BlockText, level: nat) {
    && HeadOk(t, level) && SymbolsOk(|Alphabet(t)|, t.syms)
    && Coded(TableLengths(t.tables, |Alphabet(t)| + 2), Selector(t), 0, t.codes, t.syms)
    && t.origPtr < |BlockColumn(Alphabet(t), t.syms)| <= 100000 * level
  }

  function BlockTextBits(t: BlockText): seq<bool>
    requires |t.inUse16| == 16 && |t.inUse| == 256
  {
    ByteFields(BLOCK_START) + (ByteFields(Word32Bytes(t.crc)) + ([false] + (ToBits(t.origPtr, 24) + (t.inUse16
    + (MarkedRows(t.inUse16, t.inUse, 0) + (ToBits(|t.tables|, 3) + (ToBits(|t.selectorMtf|, 15)
    + (UnaryAll(t.selectorMtf) + (TablesTextBits(t.tables) + Join(t.codes))))))))))
  }

  /** What a block stands for. */
  ghost function BlockContent(t: BlockText, level: nat): seq<byte>
    requires BlockTextOk(t, level)
  {
    var col := BlockColumn(Alphabet(t), t.syms);
    Remaining(Walk(col, t.origPtr), |col|, 1)
  }

  /** No run is cut short, and the CRC is that of the content. */
  ghost predicate SoundBlock(tab: seq<nat>, t: BlockText, level: nat)
    requires IsTable(tab)
  {
    && BlockTextOk(t, level) && t.crc == BlockCrc(tab, BlockContent(t, level))
    && EndsWell(Walk(BlockColumn(Alphabet(t), t.syms), t.origPtr), |BlockColumn(Alphabet(t), t.syms)|, 1)
  }

  // ---------- streams ----------

  ghost predicate SoundBlocks(tab: seq<nat>, ts: seq<BlockText>, level: nat)
    requires IsTable(tab)
  {
    forall i :: 0 <= i < |ts| ==> SoundBlock(tab, ts[i], level)
  }

  ghost function BlocksTextBits(tab: seq<nat>, ts: seq<BlockText>, level: nat): seq<bool>
    requires IsTable(tab) && SoundBlocks(tab, ts, level)
    decreases |ts|
  {
    if ts == [] then [] else BlockTextBits(ts[0]) + BlocksTextBits(tab, ts[1..], level)
  }

  ghost function BlocksContent(tab: seq<nat>, ts: seq<BlockText>, level: nat): seq<byte>
    requires IsTable(tab) && SoundBlocks(tab, ts, level)
    decreases |ts|
  {
    if ts == [] then [] else BlockContent(ts[0], level) + BlocksContent(tab, ts[1..], level)
  }

  ghost function BlocksCrc(tab: seq<nat>, ts: seq<BlockText>, level: nat, combined: nat): (r: nat)
    requires IsTable(tab) && SoundBlocks(tab, ts, level) && combined < WORD
    ensures r < WORD
    decreases |ts|
  {
    if ts == [] then combined else BlocksCrc(tab, ts[1..], level, Combine(combined, ts[0].crc))
  }

  function EndBits(combined: nat): seq<bool> {
    ByteFields(STREAM_END) + ByteFields(Word32Bytes(combined))
  }

  ghost function StreamBits(tab: seq<nat>, ts: seq<BlockText>, level: nat): seq<bool>
    requires IsTable(tab) && SoundBlocks(tab, ts, level)
  {
    ByteFields(STREAM_START + [0x30 + level])
    + (BlocksTextBits(tab, ts, level) + EndBits(BlocksCrc(tab, ts, level, 0)))
  }
}
