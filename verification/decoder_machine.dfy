/** BZ2_decompress as a state machine over its bit requests. One constructor
    per group of request labels; each carries only what is still needed when
    the request is answered, which is what the save area must hold. */
module DecoderMachine {
  import opened Words
  import opened Counting
  import opened Mtf
  import opened MtfEncoder
  import opened HuffmanCodes

  const BZ_G_SIZE := 50
  const BZ_MAX_SELECTORS := 18002
  const BLOCK_UNIT := 100000

  /** Two errors stand for what is outside the model. Legacy: a block with the
      randomised bit set. Undefined: the code leaves what C defines, by storing
      one selector more than the array holds, by doubling N past the largest
      int, or by adding a run to a character's count past the largest int. */
  datatype Error = BadMagic | BadData | Legacy | Undefined

  /** What the block header fixes. */
  datatype Header = Header(level: nat, crc: nat, origPtr: nat)

  /** What decoding the symbols of a block keeps: tables, position in the
      groups, the code being read, the move-to-front list, the last column so
      far, and the pending run (w more copies, next digit weighs n). */
  datatype Body = Body(h: Header, used: seq<byte>, selector: seq<nat>, lens: seq<seq<nat>>,
                       groupNo: int, groupPos: nat, zn: nat, zvec: nat,
                       list: seq<nat>, col: seq<byte>, w: nat, n: nat)

  datatype Parse =
    | Magic(k: nat)
    | BlkHdr(level: nat, k: nat)
    | BCrc(level: nat, k: nat, crc: nat)
    | RandBit(level: nat, crc: nat)
    | OrigPtr(level: nat, crc: nat, k: nat, ptr: nat)
    | Mapping1(h: Header, inUse16: seq<bool>)
    | Mapping2(h: Header, inUse16: seq<bool>, inUse: seq<bool>)
    | Selector1(h: Header, inUse: seq<bool>)
    | Selector2(h: Header, inUse: seq<bool>, nGroups: nat)
    | Selector3(h: Header, inUse: seq<bool>, nGroups: nat, nSelectors: nat, selectorMtf: seq<nat>, j: nat)
    | Coding1(h: Header, inUse: seq<bool>, nGroups: nat, selector: seq<nat>, lens: seq<seq<nat>>)
    | Coding2(h: Header, inUse: seq<bool>, nGroups: nat, selector: seq<nat>, lens: seq<seq<nat>>, row: seq<nat>,
        curr: nat)
    | Coding3(h: Header, inUse: seq<bool>, nGroups: nat, selector: seq<nat>, lens: seq<seq<nat>>, row: seq<nat>,
        curr: nat)
    | SymbolStart(b: Body)
    | SymbolBit(b: Body)
    | EndHdr(level: nat, k: nat)
    | CCrc(level: nat, k: nat, crc: nat)
    | Output(h: Header, col: seq<byte>)
    | Idle(crc: nat)
    | Failed(error: Error)

  /** No more bits will be asked for. */
  predicate Stopped(p: Parse) {
    p.Output? || p.Idle? || p.Failed?
  }

  /** How many bits the state asks for. */
  function Need(p: Parse): nat {
    match p
    case Magic(_) => 8
    case BlkHdr(_, _) => 8
    case BCrc(_, _, _) => 8
    case OrigPtr(_, _, _, _) => 8
    case EndHdr(_, _) => 8
    case CCrc(_, _, _) => 8
    case Selector1(_, _) => 3
    case Selector2(_, _, _) => 15
    case Coding1(_, _, _, _, _) => 5
    case SymbolStart(b) => b.zn
    case Output(_, _) => 0
    case Idle(_) => 0
    case Failed(_) => 0
    case _ => 1
  }

  const MAGIC: seq<nat> := [0x42, 0x5a, 0x68]
  const BLOCK_MAGIC: seq<nat> := [0x31, 0x41, 0x59, 0x26, 0x53, 0x59]
  const END_MAGIC: seq<nat> := [0x17, 0x72, 0x45, 0x38, 0x50, 0x90]

  function Shift8(crc: nat, x: nat): nat {
    (crc * 256 + x) % WORD
  }

  // ---------- the code between the bit requests ----------

  function AfterMagic(k: nat, x: nat): Parse {
    if k < 3 then (if x == MAGIC[k] then Magic(k + 1) else Failed(BadMagic))
    else if x < 0x31 || x > 0x39 then Failed(BadMagic)
    else BlkHdr(x - 0x30, 0)
  }

  function AfterBlkHdr(level: nat, k: nat, x: nat): Parse {
    if k == 0 && x == END_MAGIC[0] then EndHdr(level, 1)
    else if k < 6 && x == BLOCK_MAGIC[k] then (if k == 5 then BCrc(level, 0, 0) else BlkHdr(level, k + 1))
    else Failed(BadData)
  }

  function AfterOrigPtr(level: nat, crc: nat, k: nat, ptr: nat): Parse {
    if k < 2 then OrigPtr(level, crc, k + 1, ptr)
    else if ptr > 10 + BLOCK_UNIT * level then Failed(BadData)
    else Mapping1(Header(level, crc, ptr), [])
  }

  /** Skips the rows of the mapping that are not sent. */
  function SeekMapping(h: Header, inUse16: seq<bool>, inUse: seq<bool>): Parse
    decreases 256 - |inUse|
  {
    if |inUse| >= 256 then
      (if |inUse| == 256 && |UsedBytes(inUse, 256)| > 0 then Selector1(h, inUse) else Failed(BadData))
    else if |inUse| % 16 == 0 && |inUse| / 16 < |inUse16| && !inUse16[|inUse| / 16] then
      SeekMapping(h, inUse16, inUse + Repeat(false, 16))
    else Mapping2(h, inUse16, inUse)
  }

  /** Undoing the move-to-front of the selectors. */
  function UndoSelectors(pos: seq<nat>, s: seq<nat>): seq<nat>
    decreases |s|
  {
    if |s| == 0 || s[0] >= |pos| then []
    else [pos[s[0]]] + UndoSelectors(MoveToFront(pos, s[0]), s[1..])
  }

  function AfterSelector3(h: Header, inUse: seq<bool>, nGroups: nat, nSelectors: nat, selectorMtf: seq<nat>, j: nat,
      x: nat): Parse {
    if x == 0 then
      var s := selectorMtf + [j];
      if |s| > BZ_MAX_SELECTORS then Failed(Undefined)
      else if |s| >= nSelectors then Coding1(h, inUse, nGroups, UndoSelectors(Identity(nGroups), s), [])
      else Selector3(h, inUse, nGroups, nSelectors, s, 0)
    else if j + 1 >= nGroups then Failed(BadData)
    else Selector3(h, inUse, nGroups, nSelectors, selectorMtf, j + 1)
  }

  function CheckCurr(h: Header, inUse: seq<bool>, nGroups: nat, selector: seq<nat>, lens: seq<seq<nat>>, row: seq<nat>,
      curr: int): Parse {
    if curr < 1 || curr > LONGEST then Failed(BadData)
    else Coding2(h, inUse, nGroups, selector, lens, row, curr)
  }

  function AlphaSize(inUse: seq<bool>): nat {
    if |inUse| == 256 then |UsedBytes(inUse, 256)| + 2 else 2
  }

  function AfterCoding2(h: Header, inUse: seq<bool>, nGroups: nat, selector: seq<nat>, lens: seq<seq<nat>>,
      row: seq<nat>, curr: nat, x: nat): Parse {
    if x != 0 then Coding3(h, inUse, nGroups, selector, lens, row, curr)
    else if |row| + 1 < AlphaSize(inUse) then CheckCurr(h, inUse, nGroups, selector, lens, row + [curr], curr)
    else if |lens| + 1 < nGroups then Coding1(h, inUse, nGroups, selector, lens + [row + [curr]])
    else StartSymbols(h, inUse, selector, lens + [row + [curr]])
  }

  function StartSymbols(h: Header, inUse: seq<bool>, selector: seq<nat>, lens: seq<seq<nat>>): Parse {
    var used := if |inUse| == 256 then UsedBytes(inUse, 256) else [];
    BeginSymbol(Body(h, used, selector, lens, -1, 0, 0, 0, Identity(256), [], 0, 1))
  }

  /** The code lengths of the group in hand. */
  function Table(b: Body): seq<nat> {
    if 0 <= b.groupNo < |b.selector| && b.selector[b.groupNo] < |b.lens| then b.lens[b.selector[b.groupNo]] else []
  }

  /** GET_MTF_VAL up to its first bit request. zvec is dead here: it is set by
      the answer. */
  function BeginSymbol(b: Body): Parse {
    if b.groupPos == 0 then
      if b.groupNo + 1 >= |b.selector| then Failed(BadData)
      else
        var b' := b.(groupNo := b.groupNo + 1, groupPos := BZ_G_SIZE - 1);
        SymbolStart(b'.(zn := MinLen(Table(b')), zvec := 0))
    else
      SymbolStart(b.(groupPos := b.groupPos - 1, zn := MinLen(Table(b)), zvec := 0))
  }

  function Decide(b: Body): Parse {
    match LookLens(Table(b), b.zn, b.zvec)
    case More => SymbolBit(b.(zn := b.zn + 1))
    case Bad => Failed(BadData)
    case Symbol(s) => GotSymbol(b, s)
  }

  /** The byte that a list entry stands for. */
  function ByteOf(used: seq<byte>, c: nat): byte {
    if c < |used| then used[c] else 0
  }

  /** The last column after the pending run. */
  function RunFlushed(b: Body): seq<byte> {
    if |b.list| == 0 then b.col else b.col + Repeat(FrontByte(b), b.w)
  }

  /** The character of the pending run. */
  function FrontByte(b: Body): byte {
    if |b.list| == 0 then 0 else ByteOf(b.used, b.list[0])
  }

  const INT_MAX := 0x7fff_ffff

  /** The count of the run's character, with the run added, is past an int. */
  predicate CountOverflows(b: Body) {
    CountEq(b.col, FrontByte(b)) + b.w > INT_MAX
  }

  /** Doubling this weight overflows. */
  const LAST_WEIGHT := 0x4000_0000

  /** What one symbol does to the block. */
  datatype Taken = Again(b: Body) | Column(col: seq<byte>) | Wrong(error: Error)

  function TakeSymbol(b: Body, s: int): Taken {
    var col, max := RunFlushed(b), BLOCK_UNIT * b.h.level;
    if s == RUNA || s == RUNB then
      if b.n >= LAST_WEIGHT then Wrong(Undefined) else Again(b.(w := b.w + (s + 1) * b.n, n := 2 * b.n))
    else if CountOverflows(b) then Wrong(Undefined)
    else if |col| > max then Wrong(BadData)
    else if s == |b.used| + 1 then Column(col)
    else if |col| >= max || s < 0 || s > |b.list| then Wrong(BadData)
    else Again(b.(list := MoveToFront(b.list, s - 1), col := col + [ByteOf(b.used, b.list[s - 1])], w := 0, n := 1))
  }

  function GotSymbol(b: Body, s: int): Parse {
    match TakeSymbol(b, s)
    case Again(b') => BeginSymbol(b')
    case Column(col) => FinishBlock(b.h, col)
    case Wrong(e) => Failed(e)
  }

  function FinishBlock(h: Header, col: seq<byte>): Parse {
    if h.origPtr >= |col| then Failed(BadData) else Output(h, col)
  }

  function AfterEndHdr(level: nat, k: nat, x: nat): Parse {
    if k < 6 && x == END_MAGIC[k] then (if k == 5 then CCrc(level, 0, 0) else EndHdr(level, k + 1))
    else Failed(BadData)
  }

  /** Answers the bit request with value x and runs to the next request. */
  function Resume(p: Parse, x: nat): Parse {
    match p
    case Magic(k) => AfterMagic(k, x)
    case BlkHdr(level, k) => AfterBlkHdr(level, k, x)
    case BCrc(level, k, crc) => if k < 3 then BCrc(level, k + 1, Shift8(crc, x)) else RandBit(level, Shift8(crc, x))
    case RandBit(level, crc) => if x == 1 then Failed(Legacy) else OrigPtr(level, crc, 0, 0)
    case OrigPtr(level, crc, k, ptr) => AfterOrigPtr(level, crc, k, ptr * 256 + x)
    case Mapping1(h, inUse16) =>
      if |inUse16| < 15 then Mapping1(h, inUse16 + [x == 1]) else SeekMapping(h, inUse16 + [x == 1], [])
    case Mapping2(h, inUse16, inUse) => SeekMapping(h, inUse16, inUse + [x == 1])
    case Selector1(h, inUse) => if x < 2 || x > 6 then Failed(BadData) else Selector2(h, inUse, x)
    case Selector2(h, inUse, nGroups) => if x < 1 then Failed(BadData) else Selector3(h, inUse, nGroups, x, [], 0)
    case Selector3(h, inUse, nGroups, nSelectors, s, j) => AfterSelector3(h, inUse, nGroups, nSelectors, s, j, x)
    case Coding1(h, inUse, nGroups, selector, lens) => CheckCurr(h, inUse, nGroups, selector, lens, [], x)
    case Coding2(h, inUse, nGroups, selector, lens, row, curr) =>
        AfterCoding2(h, inUse, nGroups, selector, lens, row, curr, x)
    case Coding3(h, inUse, nGroups, selector, lens, row, curr) =>
      CheckCurr(h, inUse, nGroups, selector, lens, row, if x == 0 then curr + 1 else curr - 1)
    case SymbolStart(b) => Decide(b.(zvec := x))
    case SymbolBit(b) => Decide(b.(zvec := 2 * b.zvec + x))
    case EndHdr(level, k) => AfterEndHdr(level, k, x)
    case CCrc(level, k, crc) => if k < 3 then CCrc(level, k + 1, Shift8(crc, x)) else Idle(Shift8(crc, x))
    case Output(_, _) => p
    case Idle(_) => p
    case Failed(_) => p
  }

  // ---------- runs ----------

  /** Answers requests from the bits until they run out or the machine stops;
      gives the state and the unread bits. */
  function Run(p: Parse, bits: seq<bool>): (r: (Parse, seq<bool>))
    ensures |r.1| <= |bits|
    ensures Stopped(p) || r.0 == p || |r.1| < |bits|
    decreases |bits|
  {
    if Stopped(p) || Need(p) == 0 || |bits| < Need(p) then (p, bits)
    else Run(Resume(p, Val(bits[..Need(p)])), bits[Need(p)..])
  }

  /** Main result: reading the bits in two portions gives the same as reading
      them at once. */
  lemma {:induction false} RunSplit(p: Parse, a: seq<bool>, b: seq<bool>)
    ensures Run(p, a + b) == Run(Run(p, a).0, Run(p, a).1 + b)
    decreases |a|
  {
    if !Stopped(p) && Need(p) > 0 && |a| >= Need(p) {
      var n := Need(p);
      assert (a + b)[..n] == a[..n] && (a + b)[n..] == a[n..] + b;
      RunSplit(Resume(p, Val(a[..n])), a[n..], b);
    }
  }
}
