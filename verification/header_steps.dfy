/** The code between two bit requests outside the symbols of a block, with its
    loops: the rows of the mapping that are not sent, the count of the
    characters in use, and the selectors' move-to-front undone in place. */
module HeaderSteps {
  import opened Words
  import opened Mtf
  import opened MtfEncoder
  import opened DecoderMachine
  import opened MachineInvariant

  // ---------- the stream and block headers ----------

  method NextMagic(k: nat, x: nat) returns (q: Parse)
    requires k < 4
    ensures q == Resume(Magic(k), x)
  {
    if k < 3 {
      if x != MAGIC[k] {
        return Failed(BadMagic);
      }
      return Magic(k + 1);
    }
    var blockSize100k := x as int - 0x30;
    if blockSize100k < 1 || blockSize100k > 9 {
      return Failed(BadMagic);
    }
    q := BlkHdr(blockSize100k, 0);
  }

  method NextBlkHdr(level: nat, k: nat, x: nat) returns (q: Parse)
    requires k < 6
    ensures q == Resume(BlkHdr(level, k), x)
  {
    if k == 0 && x == 0x17 {
      return EndHdr(level, 1);
    }
    if x != BLOCK_MAGIC[k] {
      return Failed(BadData);
    }
    q := if k < 5 then BlkHdr(level, k + 1) else BCrc(level, 0, 0);
  }

  method NextOrigPtr(level: nat, crc: nat, k: nat, ptr: nat, x: nat) returns (q: Parse)
    requires k < 3
    ensures q == Resume(OrigPtr(level, crc, k, ptr), x)
  {
    var origPtr := ptr * 256 + x;
    if k < 2 {
      return OrigPtr(level, crc, k + 1, origPtr);
    }
    if origPtr > 10 + 100000 * level {
      return Failed(BadData);
    }
    q := Mapping1(Header(level, crc, origPtr), []);
  }

  method NextEndHdr(level: nat, k: nat, x: nat) returns (q: Parse)
    requires 1 <= k < 6
    ensures q == Resume(EndHdr(level, k), x)
  {
    if x != END_MAGIC[k] {
      return Failed(BadData);
    }
    q := if k < 5 then EndHdr(level, k + 1) else CCrc(level, 0, 0);
  }

  // ---------- the mapping ----------

  /** From the next bit of the mapping on: rows that are not sent stay False;
      after the last one the characters in use are counted. */
  method NextRow(h: Header, inUse16: seq<bool>, sent: seq<bool>) returns (q: Parse)
    requires |inUse16| == 16 && |sent| <= 256
    ensures q == SeekMapping(h, inUse16, sent)
  {
    var inUse := sent;
    while |inUse| < 256 && |inUse| % 16 == 0 && !inUse16[|inUse| / 16]
      invariant |inUse| <= 256 && SeekMapping(h, inUse16, inUse) == SeekMapping(h, inUse16, sent)
      decreases 256 - |inUse|
    {
      inUse := inUse + Repeat(false, 16);
    }
    if |inUse| < 256 {
      return Mapping2(h, inUse16, inUse);
    }
    var nInUse := CountInUse(inUse);
    if nInUse == 0 {
      return Failed(BadData);
    }
    q := Selector1(h, inUse);
  }

  method CountInUse(inUse: seq<bool>) returns (nInUse: nat)
    requires |inUse| == 256
    ensures nInUse == |UsedBytes(inUse, 256)|
  {
    var flags, seqToUnseq := new bool[256](i requires 0 <= i < 256 => inUse[i]), new byte[256];
    nInUse := MakeMapsD(flags, seqToUnseq);
    assert flags[..] == inUse;
  }

  // ---------- the selectors ----------

  /** Main result: the selectors are those whose positions were sent; pos is
      rotated in place. */
  method UndoMtf(nGroups: nat, selectorMtf: seq<nat>) returns (selector: seq<nat>)
    requires AllBelow(selectorMtf, nGroups)
    ensures selector == UndoSelectors(Identity(nGroups), selectorMtf)
  {
    var pos := new nat[nGroups];
    for v := 0 to nGroups
      invariant forall u :: 0 <= u < v ==> pos[u] == u
    {
      pos[v] := v;
    }
    assert pos[..] == Identity(nGroups) && selectorMtf[0..] == selectorMtf;
    selector := [];
    for i := 0 to |selectorMtf|
      invariant selector + UndoSelectors(pos[..], selectorMtf[i..]) == UndoSelectors(Identity(nGroups), selectorMtf)
    {
      assert selectorMtf[i..][1..] == selectorMtf[i + 1..];
      var tmp := RotateToFront(pos, selectorMtf[i]);
      selector := selector + [tmp];
    }
  }

  method RotateToFront(pos: array<nat>, j: nat) returns (tmp: nat)
    requires j < pos.Length
    modifies pos
    ensures tmp == old(pos[j]) && pos[..] == MoveToFront(old(pos[..]), j)
  {
    var v := j;
    tmp := pos[v];
    while v > 0
      invariant 0 <= v <= j
      invariant forall u :: 0 <= u < pos.Length ==> pos[u] == if v < u <= j then old(pos[u - 1]) else old(pos[u])
    {
      pos[v] := pos[v - 1];
      v := v - 1;
    }
    pos[0] := tmp;
  }

  method NextSelector(h: Header, inUse: seq<bool>, nGroups: nat, nSelectors: nat, selectorMtf: seq<nat>, j: nat, x: nat)
      returns (q: Parse)
    requires AllBelow(selectorMtf, nGroups) && j < nGroups
    ensures q == Resume(Selector3(h, inUse, nGroups, nSelectors, selectorMtf, j), x)
  {
    if x != 0 {
      if j + 1 >= nGroups {
        return Failed(BadData);
      }
      return Selector3(h, inUse, nGroups, nSelectors, selectorMtf, j + 1);
    }
    // selectorMtf has room for BZ_MAX_SELECTORS entries
    var s := selectorMtf + [j];
    if |s| > BZ_MAX_SELECTORS {
      return Failed(Undefined);
    }
    if |s| < nSelectors {
      return Selector3(h, inUse, nGroups, nSelectors, s, 0);
    }
    var selector := UndoMtf(nGroups, s);
    q := Coding1(h, inUse, nGroups, selector, []);
  }

  // ---------- the code lengths ----------

  /** The head of the loop for one length. */
  method CheckLength(h: Header, inUse: seq<bool>, nGroups: nat, selector: seq<nat>, lens: seq<seq<nat>>, row: seq<nat>,
      curr: int) returns (q: Parse)
    ensures q == CheckCurr(h, inUse, nGroups, selector, lens, row, curr)
  {
    if curr < 1 || curr > 20 {
      return Failed(BadData);
    }
    q := Coding2(h, inUse, nGroups, selector, lens, row, curr);
  }

  /** A length is stored, and the next one, the next table or the symbols
      follow. */
  method StoreLength(h: Header, inUse: seq<bool>, nGroups: nat, selector: seq<nat>, lens: seq<seq<nat>>, row: seq<nat>,
      curr: nat) returns (q: Parse)
    requires |inUse| == 256
    ensures q == Resume(Coding2(h, inUse, nGroups, selector, lens, row, curr), 0)
  {
    hide BeginSymbol;
    var nInUse := CountInUse(inUse);
    var alphaSize := nInUse + 2;
    var row' := row + [curr];
    if |row'| < alphaSize {
      q := CheckLength(h, inUse, nGroups, selector, lens, row', curr);
      return;
    }
    var lens' := lens + [row'];
    if |lens'| < nGroups {
      return Coding1(h, inUse, nGroups, selector, lens');
    }
    q := StartSymbols(h, inUse, selector, lens');
  }

  // ---------- any request of the headers ----------

  /** Main result: outside the symbols of a block this code takes the step of
      the machine. */
  method Answer(p: Parse, x: nat) returns (q: Parse)
    requires Sound(p) && !Stopped(p) && !p.SymbolStart? && !p.SymbolBit?
    ensures q == Resume(p, x)
  {
    hide SeekMapping, AfterSelector3, StartSymbols, CheckCurr, UsedBytes, TablesOk;
    match p
    case Magic(k) => q := NextMagic(k, x);
    case BlkHdr(level, k) => q := NextBlkHdr(level, k, x);
    case BCrc(level, k, crc) =>
      var crc' := Shift8(crc, x);
      q := if k < 3 then BCrc(level, k + 1, crc') else RandBit(level, crc');
    case RandBit(level, crc) => q := if x == 1 then Failed(Legacy) else OrigPtr(level, crc, 0, 0);
    case OrigPtr(level, crc, k, ptr) => q := NextOrigPtr(level, crc, k, ptr, x);
    case Mapping1(h, inUse16) =>
      var rows := inUse16 + [x == 1];
      if |rows| < 16 {
        q := Mapping1(h, rows);
      } else {
        q := NextRow(h, rows, []);
      }
    case Mapping2(h, inUse16, inUse) => q := NextRow(h, inUse16, inUse + [x == 1]);
    case Selector1(h, inUse) => q := if x < 2 || x > 6 then Failed(BadData) else Selector2(h, inUse, x);
    case Selector2(h, inUse, nGroups) => q := if x < 1 then Failed(BadData) else Selector3(h, inUse, nGroups, x, [], 0);
    case Selector3(h, inUse, nGroups, nSelectors, s, j) => q := NextSelector(h, inUse, nGroups, nSelectors, s, j, x);
    case Coding1(h, inUse, nGroups, selector, lens) => q := CheckLength(h, inUse, nGroups, selector, lens, [], x);
    case Coding2(h, inUse, nGroups, selector, lens, row, curr) =>
      if x != 0 {
        q := Coding3(h, inUse, nGroups, selector, lens, row, curr);
      } else {
        q := StoreLength(h, inUse, nGroups, selector, lens, row, curr);
      }
    case Coding3(h, inUse, nGroups, selector, lens, row, curr) =>
      q := CheckLength(h, inUse, nGroups, selector, lens, row, if x == 0 then curr + 1 else curr - 1);
    case EndHdr(level, k) => q := NextEndHdr(level, k, x);
    case CCrc(level, k, crc) =>
      var crc' := Shift8(crc, x);
      q := if k < 3 then CCrc(level, k + 1, crc') else Idle(crc');
  }
}
