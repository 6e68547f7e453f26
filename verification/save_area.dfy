/** The save area of BZ2_decompress: 24 scalars that keep the local variables
    between calls. Together with the label and the fields of DState they hold
    the whole state of the machine at every bit request. */
module SaveArea {
  import opened Words
  import opened MtfEncoder
  import opened HuffmanCodes
  import opened DecoderMachine
  import opened MachineInvariant

  /** One field for every save_ field. A table pointer is the number of its
      table. */
  datatype Scalars = Scalars(i: int, j: int, t: int, alphaSize: int, nGroups: int, nSelectors: int, eob: int,
                             groupNo: int, groupPos: int, nextSym: int, nblockMAX: int, nblock: int, es: int, N: int,
                             curr: int, zt: int, zn: int, zvec: int, zj: int, gSel: int, gMinlen: int,
                             gLimit: int, gBase: int, gPerm: int)

  /** The other fields of DState that reading uses. list is the content of
      mtfa and mtfbase; column that of tt, or ll16. */
  datatype Fields = Fields(state: nat, blockSize100k: nat, storedBlockCRC: nat, storedCombinedCRC: nat, origPtr: nat,
                           inUse16: seq<bool>, inUse: seq<bool>, nInUse: nat, seqToUnseq: seq<byte>,
                           selectorMtf: seq<nat>, selector: seq<nat>, len: seq<seq<nat>>,
                           list: seq<nat>, column: seq<byte>)

  datatype Area = Area(v: Scalars, f: Fields)

  const BZ_X_OUTPUT := 2
  const BZ_X_MAGIC_1 := 10
  const BZ_X_BLKHDR_1 := 14
  const BZ_X_BCRC_1 := 20
  const BZ_X_RANDBIT := 24
  const BZ_X_ORIGPTR_1 := 25
  const BZ_X_MAPPING_1 := 28
  const BZ_X_MAPPING_2 := 29
  const BZ_X_SELECTOR_1 := 30
  const BZ_X_SELECTOR_2 := 31
  const BZ_X_SELECTOR_3 := 32
  const BZ_X_CODING_1 := 33
  const BZ_X_CODING_2 := 34
  const BZ_X_CODING_3 := 35
  const BZ_X_MTF_1 := 36
  const BZ_X_MTF_3 := 38
  const BZ_X_MTF_5 := 40
  const BZ_X_ENDHDR_2 := 42
  const BZ_X_CCRC_1 := 47

  /** The start of an array; the rest of it is stale. */
  function Take<T>(s: seq<T>, n: int): seq<T> {
    if 0 <= n <= |s| then s[..n] else s
  }

  /** An array after its start has been written. */
  function Onto<T>(start: seq<T>, s: seq<T>): seq<T> {
    start + (if |start| <= |s| then s[|start|..] else [])
  }

  lemma TakeOnto<T>(start: seq<T>, s: seq<T>)
    ensures Take(Onto(start, s), |start|) == start
  {
  }

  // ---------- saving ----------

  /** What is in the save area and the fields when the machine waits in state
      p. Scalars and parts of arrays that p does not need keep what they had,
      in a. */
  function Save(p: Parse, a: Area): Area {
    var v, f := a.v, a.f;
    match p
    case Magic(k) => Area(v, f.(state := BZ_X_MAGIC_1 + k))
    case BlkHdr(level, k) => Area(v, f.(state := BZ_X_BLKHDR_1 + k, blockSize100k := level))
    case BCrc(level, k, crc) => Area(v, f.(state := BZ_X_BCRC_1 + k, blockSize100k := level, storedBlockCRC := crc))
    case RandBit(level, crc) => Area(v, f.(state := BZ_X_RANDBIT, blockSize100k := level, storedBlockCRC := crc))
    case OrigPtr(level, crc, k, ptr) =>
      Area(v, f.(state := BZ_X_ORIGPTR_1 + k, blockSize100k := level, storedBlockCRC := crc, origPtr := ptr))
    case Mapping1(h, inUse16) =>
      Area(v.(i := |inUse16|), SaveHeader(h, f).(state := BZ_X_MAPPING_1, inUse16 := Onto(inUse16, f.inUse16)))
    case Mapping2(h, inUse16, inUse) =>
      Area(v.(i := |inUse| / 16, j := |inUse| % 16),
           SaveHeader(h, f).(state := BZ_X_MAPPING_2, inUse16 := inUse16, inUse := Onto(inUse, f.inUse)))
    case Selector1(h, inUse) => Area(v.(alphaSize := AlphaSize(inUse)), SaveMap(h, inUse, f).(state := BZ_X_SELECTOR_1))
    case Selector2(h, inUse, nGroups) =>
      Area(v.(alphaSize := AlphaSize(inUse), nGroups := nGroups), SaveMap(h, inUse, f).(state := BZ_X_SELECTOR_2))
    case Selector3(h, inUse, nGroups, nSelectors, s, j) =>
      Area(v.(alphaSize := AlphaSize(inUse), nGroups := nGroups, nSelectors := nSelectors, i := |s|, j := j),
           SaveMap(h, inUse, f).(state := BZ_X_SELECTOR_3, selectorMtf := Onto(s, f.selectorMtf)))
    case Coding1(h, inUse, nGroups, selector, lens) =>
      Area(v.(alphaSize := AlphaSize(inUse), nGroups := nGroups, nSelectors := |selector|, t := |lens|),
           SaveMap(h, inUse, f).(state := BZ_X_CODING_1, selector := Onto(selector, f.selector),
               len := Onto(lens, f.len)))
    case Coding2(h, inUse, nGroups, selector, lens, row, curr) =>
      Area(v.(alphaSize := AlphaSize(inUse), nGroups := nGroups, nSelectors := |selector|, t := |lens|, i := |row|,
          curr := curr),
           SaveMap(h, inUse, f).(state := BZ_X_CODING_2, selector := Onto(selector, f.selector),
               len := Onto(lens + [row], f.len)))
    case Coding3(h, inUse, nGroups, selector, lens, row, curr) =>
      Area(v.(alphaSize := AlphaSize(inUse), nGroups := nGroups, nSelectors := |selector|, t := |lens|, i := |row|,
          curr := curr),
           SaveMap(h, inUse, f).(state := BZ_X_CODING_3, selector := Onto(selector, f.selector),
               len := Onto(lens + [row], f.len)))
    case SymbolStart(b) => SaveBody(b, v, f.(state := SymbolLabel(b.n, |b.col|)))
    case SymbolBit(b) => SaveBody(b, v, f.(state := SymbolLabel(b.n, |b.col|) + 1))
    case EndHdr(level, k) => Area(v, f.(state := BZ_X_ENDHDR_2 + k - 1, blockSize100k := level))
    case CCrc(level, k, crc) => Area(v, f.(state := BZ_X_CCRC_1 + k, blockSize100k := level, storedCombinedCRC := crc))
    case _ => a
  }

  function SaveHeader(h: Header, f: Fields): Fields {
    f.(blockSize100k := h.level, storedBlockCRC := h.crc, origPtr := h.origPtr)
  }

  function SaveMap(h: Header, inUse: seq<bool>, f: Fields): Fields {
    SaveHeader(h, f).(inUse := inUse)
  }

  /** Which of the calls of GET_MTF_VAL waits: the one in a run, the one before
      the first symbol, or the one after a character. */
  function SymbolLabel(n: nat, nblock: nat): nat {
    if n > 1 then BZ_X_MTF_3 else if nblock == 0 then BZ_X_MTF_1 else BZ_X_MTF_5
  }

  function SaveBody(b: Body, v: Scalars, f: Fields): Area {
    Area(SaveScalars(b, |b.col|, v), SaveFields(b, f).(list := b.list, column := Onto(b.col, f.column)))
  }

  /** The scalars of a block with nblock characters so far. */
  function SaveScalars(b: Body, nblock: nat, v: Scalars): Scalars {
    var gSel := if 0 <= b.groupNo < |b.selector| then b.selector[b.groupNo] else 0;
    var v' := v.(eob := |b.used| + 1, nblockMAX := BLOCK_UNIT * b.h.level, nblock := nblock, nSelectors := |b.selector|,
                 nGroups := |b.lens|, alphaSize := |b.used| + 2, groupNo := b.groupNo, groupPos := b.groupPos,
                 zn := b.zn, zvec := b.zvec, gSel := gSel, gMinlen := MinLen(Table(b)),
                 gLimit := gSel, gBase := gSel, gPerm := gSel);
    if b.n > 1 then v'.(es := b.w - 1, N := b.n) else v'
  }

  /** The fields but for the list and the column. */
  function SaveFields(b: Body, f: Fields): Fields {
    SaveHeader(b.h, f).(nInUse := |b.used|, seqToUnseq := Onto(b.used, f.seqToUnseq),
                        selector := Onto(b.selector, f.selector), len := Onto(b.lens, f.len))
  }

  // ---------- restoring ----------

  function HeaderIn(f: Fields): Header {
    Header(f.blockSize100k, f.storedBlockCRC, f.origPtr)
  }

  function Nat(x: int): nat {
    if x < 0 then 0 else x
  }

  /** The state that the label, the scalars and the fields say. */
  function Restore(a: Area): Parse {
    var v, f := a.v, a.f;
    var h, x := HeaderIn(f), f.state;
    if x < BZ_X_BLKHDR_1 then Magic(Nat(x - BZ_X_MAGIC_1))
    else if x < BZ_X_BCRC_1 then BlkHdr(f.blockSize100k, x - BZ_X_BLKHDR_1)
    else if x < BZ_X_RANDBIT then BCrc(f.blockSize100k, x - BZ_X_BCRC_1, f.storedBlockCRC)
    else if x == BZ_X_RANDBIT then RandBit(f.blockSize100k, f.storedBlockCRC)
    else if x < BZ_X_MAPPING_1 then OrigPtr(f.blockSize100k, f.storedBlockCRC, x - BZ_X_ORIGPTR_1, f.origPtr)
    else if x == BZ_X_MAPPING_1 then Mapping1(h, Take(f.inUse16, v.i))
    else if x == BZ_X_MAPPING_2 then Mapping2(h, f.inUse16, Take(f.inUse, 16 * v.i + v.j))
    else if x == BZ_X_SELECTOR_1 then Selector1(h, f.inUse)
    else if x == BZ_X_SELECTOR_2 then Selector2(h, f.inUse, Nat(v.nGroups))
    else if x == BZ_X_SELECTOR_3 then
      Selector3(h, f.inUse, Nat(v.nGroups), Nat(v.nSelectors), Take(f.selectorMtf, v.i), Nat(v.j))
    else if x == BZ_X_CODING_1 then
      Coding1(h, f.inUse, Nat(v.nGroups), Take(f.selector, v.nSelectors), Take(f.len, v.t))
    else if x < BZ_X_MTF_1 then RestoreRow(v, f, x == BZ_X_CODING_2)
    else if x < BZ_X_ENDHDR_2 then RestoreBody(v, f)
    else if x < BZ_X_CCRC_1 then EndHdr(f.blockSize100k, x - BZ_X_ENDHDR_2 + 1)
    else CCrc(f.blockSize100k, x - BZ_X_CCRC_1, f.storedCombinedCRC)
  }

  function RestoreRow(v: Scalars, f: Fields, atBit: bool): Parse {
    var nGroups, selector, lens := Nat(v.nGroups), Take(f.selector, v.nSelectors), Take(f.len, v.t);
    var row := if 0 <= v.t < |f.len| then Take(f.len[v.t], v.i) else [];
    if atBit then Coding2(HeaderIn(f), f.inUse, nGroups, selector, lens, row, Nat(v.curr))
    else Coding3(HeaderIn(f), f.inUse, nGroups, selector, lens, row, Nat(v.curr))
  }

  function RestoreBody(v: Scalars, f: Fields): Parse {
    var inRun := f.state == BZ_X_MTF_3 || f.state == BZ_X_MTF_3 + 1;
    var b := Body(HeaderIn(f), Take(f.seqToUnseq, f.nInUse), Take(f.selector, v.nSelectors), Take(f.len, v.nGroups),
                  v.groupNo, Nat(v.groupPos), Nat(v.zn), Nat(v.zvec), f.list, Take(f.column, v.nblock),
                  if inRun then Nat(v.es + 1) else 0, if inRun then Nat(v.N) else 1);
    if f.state % 2 == 0 then SymbolStart(b) else SymbolBit(b)
  }

  // ---------- nothing is lost ----------

  lemma BodyRestored(b: Body, a: Area, state: nat)
    requires BodyOk(b) && (state == SymbolLabel(b.n, |b.col|) || state == SymbolLabel(b.n, |b.col|) + 1)
    ensures var r := SaveBody(b, a.v, a.f.(state := state));
            RestoreBody(r.v, r.f) == if state % 2 == 0 then SymbolStart(b) else SymbolBit(b)
  {
    hide MinLen, Table, TablesOk, AllBelow, Take, Onto;
    TakeOnto(b.used, a.f.seqToUnseq);
    TakeOnto(b.selector, a.f.selector);
    TakeOnto(b.lens, a.f.len);
    TakeOnto(b.col, a.f.column);
  }

  lemma RowRestored(lens: seq<seq<nat>>, row: seq<nat>, len: seq<seq<nat>>)
    ensures var s := Onto(lens + [row], len);
            Take(s, |lens|) == lens && |lens| < |s| && s[|lens|] == row && Take(row, |row|) == row
  {
  }

  ghost predicate NeverLive(v: Scalars, w: Scalars) {
    v.nextSym == w.nextSym && v.zt == w.zt && v.zj == w.zj
  }

  /** Main result: whatever was in the save area and the fields before, saving
      a state and restoring it gives the state back: every live value is saved,
      and no dead one matters. nextSym, zt and zj are never live. */
  lemma SaveAreaSuffices(p: Parse, a: Area)
    requires Sound(p) && !Stopped(p)
    ensures Restore(Save(p, a)) == p && NeverLive(Save(p, a).v, a.v)
  {
    hide Save, Restore, Sound;
    if p.SymbolStart? || p.SymbolBit? {
      SymbolsSuffice(p, a);
    } else if p.Coding1? || p.Coding2? || p.Coding3? {
      CodingSuffices(p, a);
    } else {
      HeaderSuffices(p, a);
    }
  }

  lemma SymbolsSuffice(p: Parse, a: Area)
    requires Sound(p) && (p.SymbolStart? || p.SymbolBit?)
    ensures Restore(Save(p, a)) == p && NeverLive(Save(p, a).v, a.v)
  {
    hide MinLen, Table, RestoreBody, SaveBody, BodyOk;
    var first := SymbolLabel(p.b.n, |p.b.col|);
    var state := if p.SymbolStart? then first else first + 1;
    BodySaved(p.b, a, state);
    BodyRestored(p.b, a, state);
  }

  lemma CodingSuffices(p: Parse, a: Area)
    requires p.Coding1? || p.Coding2? || p.Coding3?
    ensures Restore(Save(p, a)) == p && NeverLive(Save(p, a).v, a.v)
  {
    hide AlphaSize, Take, Onto, SaveBody, RestoreBody;
    TakeOnto(p.selector, a.f.selector);
    TakeOnto(p.lens, a.f.len);
    if !p.Coding1? {
      RowRestored(p.lens, p.row, a.f.len);
    }
  }

  lemma HeaderSuffices(p: Parse, a: Area)
    requires Sound(p) && !Stopped(p) && !p.SymbolStart? && !p.SymbolBit? && !p.Coding1? && !p.Coding2? && !p.Coding3?
    ensures Restore(Save(p, a)) == p && NeverLive(Save(p, a).v, a.v)
  {
    hide AllBelow, UsedBytes, AlphaSize, Take, Onto, SaveBody, RestoreBody, RestoreRow;
    match p
    case Mapping1(_, inUse16) => TakeOnto(inUse16, a.f.inUse16);
    case Mapping2(_, _, inUse) => TakeOnto(inUse, a.f.inUse);
    case Selector3(_, _, _, _, s, _) => TakeOnto(s, a.f.selectorMtf);
    case _ =>
  }

  lemma BodySaved(b: Body, a: Area, state: nat)
    ensures var r := SaveBody(b, a.v, a.f.(state := state));
            r.f.state == state && NeverLive(r.v, a.v)
  {
    hide MinLen, Table;
  }

  /** The pointers saved are those of the table in use, so that the next symbol
      of the group starts with as many bits as its shortest code. */
  lemma PointersServe(b: Body, a: Area)
    requires InSymbol(b)
    ensures var v := SaveBody(b, a.v, a.f).v;
            && v.gLimit == v.gBase == v.gPerm == v.gSel && 0 <= v.gSel < |b.lens| && b.lens[v.gSel] == Table(b)
            && (b.groupPos > 0 ==> BeginSymbol(b).SymbolStart? && BeginSymbol(b).b.zn == v.gMinlen)
  {
    hide MinLen;
  }
}
