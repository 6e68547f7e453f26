/** DState: the decompressor with its arrays, suspended at any bit request and
    at any byte of output. */
module Decompressor {
  import opened Words
  import opened InverseBwt
  import opened Mtf
  import opened MtfEncoder
  import opened HuffmanCodes
  import opened BzStream
  import opened BitIO
  import opened Rle
  import opened Crc
  import opened DecoderMachine
  import opened MachineInvariant
  import HeaderSteps
  import opened BlockStore
  import opened StreamFuture
  import opened Outcome

  datatype Code = OK | STREAM_END | SEQUENCE_ERROR | DATA_ERROR | DATA_ERROR_MAGIC | OUTSIDE_MODEL

  /** What BZ2_decompress returns in a state. */
  function ReturnCode(p: Parse): Code {
    match p
    case Idle(_) => STREAM_END
    case Failed(e) =>
      if e == BadMagic then DATA_ERROR_MAGIC else if e == BadData then DATA_ERROR else OUTSIDE_MODEL
    case _ => OK
  }

  /** What the save area keeps of the machine's state: everything but the
      contents of the arrays. Module SaveArea spells out its scalars. */
  function Saved(p: Parse): Parse {
    match p
    case SymbolStart(b) => SymbolStart(SavedBody(b))
    case SymbolBit(b) => SymbolBit(SavedBody(b))
    case Output(h, col) => Output(h, [])
    case _ => p
  }

  function SavedBody(b: Body): Body {
    b.(list := [], col := [], w := 0, n := 1)
  }

  /** The block size of a state that has one. */
  function LevelOf(p: Parse): nat {
    match p
    case Magic(_) => 0
    case BlkHdr(level, _) => level
    case BCrc(level, _, _) => level
    case RandBit(level, _) => level
    case OrigPtr(level, _, _, _) => level
    case EndHdr(level, _) => level
    case CCrc(level, _, _) => level
    case SymbolStart(b) => b.h.level
    case SymbolBit(b) => b.h.level
    case Idle(_) => 0
    case Failed(_) => 0
    case _ => p.h.level
  }

  // ---------- where the code between requests can lead ----------

  /** The block size stays, unless the stream ends or is found wrong. */
  ghost predicate SameStream(p: Parse, q: Parse) {
    q.Idle? || q.Failed? || (LevelOf(q) == LevelOf(p) > 0)
  }

  ghost predicate FreshBody(b: Body) {
    b.list == Identity(256) && b.col == [] && b.w == 0 && b.n == 1
  }

  ghost predicate HeaderStep(p: Parse, q: Parse) {
    && !q.Output? && !q.SymbolBit? && !q.Magic? && SameStream(p, q)
    && (q.SymbolStart? ==> FreshBody(q.b))
  }

  lemma {:induction false} SeekMappingStep(p: Parse, h: Header, inUse16: seq<bool>, inUse: seq<bool>)
    requires LevelOf(p) == h.level > 0
    ensures HeaderStep(p, SeekMapping(h, inUse16, inUse))
    decreases 256 - |inUse|
  {
    hide UsedBytes;
    if |inUse| < 256 && |inUse| % 16 == 0 && |inUse| / 16 < |inUse16| && !inUse16[|inUse| / 16] {
      SeekMappingStep(p, h, inUse16, inUse + Repeat(false, 16));
    }
  }

  lemma Coding2Step(p: Parse, x: nat)
    requires Sound(p) && p.Coding2?
    ensures HeaderStep(p, Resume(p, x))
  {
    hide UsedBytes, MinLen, TablesOk;
  }

  /** The first symbol follows the last length, with the bytes in use. */
  lemma FirstSymbolAfter(p: Parse, x: nat)
    requires Sound(p) && !Stopped(p) && !p.SymbolStart? && !p.SymbolBit? && x < Pow2(Need(p))
        && Resume(p, x).SymbolStart?
    ensures p.Coding2? && |p.inUse| == 256 && Resume(p, x).b.used == UsedBytes(p.inUse, 256)
    ensures TablesOk(Resume(p, x).b.lens, |Resume(p, x).b.used| + 2)
  {
    hide SeekMapping, MinLen, UsedBytes, AllBelow, ValidLengths, UndoSelectors, Table;
    ResumeSound(p, x);
    match p
    case Mapping1(h, inUse16) => if |inUse16| == 15 { NoSymbolYet(h, inUse16 + [x == 1], []); }
    case Mapping2(h, inUse16, inUse) => NoSymbolYet(h, inUse16, inUse + [x == 1]);
    case _ =>
  }

  lemma {:induction false} NoSymbolYet(h: Header, inUse16: seq<bool>, inUse: seq<bool>)
    ensures !SeekMapping(h, inUse16, inUse).SymbolStart?
    decreases 256 - |inUse|
  {
    hide UsedBytes;
    if |inUse| < 256 && |inUse| % 16 == 0 && |inUse| / 16 < |inUse16| && !inUse16[|inUse| / 16] {
      NoSymbolYet(h, inUse16, inUse + Repeat(false, 16));
    }
  }

  ghost predicate SameBlock(b: Body, c: Body) {
    c.h == b.h && c.col == b.col && c.list == b.list && c.w == b.w && c.n == b.n && c.used == b.used && c.lens == b.lens
  }

  /** Only the position in the groups and the code change. */
  lemma BeginKeeps(b: Body)
    ensures Saved(BeginSymbol(b)) == BeginSymbol(SavedBody(b))
    ensures BeginSymbol(b).Failed? || (BeginSymbol(b).SymbolStart? && SameBlock(b, BeginSymbol(b).b))
  {
    hide MinLen;
  }

  /** There are tables for every coding table. */
  ghost predicate Prepared(tables: seq<Tables>, lens: seq<seq<nat>>) {
    |tables| == |lens| && forall t {:trigger tables[t]} :: 0 <= t < |lens| ==> TablesFor(tables[t], lens[t])
  }

  /** Every group's coding table has its tables. */
  lemma GroupPrepared(tables: seq<Tables>, b: Body, groupNo: nat)
    requires BodyOk(b) && Prepared(tables, b.lens) && groupNo < |b.selector|
    ensures b.selector[groupNo] < |tables|
    ensures Table(b.(groupNo := groupNo)) == b.lens[b.selector[groupNo]]
    ensures TablesFor(tables[b.selector[groupNo]], b.lens[b.selector[groupNo]]) && |b.lens[b.selector[groupNo]]| > 0
    ensures |tables[b.selector[groupNo]].limit| > LONGEST && |tables[b.selector[groupNo]].base| > LONGEST
  {
    hide ValidLengths, LimitOf, BaseOf, PermSlot;
  }

  /** The start of GET_MTF_VAL, with the tables. */
  function FirstRequest(tables: seq<Tables>, c: Body): Parse {
    var groupNo := if c.groupPos == 0 then c.groupNo + 1 else c.groupNo;
    if groupNo < 0 || groupNo >= |c.selector| || c.selector[groupNo] >= |tables| then Failed(BadData)
    else
      var gMinlen := tables[c.selector[groupNo]].minLen;
      var groupPos := if c.groupPos == 0 then BZ_G_SIZE else c.groupPos;
      SymbolStart(c.(groupNo := groupNo, groupPos := groupPos - 1, zn := gMinlen, zvec := 0))
  }

  lemma FirstRequestIs(tables: seq<Tables>, b: Body)
    requires BodyOk(b) && Prepared(tables, b.lens) && (b.groupPos == 0 || b.groupNo >= 0)
    ensures FirstRequest(tables, SavedBody(b)) == Saved(BeginSymbol(b))
  {
    hide TablesOk, AllBelow, MinLen, IsTables, Prepared;
    var groupNo := if b.groupPos == 0 then b.groupNo + 1 else b.groupNo;
    if groupNo < |b.selector| {
      GroupPrepared(tables, b, groupNo);
      assert Table(b.(groupNo := groupNo, groupPos := BZ_G_SIZE - 1)) == Table(b.(groupNo := groupNo));
    }
  }

  /** The loop that creates the decoding tables. */
  method MakeAllTables(lens: seq<seq<nat>>, ghost alphaSize: nat) returns (tables: seq<Tables>)
    requires TablesOk(lens, alphaSize)
    ensures Prepared(tables, lens)
  {
    hide TablesFor, ValidLengths;
    tables := [];
    for t := 0 to |lens|
      invariant Prepared(tables, lens[..t])
      modifies {}
    {
      var ts := MakeTables(lens[t]);
      tables := tables + [ts];
    }
    assert lens[..|lens|] == lens;
  }

  function AnyBody(h: Header): Body {
    Body(h, [], [], [], 0, 0, 0, 0, [], [], 0, 1)
  }

  lemma SavedStates(h: Header, col: seq<byte>, b: Body, e: Error)
    ensures Saved(Output(h, col)) == Output(h, []) && LevelOf(Output(h, col)) == h.level
    ensures Saved(Failed(e)) == Failed(e) && LevelOf(Failed(e)) == 0
    ensures Saved(SymbolBit(b)) == SymbolBit(SavedBody(b))
        && LevelOf(SymbolBit(b)) == LevelOf(SymbolStart(b)) == b.h.level
  {
  }

  lemma HeaderSaved(p: Parse)
    ensures !p.SymbolStart? && !p.SymbolBit? && !p.Output? ==> Saved(p) == p
    ensures p.Magic? || p.Idle? || p.Failed? ==> LevelOf(p) == 0
    ensures p.BlkHdr? ==> LevelOf(p) == p.level
    ensures p.SymbolStart? ==> LevelOf(p) == p.b.h.level
  {
  }

  lemma TakenKeeps(b: Body, s: int)
    ensures TakeSymbol(b, s).Again? ==>
              SavedBody(TakeSymbol(b, s).b) == SavedBody(b) && TakeSymbol(b, s).b.lens == b.lens
  {
    hide ByteOf, MoveToFront, RunFlushed;
  }

  lemma HeaderNext(p: Parse, x: nat)
    requires Sound(p) && !Stopped(p) && !p.SymbolStart? && !p.SymbolBit? && x < Pow2(Need(p))
    ensures var q := Resume(p, x);
            if p.Magic? then q.Magic? || q.Failed? || (q.BlkHdr? && 1 <= q.level <= 9) else HeaderStep(p, q)
  {
    hide SeekMapping, AfterCoding2, MinLen, UsedBytes, TablesOk, AllBelow, ValidLengths, UndoSelectors;
    match p
    case Magic(k) => Pow2Values();
    case Mapping1(h, inUse16) => if |inUse16| == 15 { SeekMappingStep(p, h, inUse16 + [x == 1], []); }
    case Mapping2(h, inUse16, inUse) => SeekMappingStep(p, h, inUse16, inUse + [x == 1]);
    case Coding2(_, _, _, _, _, _, _) => Coding2Step(p, x);
    case _ =>
  }

  // ---------- the local copies of the FAST form ----------

  /** Finishes a run, as far as there is room. */
  method WriteRun(tab: seq<nat>, ch: byte, len0: nat, crc0: nat, room: nat) returns (len: nat, crc: nat, out: seq<byte>)
    requires IsTable(tab) && crc0 < WORD && len0 > 0
    ensures Repeat(ch, len0) == out + Repeat(ch, len) && |out| <= room && (len > 0 ==> |out| == room)
    ensures crc < WORD && crc == CrcOf(tab, crc0, out)
  {
    hide CrcOf, UpdateCrc;
    len, crc, out := len0, crc0, [];
    CrcOfNone(tab, crc0);
    while true
      invariant 1 <= len && Repeat(ch, len0) == out + Repeat(ch, len) && |out| <= room
      invariant crc < WORD && crc == CrcOf(tab, crc0, out)
      decreases len
    {
      if |out| == room {
        return;
      }
      CrcNext(tab, crc0, out, ch);
      assert Repeat(ch, len) == [ch] + Repeat(ch, len - 1);
      if len == 1 {
        break;
      }
      out, crc, len := out + [ch], UpdateCrc(tab, crc, ch), len - 1;
    }
    out, crc, len := out + [ch], UpdateCrc(tab, crc, ch), 0;
  }

  /** The decompressor's output state, held in local copies. */
  datatype Locals = Locals(ch: byte, len: nat, used: nat, k0: byte, crc: nat)

  ghost predicate Kept(tab: seq<nat>, src: Source, nblock: nat, l: Locals) {
    IsTable(tab) && l.crc < WORD && 1 <= l.used && (l.used <= nblock ==> l.k0 == src(l.used - 1))
  }

  ghost function Rest(src: Source, nblock: nat, l: Locals): seq<byte>
    requires 1 <= l.used
  {
    Repeat(l.ch, l.len) + Remaining(src, nblock, l.used)
  }

  ghost function SnapOf(p: Parse, l: Locals, combined: nat, bits: seq<bool>): Snapshot
    requires p.Output? && p.h.origPtr < |p.col| && 1 <= l.used
  {
    var src := Walk(p.col, p.h.origPtr);
    Snapshot(p, Rest(src, |p.col|, l), EndsWell(src, |p.col|, l.used), l.crc, combined, bits)
  }

  /** From l to m the bytes out are written. */
  ghost predicate Emitted(tab: seq<nat>, src: Source, nblock: nat, l: Locals, out: seq<byte>, m: Locals) {
    && Kept(tab, src, nblock, l) && Kept(tab, src, nblock, m)
    && Rest(src, nblock, l) == out + Rest(src, nblock, m)
    && EndsWell(src, nblock, l.used) == EndsWell(src, nblock, m.used)
    && m.crc == CrcOf(tab, l.crc, out)
  }

  lemma EmittedAdvances(tab: seq<nat>, p: Parse, l: Locals, out: seq<byte>, m: Locals, combined: nat, bits: seq<bool>)
    requires p.Output? && p.h.origPtr < |p.col| && Emitted(tab, Walk(p.col, p.h.origPtr), |p.col|, l, out, m)
    ensures Advanced(tab, SnapOf(p, l, combined, bits), out, SnapOf(p, m, combined, bits))
    ensures SnapOf(p, l, combined, bits).well == EndsWell(Walk(p.col, p.h.origPtr), |p.col|, l.used)
  {
    hide Rest, EndsWell, CrcOf;
  }

  lemma EmittedNothing(tab: seq<nat>, src: Source, nblock: nat, l: Locals)
    requires Kept(tab, src, nblock, l)
    ensures Emitted(tab, src, nblock, l, [], l)
  {
    hide Rest, EndsWell;
    CrcOfNone(tab, l.crc);
  }

  lemma EmittedMore(tab: seq<nat>, src: Source, nblock: nat, l: Locals, out: seq<byte>, m: Locals, out': seq<byte>,
      m': Locals)
    requires Emitted(tab, src, nblock, l, out, m) && Emitted(tab, src, nblock, m, out', m')
    ensures Emitted(tab, src, nblock, l, out + out', m')
  {
    hide Rest, EndsWell, CrcOf;
    CrcConcat(tab, l.crc, out, out');
    assert out + (out' + Rest(src, nblock, m')) == out + out' + Rest(src, nblock, m');
  }

  /** Part of the run in hand. */
  lemma EmittedRun(tab: seq<nat>, src: Source, nblock: nat, l: Locals, out: seq<byte>, m: Locals)
    requires Kept(tab, src, nblock, l) && m == l.(len := m.len, crc := m.crc)
    requires Repeat(l.ch, l.len) == out + Repeat(l.ch, m.len) && m.crc < WORD && m.crc == CrcOf(tab, l.crc, out)
    ensures Emitted(tab, src, nblock, l, out, m)
  {
    hide EndsWell, CrcOf, Remaining;
    assert out + (Repeat(l.ch, m.len) + Remaining(src, nblock, l.used)) ==
        Repeat(l.ch, l.len) + Remaining(src, nblock, l.used);
  }

  /** A new run is taken in hand. */
  lemma EmittedStart(tab: seq<nat>, src: Source, nblock: nat, l: Locals, m: Locals)
    requires Kept(tab, src, nblock, l) && Kept(tab, src, nblock, m) && l.len == 0 && l.used <= nblock && m.crc == l.crc
    requires NextRun(src, nblock, l.used) == OutRun(m.ch, m.len, m.used)
    ensures Emitted(tab, src, nblock, l, [], m)
  {
    hide NextRun;
    CrcOfNone(tab, l.crc);
    assert Repeat(l.ch, 0) + Remaining(src, nblock, l.used) == Remaining(src, nblock, l.used);
  }

  lemma KeptAtStart(tab: seq<nat>, src: Source, nblock: nat, l: Locals)
    requires IsTable(tab) && l.crc < WORD && l.used == 1 && l.k0 == src(0)
    ensures Kept(tab, src, nblock, l)
  {
  }

  lemma KeptUsed(tab: seq<nat>, src: Source, nblock: nat, l: Locals)
    requires Kept(tab, src, nblock, l)
    ensures 1 <= l.used
  {
  }

  lemma OneRunByte(tab: seq<nat>, crc: nat, ch: byte, len: nat)
    requires IsTable(tab) && crc < WORD && len > 0
    ensures Repeat(ch, len) == [ch] + Repeat(ch, len - 1) && CrcOf(tab, crc, [ch]) == UpdateCrc(tab, crc, ch)
  {
    hide UpdateCrc;
    CrcNext(tab, crc, [], ch);
    assert [] + [ch] == [ch];
  }

  /** Only the runs of a corrupt block are read past its end. */
  lemma Overrun(tab: seq<nat>, src: Source, nblock: nat, l: Locals, out: seq<byte>, m: Locals)
    requires Emitted(tab, src, nblock, l, out, m) && m.used > nblock + 1 && m.len == 0
    ensures !EndsWell(src, nblock, l.used) && Rest(src, nblock, m) == [] && Rest(src, nblock, l) == out
  {
    hide CrcOf, NextRun;
    assert out + [] == out;
  }

  /** A run is in hand, or there is more of the block, or it ended well. */
  predicate Onward(l: Locals, nblock: nat) {
    l.len > 0 || l.used <= nblock + 1
  }

  method EmitFast(tab: seq<nat>, store: Store, l0: Locals, tPos0: nat, room: nat, ghost origPtr: nat)
      returns (corrupt: bool, out: seq<byte>, l: Locals, tPos: nat)
    requires origPtr < |store.col| == store.nblock
    requires Kept(tab, Walk(store.col, origPtr), store.nblock, l0) && store.FastAt(origPtr, l0.used, tPos0)
    requires Onward(l0, store.nblock)
    ensures Emitted(tab, Walk(store.col, origPtr), store.nblock, l0, out, l)
    ensures Kept(tab, Walk(store.col, origPtr), store.nblock, l)
    ensures store.FastAt(origPtr, l.used, tPos) && |out| <= room
    ensures corrupt ==> !EndsWell(Walk(store.col, origPtr), store.nblock, l0.used)
    ensures corrupt ==> out != [] && Rest(Walk(store.col, origPtr), store.nblock, l0) == out
    ensures !corrupt ==> Onward(l, store.nblock)
    ensures !corrupt ==> |out| == room || (l.len == 0 && l.used == store.nblock + 1)
  {
    hide Emitted, NextRun, WalkChar, CrcOf, Repeat, Store.FastAt;
    ghost var src, nblock := Walk(store.col, origPtr), store.nblock;
    l, tPos, out := l0, tPos0, [];
    EmittedNothing(tab, src, nblock, l0);
    while true
      invariant Kept(tab, src, nblock, l) && Emitted(tab, src, nblock, l0, out, l) && |out| <= room
      invariant store.FastAt(origPtr, l.used, tPos)
      invariant Onward(l, nblock) || out != []
      decreases nblock + 1 - l.used
    {
      if l.len > 0 {
        var len, crc, some := WriteRun(tab, l.ch, l.len, l.crc, room - |out|);
        ghost var m := l.(len := len, crc := crc);
        EmittedRun(tab, src, nblock, l, some, m);
        EmittedMore(tab, src, nblock, l0, out, l, some, m);
        out, l := out + some, l.(len := len, crc := crc);
        if len > 0 {
          return false, out, l, tPos;
        }
      }
      if l.used > store.nblock + 1 {
        Overrun(tab, src, nblock, l0, out, l);
        return true, out, l, tPos;
      }
      if l.used == store.nblock + 1 {
        return false, out, l, tPos;
      }
      var len, next, used, tPos' := store.FastRun(l.k0, l.used, tPos, origPtr);
      ghost var m := Locals(l.k0, len, used, next, l.crc);
      EmittedStart(tab, src, nblock, l, m);
      EmittedMore(tab, src, nblock, l0, out, l, [], m);
      assert out + [] == out;
      l, tPos := Locals(l.k0, len, used, next, l.crc), tPos';
    }
  }

  /** A data error: bytes are lost exactly when a block was cut short and the
      form is FAST. */
  ghost predicate Broke(tab: seq<nat>, small: bool, s: Snapshot, out: seq<byte>, lost: seq<byte>) {
    || (lost == [] && Ends(tab, s, out, Corrupt))
    || (Ends(tab, s, out + lost, CutShort) && (lost == [] <==> small))
  }

  /** What a code says of all that was still to come: the bytes written, with
      those lost on a data error, and the verdict. */
  ghost predicate Final(tab: seq<nat>, small: bool, s: Snapshot, code: Code, out: seq<byte>, lost: seq<byte>) {
    && (code == STREAM_END ==> Ends(tab, s, out, End))
    && (code == DATA_ERROR ==> Broke(tab, small, s, out, lost))
    && (code != DATA_ERROR ==> lost == [])
    && (code == DATA_ERROR_MAGIC ==> Ends(tab, s, out, NotBzip))
    && (code == OUTSIDE_MODEL ==> Ends(tab, s, out, Unsupported))
  }

  lemma NotFinal(tab: seq<nat>, small: bool, s: Snapshot, code: Code, out: seq<byte>)
    requires code == OK || code == SEQUENCE_ERROR
    ensures Final(tab, small, s, code, out, [])
  {
  }

  datatype Phase = Broken | Full | Complete

  class DState {
    const strm: Stream
    const reader: BitReader
    const tab: seq<nat>
    const smallDecompress: bool
    var save: Parse
    var store: Store?
    /** limit, base, perm and minLens of each coding table. */
    var tables: seq<Tables>
    var stateOutCh: byte
    var stateOutLen: nat
    var nblockUsed: nat
    var k0: byte
    var calculatedBlockCRC: nat
    var calculatedCombinedCRC: nat
    /** The machine's state, with the arrays' contents. */
    ghost var parse: Parse

    ghost function Repr(): set<object>
      reads this`store
    {
      {this, strm, reader} + (if store == null then {} else store.Repr())
    }

    /** BZ2_bzDecompressInit. */
    constructor (strm: Stream, tab: seq<nat>, small: bool)
      requires strm.Valid() && IsTable(tab)
      ensures Valid() && this.strm == strm && this.tab == tab && smallDecompress == small && store == null
          && fresh(reader)
      ensures Snap() == Between(Magic(0), 0, BytesToBits(strm.nextIn))
    {
      this.strm, this.tab, smallDecompress := strm, tab, small;
      reader := new BitReader(strm);
      save, parse, store, tables := Magic(0), Magic(0), null, [];
      stateOutCh, stateOutLen, nblockUsed, k0 := 0, 0, 0, 0;
      calculatedBlockCRC, calculatedCombinedCRC := INITIAL, 0;
      new;
      assert reader.Unread() == BytesToBits(strm.nextIn);
    }

    // ---------- writing out a block ----------

    ghost function Here(): Locals
      reads this`stateOutCh, this`stateOutLen, this`nblockUsed, this`k0, this`calculatedBlockCRC
    {
      Locals(stateOutCh, stateOutLen, nblockUsed, k0, calculatedBlockCRC)
    }

    /** nblockUsed characters of the walk have been read, the last one kept in
        k0 unless the block is over. */
    ghost predicate Emitting()
      reads this, if store == null then {} else store.Repr()
    {
      && parse.Output? && parse.h.origPtr < |parse.col| && store != null && store.col == parse.col
      && store.nblock == |parse.col| && store.smallDecompress == smallDecompress
      && store.Reading(parse.h.origPtr, nblockUsed)
      && Kept(tab, Walk(parse.col, parse.h.origPtr), |parse.col|, Here())
      && (smallDecompress || Onward(Here(), |parse.col|))
    }

    /** The decompressor while a block is being written. */
    ghost function EmitSnap(): Snapshot
      requires Emitting()
      reads this, reader, reader.strm, if store == null then {} else store.Repr()
    {
      SnapOf(parse, Here(), calculatedCombinedCRC, reader.Unread())
    }

    /** Main result: writes until the room or the block is used up. A corrupt
        block is found by reading past its end; then nothing is saved, although
        all that the block had left has been stored. */
    method UnRleFast() returns (corrupt: bool, ghost out: seq<byte>)
      requires strm.Valid() && Emitting() && !smallDecompress && reader.strm == strm
      modifies this`stateOutCh, this`stateOutLen, this`nblockUsed, this`k0, this`calculatedBlockCRC
      modifies strm`nextOut, strm`availOut, strm`totalOutLo32, strm`totalOutHi32, store`tPos
      ensures Emitting() && Advanced(tab, old(EmitSnap()), out, EmitSnap())
      ensures strm.Valid() && strm.nextOut == old(strm.nextOut) + out && strm.availOut == old(strm.availOut) - |out|
      ensures corrupt ==> !old(EmitSnap()).well && out == [] && 0 < |EmitSnap().rem| <= strm.availOut
      ensures !corrupt ==> strm.availOut == 0 || (stateOutLen == 0 && nblockUsed == |parse.col| + 1)
    {
      hide Kept, Emitted, Advanced, SnapOf, EndsWell, Store.FastAt, Store.Reading;
      ghost var origPtr, src := parse.h.origPtr, Walk(parse.col, parse.h.origPtr);
      var l0 := Locals(stateOutCh, stateOutLen, nblockUsed, k0, calculatedBlockCRC);
      KeptUsed(tab, src, |parse.col|, l0);
      store.FastAtIsReading(origPtr, nblockUsed);
      var bad, written, l, tPos := EmitFast(tab, store, l0, store.tPos, strm.availOut, origPtr);
      KeptUsed(tab, src, |parse.col|, l);
      EmittedAdvances(tab, parse, l0, written, l, calculatedCombinedCRC, reader.Unread());
      if bad {
        RestIs(parse, l0, calculatedCombinedCRC, reader.Unread());
        EmittedNothing(tab, src, |parse.col|, l0);
        EmittedAdvances(tab, parse, l0, [], l0, calculatedCombinedCRC, reader.Unread());
        return true, [];
      }
      strm.PutAll(written);
      stateOutCh, stateOutLen, nblockUsed, k0, calculatedBlockCRC := l.ch, l.len, l.used, l.k0, l.crc;
      store.SetPos(tPos, origPtr, l.used);
      corrupt, out := false, written;
    }

    /** One byte of the run in hand. */
    method PutFromRun()
      requires strm.Valid() && strm.availOut > 0 && Emitting() && smallDecompress && stateOutLen > 0
      modifies this`stateOutLen, this`calculatedBlockCRC
      modifies strm`nextOut, strm`availOut, strm`totalOutLo32, strm`totalOutHi32
      ensures Emitting()
          && Emitted(tab, Walk(parse.col, parse.h.origPtr), |parse.col|, old(Here()), [stateOutCh], Here())
      ensures strm.Valid() && strm.nextOut == old(strm.nextOut) + [stateOutCh]
          && strm.availOut == old(strm.availOut) - 1
      ensures stateOutLen == old(stateOutLen) - 1
    {
      hide Emitted, UpdateCrc, Store.Reading;
      ghost var l, c := Here(), stateOutCh;
      OneRunByte(tab, calculatedBlockCRC, c, stateOutLen);
      strm.PutByte(stateOutCh);
      calculatedBlockCRC := UpdateCrc(tab, calculatedBlockCRC, stateOutCh);
      stateOutLen := stateOutLen - 1;
      EmittedRun(tab, Walk(parse.col, parse.h.origPtr), |parse.col|, l, [c], Here());
    }

    /** The next run is taken in hand. */
    method TakeRun()
      requires Emitting() && smallDecompress && stateOutLen == 0 && nblockUsed <= |parse.col|
      modifies this`stateOutCh, this`stateOutLen, this`nblockUsed, this`k0, store`tPos
      ensures Emitting() && Emitted(tab, Walk(parse.col, parse.h.origPtr), |parse.col|, old(Here()), [], Here())
      ensures nblockUsed > old(nblockUsed)
    {
      hide Emitted, NextRun, WalkChar, Store.Reading;
      ghost var l := Here();
      var ch := k0;
      var len, next, used := store.SmallRun(k0, nblockUsed, parse.h.origPtr);
      stateOutCh, stateOutLen, k0, nblockUsed := ch, len, next, used;
      EmittedStart(tab, Walk(parse.col, parse.h.origPtr), |parse.col|, l, Here());
    }

    /** Main result: the SMALL form meets the contract of the FAST form, but that
        a corrupt block has been written to its last byte. */
    method UnRleSmall() returns (corrupt: bool, ghost out: seq<byte>)
      requires strm.Valid() && Emitting() && smallDecompress && reader.strm == strm
      modifies this`stateOutCh, this`stateOutLen, this`nblockUsed, this`k0, this`calculatedBlockCRC
      modifies strm`nextOut, strm`availOut, strm`totalOutLo32, strm`totalOutHi32, store`tPos
      ensures Emitting() && Advanced(tab, old(EmitSnap()), out, EmitSnap())
      ensures strm.Valid() && strm.nextOut == old(strm.nextOut) + out && strm.availOut == old(strm.availOut) - |out|
      ensures corrupt ==> !old(EmitSnap()).well && EmitSnap().rem == []
      ensures !corrupt ==> strm.availOut == 0 || (stateOutLen == 0 && nblockUsed == |parse.col| + 1)
    {
      hide Kept, Emitted, Advanced, SnapOf, EndsWell, Store.Reading;
      ghost var l0, src, nblock := Here(), Walk(parse.col, parse.h.origPtr), |parse.col|;
      EmittedNothing(tab, src, nblock, l0);
      out := [];
      while true
        invariant Emitting() && Emitted(tab, src, nblock, l0, out, Here())
        invariant strm.Valid() && strm.nextOut == old(strm.nextOut) + out && strm.availOut == old(strm.availOut) - |out|
        decreases nblock + 1 - nblockUsed
      {
        KeptUsed(tab, src, nblock, Here());
        ghost var used := nblockUsed;
        while true
          invariant Emitting() && Emitted(tab, src, nblock, l0, out, Here())
          invariant nblockUsed == used
          invariant strm.Valid() && strm.nextOut == old(strm.nextOut) + out
              && strm.availOut == old(strm.availOut) - |out|
          decreases stateOutLen
        {
          if strm.availOut == 0 {
            EmittedAdvances(tab, parse, l0, out, Here(), calculatedCombinedCRC, reader.Unread());
            return false, out;
          }
          if stateOutLen == 0 {
            break;
          }
          ghost var l, c := Here(), stateOutCh;
          PutFromRun();
          EmittedMore(tab, src, nblock, l0, out, l, [c], Here());
          out := out + [c];
        }
        EmittedAdvances(tab, parse, l0, out, Here(), calculatedCombinedCRC, reader.Unread());
        if nblockUsed == store.nblock + 1 {
          return false, out;
        }
        if nblockUsed > store.nblock + 1 {
          Overrun(tab, src, nblock, l0, out, Here());
          RestIs(parse, Here(), calculatedCombinedCRC, reader.Unread());
          return true, out;
        }
        ghost var l := Here();
        TakeRun();
        EmittedMore(tab, src, nblock, l0, out, l, [], Here());
        assert out + [] == out;
      }
    }

    // ---------- reading ----------

    /** The arrays exist and belong to a stream of this block size. */
    ghost predicate StoreFits(level: nat)
      reads this`store, if store == null then {} else {store.ll4}
    {
      && store != null && store.Tidy() && this !in store.Repr()
      && store.nblockMAX == BLOCK_UNIT * level && store.smallDecompress == smallDecompress
    }

    /** The arrays hold what the machine's state says. */
    ghost predicate StoreMatches()
      reads this, if store == null then {} else store.Repr()
    {
      && (LevelOf(parse) > 0 ==> StoreFits(LevelOf(parse)))
      && (parse.SymbolStart? || parse.SymbolBit? ==>
            store != null && store.Represents(parse.b) && Prepared(tables, parse.b.lens))
      && (parse.Output? ==> Emitting())
    }

    ghost predicate Inner()
      reads this, if store == null then {} else store.Repr()
    {
      && IsTable(tab) && calculatedBlockCRC < WORD && Sound(parse) && save == Saved(parse) && StoreMatches()
    }

    ghost predicate Apart()
      reads this`store
    {
      store != null ==> this !in store.Repr() && reader !in store.Repr() && strm !in store.Repr()
    }

    ghost predicate Valid()
      reads this, reader, reader.strm, if store == null then {} else store.Repr()
    {
      && IsTable(tab) && calculatedBlockCRC < WORD && calculatedCombinedCRC < WORD
      && reader.strm == strm && strm.Valid() && reader.InStep() && Inner() && Apart()
    }

    ghost function Snap(): Snapshot
      requires Valid()
      reads this, reader, reader.strm, if store == null then {} else store.Repr()
    {
      if parse.Output? then EmitSnap()
      else Between(parse, calculatedCombinedCRC, reader.Unread())
    }

    /** Nothing of the block has been written. */
    ghost predicate AtStart()
      reads this`stateOutLen, this`nblockUsed, this`calculatedBlockCRC
    {
      stateOutLen == 0 && nblockUsed == 1 && calculatedBlockCRC == INITIAL
    }

    /** The code after a request outside the symbols of a block. */
    method StepHeader(x: nat)
      requires Sound(parse) && save == Saved(parse) && StoreMatches() && IsTable(tab) && calculatedBlockCRC < WORD
      requires !Stopped(parse) && !parse.SymbolStart? && !parse.SymbolBit? && x < Pow2(Need(parse))
      modifies this`save, this`parse, this`store, this`tables, if store == null then {} else store.Repr()
      ensures parse == Resume(old(parse), x) && save == Saved(parse) && StoreMatches()
      ensures store == old(store) || (store != null && fresh(store) && fresh(store.Repr()))
      ensures calculatedCombinedCRC == old(calculatedCombinedCRC) && !parse.Output?
    {
      hide Resume, Sound, Saved, LevelOf, Store.Holding, Store.Counted, Store.Tidy;
      HeaderSaved(parse);
      var q := HeaderSteps.Answer(save, x);
      HeaderNext(parse, x);
      HeaderSaved(q);
      if save.Magic? && q.BlkHdr? {
        store := new Store(q.level, smallDecompress);
      } else if q.SymbolStart? {
        FirstSymbolAfter(parse, x);
        tables := MakeAllTables(q.b.lens, |q.b.used| + 2);
        store.Start(save.inUse);
      }
      save := Saved(q);
      parse := q;
    }

    /** The code after a request inside a symbol: c and b are the saved and the
        whole body once the answer is in zvec. */
    method StepSymbol(c: Body, ghost b: Body)
      requires IsTable(tab) && calculatedBlockCRC < WORD
      requires InSymbol(b) && c == SavedBody(b) && StoreFits(b.h.level) && store.Represents(b)
          && Prepared(tables, b.lens)
      modifies this, store.Repr()
      ensures store == old(store) && calculatedCombinedCRC == old(calculatedCombinedCRC)
      ensures parse == Decide(b) && save == Saved(parse) && StoreMatches() && calculatedBlockCRC < WORD
      ensures parse.Output? ==> AtStart()
    {
      hide LookLens, LookUp, IsTables, Prepared, GotSymbol, Saved, LevelOf, Store.Represents, Store.Tidy;
      FoundInAlphabet(b);
      GroupPrepared(tables, b, b.groupNo);
      var ts := tables[c.selector[c.groupNo]];
      TablesGiveLookUp(ts.limit, ts.base, ts.perm, Table(b), b.zn, b.zvec);
      match LookUp(ts.limit, ts.base, ts.perm, c.zn, c.zvec)
      case More =>
        SavedStates(b.h, [], b.(zn := b.zn + 1), BadData);
        save, parse := SymbolBit(c.(zn := c.zn + 1)), SymbolBit(b.(zn := b.zn + 1));
        store.RepresentsSame(b, parse.b);
      case Bad =>
        SavedStates(b.h, [], b, BadData);
        save, parse := Failed(BadData), Failed(BadData);
      case Symbol(s) =>
        StepFound(c, b, s);
    }

    method StepFound(c: Body, ghost b: Body, s: nat)
      requires IsTable(tab) && calculatedBlockCRC < WORD && s < |b.used| + 2
      requires InSymbol(b) && c == SavedBody(b) && StoreFits(b.h.level) && store.Represents(b)
          && Prepared(tables, b.lens)
      modifies this, store.Repr()
      ensures store == old(store) && calculatedCombinedCRC == old(calculatedCombinedCRC)
      ensures parse == GotSymbol(b, s) && save == Saved(parse) && StoreMatches() && calculatedBlockCRC < WORD
      ensures parse.Output? ==> AtStart()
    {
      hide TakeSymbol, BeginSymbol, Prepared, Saved, LevelOf, Store.Represents, Store.Tidy, TablesOk, AllBelow;
      TakeSymbolSound(b, s);
      var r := store.Symbol(s, b);
      ghost var t := TakeSymbol(b, s);
      match r
      case More =>
        store.RepresentsHolding(t.b);
        store.HoldingShape();
        TakenKeeps(b, s);
        StartSymbol(c, t.b);
      case Done =>
        Finish(c.h, t.col);
      case Fail(e) =>
        SavedStates(b.h, [], b, e);
        save, parse := Failed(e), Failed(e);
    }

    method StartSymbol(c: Body, ghost b: Body)
      requires IsTable(tab) && calculatedBlockCRC < WORD
      requires BodyOk(b) && (b.groupPos == 0 || b.groupNo >= 0) && Prepared(tables, b.lens)
      requires c == SavedBody(b) && StoreFits(b.h.level) && store.Represents(b)
      modifies this
      ensures store == old(store) && calculatedCombinedCRC == old(calculatedCombinedCRC)
      ensures parse == BeginSymbol(b) && save == Saved(parse) && StoreMatches() && calculatedBlockCRC < WORD
      ensures !parse.Output?
    {
      hide BeginSymbol, FirstRequest, Prepared, Saved, LevelOf, Store.Represents, Store.Tidy, TablesOk, AllBelow;
      BeginKeeps(b);
      FirstRequestIs(tables, b);
      save, parse := FirstRequest(tables, c), BeginSymbol(b);
      if parse.SymbolStart? {
        SavedStates(b.h, [], parse.b, BadData);
        store.RepresentsSame(b, parse.b);
      } else {
        SavedStates(b.h, [], b, parse.error);
      }
    }

    /** The block is complete: the sort is undone and output can start. */
    method Finish(h: Header, ghost col: seq<byte>)
      requires IsTable(tab) && calculatedBlockCRC < WORD
      requires 0 < h.level && StoreFits(h.level) && store.Holding() && store.Counted() && store.col == col
      modifies this, store.Repr()
      ensures store == old(store) && calculatedCombinedCRC == old(calculatedCombinedCRC)
      ensures parse == FinishBlock(h, col) && save == Saved(parse) && StoreMatches() && calculatedBlockCRC < WORD
      ensures parse.Output? ==> AtStart()
    {
      hide Store.Reading, Store.Holding, Store.Counted, Store.Tidy, WalkChar, Saved, Emitting, LevelOf;
      store.HoldingShape();
      if h.origPtr >= store.nblock {
        SavedStates(h, col, AnyBody(h), BadData);
        save, parse := Failed(BadData), Failed(BadData);
      } else {
        var k := store.Undo(h.origPtr);
        StartOutput(h, col, k);
      }
    }

    method StartOutput(h: Header, ghost col: seq<byte>, k: byte)
      requires IsTable(tab) && 0 < h.level && StoreFits(h.level) && store.col == col && store.nblock == |col|
      requires h.origPtr < |col| && store.Reading(h.origPtr, 1) && k == WalkChar(col, h.origPtr, 0)
      modifies this
      ensures store == old(store) && calculatedCombinedCRC == old(calculatedCombinedCRC)
      ensures parse == Output(h, col) && save == Saved(parse) && StoreMatches() && calculatedBlockCRC < WORD
      ensures parse.Output? ==> AtStart()
    {
      hide Store.Reading, Store.Tidy, WalkChar, Kept, Saved, LevelOf;
      SavedStates(h, col, AnyBody(h), BadData);
      KeptAtStart(tab, Walk(col, h.origPtr), |col|, Locals(0, 0, 1, k, INITIAL));
      stateOutLen, stateOutCh, calculatedBlockCRC, k0, nblockUsed := 0, 0, INITIAL, k, 1;
      save, parse := Output(h, []), Output(h, col);
      assert Emitting();
    }

    /** Waiting for input, all of it taken. */
    ghost predicate Starving()
      reads this`parse, reader`held, strm`nextIn, reader.strm`nextIn
    {
      !Stopped(parse) && strm.nextIn == [] && |reader.Unread()| < Need(parse)
    }

    /** The code from one request to the next. */
    method Step(x: nat)
      requires Inner() && !Stopped(parse) && x < Pow2(Need(parse))
      modifies this, if store == null then {} else store.Repr()
      ensures Inner() && parse == Resume(old(parse), x) && calculatedCombinedCRC == old(calculatedCombinedCRC)
      ensures store == old(store) || (store != null && fresh(store) && fresh(store.Repr()))
      ensures parse.Output? ==> AtStart()
    {
      hide Resume, Decide, Sound, Saved, LevelOf, StoreMatches;
      ResumeSound(parse, x);
      SymbolStates(parse, x);
      if save.SymbolStart? {
        AnswerSymbol(x, x);
      } else if save.SymbolBit? {
        AnswerSymbol(x, 2 * save.b.zvec + x);
      } else {
        StepHeader(x);
      }
    }

    method AnswerSymbol(x: nat, zvec: nat)
      requires Inner() && (parse.SymbolStart? || parse.SymbolBit?)
      requires zvec == if parse.SymbolStart? then x else 2 * parse.b.zvec + x
      modifies this, store.Repr()
      ensures store == old(store) && calculatedCombinedCRC == old(calculatedCombinedCRC)
      ensures parse == Resume(old(parse), x) && save == Saved(parse) && StoreMatches() && calculatedBlockCRC < WORD
      ensures parse.Output? ==> AtStart()
    {
      hide Resume, Decide, Sound, Prepared, Saved, LevelOf, Store.Represents, Store.Tidy;
      SymbolStates(parse, x);
      store.RepresentsSame(parse.b, parse.b.(zvec := zvec));
      StepSymbol(save.b.(zvec := zvec), parse.b.(zvec := zvec));
    }

    /** Main result: BZ2_decompress runs the machine on the input there is, and
        keeps what it cannot use. */
    method Decompress() returns (r: Code)
      requires Valid() && !Stopped(parse)
      modifies this, reader, strm`nextIn, strm`totalInLo32, strm`totalInHi32, strm`taken
      modifies if store == null then {} else store.Repr()
      ensures Valid() && (parse, reader.Unread()) == Run(old(parse), old(reader.Unread()))
      ensures calculatedCombinedCRC == old(calculatedCombinedCRC)
      ensures strm.taken + strm.nextIn == old(strm.taken + strm.nextIn)
      ensures save == Saved(parse) && r == ReturnCode(parse) && (!Stopped(parse) ==> Starving())
      ensures store == old(store) || (store != null && fresh(store) && fresh(store.Repr()))
      ensures parse.Output? ==> AtStart()
    {
      hide Resume, Run, Inner, BitReader.Unread, BitReader.InStep;
      while true
        invariant Valid() && !Stopped(parse)
        invariant Run(parse, reader.Unread()) == Run(old(parse), old(reader.Unread()))
        invariant calculatedCombinedCRC == old(calculatedCombinedCRC)
        invariant strm.taken + strm.nextIn == old(strm.taken + strm.nextIn)
        invariant store == old(store) || (store != null && fresh(store) && fresh(store.Repr()))
        decreases |reader.Unread()|
      {
        Asking();
        ghost var p, bits := parse, reader.Unread();
        RunStep(p, bits);
        var ok, x := reader.GetBits(Need(save));
        if !ok {
          break;
        }
        ValBound(bits[..Need(p)]);
        Step(x);
        Asking();
        if Stopped(save) {
          RunStopped(parse, reader.Unread());
          break;
        }
      }
      r := ReturnCode(save);
    }

    /** The block has been written: its CRC is checked and mixed in. */
    method CloseBlock() returns (ok: bool)
      requires Valid() && parse.Output? && stateOutLen == 0 && nblockUsed == |parse.col| + 1
      modifies this`save, this`parse, this`calculatedBlockCRC, this`calculatedCombinedCRC
      ensures ok ==> Valid() && !Stopped(parse) && Leads(tab, old(Snap()), [], Snap())
      ensures !ok ==> Ends(tab, old(Snap()), [], Corrupt)
    {
      hide Store.Tidy, Store.Reading, BitReader.InStep, BitReader.Unread, Leads, Ends, Combine, Finalise;
      ghost var s := EmitSnap();
      NothingLeft(parse, Here(), calculatedCombinedCRC, reader.Unread());
      calculatedBlockCRC := Finalise(calculatedBlockCRC);
      if calculatedBlockCRC != save.h.crc {
        CrcOfNone(tab, s.crc);
        BadBlockEnds(tab, s);
        return false;
      }
      DoneLeads(tab, s);
      calculatedCombinedCRC := Combine(calculatedCombinedCRC, calculatedBlockCRC);
      save, parse := BlkHdr(save.h.level, 0), BlkHdr(parse.h.level, 0);
      ok := true;
    }

    /** What a corrupt block has left: nothing in SMALL form, and in FAST form
        bytes that have been stored but are not counted. */
    ghost predicate Leftover(rem: seq<byte>)
      reads strm`availOut
    {
      |rem| <= strm.availOut && (rem == [] <==> smallDecompress)
    }

    method Emit() returns (corrupt: bool, ghost out: seq<byte>)
      requires strm.Valid() && Emitting() && reader.strm == strm
      modifies this`stateOutCh, this`stateOutLen, this`nblockUsed, this`k0, this`calculatedBlockCRC
      modifies strm`nextOut, strm`availOut, strm`totalOutLo32, strm`totalOutHi32, store`tPos
      ensures Emitting() && Advanced(tab, old(EmitSnap()), out, EmitSnap())
      ensures strm.Valid() && strm.nextOut == old(strm.nextOut) + out && strm.availOut == old(strm.availOut) - |out|
      ensures corrupt ==> !old(EmitSnap()).well && Leftover(EmitSnap().rem)
      ensures !corrupt ==> strm.availOut == 0 || (stateOutLen == 0 && nblockUsed == |parse.col| + 1)
    {
      hide Advanced, SnapOf, Kept, Store.Reading;
      if smallDecompress {
        corrupt, out := UnRleSmall();
      } else {
        corrupt, out := UnRleFast();
      }
    }

    lemma StillOutput(s: Snapshot, out: seq<byte>)
      requires IsTable(tab) && Emitting() && Sound(parse) && save == Saved(parse)
      requires store != null && store.nblockMAX == BLOCK_UNIT * LevelOf(parse) && this !in store.Repr()
      requires calculatedCombinedCRC < WORD && Proper(tab, s) && Advanced(tab, s, out, EmitSnap())
      ensures Inner() && calculatedBlockCRC < WORD && Leads(tab, s, out, EmitSnap()) && EmitSnap().well == s.well
    {
      hide Sound, Saved, LevelOf, Store.Reading, Store.Tidy, Leads;
      store.ReadingIsTidy(parse.h.origPtr, nblockUsed);
      OutputIsSave(parse);
      WritingLeads(tab, s, out, EmitSnap());
    }

    /** The output of a block, in either form. */
    method WriteOut() returns (corrupt: bool, ghost out: seq<byte>)
      requires Valid() && parse.Output?
      modifies this`stateOutCh, this`stateOutLen, this`nblockUsed, this`k0, this`calculatedBlockCRC
      modifies strm`nextOut, strm`availOut, strm`totalOutLo32, strm`totalOutHi32, store`tPos
      ensures Valid() && Leads(tab, old(Snap()), out, Snap())
      ensures strm.nextOut == old(strm.nextOut) + out && strm.availOut == old(strm.availOut) - |out|
      ensures parse.Output? && store != null && store.nblock == |parse.col|
      ensures corrupt ==> Ends(tab, Snap(), Snap().rem, CutShort) && Leftover(Snap().rem)
      ensures !corrupt ==> strm.availOut == 0 || (stateOutLen == 0 && nblockUsed == |parse.col| + 1)
    {
      hide Sound, Saved, LevelOf, Advanced, SnapOf, Leads, Ends, Emitting, Store.Tidy, BitReader.Unread;
      ghost var s := EmitSnap();
      EmitSnapProper();
      SoundOutput(parse);
      corrupt, out := Emit();
      StillOutput(s, out);
      EmitSnapProper();
      if corrupt {
        BadBlockEnds(tab, EmitSnap());
      }
    }

    lemma SnapProper()
      requires Valid()
      ensures Proper(tab, Snap())
    {
      hide Store.Reading, Sound, BitReader.Unread;
    }

    lemma EmitSnapProper()
      requires IsTable(tab) && Emitting() && calculatedCombinedCRC < WORD
      ensures Proper(tab, EmitSnap()) && EmitSnap().parse == parse && store != null && store.nblock == |parse.col|
    {
    }

    /** The block that Decompress ends with is at its start. */
    lemma FirstOutput()
      requires Inner() && parse.Output? && AtStart()
      ensures Emitting() && parse.h.origPtr < |parse.col|
      ensures EmitSnap() == AtOutput(parse.h, parse.col, calculatedCombinedCRC, reader.Unread())
    {
      hide Sound, Saved, LevelOf, Store.Reading, Store.Tidy, EndsWell, Remaining;
      assert Repeat(stateOutCh, 0) == [];
    }

    /** The input part of a call, when out has been written since s: up to the
        next block, or as far as the input goes. */
    method ReadIn(ghost s: Snapshot, ghost out: seq<byte>) returns (code: Code)
      requires Valid() && !Stopped(parse) && Leads(tab, s, out, Snap())
      modifies this, reader, strm`nextIn, strm`totalInLo32, strm`totalInHi32, strm`taken
      modifies if store == null then {} else store.Repr()
      ensures Valid() && strm.taken + strm.nextIn == old(strm.taken + strm.nextIn)
      ensures store == old(store) || (store != null && fresh(store) && fresh(store.Repr()))
      ensures code == OK ==> parse.Output? || Starving()
      ensures code == OK ==>
          Leads(tab, s, out, Snap()) && (parse.Output? ==> |reader.Unread()| < |old(reader.Unread())|)
      ensures code == STREAM_END ==> parse.Idle?
      ensures Final(tab, smallDecompress, s, code, out, [])
      ensures code != SEQUENCE_ERROR
    {
      hide Inner, Leads, Ends, Run, BitReader.Unread, BitReader.InStep, VerdictOf, ReturnCode;
      ghost var t := Snap();
      code := Decompress();
      Asking();
      CodesAgree(parse, calculatedCombinedCRC);
      assert out + [] == out;
      if parse.Idle? || parse.Failed? {
        StopEnds(tab, t, parse, reader.Unread());
        LeadsToEnd(tab, s, out, t, [], VerdictOf(parse, calculatedCombinedCRC));
      } else {
        if parse.Output? {
          FirstOutput();
          BlockLeads(tab, t, parse.h, parse.col, reader.Unread());
        } else {
          ReadingLeads(tab, t, parse, reader.Unread());
        }
        LeadsTransitive(tab, s, out, t, [], Snap());
      }
      if code == STREAM_END && save.crc != calculatedCombinedCRC {
        code := DATA_ERROR;
      }
    }

    /** The output part of a call: the block is found corrupt, the room is
        full, or the block is complete. */
    method WriteBlock(ghost s: Snapshot, ghost out0: seq<byte>) returns (phase: Phase, ghost out: seq<byte>,
        ghost lost: seq<byte>)
      requires Valid() && parse.Output? && Leads(tab, s, out0, Snap())
      modifies this, strm`nextOut, strm`availOut, strm`totalOutLo32, strm`totalOutHi32, store`tPos
      ensures strm.Valid() && store == old(store) && reader.Unread() == old(reader.Unread())
      ensures out0 <= out && strm.nextOut == old(strm.nextOut) + out[|out0|..]
      ensures strm.availOut == old(strm.availOut) - (|out| - |out0|)
      ensures phase == Broken ==> Final(tab, smallDecompress, s, DATA_ERROR, out, lost)
      ensures |lost| <= strm.availOut && (phase != Broken ==> lost == [])
      ensures phase != Broken ==> Valid() && Leads(tab, s, out, Snap())
      ensures phase == Full ==> parse.Output? && strm.availOut == 0
      ensures phase == Complete ==> !Stopped(parse)
    {
      hide Inner, Leads, Ends, Snap, BitReader.Unread, BitReader.InStep;
      ghost var t := Snap();
      var corrupt, o := WriteOut();
      LeadsTransitive(tab, s, out0, t, o, Snap());
      out := out0 + o;
      t := Snap();
      lost := [];
      if corrupt {
        lost := t.rem;
        LeadsToEnd(tab, s, out, t, lost, CutShort);
        return Broken, out, lost;
      }
      if nblockUsed != store.nblock + 1 || stateOutLen != 0 {
        return Full, out, [];
      }
      var ok := CloseBlock();
      assert out + [] == out;
      if !ok {
        LeadsToEnd(tab, s, out, t, [], Corrupt);
        return Broken, out, [];
      }
      LeadsTransitive(tab, s, out, t, [], Snap());
      return Complete, out, [];
    }

    /** One turn of the loop of BZ2_bzDecompress, when out0 has been written
        since s. */
    method Turn(ghost s: Snapshot, ghost out0: seq<byte>) returns (done: bool, code: Code, ghost out: seq<byte>,
        ghost lost: seq<byte>)
      requires Valid() && (parse.Output? || !Stopped(parse)) && Leads(tab, s, out0, Snap())
      modifies this, reader, strm, if store == null then {} else store.Repr()
      ensures strm.Valid() && out0 <= out && strm.nextOut == old(strm.nextOut) + out[|out0|..]
      ensures strm.availOut == old(strm.availOut) - (|out| - |out0|)
      ensures strm.taken + strm.nextIn == old(strm.taken + strm.nextIn)
      ensures store == old(store) || (store != null && fresh(store) && fresh(store.Repr()))
      ensures code == OK ==> Valid() && (parse.Output? || !Stopped(parse)) && Leads(tab, s, out, Snap())
      ensures done && code == OK ==> strm.availOut == 0 || Starving()
      ensures !done ==> code == OK && |reader.Unread()| < |old(reader.Unread())|
      ensures code == STREAM_END ==> Valid() && parse.Idle?
      ensures Final(tab, smallDecompress, s, code, out, lost) && code != SEQUENCE_ERROR && |lost| <= strm.availOut
    {
      hide Valid, Leads, Final, Snap, BitReader.Unread;
      out, lost := out0, [];
      ValidFacts();
      if save.Output? {
        var phase;
        phase, out, lost := WriteBlock(s, out0);
        match phase
        case Broken =>
          return true, DATA_ERROR, out, lost;
        case Full =>
          NotFinal(tab, smallDecompress, s, OK, out);
          return true, OK, out, [];
        case Complete =>
          ValidFacts();
      }
      lost := [];
      code := ReadIn(s, out);
      ValidFacts();
      done := code != OK || !save.Output?;
    }

    /** The loop of BZ2_bzDecompress. */
    method Turns() returns (code: Code, ghost out: seq<byte>, ghost lost: seq<byte>)
      requires Valid() && (parse.Output? || !Stopped(parse))
      modifies this, reader, strm, if store == null then {} else store.Repr()
      ensures strm.Valid() && strm.nextOut == old(strm.nextOut) + out
          && strm.taken + strm.nextIn == old(strm.taken + strm.nextIn)
      ensures store == old(store) || (store != null && fresh(store) && fresh(store.Repr()))
      ensures code == OK ==> Valid() && (parse.Output? || !Stopped(parse)) && Leads(tab, old(Snap()), out, Snap())
      ensures code == OK ==> strm.availOut == 0 || Starving()
      ensures strm.availOut == old(strm.availOut) - |out|
      ensures code == STREAM_END ==> Valid() && parse.Idle?
      ensures Final(tab, smallDecompress, old(Snap()), code, out, lost) && code != SEQUENCE_ERROR
          && |lost| <= strm.availOut
    {
      hide Valid, Leads, Final, Snap, BitReader.Unread;
      out, lost := [], [];
      ghost var s, sent := Snap(), strm.nextOut;
      ValidFacts();
      LeadsNowhere(tab, s);
      while true
        invariant Valid() && (parse.Output? || !Stopped(parse)) && Leads(tab, s, out, Snap())
        invariant strm.nextOut == sent + out && strm.availOut == old(strm.availOut) - |out|
        invariant strm.taken + strm.nextIn == old(strm.taken + strm.nextIn)
        invariant store == old(store) || (store != null && fresh(store) && fresh(store.Repr()))
        decreases |reader.Unread()|
      {
        var done;
        ghost var before := out;
        done, code, out, lost := Turn(s, out);
        assert sent + before + out[|before|..] == sent + out;
        if done {
          return;
        }
      }
    }

    /** Main result: a call writes out and takes nothing from what is still to
        come; the codes tell the verdict for every continuation of the input.
        On DATA_ERROR the bytes lost may not have been written. A call returns OK
        only when the room is full or the input used up. Once the stream has
        ended every call fails and changes nothing. */
    method BzDecompress() returns (code: Code, ghost out: seq<byte>, ghost lost: seq<byte>)
      requires Valid() && !parse.Failed?
      modifies this, reader, strm, if store == null then {} else store.Repr()
      ensures strm.Valid() && strm.nextOut == old(strm.nextOut) + out
          && strm.taken + strm.nextIn == old(strm.taken + strm.nextIn)
      ensures store == old(store) || (store != null && fresh(store) && fresh(store.Repr()))
      ensures code == OK ==> Valid() && (parse.Output? || !Stopped(parse)) && Leads(tab, old(Snap()), out, Snap())
      ensures code == OK ==> strm.availOut == 0 || Starving()
      ensures strm.availOut == old(strm.availOut) - |out|
      ensures code == STREAM_END ==> Valid() && parse.Idle?
      ensures Final(tab, smallDecompress, old(Snap()), code, out, lost) && |lost| <= strm.availOut
      ensures code == SEQUENCE_ERROR <==> old(parse.Idle?)
      ensures code == SEQUENCE_ERROR ==> out == [] && unchanged(this, reader, strm)
    {
      hide Valid, Leads, Final, Snap;
      ValidFacts();
      if save.Idle? {
        NotFinal(tab, smallDecompress, Snap(), SEQUENCE_ERROR, []);
        return SEQUENCE_ERROR, [], [];
      }
      code, out, lost := Turns();
    }

    lemma Asking()
      requires Inner()
      ensures IsTable(tab) && calculatedBlockCRC < WORD
      ensures Need(save) == Need(parse) && (Stopped(save) <==> Stopped(parse))
      ensures !Stopped(parse) ==> 1 <= Need(parse) <= 20
      ensures save == Saved(parse) && ReturnCode(save) == ReturnCode(parse)
      ensures (save.Output? <==> parse.Output?) && (save.Idle? <==> parse.Idle?) && (save.Idle? ==> save == parse)
    {
      hide Sound, StoreMatches;
      if !Stopped(parse) {
        RequestSize(parse);
      }
    }

    lemma ValidFacts()
      requires Valid()
      ensures strm.Valid() && reader.strm == strm && Apart() && Proper(tab, Snap())
      ensures (save.Output? <==> parse.Output?) && (save.Idle? <==> parse.Idle?)
    {
      hide Inner, Snap;
      Asking();
      SnapProper();
    }
  }

  lemma RestIs(p: Parse, l: Locals, combined: nat, bits: seq<bool>)
    requires p.Output? && p.h.origPtr < |p.col| && 1 <= l.used
    ensures SnapOf(p, l, combined, bits).rem == Rest(Walk(p.col, p.h.origPtr), |p.col|, l)
  {
  }

  lemma NothingLeft(p: Parse, l: Locals, combined: nat, bits: seq<bool>)
    requires p.Output? && p.h.origPtr < |p.col| && l.used == |p.col| + 1 && l.len == 0
    ensures SnapOf(p, l, combined, bits).rem == [] && SnapOf(p, l, combined, bits).well
  {
  }

  lemma OutputIsSave(p: Parse)
    requires p.Output?
    ensures LevelOf(p) == p.h.level
  {
  }

  /** The return codes and the verdicts say the same. */
  lemma CodesAgree(p: Parse, combined: nat)
    ensures ReturnCode(p) == STREAM_END <==> p.Idle?
    ensures p.Idle? ==> VerdictOf(p, combined) == if p.crc == combined then End else Corrupt
    ensures ReturnCode(p) == DATA_ERROR ==> p.Failed? && VerdictOf(p, combined) == Corrupt
    ensures ReturnCode(p) == DATA_ERROR_MAGIC ==> p.Failed? && VerdictOf(p, combined) == NotBzip
    ensures ReturnCode(p) == OUTSIDE_MODEL ==> p.Failed? && VerdictOf(p, combined) == Unsupported
    ensures ReturnCode(p) == OK <==> !p.Idle? && !p.Failed?
    ensures ReturnCode(p) != SEQUENCE_ERROR
  {
  }

  lemma SoundOutput(p: Parse)
    requires Sound(p) && p.Output?
    ensures LevelOf(p) == p.h.level > 0 && Saved(p) == Output(p.h, [])
  {
  }

  lemma SymbolStates(p: Parse, x: nat)
    requires Sound(p)
    ensures p.SymbolStart? ==> InSymbol(p.b) && LevelOf(p) == p.b.h.level > 0 && Resume(p, x) == Decide(p.b.(zvec := x))
    ensures p.SymbolBit? ==>
        InSymbol(p.b) && LevelOf(p) == p.b.h.level > 0 && Resume(p, x) == Decide(p.b.(zvec := 2 * p.b.zvec + x))
    ensures var q := Saved(p);
            && (p.SymbolStart? <==> q.SymbolStart?) && (p.SymbolBit? <==> q.SymbolBit?)
            && (p.SymbolStart? || p.SymbolBit? ==> q.b == SavedBody(p.b))
  {
    hide Decide, MinLen, TablesOk, AllBelow;
  }

  lemma RunStep(p: Parse, bits: seq<bool>)
    requires !Stopped(p) && Need(p) > 0
    ensures |bits| >= Need(p) ==> Run(p, bits) == Run(Resume(p, Val(bits[..Need(p)])), bits[Need(p)..])
    ensures |bits| < Need(p) ==> Run(p, bits) == (p, bits)
  {
    hide Resume;
  }
}

