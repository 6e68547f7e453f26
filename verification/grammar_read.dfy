/** The machine reads whatever the format allows. */
module GrammarRead {
  import opened Words
  import opened Mtf
  import opened MtfEncoder
  import opened HuffmanCodes
  import opened DecoderMachine
  import opened BlockFormat
  import opened ParseBlock
  import opened ParseTables
  import opened BlockRoundTrip
  import opened Rle
  import opened Crc
  import opened StreamFuture
  import opened StreamGrammar

  // ---------- mapping ----------

  /** A marked row, from entry k on. */
  lemma {:induction false} RowRead(h: Header, marks: seq<bool>, inUse: seq<bool>, k: nat, m: nat, rest: seq<bool>)
    requires |marks| == 16 && |inUse| == 256 && k < m <= 256 && m % 16 == 0 && m < k + 17 && marks[k / 16]
    ensures Run(Mapping2(h, marks, inUse[..k]), inUse[k..m] + rest) == Run(SeekMapping(h, marks, inUse[..m]), rest)
    decreases m - k
  {
    hide Run, UsedBytes;
    RunBit(Mapping2(h, marks, inUse[..k]), inUse[k], inUse[k + 1..m] + rest);
    assert inUse[..k] + [inUse[k]] == inUse[..k + 1];
    assert inUse[k..m] + rest == [inUse[k]] + (inUse[k + 1..m] + rest);
    if k + 1 == m {
      assert inUse[m..m] + rest == rest;
    } else {
      assert (k + 1) / 16 == k / 16 && (k + 1) % 16 != 0;
      RowRead(h, marks, inUse, k + 1, m, rest);
    }
  }

  lemma {:induction false} RowsRead(h: Header, marks: seq<bool>, inUse: seq<bool>, i: nat, rest: seq<bool>)
    requires |marks| == 16 && |inUse| == 256 && i <= 16 && Marked(marks, inUse, i) && |UsedBytes(inUse, 256)| > 0
    ensures Run(SeekMapping(h, marks, inUse[..16 * i]), MarkedRows(marks, inUse, i) + rest)
         == Run(Selector1(h, inUse), rest)
    decreases 16 - i
  {
    hide Run, UsedBytes;
    var k, m := 16 * i, 16 * i + 16;
    if i == 16 {
      assert inUse[..k] == inUse && MarkedRows(marks, inUse, i) + rest == rest;
    } else {
      var tail := MarkedRows(marks, inUse, i + 1) + rest;
      if marks[i] {
        assert MarkedRows(marks, inUse, i) + rest == inUse[k..m] + tail;
        RowRead(h, marks, inUse, k, m, tail);
      } else {
        assert MarkedRows(marks, inUse, i) + rest == tail;
        SkippedRow(marks, inUse, i);
      }
      RowsRead(h, marks, inUse, i + 1, rest);
    }
  }

  lemma SkippedRow(marks: seq<bool>, inUse: seq<bool>, i: nat)
    requires |marks| == 16 && |inUse| == 256 && i < 16 && Marked(marks, inUse, i) && !marks[i]
    ensures inUse[..16 * i] + Repeat(false, 16) == inUse[..16 * i + 16]
  {
    forall c | 16 * i <= c < 16 * i + 16 ensures !inUse[c] {
      assert c / 16 == i;
    }
  }

  // ---------- coding tables ----------

  lemma {:induction false} StepsRead(f: Frame, row: seq<nat>, curr: nat, ups: seq<bool>, rest: seq<bool>)
    requires InRange(curr, ups)
    ensures 1 <= After(curr, ups) <= 20
    ensures Run(AtEntry(f, row, curr), StepsBits(ups) + rest) == Run(Entered(f, row, After(curr, ups)), rest)
    decreases |ups|
  {
    hide Run, AfterCoding2;
    AfterInRange(curr, ups);
    if ups == [] {
      hide Resume;
      RunBit(AtEntry(f, row, curr), false, rest);
      EnteredIs(f, row, curr);
    } else {
      var next := if ups[0] then curr + 1 else curr - 1;
      StepDelta(f, row, curr, ups[0], StepsBits(ups[1..]) + rest);
      assert StepsBits(ups) + rest == [true, !ups[0]] + (StepsBits(ups[1..]) + rest);
      StepsRead(f, row, next, ups[1..], rest);
    }
  }

  lemma {:induction false} AllStepsRead(f: Frame, row: seq<nat>, curr: nat, steps: seq<seq<bool>>, rest: seq<bool>)
    requires steps != [] && AllInRange(curr, steps) && |row| + |steps| == AlphaSize(f.inUse)
    ensures Run(AtEntry(f, row, curr), AllStepsBits(steps) + rest)
         == Run(TableDone(f, row + Lengths(curr, steps)), rest)
    decreases |steps|
  {
    hide Run, StepsBits, InRange, AllInRange, Lengths, After, StartSymbols, AlphaSize;
    var tail := AllStepsBits(steps[1..]) + rest;
    assert AllStepsBits(steps) + rest == StepsBits(steps[0]) + tail;
    LengthsNext(curr, steps);
    StepsRead(f, row, curr, steps[0], tail);
    var next := After(curr, steps[0]);
    if |steps| == 1 {
      assert |Lengths(next, steps[1..])| == 0;
      assert Lengths(curr, steps) == [next];
      assert tail == rest;
    } else {
      AllStepsRead(f, row + [next], next, steps[1..], rest);
      assert row + [next] + Lengths(next, steps[1..]) == row + Lengths(curr, steps);
    }
  }

  lemma LengthsNext(curr: int, steps: seq<seq<bool>>)
    requires steps != [] && AllInRange(curr, steps)
    ensures var next := After(curr, steps[0]);
            && InRange(curr, steps[0]) && AllInRange(next, steps[1..]) && 1 <= next <= 20
            && Lengths(curr, steps) == [next] + Lengths(next, steps[1..])
  {
    hide After, InRange;
    AfterInRange(curr, steps[0]);
  }

  lemma TableTextRead(f: Frame, t: TableText, rest: seq<bool>)
    requires TableTextOk(t, AlphaSize(f.inUse)) && AlphaSize(f.inUse) > 0
    ensures Run(AtTable(f), TableTextBits(t) + rest) == Run(TableDone(f, Lengths(t.start, t.steps)), rest)
  {
    hide Run, AllStepsBits, StartSymbols, AlphaSize;
    Pow2Values();
    RunField(AtTable(f), t.start, AllStepsBits(t.steps) + rest);
    assert TableTextBits(t) + rest == ToBits(t.start, 5) + (AllStepsBits(t.steps) + rest);
    assert InRange(t.start, t.steps[0]);
    AllStepsRead(f, [], t.start, t.steps, rest);
    assert [] + Lengths(t.start, t.steps) == Lengths(t.start, t.steps);
  }

  lemma TableLengthsNext(ts: seq<TableText>, alphaSize: nat)
    requires |ts| > 0 && TablesTextOk(ts, alphaSize)
    ensures TableLengths(ts, alphaSize)[1..] == TableLengths(ts[1..], alphaSize)
  {
    hide TableTextOk, Lengths;
  }

  lemma {:induction false} TablesTextRead(f: Frame, ts: seq<TableText>, rest: seq<bool>)
    requires |ts| > 0 && |f.lens| + |ts| == f.nGroups && TablesTextOk(ts, AlphaSize(f.inUse)) && AlphaSize(f.inUse) > 0
    ensures Run(AtTable(f), TablesTextBits(ts) + rest)
         == Run(StartSymbols(f.h, f.inUse, f.selector, f.lens + TableLengths(ts, AlphaSize(f.inUse))), rest)
    decreases |ts|
  {
    hide Run, TableTextBits, StartSymbols, AlphaSize, TableTextOk;
    var tail := TablesTextBits(ts[1..]) + rest;
    var all := TableLengths(ts, AlphaSize(f.inUse));
    assert TablesTextBits(ts) + rest == TableTextBits(ts[0]) + tail;
    TableTextRead(f, ts[0], tail);
    if |ts| == 1 {
      assert f.lens + [all[0]] == f.lens + all;
      assert tail == rest;
    } else {
      TablesTextRead(f.(lens := f.lens + [all[0]]), ts[1..], rest);
      TableLengthsNext(ts, AlphaSize(f.inUse));
      assert f.lens + [all[0]] + all[1..] == f.lens + all;
    }
  }

  // ---------- symbols ----------

  /** The rest of a code, when its first n bits have been read. */
  lemma {:induction false} CodeRest(b: Body, code: seq<bool>, n: nat, s: nat, rest: seq<bool>)
    requires CodeFor(Table(b), code, s) && MinLen(Table(b)) <= n <= |code|
    ensures Run(Decide(b.(zn := n, zvec := Val(code[..n]))), code[n..] + rest) == Run(GotSymbol(b, s), rest)
    decreases |code| - n
  {
    hide Run, GotSymbol, LookLens, MinLen, Val;
    var c := b.(zn := n, zvec := Val(code[..n]));
    assert Table(c) == Table(b);
    if n == |code| {
      assert code[..n] == code && code[n..] + rest == rest;
      SymbolForgetsCode(b, c, s);
    } else {
      var tail := code[n + 1..] + rest;
      assert code[n..] + rest == [code[n]] + tail;
      RunBit(SymbolBit(c.(zn := n + 1)), code[n], tail);
      ValNext(code, n);
      CodeRest(b, code, n + 1, s, rest);
    }
  }

  lemma OneCodeRead(b: Body, code: seq<bool>, s: nat, rest: seq<bool>)
    requires CodeFor(Table(b), code, s) && b.zn == MinLen(Table(b)) > 0
    ensures Run(SymbolStart(b), code + rest) == Run(GotSymbol(b, s), rest)
  {
    hide Run, GotSymbol, LookLens, MinLen, Val, Decide, ToBits;
    var n := b.zn;
    var x := Val(code[..n]);
    ValBound(code[..n]);
    ToBitsVal(code[..n]);
    assert code + rest == code[..n] + (code[n..] + rest);
    CodeHead(b, x, code[n..] + rest);
    assert b.(zvec := x) == b.(zn := n, zvec := x);
    CodeRest(b, code, n, s, rest);
  }

  /** All the symbols from number k on. */
  lemma {:induction false} CodesRead(b: Body, k: nat, codes: seq<seq<bool>>, syms: seq<nat>, rest: seq<bool>)
    requires Sequence(b, syms) && GroupAt(b, k) && Coded(b.lens, b.selector, k, codes, syms)
    requires forall t :: 0 <= t < |b.lens| ==> ValidLengths(b.lens[t])
    requires |FinalColumn(b, syms, 0)| <= BLOCK_UNIT * b.h.level
    ensures Run(BeginSymbol(b), Join(codes) + rest) == Run(FinishBlock(b.h, FinalColumn(b, syms, 0)), rest)
    decreases |syms|
  {
    hide Run, GotSymbol, FinishBlock, BeginSymbol, FinalColumn, CodeFor, MinLen, ValidLengths;
    var tail := Join(codes[1..]) + rest;
    assert Join(codes) + rest == codes[0] + tail;
    BeginAt(b, k);
    var c := Waiting(b, k);
    FirstCode(b, k, codes, syms);
    OneCodeRead(c, codes[0], syms[0], tail);
    WaitingColumn(b, k, syms);
    if |syms| == 1 {
      EndSymbol(c, syms, 0);
      assert tail == rest;
    } else {
      var d := NextBody(c, syms);
      CodedTail(b.lens, b.selector, k, codes, syms);
      CodesRead(d, k + 1, codes[1..], syms[1..], rest);
    }
  }

  /** The body after one symbol of several. */
  lemma NextBody(c: Body, syms: seq<nat>) returns (d: Body)
    requires Sequence(c, syms) && |syms| > 1 && |FinalColumn(c, syms, 0)| <= BLOCK_UNIT * c.h.level
    ensures GotSymbol(c, syms[0]) == BeginSymbol(d) && Sequence(d, syms[1..])
    ensures FinalColumn(d, syms[1..], 0) == FinalColumn(c, syms, 0)
    ensures d.h == c.h && d.lens == c.lens && d.selector == c.selector
    ensures d.groupNo == c.groupNo && d.groupPos == c.groupPos
  {
    hide GotSymbol, BeginSymbol, FinalColumn, MoveToFront, RunFlushed, ByteOf;
    if syms[0] < 2 {
      d := c.(w := c.w + (syms[0] + 1) * c.n, n := 2 * c.n);
      RunSymbol(c, syms, 0);
    } else {
      d := Moved(c, syms[0]);
      MoveSymbol(c, syms, 0);
    }
    ColumnTail(d, syms);
  }

  lemma FirstCode(b: Body, k: nat, codes: seq<seq<bool>>, syms: seq<nat>)
    requires |syms| > 0 && Coded(b.lens, b.selector, k, codes, syms)
    requires forall t :: 0 <= t < |b.lens| ==> ValidLengths(b.lens[t])
    ensures k < BZ_G_SIZE * |b.selector| && CodeFor(Table(Waiting(b, k)), codes[0], syms[0])
    ensures Waiting(b, k).zn == MinLen(Table(Waiting(b, k))) > 0
  {
    hide CodeFor, MinLen;
    var lens := b.lens[b.selector[(k + 0) / 50]];
    MinMaxLen(lens);
    assert Table(Waiting(b, k)) == lens;
  }

  lemma WaitingColumn(b: Body, k: nat, syms: seq<nat>)
    requires Sequence(b, syms)
    ensures Sequence(Waiting(b, k), syms) && FinalColumn(Waiting(b, k), syms, 0) == FinalColumn(b, syms, 0)
  {
    hide Decode, MinLen;
  }

  lemma ColumnTail(d: Body, syms: seq<nat>)
    requires Sequence(d, syms) && |syms| > 1
    ensures Sequence(d, syms[1..]) && FinalColumn(d, syms[1..], 0) == FinalColumn(d, syms, 1)
  {
    hide Decode;
    assert syms[1..][0..|syms| - 2] == syms[1..|syms| - 1];
  }

  lemma CodedTail(lens: seq<seq<nat>>, selector: seq<nat>, k: nat, codes: seq<seq<bool>>, syms: seq<nat>)
    requires |syms| > 0 && Coded(lens, selector, k, codes, syms)
    ensures Coded(lens, selector, k + 1, codes[1..], syms[1..])
  {
    hide CodeFor;
    forall i | 0 <= i < |syms| - 1
      ensures CodeFor(lens[selector[(k + 1 + i) / 50]], codes[1..][i], syms[1..][i])
    {
      assert k + 1 + i == k + (i + 1);
    }
  }

  // ---------- blocks ----------

  function HeaderFor(t: BlockText, level: nat): Header {
    Header(level, t.crc, t.origPtr)
  }

  ghost function StartBody(t: BlockText, level: nat): Body
    requires HeadOk(t, level)
  {
    Body(HeaderFor(t, level), Alphabet(t), Selector(t), TableLengths(t.tables, |Alphabet(t)| + 2), -1, 0, 0, 0,
         Identity(256), [], 0, 1)
  }

  lemma SymbolsReadAll(t: BlockText, level: nat, rest: seq<bool>)
    requires BlockTextOk(t, level)
    ensures Run(StartSymbols(HeaderFor(t, level), t.inUse, Selector(t), TableLengths(t.tables, |Alphabet(t)| + 2)),
                Join(t.codes) + rest)
         == Run(FinishBlock(HeaderFor(t, level), BlockColumn(Alphabet(t), t.syms)), rest)
  {
    hide Run, FinishBlock, BeginSymbol, Decode, Selector, UsedBytes, Coded, Marked;
    var b := StartBody(t, level);
    assert Sequence(b, t.syms) && GroupAt(b, 0);
    assert t.syms[0..|t.syms| - 1] == t.syms[..|t.syms| - 1];
    assert FinalColumn(b, t.syms, 0) == BlockColumn(Alphabet(t), t.syms);
    CodesRead(b, 0, t.codes, t.syms, rest);
  }

  lemma BodyTextRead(t: BlockText, level: nat, rest: seq<bool>)
    requires BlockTextOk(t, level)
    ensures Run(Mapping1(HeaderFor(t, level), []),
                t.inUse16 + (MarkedRows(t.inUse16, t.inUse, 0) + (ToBits(|t.tables|, 3) + (ToBits(|t.selectorMtf|, 15)
                + (UnaryAll(t.selectorMtf) + (TablesTextBits(t.tables) + (Join(t.codes) + rest)))))))
         == Run(FinishBlock(HeaderFor(t, level), BlockColumn(Alphabet(t), t.syms)), rest)
  {
    hide Run, FinishBlock, StartSymbols, SeekMapping, UnaryAll, TablesTextBits, MarkedRows, ToBits, UsedBytes, Coded,
         BlockColumn, Marked, TablesTextOk, SymbolsOk, UndoSelectors, HeaderFor;
    var h, g, n := HeaderFor(t, level), |t.tables|, |t.selectorMtf|;
    var f5 := Join(t.codes) + rest;
    var f4 := TablesTextBits(t.tables) + f5;
    var f3 := UnaryAll(t.selectorMtf) + f4;
    var f2 := ToBits(g, 3) + (ToBits(n, 15) + f3);
    var f1 := MarkedRows(t.inUse16, t.inUse, 0) + f2;
    Mapping1Read(h, t.inUse16, 0, f1);
    assert t.inUse16[..0] == [] && t.inUse16[0..] == t.inUse16 && t.inUse[..16 * 0] == [];
    RowsRead(h, t.inUse16, t.inUse, 0, f2);
    SelectorCounts(h, t.inUse, g, n, f3);
    SelectorsRead(h, t.inUse, g, n, [], t.selectorMtf, f4);
    assert [] + t.selectorMtf == t.selectorMtf;
    var lens := TableLengths(t.tables, |Alphabet(t)| + 2);
    TablesTextRead(Frame(h, t.inUse, g, Selector(t), []), t.tables, f5);
    assert [] + lens == lens;
    SymbolsReadAll(t, level, rest);
  }

  /** The machine fed a block's bits stops with the block's last column. */
  lemma BlockTextRead(t: BlockText, level: nat, rest: seq<bool>)
    requires BlockTextOk(t, level)
    ensures Run(BlkHdr(level, 0), BlockTextBits(t) + rest)
         == (Output(HeaderFor(t, level), BlockColumn(Alphabet(t), t.syms)), rest)
  {
    hide Run, ByteFields, ToBits, Word32Bytes, UnaryAll, TablesTextBits, MarkedRows, Join, BlockColumn, Coded,
         SymbolsOk, Marked, TablesTextOk, UsedBytes;
    var tail := t.inUse16 + (MarkedRows(t.inUse16, t.inUse, 0) + (ToBits(|t.tables|, 3) + (ToBits(|t.selectorMtf|, 15)
        + (UnaryAll(t.selectorMtf) + (TablesTextBits(t.tables) + (Join(t.codes) + rest))))));
    var f3 := [false] + (ToBits(t.origPtr, 24) + tail);
    var f2 := ByteFields(Word32Bytes(t.crc)) + f3;
    assert BLOCK_MAGIC[0..] == BLOCK_MAGIC == BLOCK_START;
    assert BlockTextBits(t) + rest == ByteFields(BLOCK_START) + f2;
    BlockMagicRead(level, 0, f2);
    CrcRead(level, t.crc, f3);
    OrigPtrRead(level, t.crc, t.origPtr, tail);
    BodyTextRead(t, level, rest);
    StoppedThere(HeaderFor(t, level), BlockColumn(Alphabet(t), t.syms), rest);
  }

  lemma StoppedThere(h: Header, col: seq<byte>, rest: seq<bool>)
    requires h.origPtr < |col|
    ensures Run(FinishBlock(h, col), rest) == (Output(h, col), rest)
  {
  }

  // ---------- streams ----------

  /** One block of a stream. */
  lemma BlockTextFuture(tab: seq<nat>, t: BlockText, level: nat, combined: nat, rest: seq<bool>)
    requires IsTable(tab) && SoundBlock(tab, t, level) && combined < WORD
    ensures var f := Future(tab, BlkHdr(level, 0), Combine(combined, t.crc), rest);
            Future(tab, BlkHdr(level, 0), combined, BlockTextBits(t) + rest) == (BlockContent(t, level) + f.0, f.1)
  {
    hide Run, BlockTextBits, BlockColumn, Coded, Remaining, EndsWell, CrcOf, Combine, HeadOk, SymbolsOk;
    BlockTextRead(t, level, rest);
    BlockTextLong(t, level);
  }

  lemma BlockTextLong(t: BlockText, level: nat)
    requires BlockTextOk(t, level)
    ensures |BlockTextBits(t)| > 0
  {
    hide MarkedRows, Word32Bytes, UnaryAll, TablesTextBits, Join, Coded, Marked, TablesTextOk, SymbolsOk, BlockColumn;
    assert |t.inUse16| > 0;
  }

  lemma {:induction false} BlocksTextFuture(tab: seq<nat>, ts: seq<BlockText>, level: nat, combined: nat,
      rest: seq<bool>)
    requires IsTable(tab) && combined < WORD && SoundBlocks(tab, ts, level)
    ensures var f := Future(tab, BlkHdr(level, 0), BlocksCrc(tab, ts, level, combined), rest);
            Future(tab, BlkHdr(level, 0), combined, BlocksTextBits(tab, ts, level) + rest)
              == (BlocksContent(tab, ts, level) + f.0, f.1)
    decreases |ts|
  {
    hide Future, BlockTextBits, BlockContent, Combine, Coded, Marked, TablesTextOk, SymbolsOk, BlockColumn, EndsWell,
         UsedBytes;
    if ts == [] {
      assert BlocksTextBits(tab, ts, level) + rest == rest;
      var f := Future(tab, BlkHdr(level, 0), combined, rest);
      assert BlocksContent(tab, ts, level) + f.0 == f.0;
    } else {
      var more := BlocksTextBits(tab, ts[1..], level) + rest;
      assert BlocksTextBits(tab, ts, level) + rest == BlockTextBits(ts[0]) + more;
      BlockTextFuture(tab, ts[0], level, combined, more);
      BlocksTextFuture(tab, ts[1..], level, Combine(combined, ts[0].crc), rest);
      var f := Future(tab, BlkHdr(level, 0), BlocksCrc(tab, ts, level, combined), rest);
      ConcatAssociates(BlockContent(ts[0], level), BlocksContent(tab, ts[1..], level), f.0);
    }
  }

  lemma ConcatAssociates(a: seq<byte>, b: seq<byte>, c: seq<byte>)
    ensures a + (b + c) == (a + b) + c
  {
  }

  /** Main result, one direction: every stream of the format is decoded. */
  lemma StreamRead(tab: seq<nat>, ts: seq<BlockText>, level: nat, pad: seq<bool>)
    requires IsTable(tab) && 1 <= level <= 9 && SoundBlocks(tab, ts, level)
    ensures Future(tab, Magic(0), 0, StreamBits(tab, ts, level) + pad) == (BlocksContent(tab, ts, level), End)
  {
    hide Run, BlocksTextBits, EndBits, SoundBlocks, ByteFields;
    var trailer := EndBits(BlocksCrc(tab, ts, level, 0)) + pad;
    var rest := BlocksTextBits(tab, ts, level) + trailer;
    assert STREAM_START == MAGIC;
    assert StreamBits(tab, ts, level) + pad == HeaderBits(level) + rest;
    HeaderRead(level, rest);
    RunSame(tab, Magic(0), BlkHdr(level, 0), 0, HeaderBits(level) + rest, rest);
    BlocksTextFuture(tab, ts, level, 0, trailer);
    EndRead(tab, level, BlocksCrc(tab, ts, level, 0), pad);
    assert BlocksContent(tab, ts, level) + [] == BlocksContent(tab, ts, level);
  }

  lemma EndRead(tab: seq<nat>, level: nat, combined: nat, pad: seq<bool>)
    requires IsTable(tab) && combined < WORD
    ensures Future(tab, BlkHdr(level, 0), combined, EndBits(combined) + pad) == ([], End)
  {
    hide Future;
    assert STREAM_END == END_MAGIC;
    assert EndBits(combined) == TrailerBits(combined);
    TrailerFuture(tab, level, combined, pad);
  }
}
