/** Whatever leads the machine to the end of a block or of the stream has the
    form that the format gives it. */
module GrammarFound {
  import opened Words
  import opened Mtf
  import opened MtfEncoder
  import opened HuffmanCodes
  import opened DecoderMachine
  import opened MachineInvariant
  import opened BlockFormat
  import opened ParseBlock
  import opened ParseTables
  import opened BlockRoundTrip
  import opened StreamGrammar
  import opened GrammarRead

  /** The bits take the machine to the end of a block or of the stream. */
  ghost predicate Ends(p: Parse, bits: seq<bool>) {
    Run(p, bits).0.Output? || Run(p, bits).0.Idle?
  }

  lemma FailedNever(e: Error, bits: seq<bool>)
    ensures !Ends(Failed(e), bits)
  {
  }

  /** There were enough bits for the request. */
  lemma Asked(p: Parse, bits: seq<bool>) returns (x: nat, rest: seq<bool>)
    requires !Stopped(p) && Need(p) > 0 && Ends(p, bits)
    ensures x < Pow2(Need(p)) && bits == ToBits(x, Need(p)) + rest
    ensures Run(p, bits) == Run(Resume(p, x), rest) && Ends(Resume(p, x), rest)
  {
    hide Resume, Val, Pow2, ToBits;
    var n := Need(p);
    assert |bits| >= n;
    x, rest := Val(bits[..n]), bits[n..];
    ValBound(bits[..n]);
    ToBitsVal(bits[..n]);
  }

  lemma AskedByte(p: Parse, bits: seq<bool>) returns (x: nat, rest: seq<bool>)
    requires !Stopped(p) && Need(p) == 8 && Ends(p, bits)
    ensures x < 256 && bits == ToBits(x, 8) + rest
    ensures Run(p, bits) == Run(Resume(p, x), rest) && Ends(Resume(p, x), rest)
  {
    hide Resume, Run, Ends;
    Pow2Values();
    x, rest := Asked(p, bits);
  }

  lemma AskedBit(p: Parse, bits: seq<bool>) returns (x: bool, rest: seq<bool>)
    requires !Stopped(p) && Need(p) == 1 && Ends(p, bits)
    ensures bits == [x] + rest
    ensures Run(p, bits) == Run(Resume(p, if x then 1 else 0), rest) && Ends(Resume(p, if x then 1 else 0), rest)
  {
    hide Resume, Run, Ends;
    Pow2Values();
    var v;
    v, rest := Asked(p, bits);
    assert v == 0 || v == 1;
    x := v == 1;
    assert ToBits(v, 1) == [x] by {
      assert ToBits(v / 2, 0) == [];
    }
  }

  // ---------- headers ----------

  lemma FourFields(a: nat, b: nat, c: nat, d: nat, rest: seq<bool>)
    ensures ByteFields([a, b, c, d]) + rest == ToBits(a, 8) + (ToBits(b, 8) + (ToBits(c, 8) + (ToBits(d, 8) + rest)))
  {
    hide ToBits, ByteFields;
    FieldsCons(a, [b, c, d], rest);
    assert [a] + [b, c, d] == [a, b, c, d];
    ThreeFields(b, c, d, rest);
  }

  lemma MagicFound(bits: seq<bool>) returns (level: nat, rest: seq<bool>)
    requires Ends(Magic(0), bits)
    ensures 1 <= level <= 9 && bits == ByteFields(STREAM_START + [0x30 + level]) + rest
    ensures Run(Magic(0), bits) == Run(BlkHdr(level, 0), rest) && Ends(BlkHdr(level, 0), rest)
  {
    hide Run, Ends, ToBits, ByteFields;
    var r1, r2, r3, a, b, c, d;
    a, r1 := AskedByte(Magic(0), bits);
    FailedNever(BadMagic, r1);
    b, r2 := AskedByte(Magic(1), r1);
    FailedNever(BadMagic, r2);
    c, r3 := AskedByte(Magic(2), r2);
    FailedNever(BadMagic, r3);
    d, rest := AskedByte(Magic(3), r3);
    FailedNever(BadMagic, rest);
    level := d - 0x30;
    assert STREAM_START + [0x30 + level] == [a, b, c, d];
    FourFields(a, b, c, d, rest);
  }

  /** The bytes of a block's magic from number k on. */
  lemma {:induction false} BlockMagicFound(level: nat, k: nat, bits: seq<bool>) returns (rest: seq<bool>)
    requires 1 <= k < 6 && Ends(BlkHdr(level, k), bits)
    ensures bits == ByteFields(BLOCK_START[k..]) + rest
    ensures Run(BlkHdr(level, k), bits) == Run(BCrc(level, 0, 0), rest) && Ends(BCrc(level, 0, 0), rest)
    decreases 6 - k
  {
    hide Run, Ends, ToBits, ByteFields;
    var x, r := AskedByte(BlkHdr(level, k), bits);
    FailedNever(BadData, r);
    if k == 5 {
      rest := r;
      NoFields(rest);
    } else {
      rest := BlockMagicFound(level, k + 1, r);
    }
    FieldsCons(x, BLOCK_START[k + 1..], rest);
    assert [x] + BLOCK_START[k + 1..] == BLOCK_START[k..];
  }

  lemma {:induction false} EndMagicFound(level: nat, k: nat, bits: seq<bool>) returns (rest: seq<bool>)
    requires 1 <= k < 6 && Ends(EndHdr(level, k), bits)
    ensures bits == ByteFields(STREAM_END[k..]) + rest
    ensures Run(EndHdr(level, k), bits) == Run(CCrc(level, 0, 0), rest) && Ends(CCrc(level, 0, 0), rest)
    decreases 6 - k
  {
    hide Run, Ends, ToBits, ByteFields;
    var x, r := AskedByte(EndHdr(level, k), bits);
    FailedNever(BadData, r);
    if k == 5 {
      rest := r;
      NoFields(rest);
    } else {
      rest := EndMagicFound(level, k + 1, r);
    }
    FieldsCons(x, STREAM_END[k + 1..], rest);
    assert [x] + STREAM_END[k + 1..] == STREAM_END[k..];
  }

  /** After a block, or at the start: another block or the trailer. */
  lemma SectionFound(level: nat, bits: seq<bool>) returns (isEnd: bool, rest: seq<bool>)
    requires Ends(BlkHdr(level, 0), bits)
    ensures bits == ByteFields(if isEnd then STREAM_END else BLOCK_START) + rest
    ensures var q := if isEnd then CCrc(level, 0, 0) else BCrc(level, 0, 0);
            Run(BlkHdr(level, 0), bits) == Run(q, rest) && Ends(q, rest)
  {
    hide Run, Ends, ToBits, ByteFields;
    var x, r := AskedByte(BlkHdr(level, 0), bits);
    FailedNever(BadData, r);
    isEnd := x == 0x17;
    if isEnd {
      rest := EndMagicFound(level, 1, r);
    } else {
      rest := BlockMagicFound(level, 1, r);
    }
    var m := if isEnd then STREAM_END else BLOCK_START;
    FieldsCons(x, m[1..], rest);
    assert [x] + m[1..] == m;
  }

  /** Four bytes are the bytes of the word they make. */
  lemma WordFound(a: nat, b: nat, c: nat, d: nat) returns (u: nat)
    requires a < 256 && b < 256 && c < 256 && d < 256
    ensures u < WORD && Shift8(Shift8(Shift8(Shift8(0, a), b), c), d) == u && Word32Bytes(u) == [a, b, c, d]
  {
    hide Shift8;
    var p, q := a * 256 + b, (a * 256 + b) * 256 + c;
    u := q * 256 + d;
    ShiftFits(0, a);
    ShiftFits(a, b);
    ShiftFits(p, c);
    ShiftFits(q, d);
    DivModUnique(u, 256, q, d);
    DivModUnique(u, 0x1_0000, p, c * 256 + d);
    DivModUnique(u, 0x100_0000, a, (b * 256 + c) * 256 + d);
    DivModUnique(p, 256, a, b);
    DivModUnique(q, 256, p, c);
  }

  lemma ShiftFits(x: nat, c: nat)
    requires x < 0x100_0000 && c < 256
    ensures Shift8(x, c) == x * 256 + c
  {
  }

  lemma CrcFound(level: nat, bits: seq<bool>) returns (crc: nat, rest: seq<bool>)
    requires Ends(BCrc(level, 0, 0), bits)
    ensures crc < WORD && bits == ByteFields(Word32Bytes(crc)) + rest
    ensures Run(BCrc(level, 0, 0), bits) == Run(RandBit(level, crc), rest) && Ends(RandBit(level, crc), rest)
  {
    hide Run, Ends, ToBits, ByteFields, Shift8, Word32Bytes;
    var r1, r2, r3, a, b, c, d;
    a, r1 := AskedByte(BCrc(level, 0, 0), bits);
    b, r2 := AskedByte(BCrc(level, 1, Shift8(0, a)), r1);
    c, r3 := AskedByte(BCrc(level, 2, Shift8(Shift8(0, a), b)), r2);
    d, rest := AskedByte(BCrc(level, 3, Shift8(Shift8(Shift8(0, a), b), c)), r3);
    crc := WordFound(a, b, c, d);
    FourFields(a, b, c, d, rest);
  }

  lemma CombinedFound(level: nat, bits: seq<bool>) returns (crc: nat, rest: seq<bool>)
    requires Ends(CCrc(level, 0, 0), bits)
    ensures crc < WORD && bits == ByteFields(Word32Bytes(crc)) + rest
    ensures Run(CCrc(level, 0, 0), bits) == (Idle(crc), rest)
  {
    hide Run, Ends, ToBits, ByteFields, Shift8, Word32Bytes;
    var r1, r2, r3, a, b, c, d;
    a, r1 := AskedByte(CCrc(level, 0, 0), bits);
    b, r2 := AskedByte(CCrc(level, 1, Shift8(0, a)), r1);
    c, r3 := AskedByte(CCrc(level, 2, Shift8(Shift8(0, a), b)), r2);
    d, rest := AskedByte(CCrc(level, 3, Shift8(Shift8(Shift8(0, a), b), c)), r3);
    crc := WordFound(a, b, c, d);
    FourFields(a, b, c, d, rest);
    NoMoreAsked(Idle(crc), rest);
  }

  lemma NoMoreAsked(p: Parse, bits: seq<bool>)
    requires Stopped(p)
    ensures Run(p, bits) == (p, bits)
  {
  }

  lemma OrigPtrFound(level: nat, crc: nat, bits: seq<bool>) returns (ptr: nat, rest: seq<bool>)
    requires Ends(RandBit(level, crc), bits)
    ensures ptr <= 10 + 100000 * level && bits == [false] + (ToBits(ptr, 24) + rest)
    ensures Run(RandBit(level, crc), bits) == Run(Mapping1(Header(level, crc, ptr), []), rest)
    ensures Ends(Mapping1(Header(level, crc, ptr), []), rest)
  {
    hide Run, Ends, ToBits, ByteFields;
    var x, r1, r2, r3, a, b, c;
    x, r1 := AskedBit(RandBit(level, crc), bits);
    FailedNever(Legacy, r1);
    a, r2 := AskedByte(OrigPtr(level, crc, 0, 0), r1);
    b, r3 := AskedByte(OrigPtr(level, crc, 1, a), r2);
    c, rest := AskedByte(OrigPtr(level, crc, 2, a * 256 + b), r3);
    FailedNever(BadData, rest);
    ptr := (a * 256 + b) * 256 + c;
    assert ptr / 256 == a * 256 + b && ptr / 0x1_0000 == a && ptr / 256 % 256 == b && ptr % 256 == c;
    Field24(ptr);
    ThreeFields(a, b, c, rest);
  }

  // ---------- mapping ----------

  lemma {:induction false} MarksFound(h: Header, got: seq<bool>, bits: seq<bool>)
      returns (marks: seq<bool>, rest: seq<bool>)
    requires |got| < 16 && Ends(Mapping1(h, got), bits)
    ensures |marks| == 16 && marks[..|got|] == got && bits == marks[|got|..] + rest
    ensures Run(Mapping1(h, got), bits) == Run(SeekMapping(h, marks, []), rest) && Ends(SeekMapping(h, marks, []), rest)
    decreases 16 - |got|
  {
    hide Run, Ends, SeekMapping;
    var x, r := AskedBit(Mapping1(h, got), bits);
    if |got| < 15 {
      marks, rest := MarksFound(h, got + [x], r);
      assert marks[|got|] == (got + [x])[|got|];
    } else {
      marks, rest := got + [x], r;
    }
    assert marks[|got|..] == [x] + marks[|got| + 1..];
  }

  /** A marked row, of which all but the last n entries are known. */
  lemma {:induction false} RowFound(h: Header, marks: seq<bool>, got: seq<bool>, n: nat, bits: seq<bool>)
      returns (row: seq<bool>, rest: seq<bool>)
    requires |marks| == 16 && 1 <= n <= 16 && |got| + n <= 256 && (|got| + n) % 16 == 0 && marks[|got| / 16]
    requires Ends(Mapping2(h, marks, got), bits)
    ensures |row| == n && bits == row + rest
    ensures Run(Mapping2(h, marks, got), bits) == Run(SeekMapping(h, marks, got + row), rest)
    ensures Ends(SeekMapping(h, marks, got + row), rest)
    decreases n
  {
    hide Run, Ends, SeekMapping;
    var x, r := AskedBit(Mapping2(h, marks, got), bits);
    if n == 1 {
      row, rest := [x], r;
    } else {
      InsideRow(h, marks, got + [x], n - 1);
      row, rest := RowFound(h, marks, got + [x], n - 1, r);
      assert got + [x] + row == got + ([x] + row);
      assert [x] + row + rest == [x] + (row + rest);
      row := [x] + row;
    }
  }

  lemma InsideRow(h: Header, marks: seq<bool>, got: seq<bool>, n: nat)
    requires 1 <= n < 16 && |got| + n <= 256 && (|got| + n) % 16 == 0
    ensures SeekMapping(h, marks, got) == Mapping2(h, marks, got) && |got| / 16 == (|got| - 1) / 16
  {
  }

  lemma {:induction false} RowsFound(h: Header, marks: seq<bool>, got: seq<bool>, i: nat, bits: seq<bool>)
      returns (inUse: seq<bool>, rest: seq<bool>)
    requires |marks| == 16 && i <= 16 && |got| == 16 * i && Ends(SeekMapping(h, marks, got), bits)
    ensures |inUse| == 256 && inUse[..16 * i] == got && Marked(marks, inUse, i) && |UsedBytes(inUse, 256)| > 0
    ensures bits == MarkedRows(marks, inUse, i) + rest
    ensures Run(SeekMapping(h, marks, got), bits) == Run(Selector1(h, inUse), rest) && Ends(Selector1(h, inUse), rest)
    decreases 16 - i
  {
    hide Run, Ends, UsedBytes;
    if i == 16 {
      FailedNever(BadData, bits);
      inUse, rest := got, bits;
      assert MarkedRows(marks, inUse, i) + rest == rest;
    } else {
      var row, r := Repeat(false, 16), bits;
      if marks[i] {
        row, r := RowFound(h, marks, got, 16, bits);
      }
      inUse, rest := RowsFound(h, marks, got + row, i + 1, r);
      RowIs(marks, inUse, got, row, i, rest);
    }
  }

  lemma RowIs(marks: seq<bool>, inUse: seq<bool>, got: seq<bool>, row: seq<bool>, i: nat, rest: seq<bool>)
    requires |marks| == 16 && i < 16 && |inUse| == 256 && |got| == 16 * i && |row| == 16
    requires inUse[..16 * (i + 1)] == got + row && Marked(marks, inUse, i + 1)
    requires !marks[i] ==> row == Repeat(false, 16)
    ensures inUse[..16 * i] == got && Marked(marks, inUse, i)
    ensures MarkedRows(marks, inUse, i) + rest
         == (if marks[i] then row else []) + (MarkedRows(marks, inUse, i + 1) + rest)
  {
    assert inUse[..16 * i] == inUse[..16 * (i + 1)][..16 * i];
    assert inUse[16 * i..16 * i + 16] == inUse[..16 * (i + 1)][16 * i..] == row;
    forall c | 16 * i <= c < 256 && inUse[c] ensures marks[c / 16] {
      if c < 16 * i + 16 {
        assert c / 16 == i && row[c - 16 * i] == inUse[c];
      }
    }
  }

  // ---------- selectors ----------

  lemma {:induction false} UnaryFound(h: Header, inUse: seq<bool>, nGroups: nat, nSelectors: nat, s: seq<nat>,
                                      j0: nat, bits: seq<bool>)
      returns (j: nat, rest: seq<bool>)
    requires j0 < nGroups && Ends(Selector3(h, inUse, nGroups, nSelectors, s, j0), bits)
    ensures j0 + j < nGroups && bits == Unary(j) + rest
    ensures Run(Selector3(h, inUse, nGroups, nSelectors, s, j0), bits)
         == Run(AfterSelector3(h, inUse, nGroups, nSelectors, s, j0 + j, 0), rest)
    ensures Ends(AfterSelector3(h, inUse, nGroups, nSelectors, s, j0 + j, 0), rest)
    decreases nGroups - j0
  {
    hide Run, Ends, UndoSelectors;
    var x, r := AskedBit(Selector3(h, inUse, nGroups, nSelectors, s, j0), bits);
    if x {
      FailedNever(BadData, r);
      j, rest := UnaryFound(h, inUse, nGroups, nSelectors, s, j0 + 1, r);
      assert Unary(j + 1) + rest == [true] + (Unary(j) + rest);
      j := j + 1;
    } else {
      j, rest := 0, r;
    }
  }

  lemma {:induction false} SelectorsFound(h: Header, inUse: seq<bool>, nGroups: nat, nSelectors: nat, s: seq<nat>,
                                          bits: seq<bool>)
      returns (t: seq<nat>, rest: seq<bool>)
    requires |s| < nSelectors && 0 < nGroups && Ends(Selector3(h, inUse, nGroups, nSelectors, s, 0), bits)
    ensures |s| + |t| == nSelectors <= 18002 && forall i :: 0 <= i < |t| ==> t[i] < nGroups
    ensures bits == UnaryAll(t) + rest
    ensures var q := Coding1(h, inUse, nGroups, UndoSelectors(Identity(nGroups), s + t), []);
            Run(Selector3(h, inUse, nGroups, nSelectors, s, 0), bits) == Run(q, rest) && Ends(q, rest)
    decreases nSelectors - |s|
  {
    hide Run, Ends, UndoSelectors, Unary;
    var j, r := UnaryFound(h, inUse, nGroups, nSelectors, s, 0, bits);
    FailedNever(Undefined, r);
    if |s| + 1 >= nSelectors {
      t, rest := [j], r;
      assert UnaryAll(t) + rest == Unary(j) + r;
    } else {
      t, rest := SelectorsFound(h, inUse, nGroups, nSelectors, s + [j], r);
      assert s + [j] + t == s + ([j] + t);
      assert ([j] + t)[1..] == t;
      assert UnaryAll([j] + t) + rest == Unary(j) + (UnaryAll(t) + rest);
      t := [j] + t;
    }
  }

  lemma CountsFound(h: Header, inUse: seq<bool>, bits: seq<bool>) returns (g: nat, n: nat, rest: seq<bool>)
    requires Ends(Selector1(h, inUse), bits)
    ensures 2 <= g <= 6 && 1 <= n && bits == ToBits(g, 3) + (ToBits(n, 15) + rest)
    ensures Run(Selector1(h, inUse), bits) == Run(Selector3(h, inUse, g, n, [], 0), rest)
    ensures Ends(Selector3(h, inUse, g, n, [], 0), rest)
  {
    hide Run, Ends, ToBits;
    var r;
    g, r := Asked(Selector1(h, inUse), bits);
    FailedNever(BadData, r);
    n, rest := Asked(Selector2(h, inUse, g), r);
    FailedNever(BadData, rest);
  }

  // ---------- coding tables ----------

  /** The machine is asked to go on from a length just reached. */
  function Checked(f: Frame, row: seq<nat>, curr: int): Parse {
    CheckCurr(f.h, f.inUse, f.nGroups, f.selector, f.lens, row, curr)
  }

  lemma {:induction false} StepsFound(f: Frame, row: seq<nat>, curr: int, bits: seq<bool>)
      returns (ups: seq<bool>, rest: seq<bool>)
    requires Ends(Checked(f, row, curr), bits)
    ensures InRange(curr, ups) && 1 <= After(curr, ups) <= 20 && bits == StepsBits(ups) + rest
    ensures Run(Checked(f, row, curr), bits) == Run(Entered(f, row, After(curr, ups)), rest)
    ensures Ends(Entered(f, row, After(curr, ups)), rest)
    decreases |bits|
  {
    hide Run, Ends, AfterCoding2;
    FailedNever(BadData, bits);
    var x, r := AskedBit(AtEntry(f, row, curr), bits);
    if x {
      assert Resume(AtEntry(f, row, curr), 1) == AtDown(f, row, curr) by { StepAsked(f, row, curr); }
      var down, r2 := AskedBit(AtDown(f, row, curr), r);
      var next := if down then curr - 1 else curr + 1;
      ups, rest := StepsFound(f, row, next, r2);
      assert ([!down] + ups)[1..] == ups;
      assert StepsBits([!down] + ups) + rest == [true] + ([down] + (StepsBits(ups) + rest));
      ups := [!down] + ups;
    } else {
      EnteredIs(f, row, curr);
      ups, rest := [], r;
    }
  }

  lemma StepAsked(f: Frame, row: seq<nat>, curr: nat)
    ensures Resume(AtEntry(f, row, curr), 1) == AtDown(f, row, curr)
  {
  }

  lemma {:induction false} AllStepsFound(f: Frame, row: seq<nat>, curr: int, bits: seq<bool>)
      returns (steps: seq<seq<bool>>, rest: seq<bool>)
    requires |row| < AlphaSize(f.inUse) && Ends(Checked(f, row, curr), bits)
    ensures |row| + |steps| == AlphaSize(f.inUse) && AllInRange(curr, steps) && bits == AllStepsBits(steps) + rest
    ensures Run(Checked(f, row, curr), bits) == Run(TableDone(f, row + Lengths(curr, steps)), rest)
    ensures Ends(TableDone(f, row + Lengths(curr, steps)), rest)
    decreases AlphaSize(f.inUse) - |row|
  {
    hide Run, Ends, StepsBits, InRange, CheckCurr, StartSymbols, AlphaSize;
    var ups, r := StepsFound(f, row, curr, bits);
    var next := After(curr, ups);
    if |row| + 1 < AlphaSize(f.inUse) {
      steps, rest := AllStepsFound(f, row + [next], next, r);
      assert row + [next] + Lengths(next, steps) == row + ([next] + Lengths(next, steps));
    } else {
      steps, rest := [], r;
      assert row + [next] == row + ([next] + Lengths(next, steps));
      assert AllStepsBits(steps) + rest == rest;
    }
    StepsCons(curr, ups, steps, rest);
    steps := [ups] + steps;
  }

  lemma StepsCons(curr: int, ups: seq<bool>, steps: seq<seq<bool>>, rest: seq<bool>)
    requires InRange(curr, ups) && AllInRange(After(curr, ups), steps) && 1 <= After(curr, ups) <= 20
    ensures AllInRange(curr, [ups] + steps)
    ensures Lengths(curr, [ups] + steps) == [After(curr, ups)] + Lengths(After(curr, ups), steps)
    ensures AllStepsBits([ups] + steps) + rest == StepsBits(ups) + (AllStepsBits(steps) + rest)
  {
    hide StepsBits, InRange, After;
    assert ([ups] + steps)[1..] == steps;
  }

  lemma TableTextFound(f: Frame, bits: seq<bool>) returns (t: TableText, rest: seq<bool>)
    requires 0 < AlphaSize(f.inUse) && Ends(AtTable(f), bits)
    ensures TableTextOk(t, AlphaSize(f.inUse)) && AllInRange(t.start, t.steps) && bits == TableTextBits(t) + rest
    ensures Run(AtTable(f), bits) == Run(TableDone(f, Lengths(t.start, t.steps)), rest)
    ensures Ends(TableDone(f, Lengths(t.start, t.steps)), rest)
  {
    hide Run, Ends, AllStepsBits, StartSymbols, AlphaSize, AllInRange, ToBits, Lengths;
    Pow2Values();
    var x, r := Asked(AtTable(f), bits);
    var steps;
    steps, rest := AllStepsFound(f, [], x, r);
    t := TableText(x, steps);
    assert [] + Lengths(x, steps) == Lengths(x, steps);
    assert TableTextBits(t) + rest == ToBits(x, 5) + (AllStepsBits(steps) + rest);
  }

  lemma {:induction false} TablesTextFound(f: Frame, bits: seq<bool>) returns (ts: seq<TableText>, rest: seq<bool>)
    requires |f.lens| < f.nGroups && 0 < AlphaSize(f.inUse) && Ends(AtTable(f), bits)
    ensures |f.lens| + |ts| == f.nGroups && TablesTextOk(ts, AlphaSize(f.inUse)) && bits == TablesTextBits(ts) + rest
    ensures var q := StartSymbols(f.h, f.inUse, f.selector, f.lens + TableLengths(ts, AlphaSize(f.inUse)));
            Run(AtTable(f), bits) == Run(q, rest) && Ends(q, rest)
    decreases f.nGroups - |f.lens|
  {
    hide Run, Ends, TableTextBits, TablesTextBits, StartSymbols, AlphaSize, TableTextOk, TablesTextOk, TableLengths,
         Lengths;
    var t, r := TableTextFound(f, bits);
    var row := Lengths(t.start, t.steps);
    if |f.lens| + 1 < f.nGroups {
      ts, rest := TablesTextFound(f.(lens := f.lens + [row]), r);
    } else {
      ts, rest := [], r;
      NoTables(AlphaSize(f.inUse), f.lens + [row], rest);
    }
    TablesCons(t, ts, AlphaSize(f.inUse), rest);
    assert f.lens + [row] + TableLengths(ts, AlphaSize(f.inUse))
        == f.lens + ([row] + TableLengths(ts, AlphaSize(f.inUse)));
    ts := [t] + ts;
  }

  lemma NoTables(alphaSize: nat, lens: seq<seq<nat>>, rest: seq<bool>)
    ensures TablesTextOk([], alphaSize) && lens + TableLengths([], alphaSize) == lens
    ensures TablesTextBits([]) + rest == rest
  {
  }

  lemma TablesCons(t: TableText, ts: seq<TableText>, alphaSize: nat, rest: seq<bool>)
    requires TableTextOk(t, alphaSize) && AllInRange(t.start, t.steps) && TablesTextOk(ts, alphaSize)
    ensures TablesTextOk([t] + ts, alphaSize)
    ensures TableLengths([t] + ts, alphaSize) == [Lengths(t.start, t.steps)] + TableLengths(ts, alphaSize)
    ensures TablesTextBits([t] + ts) + rest == TableTextBits(t) + (TablesTextBits(ts) + rest)
  {
    hide TableTextBits, TableTextOk, Lengths;
    assert ([t] + ts)[1..] == ts;
  }

  // ---------- symbols ----------

  /** The code of the next symbol, of which n bits have been read. */
  lemma {:induction false} CodeRestFound(b: Body, got: seq<bool>, bits: seq<bool>)
      returns (code: seq<bool>, s: nat, rest: seq<bool>)
    requires Sound(SymbolBit(b)) && MinLen(Table(b)) <= |got| == b.zn && b.zvec == Val(got)
    requires forall n {:trigger got[..n]} :: MinLen(Table(b)) <= n < |got| ==>
      LookLens(Table(b), n, Val(got[..n])) == More
    requires Ends(Decide(b), bits)
    ensures |got| <= |code| && code[..|got|] == got && bits == code[|got|..] + rest && CodeFor(Table(b), code, s)
    ensures s < |b.used| + 2
    ensures Run(Decide(b), bits) == Run(GotSymbol(b, s), rest) && Ends(GotSymbol(b, s), rest)
    decreases |bits|
  {
    hide Run, Ends, GotSymbol, LookLens, MinLen, Val, BodyOk;
    FailedNever(BadData, bits);
    FoundInAlphabet(b);
    MoreMeansShort(b);
    match LookLens(Table(b), b.zn, b.zvec)
    case Bad =>
    case Symbol(i) =>
      code, s, rest := got, i, bits;
      assert code[|got|..] == [];
    case More =>
      var c := b.(zn := b.zn + 1);
      var x, r := AskedBit(SymbolBit(c), bits);
      var more := got + [x];
      ValNext(more, |got|);
      assert more[..|got|] == got && more[..|got| + 1] == more;
      var d := c.(zvec := Val(more));
      StillReading(b, more);
      forall n | MinLen(Table(d)) <= n < |more| ensures LookLens(Table(d), n, Val(more[..n])) == More {
        if n < |got| {
          assert more[..n] == got[..n];
        }
      }
      code, s, rest := CodeRestFound(d, more, r);
      assert code[..|got|] == code[..|got| + 1][..|got|];
      assert code[|got|..] == [x] + code[|got| + 1..];
      SymbolForgetsCode(b, d, s);
  }

  lemma OneCodeFound(b: Body, bits: seq<bool>) returns (code: seq<bool>, s: nat, rest: seq<bool>)
    requires Sound(SymbolStart(b)) && Ends(SymbolStart(b), bits)
    ensures CodeFor(Table(b), code, s) && s < |b.used| + 2 && bits == code + rest
    ensures Run(SymbolStart(b), bits) == Run(GotSymbol(b, s), rest) && Ends(GotSymbol(b, s), rest)
  {
    hide Run, Ends, GotSymbol, LookLens, MinLen, Val, BodyOk, Decide, ToBits, CodeFor;
    RequestSize(SymbolStart(b));
    var x, r := Asked(SymbolStart(b), bits);
    var got := ToBits(x, b.zn);
    ValToBits(x, b.zn);
    var c := b.(zvec := x);
    StartedReading(b, x);
    code, s, rest := CodeRestFound(c, got, r);
    SymbolForgetsCode(b, c, s);
    assert code == got + code[|got|..];
    assert got + (code[|got|..] + rest) == code + rest;
  }

  lemma StartedReading(b: Body, x: nat)
    requires Sound(SymbolStart(b))
    ensures Sound(SymbolBit(b.(zvec := x))) && Table(b.(zvec := x)) == Table(b) && b.zn == MinLen(Table(b))
  {
    hide MinLen;
  }

  /** What every stage between two symbols keeps. */
  ghost predicate Between(b: Body, k: nat) {
    BodyOk(b) && (b.groupPos == 0 || b.groupNo >= 0) && b.n <= b.w + 1 && GroupAt(b, k)
  }

  lemma WaitsThere(b: Body, k: nat, bits: seq<bool>)
    requires Between(b, k) && Ends(BeginSymbol(b), bits)
    ensures k < BZ_G_SIZE * |b.selector| && BeginSymbol(b) == SymbolStart(Waiting(b, k))
    ensures Sound(SymbolStart(Waiting(b, k))) && GroupAt(Waiting(b, k), k + 1)
  {
    hide Run, MinLen, TablesOk, AllBelow;
    BeginSymbolSound(b);
    FailedNever(BadData, bits);
    if k % BZ_G_SIZE == 0 {
      assert b.groupNo + 1 == k / BZ_G_SIZE;
    }
    assert k / BZ_G_SIZE < |b.selector|;
    BeginAt(b, k);
  }

  /** What a symbol on the way to the end did. */
  lemma SymbolTaken(c: Body, s: nat, k: nat, bits: seq<bool>) returns (last: bool, d: Body)
    requires InSymbol(c) && c.n <= c.w + 1 && GroupAt(c, k) && s < |c.used| + 2 && Ends(GotSymbol(c, s), bits)
    ensures last ==> s == |c.used| + 1 && c.h.origPtr < |RunFlushed(c)| <= 100000 * c.h.level
    ensures last ==> Run(GotSymbol(c, s), bits) == (Output(c.h, RunFlushed(c)), bits)
    ensures !last ==> s <= |c.used| && GotSymbol(c, s) == BeginSymbol(d) && Between(d, k)
    ensures !last ==> d == if s < 2 then c.(w := c.w + (s + 1) * c.n, n := 2 * c.n) else Moved(c, s)
  {
    hide Run, BeginSymbol, ByteOf, TablesOk, AllBelow, MoveToFront, CountOverflows;
    FailedNever(BadData, bits);
    FailedNever(Undefined, bits);
    TakeSymbolSound(c, s);
    match TakeSymbol(c, s)
    case Wrong(_) => last, d := true, c;
    case Column(col) =>
      last, d := true, c;
      NoMoreAsked(Output(c.h, col), bits);
    case Again(e) => last, d := false, e;
  }

  lemma FirstCodeLong(c: Body, code: seq<bool>, s: nat)
    requires InSymbol(c) && CodeFor(Table(c), code, s)
    ensures |code| > 0
  {
    hide MinLen, LookLens;
    ShortestInTable(c);
  }

  lemma CodedCons(b: Body, k: nat, code: seq<bool>, s: nat, codes: seq<seq<bool>>, syms: seq<nat>, rest: seq<bool>)
    requires BodyOk(b) && k < BZ_G_SIZE * |b.selector| && CodeFor(Table(Waiting(b, k)), code, s)
    requires Coded(b.lens, b.selector, k + 1, codes, syms)
    ensures Coded(b.lens, b.selector, k, [code] + codes, [s] + syms)
    ensures Join([code] + codes) + rest == code + (Join(codes) + rest)
  {
    hide CodeFor, MinLen, Join, TablesOk;
    assert Table(Waiting(b, k)) == b.lens[b.selector[k / 50]];
    var cs, ss := [code] + codes, [s] + syms;
    forall i | 0 <= i < |ss| ensures CodeFor(b.lens[b.selector[(k + i) / 50]], cs[i], ss[i]) {
      if i > 0 {
        assert cs[i] == codes[i - 1] && ss[i] == syms[i - 1] && k + i == k + 1 + (i - 1);
      }
    }
    JoinCons(code, codes, rest);
  }

  lemma JoinCons(code: seq<bool>, codes: seq<seq<bool>>, rest: seq<bool>)
    ensures Join([code] + codes) + rest == code + (Join(codes) + rest)
  {
    assert ([code] + codes)[1..] == codes;
  }

  lemma NoneCoded(b: Body, k: nat, rest: seq<bool>)
    requires BodyOk(b) && k <= BZ_G_SIZE * |b.selector|
    ensures Coded(b.lens, b.selector, k, [], []) && Join([]) + rest == rest
  {
  }

  lemma LastColumnIs(b: Body, k: nat, s: nat)
    requires BodyOk(b) && b.n <= b.w + 1 && s == |b.used| + 1
    ensures Sequence(b, [s]) && FinalColumn(b, [s], 0) == RunFlushed(Waiting(b, k))
  {
    hide ByteOf, MinLen, TablesOk, AllBelow;
    assert [s][0..0] == [];
    assert Decode(b.list, b.w, b.n, []) == Repeat(b.list[0], b.w);
    MapRun(b.used, b.list[0], b.w);
  }

  lemma ColumnGrows(b: Body, k: nat, d: Body, s: nat, syms: seq<nat>)
    requires BodyOk(b) && b.n <= b.w + 1 && s <= |b.used| && Sequence(d, syms)
    requires var c := Waiting(b, k);
             d == if s < 2 then c.(w := c.w + (s + 1) * c.n, n := 2 * c.n) else Moved(c, s)
    ensures Sequence(b, [s] + syms) && FinalColumn(b, [s] + syms, 0) == FinalColumn(d, syms, 0)
  {
    hide FinalColumn, MinLen, TablesOk, AllBelow, MoveToFront, RunFlushed, ByteOf;
    var c, all := Waiting(b, k), [s] + syms;
    assert Sequence(b, all);
    WaitingColumn(b, k, all);
    if s < 2 {
      RunColumn(c, all, 0);
    } else {
      MoveColumn(c, all, 0);
    }
    ColumnTail(d, all);
    assert all[1..] == syms;
  }

  /** All the symbols of a block, from number k on. */
  lemma {:induction false} CodesFound(b: Body, k: nat, bits: seq<bool>)
      returns (codes: seq<seq<bool>>, syms: seq<nat>, rest: seq<bool>)
    requires Between(b, k) && Ends(BeginSymbol(b), bits)
    ensures Sequence(b, syms) && Coded(b.lens, b.selector, k, codes, syms) && bits == Join(codes) + rest
    ensures b.h.origPtr < |FinalColumn(b, syms, 0)| <= 100000 * b.h.level
    ensures Run(BeginSymbol(b), bits) == (Output(b.h, FinalColumn(b, syms, 0)), rest)
    decreases |bits|
  {
    hide Run, Ends, GotSymbol, BeginSymbol, FinalColumn, CodeFor, MinLen, Coded, Sequence, Join, RunFlushed,
         MoveToFront, GroupAt, TablesOk, AllBelow;
    WaitsThere(b, k, bits);
    var c := Waiting(b, k);
    var code, s, r := OneCodeFound(c, bits);
    FirstCodeLong(c, code, s);
    var last, d := SymbolTaken(c, s, k + 1, r);
    if last {
      codes, syms, rest := [], [], r;
      NoneCoded(b, k + 1, rest);
      LastColumnIs(b, k, s);
      assert [s] + [] == [s];
    } else {
      codes, syms, rest := CodesFound(d, k + 1, r);
      ColumnGrows(b, k, d, s, syms);
    }
    CodedCons(b, k, code, s, codes, syms, rest);
    codes, syms := [code] + codes, [s] + syms;
  }

  lemma StillReading(b: Body, more: seq<bool>)
    requires Sound(SymbolBit(b)) && b.zn <= LONGEST
    ensures var d := b.(zn := b.zn + 1, zvec := Val(more)); Sound(SymbolBit(d)) && Table(d) == Table(b)
  {
    hide Val, MinLen;
  }
}
