/** Writing a block: sendMTFValues after the tables are chosen, and
    BZ2_compressBlock around it. */
module BlockWriter {
  import opened Words
  import opened Cyclic
  import opened Mtf
  import opened MtfEncoder
  import opened HuffmanForest
  import opened HuffmanCodes
  import opened DecoderMachine
  import opened BitIO
  import opened BlockFormat
  import opened HuffmanLengths
  import opened Counting
  import opened TableChoice

  lemma SmallFields()
    ensures ToBits(1, 1) == [true] && ToBits(0, 1) == [false]
    ensures ToBits(2, 2) == [true, false] && ToBits(3, 2) == [true, true]
    ensures Pow2(1) == 2 && Pow2(2) == 4 && Pow2(3) == 8 && Pow2(5) == 32 && Pow2(8) == 256 && Pow2(15) == 0x8000
        && Pow2(24) == 0x100_0000
  {
    Pow2Values();
    assert ToBits(0, 0) == [];
    assert ToBits(1, 1) == ToBits(0, 0) + [true];
    assert ToBits(0, 1) == ToBits(0, 0) + [false];
    assert ToBits(2, 2) == ToBits(1, 1) + [false];
    assert ToBits(3, 2) == ToBits(1, 1) + [true];
  }

  method PutBit(w: BitWriter, x: bool)
    requires w.Valid()
    modifies w
    ensures w.Valid() && w.sent == old(w.sent) && old(w.zbits) <= w.zbits && w.bits == old(w.bits) + [x]
  {
    hide BitWriter.Valid;
    SmallFields();
    w.BsW(1, if x then 1 else 0);
  }

  method PutUChar(w: BitWriter, c: nat)
    requires w.Valid() && c < 256
    modifies w
    ensures w.Valid() && w.sent == old(w.sent) && old(w.zbits) <= w.zbits && w.bits == old(w.bits) + ToBits(c, 8)
  {
    hide BitWriter.Valid;
    SmallFields();
    w.BsW(8, c);
  }

  method PutUChars(w: BitWriter, xs: seq<nat>)
    requires w.Valid() && forall i :: 0 <= i < |xs| ==> xs[i] < 256
    modifies w
    ensures w.Valid() && w.sent == old(w.sent) && old(w.zbits) <= w.zbits && w.bits == old(w.bits) + ByteFields(xs)
  {
    hide BitWriter.Valid, ToBits;
    assert xs[0..] == xs;
    for i := 0 to |xs|
      invariant w.Valid() && w.sent == old(w.sent) && old(w.zbits) <= w.zbits
      invariant w.bits + ByteFields(xs[i..]) == old(w.bits) + ByteFields(xs)
    {
      ghost var bits := w.bits;
      assert xs[i..][1..] == xs[i + 1..];
      PutUChar(w, xs[i]);
      assert bits + (ToBits(xs[i], 8) + ByteFields(xs[i + 1..])) == w.bits + ByteFields(xs[i + 1..]);
    }
    assert w.bits + [] == w.bits;
  }

  method PutUInt32(w: BitWriter, u: nat)
    requires w.Valid() && u < WORD
    modifies w
    ensures w.Valid() && w.sent == old(w.sent) && old(w.zbits) <= w.zbits
    ensures w.bits == old(w.bits) + ByteFields(Word32Bytes(u))
  {
    hide BitWriter.Valid;
    PutUChars(w, [u / 0x100_0000 % 256, u / 0x1_0000 % 256, u / 256 % 256, u % 256]);
  }

  method PutBits(w: BitWriter, xs: seq<bool>)
    requires w.Valid()
    modifies w
    ensures w.Valid() && w.sent == old(w.sent) && old(w.zbits) <= w.zbits && w.bits == old(w.bits) + xs
  {
    hide BitWriter.Valid;
    for i := 0 to |xs|
      invariant w.Valid() && w.sent == old(w.sent) && old(w.zbits) <= w.zbits && w.bits == old(w.bits) + xs[..i]
    {
      PutBit(w, xs[i]);
      assert xs[..i] + [xs[i]] == xs[..i + 1];
    }
    assert xs[..|xs|] == xs;
  }

  // ---------- the mapping table ----------

  method RowsInUse(inUse: seq<bool>) returns (inUse16: seq<bool>)
    requires |inUse| == 256
    ensures inUse16 == InUse16(inUse)
  {
    hide Row16;
    inUse16 := [];
    for i := 0 to 16
      invariant |inUse16| == i && forall x :: 0 <= x < i ==> inUse16[x] == Row16(inUse, x)
    {
      var used := false;
      for j := 0 to 16
        invariant used == (true in inUse[16 * i..16 * i + j])
      {
        assert inUse[16 * i..16 * i + (j + 1)] == inUse[16 * i..16 * i + j] + [inUse[16 * i + j]];
        if inUse[i * 16 + j] {
          used := true;
        }
      }
      RowIs(inUse, i);
      inUse16 := inUse16 + [used];
    }
  }

  method SendMapping(w: BitWriter, inUse: seq<bool>)
    requires w.Valid() && |inUse| == 256
    modifies w
    ensures w.Valid() && w.sent == old(w.sent) && old(w.zbits) <= w.zbits && w.bits == old(w.bits) + MappingBits(inUse)
  {
    hide BitWriter.Valid, Row16, RowBits;
    var inUse16 := RowsInUse(inUse);
    PutBits(w, inUse16);
    ghost var start := w.bits;
    for i := 0 to 16
      invariant w.Valid() && w.sent == old(w.sent) && old(w.zbits) <= w.zbits
      invariant w.bits + RowBits(inUse, i) == start + RowBits(inUse, 0)
    {
      ghost var bits := w.bits;
      RowBitsNext(inUse, i);
      if inUse16[i] {
        PutBits(w, inUse[16 * i..16 * i + 16]);
        assert bits + (inUse[16 * i..16 * i + 16] + RowBits(inUse, i + 1)) == w.bits + RowBits(inUse, i + 1);
      }
    }
    RowBitsEnd(inUse);
    assert w.bits + [] == w.bits;
    assert old(w.bits) + InUse16(inUse) + RowBits(inUse, 0) == old(w.bits) + MappingBits(inUse);
  }

  lemma RowBitsNext(inUse: seq<bool>, i: nat)
    requires |inUse| == 256 && i < 16
    ensures RowBits(inUse, i) ==
        if Row16(inUse, i) then inUse[16 * i..16 * i + 16] + RowBits(inUse, i + 1) else RowBits(inUse, i + 1)
  {
    hide Row16;
    assert [] + RowBits(inUse, i + 1) == RowBits(inUse, i + 1);
  }

  lemma RowBitsEnd(inUse: seq<bool>)
    requires |inUse| == 256
    ensures RowBits(inUse, 16) == []
  {
  }

  lemma RowIs(inUse: seq<bool>, i: nat)
    requires |inUse| == 256 && i < 16
    ensures Row16(inUse, i) == (true in inUse[16 * i..16 * i + 16])
  {
  }

  // ---------- the selectors ----------

  /** The part of the list before the entry looked for has moved up by one. */
  ghost predicate MovingUp(list: seq<nat>, pos: seq<nat>, j: nat, tmp: nat) {
    && |pos| == |list| && j < |list| && tmp == list[j]
    && (forall x :: 0 < x <= j ==> pos[x] == list[x - 1])
    && (forall x :: j < x < |list| ==> pos[x] == list[x])
  }

  /** Moves ll to the front of the list in place and tells where it was. */
  method MoveSelector(pos: array<nat>, ll: nat) returns (j: nat)
    requires pos.Length > 0 && ll in pos[..] && Distinct(pos[..])
    modifies pos
    ensures j == IndexOf(old(pos[..]), ll) && j < pos.Length && pos[..] == MoveToFront(old(pos[..]), j)
  {
    ghost var list := pos[..];
    var tmp := pos[0];
    j := 0;
    while ll != tmp
      invariant MovingUp(list, pos[..], j, tmp) && ll !in list[..j]
      decreases |list| - j
    {
      NotLast(list, ll, j);
      j := j + 1;
      var tmp2 := tmp;
      tmp := pos[j];
      assert list[..j] == list[..j - 1] + [list[j - 1]];
      pos[j] := tmp2;
    }
    pos[0] := tmp;
    IndexIs(list, ll, j);
    assert pos[..] == MoveToFront(list, j);
  }

  lemma IndexIs(list: seq<nat>, c: nat, j: nat)
    requires j < |list| && list[j] == c && c !in list[..j]
    ensures c in list && IndexOf(list, c) == j
  {
    var k := IndexOf(list, c);
    forall x | 0 <= x < j ensures list[x] != c {
      assert list[..j][x] == list[x];
    }
    forall x | 0 <= x < k ensures list[x] != c {
      assert list[..k][x] == list[x];
    }
  }

  lemma NotLast(list: seq<nat>, c: nat, j: nat)
    requires c in list && j < |list| && list[j] != c && c !in list[..j]
    ensures j + 1 < |list|
  {
    forall x | 0 <= x < j ensures list[x] != c {
      assert list[..j][x] == list[x];
    }
  }

  lemma DistinctMoved(list: seq<nat>, j: nat)
    requires j < |list| && Distinct(list)
    ensures Distinct(MoveToFront(list, j))
  {
  }

  method SelectorsMtf(selector: seq<nat>, nGroups: nat) returns (selectorMtf: seq<nat>)
    requires 0 < nGroups && Over(selector, Identity(nGroups))
    ensures selectorMtf == SelectorMtf(Identity(nGroups), selector)
  {
    hide MoveToFront, IndexOf, Distinct, Over;
    var pos := new nat[nGroups](i => i);
    selectorMtf := [];
    assert pos[..] == Identity(nGroups) && selector[0..] == selector;
    IdentityDistinct(nGroups);
    for i := 0 to |selector|
      invariant Distinct(pos[..]) && Over(selector[i..], pos[..])
      invariant selectorMtf + SelectorMtf(pos[..], selector[i..]) == SelectorMtf(Identity(nGroups), selector)
    {
      ghost var list, rest := pos[..], selector[i..];
      SelectorMtfNext(list, rest);
      var j := MoveSelector(pos, selector[i]);
      DistinctMoved(list, j);
      assert rest[1..] == selector[i + 1..];
      assert selectorMtf + ([j] + SelectorMtf(pos[..], selector[i + 1..])) ==
          selectorMtf + [j] + SelectorMtf(pos[..], selector[i + 1..]);
      selectorMtf := selectorMtf + [j];
    }
    assert selectorMtf + [] == selectorMtf;
  }

  lemma IdentityDistinct(n: nat)
    ensures Distinct(Identity(n))
  {
  }

  lemma SelectorMtfNext(pos: seq<nat>, selector: seq<nat>)
    requires Over(selector, pos) && |selector| > 0
    ensures selector[0] in pos
    ensures var j := IndexOf(pos, selector[0]);
            && Over(selector[1..], MoveToFront(pos, j))
            && SelectorMtf(pos, selector) == [j] + SelectorMtf(MoveToFront(pos, j), selector[1..])
  {
    MoveToFrontMembers(pos, IndexOf(pos, selector[0]));
  }

  method SendSelectors(w: BitWriter, nGroups: nat, selectorMtf: seq<nat>)
    requires w.Valid() && nGroups <= 6 && |selectorMtf| < 0x8000
    modifies w
    ensures w.Valid() && w.sent == old(w.sent) && old(w.zbits) <= w.zbits
    ensures w.bits == old(w.bits) + ToBits(nGroups, 3) + ToBits(|selectorMtf|, 15) + UnaryAll(selectorMtf)
  {
    hide BitWriter.Valid, ToBits, UnaryAll;
    SmallFields();
    w.BsW(3, nGroups);
    w.BsW(15, |selectorMtf|);
    SendUnaries(w, selectorMtf);
  }

  method SendUnaries(w: BitWriter, xs: seq<nat>)
    requires w.Valid()
    modifies w
    ensures w.Valid() && w.sent == old(w.sent) && old(w.zbits) <= w.zbits && w.bits == old(w.bits) + UnaryAll(xs)
  {
    hide BitWriter.Valid, Unary;
    assert xs[0..] == xs;
    for i := 0 to |xs|
      invariant w.Valid() && w.sent == old(w.sent) && old(w.zbits) <= w.zbits
      invariant w.bits + UnaryAll(xs[i..]) == old(w.bits) + UnaryAll(xs)
    {
      ghost var bits := w.bits;
      SendUnary(w, xs[i]);
      assert xs[i..][1..] == xs[i + 1..];
      assert bits + (Unary(xs[i]) + UnaryAll(xs[i + 1..])) == w.bits + UnaryAll(xs[i + 1..]);
    }
    assert w.bits + [] == w.bits;
  }

  method SendUnary(w: BitWriter, n: nat)
    requires w.Valid()
    modifies w
    ensures w.Valid() && w.sent == old(w.sent) && old(w.zbits) <= w.zbits && w.bits == old(w.bits) + Unary(n)
  {
    hide BitWriter.Valid;
    for j := 0 to n
      invariant w.Valid() && w.sent == old(w.sent) && old(w.zbits) <= w.zbits
      invariant w.bits + Unary(n - j) == old(w.bits) + Unary(n)
    {
      ghost var bits := w.bits;
      PutBit(w, true);
      assert bits + ([true] + Unary(n - j - 1)) == w.bits + Unary(n - (j + 1));
    }
    PutBit(w, false);
  }

  // ---------- the coding tables ----------

  lemma DeltaSteps(curr: nat, target: nat)
    ensures curr < target ==> Delta(curr, target) == [true, false] + Delta(curr + 1, target)
    ensures curr > target ==> Delta(curr, target) == [true, true] + Delta(curr - 1, target)
    ensures curr == target ==> Delta(curr, target) == [false]
  {
  }

  method SendDelta(w: BitWriter, curr0: nat, target: nat) returns (curr: nat)
    requires w.Valid()
    modifies w
    ensures w.Valid() && w.sent == old(w.sent) && old(w.zbits) <= w.zbits
    ensures w.bits == old(w.bits) + Delta(curr0, target) && curr == target
  {
    hide BitWriter.Valid, Delta;
    SmallFields();
    curr := curr0;
    while curr < target
      invariant w.Valid() && w.sent == old(w.sent) && old(w.zbits) <= w.zbits
      invariant w.bits + Delta(curr, target) == old(w.bits) + Delta(curr0, target)
    {
      ghost var bits := w.bits;
      DeltaSteps(curr, target);
      w.BsW(2, 2);
      assert bits + ([true, false] + Delta(curr + 1, target)) == w.bits + Delta(curr + 1, target);
      curr := curr + 1;
    }
    while curr > target
      invariant w.Valid() && w.sent == old(w.sent) && old(w.zbits) <= w.zbits && curr >= target
      invariant w.bits + Delta(curr, target) == old(w.bits) + Delta(curr0, target)
    {
      ghost var bits := w.bits;
      DeltaSteps(curr, target);
      w.BsW(2, 3);
      assert bits + ([true, true] + Delta(curr - 1, target)) == w.bits + Delta(curr - 1, target);
      curr := curr - 1;
    }
    DeltaSteps(curr, target);
    w.BsW(1, 0);
  }

  method SendTable(w: BitWriter, row: seq<nat>)
    requires w.Valid() && |row| > 0 && row[0] < 32
    modifies w
    ensures w.Valid() && w.sent == old(w.sent) && old(w.zbits) <= w.zbits && w.bits == old(w.bits) + TableBits(row)
  {
    hide BitWriter.Valid, ToBits, Delta;
    SmallFields();
    var curr := row[0];
    w.BsW(5, curr);
    assert row[0..] == row;
    for i := 0 to |row|
      invariant w.Valid() && w.sent == old(w.sent) && old(w.zbits) <= w.zbits
      invariant w.bits + Deltas(curr, row[i..]) == old(w.bits) + TableBits(row)
    {
      ghost var bits, curr0 := w.bits, curr;
      assert row[i..][1..] == row[i + 1..];
      assert Deltas(curr, row[i..]) == Delta(curr, row[i]) + Deltas(row[i], row[i + 1..]);
      curr := SendDelta(w, curr, row[i]);
      assert bits + (Delta(curr0, row[i]) + Deltas(row[i], row[i + 1..])) == w.bits + Deltas(row[i], row[i + 1..]);
    }
    assert w.bits + [] == w.bits;
  }

  method SendTables(w: BitWriter, lens: seq<seq<nat>>)
    requires w.Valid() && forall t :: 0 <= t < |lens| ==> |lens[t]| > 0 && lens[t][0] < 32
    modifies w
    ensures w.Valid() && w.sent == old(w.sent) && old(w.zbits) <= w.zbits && w.bits == old(w.bits) + TablesBits(lens)
  {
    hide BitWriter.Valid, TableBits;
    assert lens[0..] == lens;
    for t := 0 to |lens|
      invariant w.Valid() && w.sent == old(w.sent) && old(w.zbits) <= w.zbits
      invariant w.bits + TablesBits(lens[t..]) == old(w.bits) + TablesBits(lens)
    {
      ghost var bits := w.bits;
      SendTable(w, lens[t]);
      assert lens[t..][1..] == lens[t + 1..];
      assert bits + (TableBits(lens[t]) + TablesBits(lens[t + 1..])) == w.bits + TablesBits(lens[t + 1..]);
    }
    assert w.bits + [] == w.bits;
  }

  // ---------- the symbols ----------

  /** Codes for every table. */
  ghost predicate CodesFor(codes: seq<seq<nat>>, lens: seq<seq<nat>>) {
    && |codes| == |lens|
    && forall t {:trigger codes[t]} :: 0 <= t < |lens| ==>
         |codes[t]| == |lens[t]| && forall i :: 0 <= i < |lens[t]| ==> codes[t][i] == Code(lens[t], i)
  }

  method MakeCodes(row: seq<nat>) returns (codes: seq<nat>)
    requires ValidLengths(row) && forall i :: 0 <= i < |row| ==> row[i] <= 17
    ensures |codes| == |row| && forall i :: 0 <= i < |row| ==> codes[i] == Code(row, i)
  {
    hide Code;
    var minLen, maxLen := 32, 0;
    for i := 0 to |row|
      invariant if i == 0 then minLen == 32 && maxLen == 0 else 1 <= minLen <= maxLen <= 17
      invariant forall x :: 0 <= x < i ==> minLen <= row[x] <= maxLen
    {
      if row[i] > maxLen { maxLen := row[i]; }
      if row[i] < minLen { minLen := row[i]; }
    }
    var length, code := new nat[|row|](i requires 0 <= i < |row| => row[i]), new nat[|row|];
    assert length[..|row|] == row;
    AssignCodes(code, length, minLen, maxLen, |row|);
    assert length[..|row|] == row;
    codes := code[..];
  }

  method MakeAllCodes(lens: seq<seq<nat>>) returns (codes: seq<seq<nat>>)
    requires forall t ::
        0 <= t < |lens| ==> ValidLengths(lens[t]) && forall i :: 0 <= i < |lens[t]| ==> lens[t][i] <= 17
    ensures CodesFor(codes, lens)
  {
    hide Code;
    codes := [];
    for t := 0 to |lens|
      invariant CodesFor(codes, lens[..t])
    {
      var row := MakeCodes(lens[t]);
      codes := codes + [row];
    }
    assert lens[..|lens|] == lens;
  }

  /** One symbol in the code of its group's table. */
  method SendSymbol(w: BitWriter, row: seq<nat>, codes: seq<nat>, sym: nat)
    requires w.Valid() && Fits(row) && sym < |row| == |codes| && row[sym] <= 17 && codes[sym] == Code(row, sym)
    modifies w
    ensures w.Valid() && w.sent == old(w.sent) && old(w.zbits) <= w.zbits && w.bits == old(w.bits) + CodeBits(row, sym)
  {
    hide BitWriter.Valid, Fits, Code, ToBits, Pow2;
    CodeInRange(row, sym);
    w.BsW(row[sym], codes[sym]);
  }

  method SendSymbols(w: BitWriter, lens: seq<seq<nat>>, codes: seq<seq<nat>>, selector: seq<nat>, syms: seq<nat>)
    requires w.Valid() && CodesKnown(lens, selector, syms) && CodesFor(codes, lens)
    requires |selector| == (|syms| + BZ_G_SIZE - 1) / BZ_G_SIZE
    requires forall t :: 0 <= t < |lens| ==> Fits(lens[t]) && forall i :: 0 <= i < |lens[t]| ==> lens[t][i] <= 17
    modifies w
    ensures w.Valid() && w.sent == old(w.sent) && old(w.zbits) <= w.zbits
    ensures w.bits == old(w.bits) + SymbolBits(lens, selector, syms, 0)
  {
    hide BitWriter.Valid, Fits, CodeBits, Code;
    var selCtr, gs := 0, 0;
    while gs < |syms|
      invariant 0 <= selCtr <= |selector| && gs == (if gs < |syms| then BZ_G_SIZE * selCtr else |syms|)
      invariant gs == |syms| ==> selCtr == |selector|
      invariant w.Valid() && w.sent == old(w.sent) && old(w.zbits) <= w.zbits
      invariant w.bits + SymbolBits(lens, selector, syms, gs) == old(w.bits) + SymbolBits(lens, selector, syms, 0)
    {
      var ge := if gs + BZ_G_SIZE - 1 >= |syms| then |syms| - 1 else gs + BZ_G_SIZE - 1;
      var t := selector[selCtr];
      for i := gs to ge + 1
        invariant w.Valid() && w.sent == old(w.sent) && old(w.zbits) <= w.zbits
        invariant w.bits + SymbolBits(lens, selector, syms, i) == old(w.bits) + SymbolBits(lens, selector, syms, 0)
      {
        ghost var bits := w.bits;
        assert i / BZ_G_SIZE == selCtr;
        SendSymbol(w, lens[t], codes[t], syms[i]);
        assert bits + (CodeBits(lens[t], syms[i]) + SymbolBits(lens, selector, syms, i + 1)) ==
            w.bits + SymbolBits(lens, selector, syms, i + 1);
      }
      gs := ge + 1;
      selCtr := selCtr + 1;
    }
    assert selCtr == |selector|;
    assert w.bits + [] == w.bits;
  }

  // ---------- sendMTFValues ----------

  /** A block that has been sorted but has no tables yet. */
  ghost predicate Sorted(e: EncBlock, level: nat) {
    && 1 <= level <= 9 && 0 < |e.bytes| <= BLOCK_UNIT * level && e.crc < WORD
    && IsBlockSort(e.bytes, e.ptr) && e.origPtr < |e.bytes| && e.ptr[e.origPtr] == 0
  }

  /** The lengths of the codes that the encoder makes. */
  ghost predicate ShortCodes(lens: seq<seq<nat>>) {
    forall t {:trigger lens[t]} ::
        0 <= t < |lens| ==> forall v :: 0 <= v < |lens[t]| ==> 1 <= lens[t][v] <= MAX_CODE_LEN
  }

  lemma TablesMakeBlock(e: EncBlock, level: nat, lens: seq<seq<nat>>, selector: seq<nat>, nGroups: nat)
    requires Sorted(e, level) && 2 <= nGroups <= 6
    requires Fitted(lens, nGroups, |BytesUsed(e.bytes)| + 2) && Selectors(selector, nGroups, |BlockSymbols(e)|)
    ensures ValidBlock(e.(lens := lens, selector := selector), level) && ShortCodes(lens)
    ensures BlockSymbols(e.(lens := lens, selector := selector)) == BlockSymbols(e)
  {
    hide IsBlockSort, Fits, MtfSymbols;
    SortedIsPermutation(e, level);
  }

  lemma SortedIsPermutation(e: EncBlock, level: nat)
    requires Sorted(e, level)
    ensures IsPermutation(e.ptr, |e.bytes|)
  {
  }

  lemma SymbolsOfBlock(e: EncBlock, level: nat)
    requires Sorted(e, level)
    ensures IsPermutation(e.ptr, |e.bytes|) && |e.bytes| > 0 && 0 < |BytesUsed(e.bytes)| <= 256
    ensures Alphabet(BlockSymbols(e), |BytesUsed(e.bytes)| + 2) && 0 < |BlockSymbols(e)| <= MAX_TOTAL_FREQ
  {
    hide IsBlockSort, MtfSymbols;
    SortedIsPermutation(e, level);
    MappedBelow(e.bytes, e.ptr);
    MtfSymbolsShape(|BytesUsed(e.bytes)|, MappedBlock(e.bytes, e.ptr));
    assert |BytesUsed(e.bytes)| <= 256;
  }

  /** Main result: the block gets valid tables and its body is written. */
  method SendMtfValues(w: BitWriter, syms: seq<nat>, inUse: seq<bool>, mtfFreq: seq<nat>, ghost e0: EncBlock,
      ghost level: nat)
      returns (ghost e: EncBlock)
    requires w.Valid() && Sorted(e0, level) && IsPermutation(e0.ptr, |e0.bytes|)
    requires syms == BlockSymbols(e0) && inUse == InUse(e0.bytes)
    requires |mtfFreq| == |BytesUsed(e0.bytes)| + 2 && Sum(mtfFreq) == |syms|
    requires forall v :: 0 <= v < |mtfFreq| ==> mtfFreq[v] == CountEq(syms, v)
    modifies w
    ensures IsPermutation(e.ptr, |e.bytes|) && |e.bytes| > 0
    ensures Chosen(BlockSymbols(e), |BytesUsed(e.bytes)| + 2, e.lens, e.selector)
    ensures ValidBlock(e, level) && ShortCodes(e.lens) && e == e0.(lens := e.lens, selector := e.selector)
    ensures w.Valid() && w.sent == old(w.sent) && old(w.zbits) <= w.zbits && w.bits == old(w.bits) + BodyBits(e, level)
  {
    hide BitWriter.Valid, Sorted, ValidBlock, BlockSymbols, Sum, Fits, MappingBits, UnaryAll, SelectorMtf, TablesBits,
        SymbolBits, ToBits, CodesFor, Code, IsBlockSort, CountEq, Chosen;
    SymbolsOfBlock(e0, level);
    var lens, selector := ChooseTables(syms, mtfFreq);
    TablesMakeBlock(e0, level, lens, selector, GroupCount(|syms|));
    e := e0.(lens := lens, selector := selector);
    ValidCodesKnown(e, level);
    SelectorsFit(e, level);
    var selectorMtf := SelectorsMtf(selector, |lens|);
    var codes := MakeAllCodes(lens);
    ghost var start := w.bits;
    SendMapping(w, inUse);
    SendSelectors(w, |lens|, selectorMtf);
    SendTables(w, lens);
    SendSymbols(w, lens, codes, selector, syms);
    BodyIs(e, level, start, w.bits);
  }

  lemma SelectorsFit(e: EncBlock, level: nat)
    requires ValidBlock(e, level)
    ensures Over(e.selector, Identity(|e.lens|)) && |e.selector| < 0x8000 && 2 <= |e.lens| <= 6
    ensures |e.selector| == (|BlockSymbols(e)| + BZ_G_SIZE - 1) / BZ_G_SIZE
  {
    hide MtfSymbols;
    SelectorsOver(e);
    MappedBelow(e.bytes, e.ptr);
    MtfSymbolsShape(|BytesUsed(e.bytes)|, MappedBlock(e.bytes, e.ptr));
  }

  lemma BodyIs(e: EncBlock, level: nat, start: seq<bool>, end: seq<bool>)
    requires ValidBlock(e, level) && CodesKnown(e.lens, e.selector, BlockSymbols(e))
        && Over(e.selector, Identity(|e.lens|))
    requires end == start + MappingBits(InUse(e.bytes)) + ToBits(|e.lens|, 3) + ToBits(|e.selector|, 15)
                    + UnaryAll(SelectorMtf(Identity(|e.lens|), e.selector)) + TablesBits(e.lens)
                    + SymbolBits(e.lens, e.selector, BlockSymbols(e), 0)
    ensures end == start + BodyBits(e, level)
  {
    hide MappingBits, UnaryAll, SelectorMtf, TablesBits, SymbolBits, BlockSymbols, ToBits, Fits;
  }
}
